/** Property values and Python dictionaries.

    A Neo4j node or relationship property set, a payload's `to_dict()` and every
    dictionary the repository builds are modelled as an association list
    `Dict = seq<(string, Value)>`.  `Get` reads the LAST pair with a key, so a
    literal list keeps the "later key wins" meaning of a dict display; `Put`
    is Python's `d[k] = v` (an existing key keeps its position, a new key is
    appended) and `Update` is `d.update(other)` and the `{**a, **b}` spread. */
module Values {
  import opened Wrappers

  datatype Value =
    | VNone                           // Python None / a missing Neo4j property
    | VBool(b: bool)
    | VInt(i: int)
    | VStr(s: string)
    | VTime(t: int)                   // a neo4j.time.DateTime
    | VDict(d: seq<(string, Value)>)  // a nested dict

  type Dict = seq<(string, Value)>

  function Keys(d: Dict): set<string> {
    set i | 0 <= i < |d| :: d[i].0
  }

  /** `d.get(k)`: the value of the last pair whose key is k. */
  function Get(d: Dict, k: string): (r: Option<Value>)
    ensures r.Some? <==> k in Keys(d)
  {
    if d == [] then None
    else
      var last := |d| - 1;
      assert Keys(d) == Keys(d[..last]) + {d[last].0} by {
        assert forall i | 0 <= i < last :: d[..last][i] == d[i];
      }
      if d[last].0 == k then Some(d[last].1) else Get(d[..last], k)
  }

  /** `d[k] = v` */
  function Put(d: Dict, k: string, v: Value): Dict {
    if k in Keys(d) then Assign(d, k, v) else d + [(k, v)]
  }

  /** Every pair with key k gets value v; positions do not move. */
  function Assign(d: Dict, k: string, v: Value): (r: Dict)
    ensures |r| == |d|
    ensures forall i | 0 <= i < |d| :: r[i] == if d[i].0 == k then (k, v) else d[i]
  {
    seq(|d|, i requires 0 <= i < |d| => if d[i].0 == k then (k, v) else d[i])
  }

  /** `d.update(other)`: Put each pair of other in order. */
  function Update(d: Dict, other: Dict): Dict
    decreases |other|
  {
    if other == [] then d else Update(Put(d, other[0].0, other[0].1), other[1..])
  }

  /** No two pairs share a key, as in every real Python dict. */
  ghost predicate UniqueKeys(d: Dict) {
    forall i, j | 0 <= i < j < |d| :: d[i].0 != d[j].0
  }

  /** No value is itself a dict. */
  predicate IsFlat(d: Dict) {
    forall i | 0 <= i < |d| :: !d[i].1.VDict?
  }

  lemma KeysAppend(a: Dict, b: Dict)
    ensures Keys(a + b) == Keys(a) + Keys(b)
  {
    var ab := a + b;
    forall k | k in Keys(a + b) ensures k in Keys(a) + Keys(b) {
      var i :| 0 <= i < |ab| && ab[i].0 == k;
      if i >= |a| { assert b[i - |a|].0 == k; }
    }
    forall k | k in Keys(a) + Keys(b) ensures k in Keys(a + b) {
      if k in Keys(a) {
        var i :| 0 <= i < |a| && a[i].0 == k;
        assert ab[i].0 == k;
      } else {
        var i :| 0 <= i < |b| && b[i].0 == k;
        assert ab[|a| + i].0 == k;
      }
    }
  }

  /** Looking up in a concatenation: the right part wins. */
  lemma {:induction false} GetAppend(a: Dict, b: Dict, k: string)
    ensures Get(a + b, k) == if k in Keys(b) then Get(b, k) else Get(a, k)
    decreases |b|
  {
    if b == [] {
      assert a + b == a;
    } else {
      var last := |b| - 1;
      var ab := a + b;
      assert ab != [] && ab[|ab| - 1] == b[last];
      assert ab[..|ab| - 1] == a + b[..last];
      assert Keys(b) == Keys(b[..last]) + {b[last].0} by { KeysAppend(b[..last], [b[last]]); assert b == b[..last] + [b[last]]; }
      if b[last].0 != k {
        GetAppend(a, b[..last], k);
        assert Get(ab, k) == Get(a + b[..last], k);
        assert Get(b, k) == Get(b[..last], k);
      } else {
        assert k in Keys(b);
      }
    }
  }

  lemma KeysAssign(d: Dict, k: string, v: Value)
    ensures Keys(Assign(d, k, v)) == Keys(d)
  {
    var r := Assign(d, k, v);
    forall j | j in Keys(r) ensures j in Keys(d) {
      var i :| 0 <= i < |r| && r[i].0 == j;
    }
    forall j | j in Keys(d) ensures j in Keys(r) {
      var i :| 0 <= i < |d| && d[i].0 == j;
      assert r[i].0 == j;
    }
  }

  lemma {:induction false} GetAssign(d: Dict, k: string, v: Value, j: string)
    ensures Get(Assign(d, k, v), j) == if j == k && k in Keys(d) then Some(v) else Get(d, j)
    decreases |d|
  {
    if d != [] {
      var last := |d| - 1;
      var r := Assign(d, k, v);
      assert r[..last] == Assign(d[..last], k, v);
      KeysAssign(d[..last], k, v);
      assert Keys(d) == Keys(d[..last]) + {d[last].0} by { KeysAppend(d[..last], [d[last]]); assert d == d[..last] + [d[last]]; }
      GetAssign(d[..last], k, v, j);
    }
  }

  /** Python: after `d[k] = v`, `d[k]` is v and every other key is as before. */
  lemma GetPut(d: Dict, k: string, v: Value, j: string)
    ensures Get(Put(d, k, v), j) == if j == k then Some(v) else Get(d, j)
    ensures Keys(Put(d, k, v)) == Keys(d) + {k}
  {
    if k in Keys(d) {
      GetAssign(d, k, v, j);
      KeysAssign(d, k, v);
    } else {
      GetAppend(d, [(k, v)], j);
      KeysAppend(d, [(k, v)]);
      assert Keys([(k, v)]) == {k};
    }
  }

  /** Python: after `d.update(other)`, keys of other take other's value. */
  lemma {:induction false} GetUpdate(d: Dict, other: Dict, j: string)
    ensures Get(Update(d, other), j) == if j in Keys(other) then Get(other, j) else Get(d, j)
    ensures Keys(Update(d, other)) == Keys(d) + Keys(other)
    decreases |other|
  {
    if other != [] {
      var x := other[0];
      assert other == [x] + other[1..];
      GetPut(d, x.0, x.1, j);
      GetUpdate(Put(d, x.0, x.1), other[1..], j);
      GetAppend([x], other[1..], j);
      KeysAppend([x], other[1..]);
      assert Keys([x]) == {x.0};
      assert Get([x], j) == if j == x.0 then Some(x.1) else None by {
        assert [x][..0] == [];
      }
    }
  }

  lemma PutKeepsUnique(d: Dict, k: string, v: Value)
    requires UniqueKeys(d)
    ensures UniqueKeys(Put(d, k, v))
  {
    if k !in Keys(d) {
      var r := d + [(k, v)];
      forall i, j | 0 <= i < j < |r| ensures r[i].0 != r[j].0 {
        if j == |d| { assert d[i].0 in Keys(d); }
      }
    }
  }

  lemma PutKeepsFlat(d: Dict, k: string, v: Value)
    requires IsFlat(d) && !v.VDict?
    ensures IsFlat(Put(d, k, v))
  {
  }

  lemma {:induction false} UpdateKeepsUniqueFlat(d: Dict, other: Dict)
    requires UniqueKeys(d) && IsFlat(d) && IsFlat(other)
    ensures UniqueKeys(Update(d, other)) && IsFlat(Update(d, other))
    decreases |other|
  {
    if other != [] {
      PutKeepsUnique(d, other[0].0, other[0].1);
      PutKeepsFlat(d, other[0].0, other[0].1);
      UpdateKeepsUniqueFlat(Put(d, other[0].0, other[0].1), other[1..]);
    }
  }

  /** Putting an absent key at the end of a dict is appending it. */
  lemma UpdateOntoFreshKeys(d: Dict, other: Dict)
    requires UniqueKeys(d + other)
    ensures Update(d, other) == d + other
    decreases |other|
  {
    if other != [] {
      var x := other[0];
      forall i | 0 <= i < |d| ensures d[i].0 != x.0 {
        assert (d + other)[i] == d[i] && (d + other)[|d|] == x;
      }
      assert Put(d, x.0, x.1) == d + [x];
      assert d + [x] + other[1..] == d + other;
      UpdateOntoFreshKeys(d + [x], other[1..]);
    }
  }

  /** In a dict without repeated keys, each pair is found under its key. */
  lemma {:induction false} GetUnique(d: Dict, i: int)
    requires UniqueKeys(d) && 0 <= i < |d|
    ensures Get(d, d[i].0) == Some(d[i].1)
    decreases |d|
  {
    var last := |d| - 1;
    if i < last {
      assert d[last].0 != d[i].0;
      assert d[..last][i] == d[i];
      GetUnique(d[..last], i);
    }
  }

  /** Decimal digits of a natural number. */
  function NatToString(n: nat): (r: string)
    ensures |r| > 0
    ensures forall i | 0 <= i < |r| :: '0' <= r[i] <= '9'
    decreases n
  {
    var d := [('0' as int + n % 10) as char];
    if n < 10 then d else NatToString(n / 10) + d
  }

  /** Python's `str()` of an int. */
  function IntToString(i: int): string {
    if i < 0 then "-" + NatToString(-i) else NatToString(i)
  }

  /** Python's `str()` of a value, as an f-string interpolates it.  A datetime
      and a nested dict are not rendered character for character. */
  function Str(v: Value): string {
    match v
    case VNone => "None"
    case VBool(b) => if b then "True" else "False"
    case VInt(i) => IntToString(i)
    case VStr(s) => s
    case VTime(t) => IntToString(t)
    case VDict(_) => "{...}"
  }
}
