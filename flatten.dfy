/** The `_flatten` helper shared by every `to_dict` of the record types:
    nested dicts are lifted into one level and a later key overwrites an
    earlier one. */
module Flattening {
  import opened Wrappers
  import opened Values

  /** One step of the loop: a dict value is flattened and merged with
      `update`, any other value is stored under its own key. */
  function Absorb(acc: Dict, kv: (string, Value)): Dict
    decreases kv, 1
  {
    if kv.1.VDict? then Update(acc, Flatten(kv.1.d)) else Put(acc, kv.0, kv.1)
  }

  /** The loop over `d.items()` starting from the partial result `acc`. */
  function FlattenOnto(acc: Dict, d: Dict): Dict
    decreases d, 0
  {
    if d == [] then acc else FlattenOnto(Absorb(acc, d[0]), d[1..])
  }

  /** `_flatten(d)` */
  function Flatten(d: Dict): Dict
    decreases d, 2
  {
    FlattenOnto([], d)
  }

  /** Reference definition: the non-dict pairs of d, depth first, in order. */
  function Leaves(d: Dict): (r: Dict)
    ensures IsFlat(r)
    decreases d, 0
  {
    if d == [] then [] else PairLeaves(d[0]) + Leaves(d[1..])
  }

  function PairLeaves(kv: (string, Value)): (r: Dict)
    ensures IsFlat(r)
    decreases kv, 1
  {
    if kv.1.VDict? then Leaves(kv.1.d) else [kv]
  }

  /** The loop agrees, key by key, with putting the leaves one by one. */
  lemma {:induction false} FlattenOntoGet(acc: Dict, d: Dict, k: string)
    ensures Get(FlattenOnto(acc, d), k) == Get(Update(acc, Leaves(d)), k)
    ensures Keys(FlattenOnto(acc, d)) == Keys(acc) + Keys(Leaves(d))
    decreases d, 0
  {
    GetUpdate(acc, Leaves(d), k);
    if d == [] {
      assert Keys(Leaves(d)) == {};
    } else {
      var a := Absorb(acc, d[0]);
      AbsorbGet(acc, d[0], k);
      FlattenOntoGet(a, d[1..], k);
      GetUpdate(a, Leaves(d[1..]), k);
      KeysAppend(PairLeaves(d[0]), Leaves(d[1..]));
      GetAppend(PairLeaves(d[0]), Leaves(d[1..]), k);
    }
  }

  lemma {:induction false} AbsorbGet(acc: Dict, kv: (string, Value), k: string)
    ensures Get(Absorb(acc, kv), k) == if k in Keys(PairLeaves(kv)) then Get(PairLeaves(kv), k) else Get(acc, k)
    ensures Keys(Absorb(acc, kv)) == Keys(acc) + Keys(PairLeaves(kv))
    decreases kv, 1
  {
    if kv.1.VDict? {
      var inner := Flatten(kv.1.d);
      FlattenGet(kv.1.d, k);
      GetUpdate(acc, inner, k);
    } else {
      GetPut(acc, kv.0, kv.1, k);
      assert PairLeaves(kv) == [kv] && [kv][0] == kv;
      assert Keys([kv]) == {kv.0};
      assert [kv][..0] == [];
    }
  }

  /** Every key of the result takes the value of its LAST occurrence among the
      leaves: later keys, nested or not, overwrite earlier ones. */
  lemma {:induction false} FlattenGet(d: Dict, k: string)
    ensures Get(Flatten(d), k) == Get(Leaves(d), k)
    ensures Keys(Flatten(d)) == Keys(Leaves(d))
    decreases d, 2
  {
    FlattenOntoGet([], d, k);
    GetUpdate([], Leaves(d), k);
  }

  lemma {:induction false} FlattenOntoKeeps(acc: Dict, d: Dict)
    requires IsFlat(acc) && UniqueKeys(acc)
    ensures IsFlat(FlattenOnto(acc, d)) && UniqueKeys(FlattenOnto(acc, d))
    decreases d, 0
  {
    if d != [] {
      AbsorbKeeps(acc, d[0]);
      FlattenOntoKeeps(Absorb(acc, d[0]), d[1..]);
    }
  }

  lemma {:induction false} AbsorbKeeps(acc: Dict, kv: (string, Value))
    requires IsFlat(acc) && UniqueKeys(acc)
    ensures IsFlat(Absorb(acc, kv)) && UniqueKeys(Absorb(acc, kv))
    decreases kv, 1
  {
    if kv.1.VDict? {
      FlattenIsFlat(kv.1.d);
      UpdateKeepsUniqueFlat(acc, Flatten(kv.1.d));
    } else {
      PutKeepsUnique(acc, kv.0, kv.1);
      PutKeepsFlat(acc, kv.0, kv.1);
    }
  }

  /** The result holds no dict value and no key twice. */
  lemma {:induction false} FlattenIsFlat(d: Dict)
    ensures IsFlat(Flatten(d)) && UniqueKeys(Flatten(d))
    decreases d, 2
  {
    FlattenOntoKeeps([], d);
  }

  lemma {:induction false} FlattenOntoFlat(acc: Dict, d: Dict)
    requires IsFlat(d)
    ensures FlattenOnto(acc, d) == Update(acc, d)
    decreases |d|
  {
    if d != [] {
      FlattenOntoFlat(Put(acc, d[0].0, d[0].1), d[1..]);
    }
  }

  /** An already flat dict comes back unchanged. */
  lemma FlattenOfFlat(d: Dict)
    requires IsFlat(d) && UniqueKeys(d)
    ensures Flatten(d) == d
  {
    FlattenOntoFlat([], d);
    assert [] + d == d;
    UpdateOntoFreshKeys([], d);
  }

  /** The leaves of a flat dict are the dict itself. */
  lemma {:induction false} LeavesOfFlat(d: Dict)
    requires IsFlat(d)
    ensures Leaves(d) == d
  {
    if d != [] {
      LeavesOfFlat(d[1..]);
      assert [d[0]] + d[1..] == d;
    }
  }

  /** Flattening twice is flattening once. */
  lemma FlattenIdempotent(d: Dict)
    ensures Flatten(Flatten(d)) == Flatten(d)
  {
    FlattenIsFlat(d);
    FlattenOfFlat(Flatten(d));
  }

  /** `_flatten`, with its loop: `flat.update(_flatten(v))` on a dict value,
      `flat[k] = v` otherwise. */
  method FlattenDict(d: Dict) returns (flat: Dict)
    ensures flat == Flatten(d)
    decreases d, 2
  {
    flat := [];
    var i := 0;
    while i < |d|
      invariant 0 <= i <= |d|
      invariant FlattenOnto(flat, d[i..]) == Flatten(d)
    {
      assert d[i..][1..] == d[i + 1..];
      flat := AbsorbItem(flat, d[i]);
      i := i + 1;
    }
  }

  /** The body of the loop for one item. */
  method AbsorbItem(flat: Dict, kv: (string, Value)) returns (r: Dict)
    ensures r == Absorb(flat, kv)
    decreases kv, 1
  {
    var (k, v) := kv;
    if v.VDict? {
      var inner := FlattenDict(v.d);
      r := Update(flat, inner);
    } else {
      r := Put(flat, k, v);
    }
  }
}
