/** `query_node_by_property_key_value(varname, label, prop)`: the Cypher node
    pattern the `asset_db` store matches a property by.  Each handled
    property variant contributes two fixed keys; `confidence` is written as a
    bare literal, every other value between single quotes. */
module Query {
  import opened Wrappers
  import opened Values
  import opened Flattening
  import opened Oam
  import opened Records
  import opened Codec

  /** A Cypher literal in the pattern: `'text'` or a bare `text`. */
  datatype Literal = Quoted(text: string) | Bare(text: string)

  predicate Handled(t: PropertyType) {
    t == DNSRecordProperty || t == SimpleProperty || t == SourceProperty || t == VulnProperty
  }

  /** The node key each variant is matched on, with the property attribute
      (a field, the key of its `to_dict()`) whose value fills it, as
      written: the Source variant fills `name` from the attribute `source`;
      the Vuln variant is matched on `vuln_id`, a key the stored node does
      not have (the decoder reads the id back from `id`), and fills `desc`
      from the attribute `description`. */
  function QueryKeysAsWritten(t: PropertyType): (r: seq<(string, string)>)
    ensures t != SourceProperty && t != VulnProperty ==> r == QueryKeys(t)
    ensures Handled(t) ==> |r| == 2 == |QueryKeys(t)| && r[1].0 == QueryKeys(t)[1].0
    ensures t == SourceProperty ==>
      r[0].0 == QueryKeys(t)[0].0 && r[0].1 != QueryKeys(t)[0].1 && r[1] == QueryKeys(t)[1]
    ensures t == VulnProperty ==>
      r[0].0 != QueryKeys(t)[0].0 && r[0].1 == QueryKeys(t)[0].1 && r[1].1 != QueryKeys(t)[1].1
  {
    match t
    case SourceProperty => [("name", "source"), ("confidence", "confidence")]
    case VulnProperty => [("vuln_id", "id"), ("desc", "description")]
    case _ => QueryKeys(t)
  }

  /** The node key each variant is matched on, with the property attribute
      whose value fills it; every variant is matched on the keys its
      property is stored under. */
  function QueryKeys(t: PropertyType): (r: seq<(string, string)>)
    ensures forall i | 0 <= i < |r| :: r[i].0 == r[i].1
  {
    match t
    case DNSRecordProperty => [("property_name", "property_name"), ("data", "data")]
    case SimpleProperty => [("property_name", "property_name"), ("property_value", "property_value")]
    case SourceProperty => [("name", "name"), ("confidence", "confidence")]
    case VulnProperty => [("id", "id"), ("desc", "desc")]
    case OtherPropertyType(_) => []
  }

  /** The pairs for a handled variant matched on the keys ks. */
  function PairsOf(ks: seq<(string, string)>, attrs: Dict): (r: seq<(string, Literal)>)
    ensures |r| == |ks|
    ensures forall i | 0 <= i < |ks| ::
      && r[i].0 == ks[i].0
      && r[i].1.text == Str(NodeGet(attrs, ks[i].1))
      && (r[i].1.Bare? <==> ks[i].0 == "confidence")
  {
    seq(|ks|, i requires 0 <= i < |ks| =>
      var v := Str(NodeGet(attrs, ks[i].1));
      (ks[i].0, if ks[i].0 == "confidence" then Bare(v) else Quoted(v)))
  }

  /** The `AttributeError` of reading an attribute the property lacks. */
  function NoAttribute(t: PropertyType, a: string): string {
    "'" + PropertyTypeValue(t) + "' object has no attribute '" + a + "'"
  }

  /** The pairs as written.  The f-string reads the two attributes left to
      right, so the first one the property lacks raises; an unhandled
      variant raises "asset type not supported". */
  function QueryPairsAsWritten(p: Property): (r: Result<seq<(string, Literal)>>)
    ensures !Handled(p.ptype) ==> r == Err("asset type not supported")
    ensures Handled(p.ptype) ==>
      (r.Ok? <==> forall i | 0 <= i < 2 :: QueryKeysAsWritten(p.ptype)[i].1 in Keys(p.attrs))
    ensures Handled(p.ptype) && r.Err? ==> var ks := QueryKeysAsWritten(p.ptype);
      r.msg == NoAttribute(p.ptype, if ks[0].1 !in Keys(p.attrs) then ks[0].1 else ks[1].1)
    ensures r.Ok? ==> |r.value| == 2 && forall i | 0 <= i < 2 ::
      && r.value[i].0 == QueryKeysAsWritten(p.ptype)[i].0
      && r.value[i].1.text == Str(NodeGet(p.attrs, QueryKeysAsWritten(p.ptype)[i].1))
      && (r.value[i].1.Bare? <==> r.value[i].0 == "confidence")
    ensures r.Ok? && p.ptype != SourceProperty && p.ptype != VulnProperty ==> r == QueryPairs(p)
  {
    if !Handled(p.ptype) then Err("asset type not supported")
    else
      var ks := QueryKeysAsWritten(p.ptype);
      if ks[0].1 !in Keys(p.attrs) then Err(NoAttribute(p.ptype, ks[0].1))
      else if ks[1].1 !in Keys(p.attrs) then Err(NoAttribute(p.ptype, ks[1].1))
      else Ok(PairsOf(ks, p.attrs))
  }

  /** The key/literal pairs of the pattern, or the error for an unhandled
      property. */
  function QueryPairs(p: Property): (r: Result<seq<(string, Literal)>>)
    ensures r.Ok? <==> Handled(p.ptype)
    ensures r.Err? ==> r.msg == "asset type not supported"
    ensures r.Ok? ==> |r.value| == 2 && |QueryKeys(p.ptype)| == 2
    ensures r.Ok? ==> forall i | 0 <= i < 2 ::
      && r.value[i].0 == QueryKeys(p.ptype)[i].0
      && r.value[i].1.text == Str(NodeGet(p.attrs, QueryKeys(p.ptype)[i].1))
      && (r.value[i].1.Bare? <==> r.value[i].0 == "confidence")
  {
    if !Handled(p.ptype) then Err("asset type not supported") else Ok(PairsOf(QueryKeys(p.ptype), p.attrs))
  }

  function RenderLiteral(l: Literal): string {
    match l
    case Quoted(s) => "'" + s + "'"
    case Bare(s) => s
  }

  function RenderPair(kv: (string, Literal)): string {
    kv.0 + ": " + RenderLiteral(kv.1)
  }

  /** The pairs of a map literal, separated by ", ". */
  function RenderPairs(ps: seq<(string, Literal)>): string
    decreases |ps|
  {
    if ps == [] then ""
    else if |ps| == 1 then RenderPair(ps[0])
    else RenderPair(ps[0]) + ", " + RenderPairs(ps[1..])
  }

  function Prefix(varname: string, nodeLabel: string): string {
    "(" + varname + ":" + nodeLabel + " {"
  }

  /** `query_node_by_property_key_value(varname, label, prop)`, as written. */
  function QueryNodeByPropertyKeyValue(varname: string, nodeLabel: string, p: Property): (r: Result<string>)
    ensures r.Ok? <==> QueryPairsAsWritten(p).Ok?
    ensures r.Err? ==> r.msg == QueryPairsAsWritten(p).msg
    ensures !Handled(p.ptype) ==> r == Err("asset type not supported")
    ensures r.Ok? ==>
      && |r.value| >= |Prefix(varname, nodeLabel)| + 2
      && r.value[..|Prefix(varname, nodeLabel)|] == Prefix(varname, nodeLabel)
      && r.value[|r.value| - 2..] == "})"
  {
    var ps :- QueryPairsAsWritten(p);
    var s := Prefix(varname, nodeLabel) + RenderPairs(ps) + "})";
    assert s[..|Prefix(varname, nodeLabel)|] == Prefix(varname, nodeLabel);
    assert s[|s| - 2..] == "})";
    Ok(s)
  }

  /** The pattern with the corrected keys of `QueryKeys`. */
  function IntendedQueryNode(varname: string, nodeLabel: string, p: Property): (r: Result<string>)
    ensures r.Ok? <==> Handled(p.ptype)
    ensures r.Err? ==> r.msg == "asset type not supported"
    ensures r.Ok? ==>
      && |r.value| >= |Prefix(varname, nodeLabel)| + 2
      && r.value[..|Prefix(varname, nodeLabel)|] == Prefix(varname, nodeLabel)
      && r.value[|r.value| - 2..] == "})"
  {
    var ps :- QueryPairs(p);
    var s := Prefix(varname, nodeLabel) + RenderPairs(ps) + "})";
    assert s[..|Prefix(varname, nodeLabel)|] == Prefix(varname, nodeLabel);
    assert s[|s| - 2..] == "})";
    Ok(s)
  }

  /** Two patterns differ only in their pairs: for a fixed variable and
      label, the pairs text sits between the prefix and the closing `})`. */
  lemma QueryNodeBody(varname: string, nodeLabel: string, p: Property)
    ensures QueryPairsAsWritten(p).Ok? ==> var r := QueryNodeByPropertyKeyValue(varname, nodeLabel, p).value;
      r[|Prefix(varname, nodeLabel)|..|r| - 2] == RenderPairs(QueryPairsAsWritten(p).value)
    ensures Handled(p.ptype) ==> var r := IntendedQueryNode(varname, nodeLabel, p).value;
      r[|Prefix(varname, nodeLabel)|..|r| - 2] == RenderPairs(QueryPairs(p).value)
  {
    var pre := Prefix(varname, nodeLabel);
    if QueryPairsAsWritten(p).Ok? {
      var s := pre + RenderPairs(QueryPairsAsWritten(p).value) + "})";
      assert s[|pre|..|s| - 2] == RenderPairs(QueryPairsAsWritten(p).value);
    }
    if Handled(p.ptype) {
      var s := pre + RenderPairs(QueryPairs(p).value) + "})";
      assert s[|pre|..|s| - 2] == RenderPairs(QueryPairs(p).value);
    }
  }

  /** The pattern as written and the corrected one agree on the DNS record
      and simple variants whenever the written one can be built. */
  lemma QueryNodesAgree(varname: string, nodeLabel: string, p: Property)
    requires p.ptype == DNSRecordProperty || p.ptype == SimpleProperty
    ensures QueryNodeByPropertyKeyValue(varname, nodeLabel, p).Ok? ==>
      QueryNodeByPropertyKeyValue(varname, nodeLabel, p) == IntendedQueryNode(varname, nodeLabel, p)
  {
  }

  /** How Cypher compares a stored value with a literal: a quoted literal
      is a string, a bare one here is an integer. */
  predicate LiteralMatches(v: Value, l: Literal) {
    match l
    case Quoted(s) => v == VStr(s)
    case Bare(s) => v.VInt? && IntToString(v.i) == s
  }

  /** A node matches the pattern when every key of it carries a matching
      value. */
  predicate NodeMatches(node: Dict, ps: seq<(string, Literal)>) {
    forall i | 0 <= i < |ps| :: LiteralMatches(NodeGet(node, ps[i].0), ps[i].1)
  }

  /** A value survives the trip through the pattern text. */
  predicate Renderable(key: string, v: Value) {
    if key == "confidence" then v.VInt? else v.VStr?
  }

  /** A tag node the store wrote from a property is found again by that
      property's pattern, when the property is flat, its matched attributes
      are strings (the confidence an integer). */
  lemma StoredTagMatches(t: Tag)
    requires t.prop.Some? && OwnerId(t.kind, t.owner).Some? && Handled(t.prop.value.ptype)
    requires IsFlat(t.prop.value.attrs)
    requires forall i | 0 <= i < |QueryKeys(t.prop.value.ptype)| ::
      Renderable(QueryKeys(t.prop.value.ptype)[i].0, NodeGet(t.prop.value.attrs, QueryKeys(t.prop.value.ptype)[i].1))
    ensures NodeMatches(TagToDict(t).value, QueryPairs(t.prop.value).value)
  {
    var p := t.prop.value;
    var ps := QueryPairs(p).value;
    var ks := QueryKeys(p.ptype);
    LeavesOfFlat(p.attrs);
    forall i | 0 <= i < |ps| ensures LiteralMatches(NodeGet(TagToDict(t).value, ps[i].0), ps[i].1) {
      var k := ks[i].0;
      TagToDictGet(t, k);
      assert NodeGet(p.attrs, k) != VNone;
      assert Get(TagToDict(t).value, k) == Get(p.attrs, k);
    }
  }

  /** As written, a stored Vuln tag is never found by its own pattern: a
      property with an `id` but no `description` attribute raises, and
      otherwise the pattern asks for `vuln_id`, which the node has not
      unless the property itself carries one. */
  lemma StoredVulnTagMissed(t: Tag)
    requires t.prop.Some? && OwnerId(t.kind, t.owner).Some? && t.prop.value.ptype == VulnProperty
    requires "vuln_id" !in Keys(Leaves(t.prop.value.attrs))
    ensures "id" in Keys(t.prop.value.attrs) && "description" !in Keys(t.prop.value.attrs) ==>
      QueryPairsAsWritten(t.prop.value) == Err(NoAttribute(VulnProperty, "description"))
    ensures QueryPairsAsWritten(t.prop.value).Ok? ==>
      !NodeMatches(TagToDict(t).value, QueryPairsAsWritten(t.prop.value).value)
  {
    if QueryPairsAsWritten(t.prop.value).Ok? {
      var ps := QueryPairsAsWritten(t.prop.value).value;
      TagToDictGet(t, "vuln_id");
      assert ps[0].0 == "vuln_id" && ps[0].1.Quoted?;
      assert NodeGet(TagToDict(t).value, ps[0].0) == VNone;
    }
  }

  /** As written, a stored Source tag of a flat property is found by its own
      pattern only when its `name` is the text of its `source`: the pattern
      asks for `name` but fills it from `source`. */
  lemma StoredSourceTagNeedsName(t: Tag)
    requires t.prop.Some? && OwnerId(t.kind, t.owner).Some? && t.prop.value.ptype == SourceProperty
    requires IsFlat(t.prop.value.attrs)
    requires QueryPairsAsWritten(t.prop.value).Ok?
    requires NodeMatches(TagToDict(t).value, QueryPairsAsWritten(t.prop.value).value)
    ensures Get(t.prop.value.attrs, "name") == Some(VStr(Str(NodeGet(t.prop.value.attrs, "source"))))
  {
    var p := t.prop.value;
    var ps := QueryPairsAsWritten(p).value;
    LeavesOfFlat(p.attrs);
    TagToDictGet(t, "name");
    assert ps[0].0 == "name" && ps[0].1 == Quoted(Str(NodeGet(p.attrs, "source")));
    assert LiteralMatches(NodeGet(TagToDict(t).value, ps[0].0), ps[0].1);
  }
}
