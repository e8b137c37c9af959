/** The decoders of the `asset_db` store: a stored tag node or relationship
    back into a record.  A property or relation is rebuilt by its own
    constructor from the keys the flattened `to_dict()` wrote, and its
    attributes are kept under the constructor's keyword names. */
module Extract {
  import opened Wrappers
  import opened Values
  import opened Flattening
  import opened Oam
  import opened Records
  import opened Codec

  /** A stored relationship: its element id, its endpoints' entity ids, its
      relationship type and its properties. */
  datatype Rel = Rel(elementId: string, fromId: string, toId: string, relType: string, props: Dict)

  /** `RRHeader(rr_type, cls, ttl)` from the flattened header keys. */
  function Header(node: Dict): Value {
    VDict([("rr_type", NodeGet(node, "header_rrtype")), ("cls", NodeGet(node, "header_class")),
           ("ttl", NodeGet(node, "header_ttl"))])
  }

  /** The attributes each property variant is rebuilt from: the keyword and
      the node key it reads. */
  function PropertyKeys(t: PropertyType): seq<string> {
    match t
    case DNSRecordProperty => ["property_name", "data"]
    case SimpleProperty => ["property_name", "property_value"]
    case SourceProperty => ["name", "confidence"]
    case VulnProperty => ["id", "desc", "source", "category", "enum", "ref"]
    case OtherPropertyType(_) => []
  }

  /** Each listed key with the node's value under it. */
  function Pick(keys: seq<string>, node: Dict): (r: Dict)
    ensures |r| == |keys|
    ensures forall i | 0 <= i < |keys| :: r[i] == (keys[i], NodeGet(node, keys[i]))
  {
    seq(|keys|, i requires 0 <= i < |keys| => (keys[i], NodeGet(node, keys[i])))
  }

  function UnexpectedKeyword(cls: string, kw: string): string {
    cls + ".__init__() got an unexpected keyword argument '" + kw + "'"
  }

  /** A dataclass constructor called with keyword arguments: the first
      argument that names none of the class's fields raises TypeError;
      otherwise the arguments become the attributes. */
  function Construct(cls: string, fields: seq<string>, args: Dict): (r: Result<Dict>)
    ensures r.Ok? <==> forall i | 0 <= i < |args| :: args[i].0 in fields
    ensures r.Ok? ==> r.value == args
    ensures r.Err? ==> exists i | 0 <= i < |args| ::
      && args[i].0 !in fields && r.msg == UnexpectedKeyword(cls, args[i].0)
      && forall j | 0 <= j < i :: args[j].0 in fields
  {
    if args == [] then Ok([])
    else if args[0].0 !in fields then Err(UnexpectedKeyword(cls, args[0].0))
    else
      var r := Construct(cls, fields, args[1..]);
      assert forall i | 1 <= i < |args| :: args[i] == args[1..][i - 1];
      if r.Err? then
        var k :| 0 <= k < |args[1..]| && args[1..][k].0 !in fields && r.msg == UnexpectedKeyword(cls, args[1..][k].0)
          && forall j | 0 <= j < k :: args[1..][j].0 in fields;
        assert args[k + 1].0 !in fields && forall j | 0 <= j < k + 1 :: args[j].0 in fields;
        Err(r.msg)
      else
        assert [args[0]] + args[1..] == args;
        Ok([args[0]] + r.value)
  }

  /** `node_to_property(ttype, node)` as the code writes it: the
      SourceProperty branch calls the SimpleProperty constructor with the
      SourceProperty's keywords `name=` and `confidence=`, which name none of
      its fields. */
  function NodeToPropertyAsWritten(t: PropertyType, node: Dict): (r: Result<Property>)
    ensures t != SourceProperty ==> r == NodeToProperty(t, node)
    ensures t == SourceProperty ==> r.Err?
  {
    if t == SourceProperty then
      match Construct("SimpleProperty", PropertyKeys(SimpleProperty), Pick(["name", "confidence"], node))
      case Err(msg) => Err(msg)
      case Ok(attrs) => Ok(Property(SimpleProperty, attrs))
    else NodeToProperty(t, node)
  }

  /** `node_to_property(ttype, node)` with each discriminator decoded by its
      own constructor. */
  function NodeToProperty(t: PropertyType, node: Dict): (r: Result<Property>)
    ensures r.Ok? <==> !t.OtherPropertyType?
    ensures r.Err? ==> r.msg == "Unsupported property type"
    ensures r.Ok? ==> r.value.ptype == t
    ensures r.Ok? && t != DNSRecordProperty ==> r.value.attrs == Pick(PropertyKeys(t), node)
    ensures r.Ok? && t == DNSRecordProperty ==>
      Keys(r.value.attrs) == {"property_name", "header", "data"}
      && Get(r.value.attrs, "header") == Some(Header(node))
      && Get(r.value.attrs, "data") == Some(NodeGet(node, "data"))
  {
    match t
    case DNSRecordProperty =>
      var a := [("property_name", NodeGet(node, "property_name")), ("header", Header(node)), ("data", NodeGet(node, "data"))];
      assert Keys(a) == {"property_name", "header", "data"} by {
        assert a[0].0 == "property_name" && a[1].0 == "header" && a[2].0 == "data";
      }
      GetUnique(a, 1);
      GetUnique(a, 2);
      Ok(Property(DNSRecordProperty, a))
    case SimpleProperty => Ok(Property(SimpleProperty, Pick(PropertyKeys(t), node)))
    case SourceProperty => Ok(Property(SourceProperty, Pick(PropertyKeys(t), node)))
    case VulnProperty => Ok(Property(VulnProperty, Pick(PropertyKeys(t), node)))
    case OtherPropertyType(_) => Err("Unsupported property type")
  }

  /** As written, decoding a stored SourceProperty raises TypeError on the
      `name=` keyword, while the corrected decoder keeps its type and reads
      its two keys. */
  lemma SourceDecodedAsSimple(node: Dict)
    ensures NodeToPropertyAsWritten(SourceProperty, node) == Err(UnexpectedKeyword("SimpleProperty", "name"))
    ensures NodeToProperty(SourceProperty, node).Ok?
    ensures NodeToProperty(SourceProperty, node).value.ptype == SourceProperty
    ensures NodeToProperty(SourceProperty, node).value.attrs == Pick(["name", "confidence"], node)
  {
    var args := Pick(["name", "confidence"], node);
    assert args[0].0 == "name" && "name" !in PropertyKeys(SimpleProperty);
  }

  /** The owner stub the decoders attach: `Entity(id=...)` / `Edge(id=...)`. */
  function OwnerStub(kind: TagKind, id: string): (o: Owner)
    ensures OwnerId(kind, o) == Some(id)
  {
    if kind == EntityTagKind then OwnerEntity(Entity(id, None, None, None))
    else OwnerEdge(Edge(id, None, None, None, None, None))
  }

  /** `node_to_entity_tag` / `node_to_edge_tag`.  The edge-tag decoder puts
      the stored `updated_at` into `last_seen`, so the tag's own `updated_at`
      stays unset. */
  function NodeToTag(lib: Library, kind: TagKind, node: Dict): (r: Result<Tag>)
    ensures NodeGet(node, "tag_id") == VNone ==> r == Err("Unable to extract 'tag_id'")
    ensures NodeGet(node, "tag_id") != VNone && NodeGet(node, OwnerKey(kind)) == VNone ==>
      r == Err("Unable to extract '" + OwnerKey(kind) + "'")
    ensures r.Ok? ==>
      && NodeGet(node, "created_at").VTime? && NodeGet(node, "updated_at").VTime?
      && ParsePropertyType(lib, NodeGet(node, "ttype")).Some?
      && r.value.kind == kind
      && r.value.id == Str(NodeGet(node, "tag_id"))
      && r.value.owner == OwnerStub(kind, Str(NodeGet(node, OwnerKey(kind))))
      && r.value.createdAt == Some(NodeGet(node, "created_at").t)
      && r.value.updatedAt == (if kind == EntityTagKind then Some(NodeGet(node, "updated_at").t) else None)
      && NodeToProperty(ParsePropertyType(lib, NodeGet(node, "ttype")).value, node).Ok?
      && r.value.prop == Some(NodeToProperty(ParsePropertyType(lib, NodeGet(node, "ttype")).value, node).value)
  {
    var id := NodeGet(node, "tag_id");
    var oid := NodeGet(node, OwnerKey(kind));
    var created := NodeGet(node, "created_at");
    var updated := NodeGet(node, "updated_at");
    var ttype := NodeGet(node, "ttype");
    if id == VNone then Err("Unable to extract 'tag_id'")
    else if oid == VNone then Err("Unable to extract '" + OwnerKey(kind) + "'")
    else if created == VNone then Err("Unable to extract 'created_at'")
    else if !created.VTime? then Err(NoToNative)
    else if updated == VNone then Err(UpdatedAtMessage(kind))
    else if !updated.VTime? then Err(NoToNative)
    else if ttype == VNone then Err("Unable to extract 'ttype'")
    else match ParsePropertyType(lib, ttype)
      case None => Err("'" + Str(ttype) + "' is not a valid PropertyType")
      case Some(ptype) =>
        var p :- NodeToProperty(ptype, node);
        Ok(Tag(kind, Str(id), Some(created.t), if kind == EntityTagKind then Some(updated.t) else None,
               OwnerStub(kind, Str(oid)), Some(p)))
  }

  /** `node_to_entity_tag` / `node_to_edge_tag`, field by field. */
  method DecodeTag(lib: Library, kind: TagKind, node: Dict) returns (r: Result<Tag>)
    ensures r == NodeToTag(lib, kind, node)
  {
    var id := NodeGet(node, "tag_id");
    if id == VNone { return Err("Unable to extract 'tag_id'"); }
    var oid := NodeGet(node, OwnerKey(kind));
    if oid == VNone { return Err("Unable to extract '" + OwnerKey(kind) + "'"); }
    var owner := OwnerStub(kind, Str(oid));
    var created := NodeGet(node, "created_at");
    if created == VNone { return Err("Unable to extract 'created_at'"); }
    if !created.VTime? { return Err(NoToNative); }
    var updated := NodeGet(node, "updated_at");
    if updated == VNone { return Err(UpdatedAtMessage(kind)); }
    if !updated.VTime? { return Err(NoToNative); }
    var updatedAt: Stamp := None;
    if kind == EntityTagKind {
      updatedAt := Some(updated.t);
    }
    var ttype := NodeGet(node, "ttype");
    if ttype == VNone { return Err("Unable to extract 'ttype'"); }
    var ptype := ParsePropertyType(lib, ttype);
    if ptype.None? { return Err("'" + Str(ttype) + "' is not a valid PropertyType"); }
    var p := NodeToProperty(ptype.value, node);
    if p.Err? { return Err(p.msg); }
    r := Ok(Tag(kind, Str(id), Some(created.t), updatedAt, owner, Some(p.value)));
  }

  /** The decoders as written start from `EntityTag()` / `EdgeTag()`, and
      the dataclasses have no field defaults: the call raises TypeError
      before any key is read. */
  function NodeToTagAsWritten(kind: TagKind, node: Dict): (r: Result<Tag>)
    ensures r.Err?
  {
    if kind == EntityTagKind
    then Err("EntityTag.__init__() missing 5 required positional arguments")
    else Err("EdgeTag.__init__() missing 5 required positional arguments")
  }

  /** The relation attributes each variant is rebuilt from; `name` comes from
      the stored `label`.  None for a type the decoder does not handle. */
  function RelationAttrs(t: RelationType, props: Dict, weightKey: string): Option<Dict> {
    var name := ("name", NodeGet(props, "label"));
    var header := ("header", Header(props));
    match t
    case BasicDNSRelation => Some([name, header])
    case PrefDNSRelation => Some([name, header, ("preference", NodeGet(props, "preference"))])
    case SRVDNSRelation =>
      Some([name, header, ("priority", NodeGet(props, "priority")), (weightKey, NodeGet(props, "weight")),
            ("port", NodeGet(props, "port"))])
    case PortRelation =>
      Some([name, ("port_number", NodeGet(props, "port_number")), ("protocol", NodeGet(props, "protocol"))])
    case SimpleRelation => Some([name])
    case OtherRelationType(_) => None
  }

  /** `relationship_to_edge(rel)`: the element id becomes the edge id, both
      timestamps must be DateTimes, `etype` must name one of the five
      handled relation types.  The endpoints are left for the caller. */
  function RelationshipToEdge(lib: Library, rel: Rel): (r: Result<Edge>)
    ensures r.Ok? <==>
      && NodeGet(rel.props, "created_at").VTime? && NodeGet(rel.props, "updated_at").VTime?
      && ParseRelationType(lib, NodeGet(rel.props, "etype")).Some?
      && !ParseRelationType(lib, NodeGet(rel.props, "etype")).value.OtherRelationType?
    ensures r.Ok? ==>
      && r.value.id == rel.elementId
      && r.value.createdAt == Some(NodeGet(rel.props, "created_at").t)
      && r.value.updatedAt == Some(NodeGet(rel.props, "updated_at").t)
      && r.value.relation.Some? && r.value.relation.value.rtype == ParseRelationType(lib, NodeGet(rel.props, "etype")).value
      && Get(r.value.relation.value.attrs, "name") == Some(NodeGet(rel.props, "label"))
      && r.value.fromEntity.None? && r.value.toEntity.None?
  {
    var created := NodeGet(rel.props, "created_at");
    var updated := NodeGet(rel.props, "updated_at");
    var etype := NodeGet(rel.props, "etype");
    if !created.VTime? then Err("Unable to extract 'created_at'")
    else if !updated.VTime? then Err("Unable to extract 'updated_at'")
    else if etype == VNone then Err("Unable to extract 'etype'")
    else match ParseRelationType(lib, etype)
      case None => Err("'" + Str(etype) + "' is not a valid RelationType")
      case Some(rtype) =>
        match RelationAttrs(rtype, rel.props, "weight")
        case None => Err("Unsupported relation type")
        case Some(attrs) =>
          assert Get(attrs, "name") == Some(NodeGet(rel.props, "label")) by {
            assert attrs[0].0 == "name";
            assert forall i | 0 < i < |attrs| :: attrs[i].0 != "name";
            LastNameIsFirst(attrs);
          }
          Ok(Edge(rel.elementId, Some(created.t), Some(updated.t), Some(Relation(rtype, attrs)), None, None))
  }

  /** A key that only the first pair carries is found there. */
  lemma LastNameIsFirst(attrs: Dict)
    requires |attrs| > 0 && forall i | 0 < i < |attrs| :: attrs[i].0 != attrs[0].0
    ensures Get(attrs, attrs[0].0) == Some(attrs[0].1)
  {
    GetUnique(attrs[..1], 0);
    GetAppend(attrs[..1], attrs[1..], attrs[0].0);
    assert attrs[..1] + attrs[1..] == attrs;
  }

  /** `relationship_to_edge`, step by step. */
  method DecodeRelationship(lib: Library, rel: Rel) returns (r: Result<Edge>)
    ensures r == RelationshipToEdge(lib, rel)
  {
    var created := NodeGet(rel.props, "created_at");
    if !created.VTime? { return Err("Unable to extract 'created_at'"); }
    var updated := NodeGet(rel.props, "updated_at");
    if !updated.VTime? { return Err("Unable to extract 'updated_at'"); }
    var etype := NodeGet(rel.props, "etype");
    if etype == VNone { return Err("Unable to extract 'etype'"); }
    var rtype := ParseRelationType(lib, etype);
    if rtype.None? { return Err("'" + Str(etype) + "' is not a valid RelationType"); }
    var attrs := RelationAttrs(rtype.value, rel.props, "weight");
    if attrs.None? { return Err("Unsupported relation type"); }
    r := Ok(Edge(rel.elementId, Some(created.t), Some(updated.t), Some(Relation(rtype.value, attrs.value)), None, None));
  }

  /** The fields of the SRV relation, by keyword. */
  const SrvFields: seq<string> := ["name", "header", "priority", "weight", "port"]

  /** The SRV branch as written passes the stored weight as `wright=`, which
      names no field of the SRV relation, so the constructor raises
      TypeError; the corrected branch builds the relation with the stored
      weight under `weight`. */
  lemma SrvWeightAsWritten(props: Dict)
    ensures Construct("SRVDNSRelation", SrvFields, RelationAttrs(SRVDNSRelation, props, "wright").value)
      == Err(UnexpectedKeyword("SRVDNSRelation", "wright"))
    ensures Construct("SRVDNSRelation", SrvFields, RelationAttrs(SRVDNSRelation, props, "weight").value)
      == Ok(RelationAttrs(SRVDNSRelation, props, "weight").value)
    ensures Get(RelationAttrs(SRVDNSRelation, props, "weight").value, "weight") == Some(NodeGet(props, "weight"))
  {
    SrvWrightRaises(props);
    SrvWeightKept(props);
  }

  /** Every keyword of the corrected SRV call names a field, and the weight
      is the stored one. */
  lemma SrvWeightKept(props: Dict)
    ensures Construct("SRVDNSRelation", SrvFields, RelationAttrs(SRVDNSRelation, props, "weight").value)
      == Ok(RelationAttrs(SRVDNSRelation, props, "weight").value)
    ensures Get(RelationAttrs(SRVDNSRelation, props, "weight").value, "weight") == Some(NodeGet(props, "weight"))
  {
    var c := RelationAttrs(SRVDNSRelation, props, "weight").value;
    assert forall i | 0 <= i < |c| :: c[i].0 in SrvFields;
    assert c[3].0 == "weight";
    GetUnique(c, 3);
  }

  /** The first three keywords of the SRV call name fields; `wright` is the
      first that does not. */
  lemma SrvWrightRaises(props: Dict)
    ensures Construct("SRVDNSRelation", SrvFields, RelationAttrs(SRVDNSRelation, props, "wright").value)
      == Err(UnexpectedKeyword("SRVDNSRelation", "wright"))
  {
    var w := RelationAttrs(SRVDNSRelation, props, "wright").value;
    assert w[0].0 in SrvFields && w[1].0 in SrvFields && w[2].0 in SrvFields;
    assert w[1..][1..][1..] == w[3..] && w[3..][0].0 == "wright" && "wright" !in SrvFields;
    calc {
      Construct("SRVDNSRelation", SrvFields, w);
      Construct("SRVDNSRelation", SrvFields, w[1..]);
      Construct("SRVDNSRelation", SrvFields, w[1..][1..]);
      Construct("SRVDNSRelation", SrvFields, w[3..]);
    }
  }

  /** As written the decoder starts from `Edge()`, which raises TypeError
      because the dataclass has no field defaults. */
  function RelationshipToEdgeAsWritten(lib: Library, rel: Rel): (r: Result<Edge>)
    ensures r.Err?
  {
    Err("Edge.__init__() missing 6 required positional arguments")
  }

  // ---- round trips of what the store writes

  /** A relationship written with `Edge.to_dict()` decodes back to an edge
      with the element id, the same timestamps and the same relation type,
      unless a relation key shadows a header key. */
  lemma EdgeRoundTrip(lib: Library, e: Edge, elementId: string, fromId: string, toId: string, relType: string)
    requires e.relation.Some? && e.createdAt.Some? && e.updatedAt.Some?
    requires IsRelationMember(lib, e.relation.value.rtype) && !e.relation.value.rtype.OtherRelationType?
    requires forall k | k in {"created_at", "updated_at", "etype"} :: k !in Keys(Leaves(e.relation.value.attrs))
    ensures EdgeToDict(e).Ok?
    ensures var r := RelationshipToEdge(lib, Rel(elementId, fromId, toId, relType, EdgeToDict(e).value));
      && r.Ok? && r.value.id == elementId
      && r.value.createdAt == e.createdAt && r.value.updatedAt == e.updatedAt
      && r.value.relation.Some? && r.value.relation.value.rtype == e.relation.value.rtype
      && RelationshipToEdgeAsWritten(lib, Rel(elementId, fromId, toId, relType, EdgeToDict(e).value)).Err?
  {
    EdgeToDictGet(e, "created_at");
    EdgeToDictGet(e, "updated_at");
    EdgeToDictGet(e, "etype");
    RelationTypeRoundTrip(lib, e.relation.value.rtype);
  }

  /** A tag node written with `to_dict()` decodes back to a tag with the same
      id, owner id, creation time and property type, unless a property key
      shadows a header key; the decoder as written fails on it. */
  lemma TagRoundTrip(lib: Library, t: Tag)
    requires t.prop.Some? && OwnerId(t.kind, t.owner).Some? && t.createdAt.Some? && t.updatedAt.Some?
    requires IsPropertyMember(lib, t.prop.value.ptype) && !t.prop.value.ptype.OtherPropertyType?
    requires forall k | k in {"tag_id", OwnerKey(t.kind), "created_at", "updated_at", "ttype"} ::
      k !in Keys(Leaves(t.prop.value.attrs))
    ensures TagToDict(t).Ok?
    ensures var r := NodeToTag(lib, t.kind, TagToDict(t).value);
      && r.Ok? && r.value.id == t.id && r.value.kind == t.kind
      && OwnerId(t.kind, r.value.owner) == OwnerId(t.kind, t.owner)
      && r.value.createdAt == t.createdAt
      && (t.kind == EntityTagKind ==> r.value.updatedAt == t.updatedAt)
      && r.value.prop.Some? && r.value.prop.value.ptype == t.prop.value.ptype
      && NodeToTagAsWritten(t.kind, TagToDict(t).value).Err?
  {
    TagToDictGet(t, "tag_id");
    TagToDictGet(t, OwnerKey(t.kind));
    TagToDictGet(t, "created_at");
    TagToDictGet(t, "updated_at");
    TagToDictGet(t, "ttype");
    PropertyTypeRoundTrip(lib, t.prop.value.ptype);
  }
}
