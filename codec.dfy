/** Decoding a stored relationship or tag node back into a record, as the
    store's `_relationship_to_edge`, `_node_to_entity_tag` and
    `_node_to_edge_tag` do: check the required keys, resolve the type
    discriminator, keep the declared fields whose value is not None, then
    copy every `extra_*` key through. */
module Codec {
  import opened Wrappers
  import opened Values
  import opened Oam
  import opened Records

  /** `node.get(k)`: a missing key reads as None. */
  function NodeGet(node: Dict, k: string): (v: Value)
    ensures v != VNone ==> Get(node, k) == Some(v)
    ensures Get(node, k).None? ==> v == VNone
  {
    match Get(node, k)
    case Some(v) => v
    case None => VNone
  }

  predicate IsExtraKey(k: string) {
    |k| >= 6 && k[..6] == "extra_"
  }

  /** The loop over the declared fields, from the partial dict `acc`. */
  function DeclaredOnto(acc: Dict, fields: seq<string>, node: Dict): Dict
    decreases |fields|
  {
    if fields == [] then acc
    else
      var v := NodeGet(node, fields[0]);
      DeclaredOnto(if v == VNone then acc else Put(acc, fields[0], v), fields[1..], node)
  }

  /** The `extra` comprehension over the node's keys in order, from `acc`. */
  function ExtrasOnto(acc: Dict, keys: Dict, node: Dict): Dict
    decreases |keys|
  {
    if keys == [] then acc
    else
      var k := keys[0].0;
      ExtrasOnto(if IsExtraKey(k) then Put(acc, k, NodeGet(node, k)) else acc, keys[1..], node)
  }

  /** The dict handed to `OAMObject.from_dict`: declared non-None fields,
      updated with the `extra_*` keys. */
  function Project(fields: seq<string>, node: Dict): Dict {
    Update(DeclaredOnto([], fields, node), ExtrasOnto([], node, node))
  }

  lemma {:induction false} DeclaredGet(acc: Dict, fields: seq<string>, node: Dict, k: string)
    ensures Get(DeclaredOnto(acc, fields, node), k) ==
      if k in fields && NodeGet(node, k) != VNone then Some(NodeGet(node, k)) else Get(acc, k)
    decreases |fields|
  {
    if fields != [] {
      var v := NodeGet(node, fields[0]);
      var acc' := if v == VNone then acc else Put(acc, fields[0], v);
      DeclaredGet(acc', fields[1..], node, k);
      if v != VNone { GetPut(acc, fields[0], v, k); }
      assert k in fields <==> k == fields[0] || k in fields[1..];
    }
  }

  lemma {:induction false} ExtrasGet(acc: Dict, keys: Dict, node: Dict, k: string)
    ensures Get(ExtrasOnto(acc, keys, node), k) ==
      if IsExtraKey(k) && k in Keys(keys) then Some(NodeGet(node, k)) else Get(acc, k)
    ensures Keys(ExtrasOnto(acc, keys, node)) == Keys(acc) + set j | j in Keys(keys) && IsExtraKey(j)
    decreases |keys|
  {
    if keys != [] {
      var j := keys[0].0;
      var acc' := if IsExtraKey(j) then Put(acc, j, NodeGet(node, j)) else acc;
      ExtrasGet(acc', keys[1..], node, k);
      if IsExtraKey(j) {
        GetPut(acc, j, NodeGet(node, j), k);
      }
      KeysAppend([keys[0]], keys[1..]);
      assert keys == [keys[0]] + keys[1..];
      assert Keys([keys[0]]) == {j};
    }
  }

  /** What the decoded payload holds: an `extra_*` key of the node with the
      node's value (even over a declared field of the same name), a declared
      field with a non-None value, and nothing else. */
  lemma ProjectGet(fields: seq<string>, node: Dict, k: string)
    ensures Get(Project(fields, node), k) ==
      if IsExtraKey(k) && k in Keys(node) then Some(NodeGet(node, k))
      else if k in fields && NodeGet(node, k) != VNone then Some(NodeGet(node, k))
      else None
  {
    var extras := ExtrasOnto([], node, node);
    ExtrasGet([], node, node, k);
    DeclaredGet([], fields, node, k);
    GetUpdate(DeclaredOnto([], fields, node), extras, k);
  }

  /** The loops of the decoders: `d[prop_key] = prop_value` for each declared
      field with a value, then `d.update(extra)`. */
  method ProjectNode(fields: seq<string>, node: Dict) returns (d: Dict)
    ensures d == Project(fields, node)
  {
    d := [];
    var i := 0;
    while i < |fields|
      invariant 0 <= i <= |fields|
      invariant DeclaredOnto(d, fields[i..], node) == DeclaredOnto([], fields, node)
    {
      assert fields[i..][1..] == fields[i + 1..];
      var v := NodeGet(node, fields[i]);
      if v != VNone {
        d := Put(d, fields[i], v);
      }
      i := i + 1;
    }
    var extra: Dict := [];
    var j := 0;
    while j < |node|
      invariant 0 <= j <= |node|
      invariant ExtrasOnto(extra, node[j..], node) == ExtrasOnto([], node, node)
    {
      assert node[j..][1..] == node[j + 1..];
      var k := node[j].0;
      if IsExtraKey(k) {
        extra := Put(extra, k, NodeGet(node, k));
      }
      j := j + 1;
    }
    d := Update(d, extra);
  }

  /** `_relationship_to_edge(rel, from_entity, to_entity)` */
  function RelationshipToEdge(lib: Library, rel: Dict, from: Entity, to: Entity): (r: Result<Edge>)
    ensures r.Ok? <==>
      && NodeGet(rel, "edge_id") != VNone
      && NodeGet(rel, "created_at").VTime? && NodeGet(rel, "updated_at").VTime?
      && ParseRelationType(lib, NodeGet(rel, "etype")).Some?
      && lib.relationFields(ParseRelationType(lib, NodeGet(rel, "etype")).value).Some?
  {
    var id := NodeGet(rel, "edge_id");
    var created := NodeGet(rel, "created_at");
    var updated := NodeGet(rel, "updated_at");
    var etype := NodeGet(rel, "etype");
    if id == VNone then Err("Unable to extract 'edge_id'")
    else if !created.VTime? then Err("Unable to extract 'created_at'")
    else if !updated.VTime? then Err("Unable to extract 'updated_at'")
    else if etype == VNone then Err("Unable to extract 'etype'")
    else match ParseRelationType(lib, etype)
      case None => Err("'" + Str(etype) + "' is not a valid RelationType")
      case Some(rtype) =>
        match lib.relationFields(rtype)
        case None => Err("unsupported relation type")
        case Some(fields) =>
          Ok(Edge(Str(id), Some(created.t), Some(updated.t), Some(Relation(rtype, Project(fields, rel))),
                  Some(from), Some(to)))
  }

  /** A decoded edge carries the stored id, timestamps and type, the given
      endpoints, and a payload holding exactly the declared non-None fields
      and the `extra_*` keys. */
  lemma RelationshipToEdgeFields(lib: Library, rel: Dict, from: Entity, to: Entity, k: string)
    requires RelationshipToEdge(lib, rel, from, to).Ok?
    ensures var e := RelationshipToEdge(lib, rel, from, to).value;
      var rtype := ParseRelationType(lib, NodeGet(rel, "etype")).value;
      && e.id == Str(NodeGet(rel, "edge_id"))
      && e.createdAt == Some(NodeGet(rel, "created_at").t) && e.updatedAt == Some(NodeGet(rel, "updated_at").t)
      && e.fromEntity == Some(from) && e.toEntity == Some(to)
      && e.relation.Some? && e.relation.value.rtype == rtype
      && NodeGet(rel, "etype") == VStr(RelationTypeValue(rtype))
      && Get(e.relation.value.attrs, k) ==
           if IsExtraKey(k) && k in Keys(rel) then Some(NodeGet(rel, k))
           else if k in lib.relationFields(rtype).value && NodeGet(rel, k) != VNone then Some(NodeGet(rel, k))
           else None
  {
    var rtype := ParseRelationType(lib, NodeGet(rel, "etype")).value;
    ProjectGet(lib.relationFields(rtype).value, rel, k);
  }

  /** `_relationship_to_edge`, step by step. */
  method DecodeRelationship(lib: Library, rel: Dict, from: Entity, to: Entity) returns (r: Result<Edge>)
    ensures r == RelationshipToEdge(lib, rel, from, to)
  {
    var id := NodeGet(rel, "edge_id");
    if id == VNone { return Err("Unable to extract 'edge_id'"); }
    var created := NodeGet(rel, "created_at");
    if !created.VTime? { return Err("Unable to extract 'created_at'"); }
    var updated := NodeGet(rel, "updated_at");
    if !updated.VTime? { return Err("Unable to extract 'updated_at'"); }
    var etype := NodeGet(rel, "etype");
    if etype == VNone { return Err("Unable to extract 'etype'"); }
    var rtype := ParseRelationType(lib, etype);
    if rtype.None? { return Err("'" + Str(etype) + "' is not a valid RelationType"); }
    var fields := lib.relationFields(rtype.value);
    if fields.None? { return Err("unsupported relation type"); }
    var d := ProjectNode(fields.value, rel);
    r := Ok(Edge(Str(id), Some(created.t), Some(updated.t), Some(Relation(rtype.value, d)), Some(from), Some(to)));
  }

  /** The message for a missing `updated_at`: the entity-tag decoder reports
      'created_at' there, the edge-tag decoder 'updated_at'. */
  function UpdatedAtMessage(kind: TagKind): string {
    if kind == EntityTagKind then "Unable to extract 'created_at'" else "Unable to extract 'updated_at'"
  }

  const NoToNative := "object has no attribute 'to_native'"

  /** `_node_to_entity_tag` / `_node_to_edge_tag`; `owner` is the repository's
      `find_entity_by_id` or `find_edge_by_id`. */
  function NodeToTag(lib: Library, kind: TagKind, node: Dict, owner: string -> Result<Owner>): (r: Result<Tag>)
    ensures r.Ok? ==>
      && NodeGet(node, "tag_id") != VNone && NodeGet(node, OwnerKey(kind)) != VNone
      && owner(Str(NodeGet(node, OwnerKey(kind)))).Ok?
      && NodeGet(node, "created_at").VTime? && NodeGet(node, "updated_at").VTime?
      && ParsePropertyType(lib, NodeGet(node, "ttype")).Some?
      && r.value == Tag(kind, Str(NodeGet(node, "tag_id")), Some(NodeGet(node, "created_at").t),
                        Some(NodeGet(node, "updated_at").t), owner(Str(NodeGet(node, OwnerKey(kind)))).value,
                        r.value.prop)
      && r.value.prop.Some? && r.value.prop.value.ptype == ParsePropertyType(lib, NodeGet(node, "ttype")).value
    ensures NodeGet(node, "tag_id") == VNone ==> r == Err("Unable to extract 'tag_id'")
    ensures NodeGet(node, "tag_id") != VNone && NodeGet(node, OwnerKey(kind)) == VNone ==>
      r == Err("Unable to extract '" + OwnerKey(kind) + "'")
  {
    var id := NodeGet(node, "tag_id");
    var oid := NodeGet(node, OwnerKey(kind));
    var created := NodeGet(node, "created_at");
    var updated := NodeGet(node, "updated_at");
    var ttype := NodeGet(node, "ttype");
    if id == VNone then Err("Unable to extract 'tag_id'")
    else if oid == VNone then Err("Unable to extract '" + OwnerKey(kind) + "'")
    else
      var o :- owner(Str(oid));
      if created == VNone then Err("Unable to extract 'created_at'")
      else if !created.VTime? then Err(NoToNative)
      else if updated == VNone then Err(UpdatedAtMessage(kind))
      else if !updated.VTime? then Err(NoToNative)
      else if ttype == VNone then Err("Unable to extract 'ttype'")
      else match ParsePropertyType(lib, ttype)
        case None => Err("'" + Str(ttype) + "' is not a valid PropertyType")
        case Some(ptype) =>
          match lib.propertyFields(ptype)
          case None => Err("unsupported property type")
          case Some(fields) =>
            Ok(Tag(kind, Str(id), Some(created.t), Some(updated.t), o, Some(Property(ptype, Project(fields, node)))))
  }

  /** `_node_to_entity_tag` / `_node_to_edge_tag`, step by step. */
  method DecodeTagNode(lib: Library, kind: TagKind, node: Dict, owner: string -> Result<Owner>) returns (r: Result<Tag>)
    ensures r == NodeToTag(lib, kind, node, owner)
  {
    var id := NodeGet(node, "tag_id");
    if id == VNone { return Err("Unable to extract 'tag_id'"); }
    var oid := NodeGet(node, OwnerKey(kind));
    if oid == VNone { return Err("Unable to extract '" + OwnerKey(kind) + "'"); }
    var o := owner(Str(oid));
    if o.Err? { return Err(o.msg); }
    var created := NodeGet(node, "created_at");
    if created == VNone { return Err("Unable to extract 'created_at'"); }
    if !created.VTime? { return Err(NoToNative); }
    var updated := NodeGet(node, "updated_at");
    if updated == VNone { return Err(UpdatedAtMessage(kind)); }
    if !updated.VTime? { return Err(NoToNative); }
    var ttype := NodeGet(node, "ttype");
    if ttype == VNone { return Err("Unable to extract 'ttype'"); }
    var ptype := ParsePropertyType(lib, ttype);
    if ptype.None? { return Err("'" + Str(ttype) + "' is not a valid PropertyType"); }
    var fields := lib.propertyFields(ptype.value);
    if fields.None? { return Err("unsupported property type"); }
    var d := ProjectNode(fields.value, node);
    r := Ok(Tag(kind, Str(id), Some(created.t), Some(updated.t), o.value, Some(Property(ptype.value, d))));
  }

  /** The decoded property holds exactly the declared non-None fields and the
      `extra_*` keys of the node. */
  lemma NodeToTagPayload(lib: Library, kind: TagKind, node: Dict, owner: string -> Result<Owner>, k: string)
    requires NodeToTag(lib, kind, node, owner).Ok?
    ensures var t := NodeToTag(lib, kind, node, owner).value;
      var ptype := t.prop.value.ptype;
      && lib.propertyFields(ptype).Some?
      && Get(t.prop.value.attrs, k) ==
           if IsExtraKey(k) && k in Keys(node) then Some(NodeGet(node, k))
           else if k in lib.propertyFields(ptype).value && NodeGet(node, k) != VNone then Some(NodeGet(node, k))
           else None
  {
    var ptype := ParsePropertyType(lib, NodeGet(node, "ttype")).value;
    ProjectGet(lib.propertyFields(ptype).value, node, k);
  }
}
