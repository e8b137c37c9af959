/** The record types of the store (`Entity`, `Edge`, `EntityTag`, `EdgeTag`):
    their discriminators, labels, `to_dict` encodings and `create`
    constructors.  Fields the dataclasses allow to be None are `Option`s, and
    an id that is None or empty is the empty string. */
module Records {
  import opened Wrappers
  import opened Values
  import opened Flattening
  import opened Oam

  /** A timestamp that may be unset. */
  type Stamp = Option<int>

  datatype Entity = Entity(id: string, createdAt: Stamp, updatedAt: Stamp, asset: Option<Asset>)

  datatype Edge = Edge(
    id: string,
    createdAt: Stamp,
    updatedAt: Stamp,
    relation: Option<Relation>,
    fromEntity: Option<Entity>,
    toEntity: Option<Entity>)

  datatype TagKind = EntityTagKind | EdgeTagKind

  /** What a tag is attached to. */
  datatype Owner = NoOwner | OwnerEntity(entity: Entity) | OwnerEdge(edge: Edge)

  /** An `EntityTag` or an `EdgeTag`. */
  datatype Tag = Tag(kind: TagKind, id: string, createdAt: Stamp, updatedAt: Stamp, owner: Owner, prop: Option<Property>)

  /** Python raises AttributeError when a None field is dereferenced. */
  const NoneAttribute := "'NoneType' object has no attribute"

  function StampValue(s: Stamp): Value {
    if s.Some? then VTime(s.value) else VNone
  }

  /** The id of the owner a tag kind expects, None when the owner is missing
      or of the other kind. */
  function OwnerId(kind: TagKind, o: Owner): Option<string> {
    match (kind, o)
    case (EntityTagKind, OwnerEntity(e)) => Some(e.id)
    case (EdgeTagKind, OwnerEdge(e)) => Some(e.id)
    case _ => None
  }

  function OwnerKey(kind: TagKind): string {
    if kind == EntityTagKind then "entity_id" else "edge_id"
  }

  // ---- discriminators and labels ----

  /** `Entity.etype` */
  function EntityType(e: Entity): Result<string> {
    if e.asset.None? then Err(NoneAttribute) else Ok(e.asset.value.assetType)
  }

  /** `Edge.etype` */
  function EdgeType(e: Edge): Result<string> {
    if e.relation.None? then Err(NoneAttribute) else Ok(RelationTypeValue(e.relation.value.rtype))
  }

  /** `EntityTag.ttype` and `EdgeTag.ttype` */
  function TagType(t: Tag): Result<string> {
    if t.prop.None? then Err(NoneAttribute) else Ok(PropertyTypeValue(t.prop.value.ptype))
  }

  function UpperChar(c: char): char {
    if 'a' <= c <= 'z' then (c as int - 32) as char else c
  }

  function LowerChar(c: char): char {
    if 'A' <= c <= 'Z' then (c as int + 32) as char else c
  }

  /** `str.upper()` over ASCII letters. */
  function Upper(s: string): string {
    seq(|s|, i requires 0 <= i < |s| => UpperChar(s[i]))
  }

  /** `str.casefold()` over ASCII letters. */
  function Fold(s: string): string {
    seq(|s|, i requires 0 <= i < |s| => LowerChar(s[i]))
  }

  /** `Edge.label`: the relation's label in upper case. */
  function EdgeLabel(lib: Library, e: Edge): Result<string> {
    if e.relation.None? then Err(NoneAttribute) else Ok(Upper(lib.relationLabel(e.relation.value)))
  }

  /** Upper-casing a label a second time changes nothing. */
  lemma UpperIdempotent(s: string)
    ensures Upper(Upper(s)) == Upper(s)
  {
    assert forall i | 0 <= i < |s| :: UpperChar(UpperChar(s[i])) == UpperChar(s[i]);
  }

  /** The stored upper-case label matches its source label under casefold. */
  lemma FoldUpper(s: string)
    ensures Fold(Upper(s)) == Fold(s)
  {
    assert forall i | 0 <= i < |s| :: LowerChar(UpperChar(s[i])) == LowerChar(s[i]);
  }

  // ---- to_dict ----

  function EntityHeader(e: Entity): Dict
    requires e.asset.Some?
  {
    [("entity_id", VStr(e.id)), ("created_at", StampValue(e.createdAt)),
     ("updated_at", StampValue(e.updatedAt)), ("etype", VStr(e.asset.value.assetType))]
  }

  /** `Entity.to_dict()` */
  function EntityToDict(e: Entity): Result<Dict> {
    if e.asset.None? then Err(NoneAttribute)
    else Ok(Update(EntityHeader(e), Flatten(e.asset.value.attrs)))
  }

  function EdgeHeader(e: Edge): Dict
    requires e.relation.Some?
  {
    [("created_at", StampValue(e.createdAt)), ("updated_at", StampValue(e.updatedAt)),
     ("etype", VStr(RelationTypeValue(e.relation.value.rtype)))]
  }

  /** `Edge.to_dict()` */
  function EdgeToDict(e: Edge): Result<Dict> {
    if e.relation.None? then Err(NoneAttribute)
    else Ok(Update(EdgeHeader(e), Flatten(e.relation.value.attrs)))
  }

  function TagHeader(t: Tag): Dict
    requires t.prop.Some? && OwnerId(t.kind, t.owner).Some?
  {
    [("tag_id", VStr(t.id)), (OwnerKey(t.kind), VStr(OwnerId(t.kind, t.owner).value)),
     ("created_at", StampValue(t.createdAt)), ("updated_at", StampValue(t.updatedAt)),
     ("ttype", VStr(PropertyTypeValue(t.prop.value.ptype)))]
  }

  /** `EntityTag.to_dict()` and `EdgeTag.to_dict()` */
  function TagToDict(t: Tag): Result<Dict> {
    if t.prop.None? || OwnerId(t.kind, t.owner).None? then Err(NoneAttribute)
    else Ok(Update(TagHeader(t), Flatten(t.prop.value.attrs)))
  }

  /** A header followed by a spread flattened payload: a payload key wins over
      the header key of the same name, every other header key is kept, and
      the result is a flat dict without repeated keys. */
  lemma SpreadGet(header: Dict, payload: Dict, k: string)
    requires UniqueKeys(header) && IsFlat(header)
    ensures Get(Update(header, Flatten(payload)), k) ==
      if k in Keys(Leaves(payload)) then Get(Leaves(payload), k) else Get(header, k)
    ensures Keys(Update(header, Flatten(payload))) == Keys(header) + Keys(Leaves(payload))
    ensures IsFlat(Update(header, Flatten(payload))) && UniqueKeys(Update(header, Flatten(payload)))
  {
    FlattenGet(payload, k);
    GetUpdate(header, Flatten(payload), k);
    FlattenIsFlat(payload);
    UpdateKeepsUniqueFlat(header, Flatten(payload));
  }

  /** `Edge.to_dict()` holds created_at, updated_at and etype unless the
      flattened relation supplies a key of the same name, every flattened
      relation key, no id, and nothing else. */
  lemma EdgeToDictGet(e: Edge, k: string)
    requires e.relation.Some?
    ensures EdgeToDict(e).Ok?
    ensures var d := EdgeToDict(e).value; var leaves := Leaves(e.relation.value.attrs);
      && Keys(d) == {"created_at", "updated_at", "etype"} + Keys(leaves)
      && Get(d, k) == (if k in Keys(leaves) then Get(leaves, k)
                       else if k == "created_at" then Some(StampValue(e.createdAt))
                       else if k == "updated_at" then Some(StampValue(e.updatedAt))
                       else if k == "etype" then Some(VStr(RelationTypeValue(e.relation.value.rtype)))
                       else None)
      && IsFlat(d) && UniqueKeys(d)
  {
    var h := EdgeHeader(e);
    assert Keys(h) == {"created_at", "updated_at", "etype"} by {
      assert h[0].0 == "created_at" && h[1].0 == "updated_at" && h[2].0 == "etype";
    }
    SpreadGet(h, e.relation.value.attrs, k);
    if k == "created_at" { GetUnique(h, 0); }
    else if k == "updated_at" { GetUnique(h, 1); }
    else if k == "etype" { GetUnique(h, 2); }
  }

  /** `EntityTag.to_dict()` / `EdgeTag.to_dict()` hold the tag id, the owner
      id, both timestamps and ttype unless the flattened property supplies a
      key of the same name, then every flattened property key. */
  lemma TagToDictGet(t: Tag, k: string)
    requires t.prop.Some? && OwnerId(t.kind, t.owner).Some?
    ensures TagToDict(t).Ok?
    ensures var d := TagToDict(t).value; var leaves := Leaves(t.prop.value.attrs);
      && Keys(d) == {"tag_id", OwnerKey(t.kind), "created_at", "updated_at", "ttype"} + Keys(leaves)
      && Get(d, k) == (if k in Keys(leaves) then Get(leaves, k)
                       else if k == "tag_id" then Some(VStr(t.id))
                       else if k == OwnerKey(t.kind) then Some(VStr(OwnerId(t.kind, t.owner).value))
                       else if k == "created_at" then Some(StampValue(t.createdAt))
                       else if k == "updated_at" then Some(StampValue(t.updatedAt))
                       else if k == "ttype" then Some(VStr(PropertyTypeValue(t.prop.value.ptype)))
                       else None)
      && IsFlat(d) && UniqueKeys(d)
  {
    var h := TagHeader(t);
    assert Keys(h) == {"tag_id", OwnerKey(t.kind), "created_at", "updated_at", "ttype"} by {
      assert h[0].0 == "tag_id" && h[1].0 == OwnerKey(t.kind) && h[2].0 == "created_at";
      assert h[3].0 == "updated_at" && h[4].0 == "ttype";
    }
    SpreadGet(h, t.prop.value.attrs, k);
    if k == "tag_id" { GetUnique(h, 0); }
    else if k == OwnerKey(t.kind) { GetUnique(h, 1); }
    else if k == "created_at" { GetUnique(h, 2); }
    else if k == "updated_at" { GetUnique(h, 3); }
    else if k == "ttype" { GetUnique(h, 4); }
  }

  /** `Entity.to_dict()` holds entity_id, both timestamps and etype unless
      the flattened asset supplies a key of the same name. */
  lemma EntityToDictGet(e: Entity, k: string)
    requires e.asset.Some?
    ensures EntityToDict(e).Ok?
    ensures var d := EntityToDict(e).value; var leaves := Leaves(e.asset.value.attrs);
      && Keys(d) == {"entity_id", "created_at", "updated_at", "etype"} + Keys(leaves)
      && Get(d, k) == (if k in Keys(leaves) then Get(leaves, k)
                       else if k == "entity_id" then Some(VStr(e.id))
                       else if k == "created_at" then Some(StampValue(e.createdAt))
                       else if k == "updated_at" then Some(StampValue(e.updatedAt))
                       else if k == "etype" then Some(VStr(e.asset.value.assetType))
                       else None)
      && IsFlat(d) && UniqueKeys(d)
  {
    var h := EntityHeader(e);
    assert Keys(h) == {"entity_id", "created_at", "updated_at", "etype"} by {
      assert h[0].0 == "entity_id" && h[1].0 == "created_at" && h[2].0 == "updated_at" && h[3].0 == "etype";
    }
    SpreadGet(h, e.asset.value.attrs, k);
    if k == "entity_id" { GetUnique(h, 0); }
    else if k == "created_at" { GetUnique(h, 1); }
    else if k == "updated_at" { GetUnique(h, 2); }
    else if k == "etype" { GetUnique(h, 3); }
  }

  // ---- create ----

  /** `Entity.create(asset)`, with the fresh id and the clock reading passed in. */
  function CreateEntity(asset: Asset, id: string, now: int): Entity {
    Entity(id, Some(now), Some(now), Some(asset))
  }

  /** `Edge.create(relation, from_entity, to_entity)` */
  function CreateEdge(relation: Relation, from: Entity, to: Entity, id: string, now: int): Edge {
    Edge(id, Some(now), Some(now), Some(relation), Some(from), Some(to))
  }

  /** `EntityTag.create(entity, property)` and `EdgeTag.create(edge, property)` */
  function CreateTag(kind: TagKind, owner: Owner, prop: Property, id: string, now: int): Tag {
    Tag(kind, id, Some(now), Some(now), owner, Some(prop))
  }

  /** A created edge keeps its inputs, carries an id none of the existing
      edges has when given a fresh one, and encodes both timestamps as the
      clock reading unless the relation overrides them. */
  lemma CreatedEdge(relation: Relation, from: Entity, to: Entity, id: string, now: int, taken: set<string>)
    requires id !in taken
    ensures var e := CreateEdge(relation, from, to, id, now);
      && e.id !in taken && e.relation == Some(relation) && e.fromEntity == Some(from) && e.toEntity == Some(to)
      && EdgeType(e) == Ok(RelationTypeValue(relation.rtype))
      && ("created_at" !in Keys(Leaves(relation.attrs)) ==> Get(EdgeToDict(e).value, "created_at") == Some(VTime(now)))
      && ("updated_at" !in Keys(Leaves(relation.attrs)) ==> Get(EdgeToDict(e).value, "updated_at") == Some(VTime(now)))
  {
    var e := CreateEdge(relation, from, to, id, now);
    EdgeToDictGet(e, "created_at");
    EdgeToDictGet(e, "updated_at");
  }

  /** A created tag keeps its owner and property, carries a fresh id and
      encodes both timestamps as the clock reading unless the property
      overrides them. */
  lemma CreatedTag(kind: TagKind, owner: Owner, prop: Property, id: string, now: int, taken: set<string>)
    requires id !in taken && OwnerId(kind, owner).Some?
    ensures var t := CreateTag(kind, owner, prop, id, now);
      && t.id !in taken && t.owner == owner && t.prop == Some(prop)
      && TagType(t) == Ok(PropertyTypeValue(prop.ptype))
      && ("created_at" !in Keys(Leaves(prop.attrs)) ==> Get(TagToDict(t).value, "created_at") == Some(VTime(now)))
      && ("updated_at" !in Keys(Leaves(prop.attrs)) ==> Get(TagToDict(t).value, "updated_at") == Some(VTime(now)))
  {
    var t := CreateTag(kind, owner, prop, id, now);
    TagToDictGet(t, "created_at");
    TagToDictGet(t, "updated_at");
  }

  /** A created entity keeps its asset, carries a fresh id and encodes its id
      and both timestamps unless the asset overrides them. */
  lemma CreatedEntity(asset: Asset, id: string, now: int, taken: set<string>)
    requires id !in taken
    ensures var e := CreateEntity(asset, id, now);
      && e.id !in taken && e.asset == Some(asset) && EntityType(e) == Ok(asset.assetType)
      && ("entity_id" !in Keys(Leaves(asset.attrs)) ==> Get(EntityToDict(e).value, "entity_id") == Some(VStr(id)))
      && ("created_at" !in Keys(Leaves(asset.attrs)) ==> Get(EntityToDict(e).value, "created_at") == Some(VTime(now)))
      && ("updated_at" !in Keys(Leaves(asset.attrs)) ==> Get(EntityToDict(e).value, "updated_at") == Some(VTime(now)))
  {
    var e := CreateEntity(asset, id, now);
    EntityToDictGet(e, "entity_id");
    EntityToDictGet(e, "created_at");
    EntityToDictGet(e, "updated_at");
  }
}
