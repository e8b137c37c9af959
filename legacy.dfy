/** `NeoRepository` of the `asset_db` store: the repository object whose
    methods run its Cypher queries.  The database is held in the object's
    fields; each method is proved to do what the matching `LegacySpec`
    function says. */
module Legacy {
  import opened Wrappers
  import opened Values
  import opened Oam
  import opened Records
  import opened Codec
  import opened Query
  import opened LegacySpec
  import Extract
  import Engine
  import Store

  class LegacyRepository {
    const lib: Library
    // the database
    var entityIds: set<string>
    var rels: seq<Extract.Rel>
    var entityTagNodes: seq<Dict>
    var edgeTagNodes: seq<Dict>

    function Db(): Db
      reads this
    {
      LegacySpec.Db(entityIds, rels, entityTagNodes, edgeTagNodes)
    }

    /** The repository over an open database; the connection itself is not
        modelled. */
    constructor(lib: Library, db: Db)
      ensures this.lib == lib && Db() == db
    {
      this.lib := lib;
      entityIds, rels := db.entityIds, db.rels;
      entityTagNodes, edgeTagNodes := db.entityTagNodes, db.edgeTagNodes;
    }

    // ---------------------------------------------------------------- edges

    /** The record loop of `incoming_edges` / `outgoing_edges`. */
    method Adjacent(dir: Engine.Direction, entity: Entity, since: Option<int>, labels: seq<string>) returns (r: Result<seq<Edge>>)
      ensures r == LegacySpec.Adjacent(lib, Db(), dir, entity, since, labels)
    {
      ghost var ps := AdjacentPicks(lib, rels, dir, entity, since, labels);
      var results: seq<Edge> := [];
      PrependNil(Gather(ps));
      assert ps[0..] == ps;
      var i := 0;
      while i < |rels|
        invariant 0 <= i <= |rels|
        invariant Gather(ps) == Prepend(results, Gather(ps[i..]))
      {
        assert ps[i..][1..] == ps[i + 1..];
        var rel := rels[i];
        var end := if dir == Engine.Outgoing then rel.fromId else rel.toId;
        var found := Store.LabelMatches(labels, rel.relType);
        if end == entity.id && SinceHolds(since, NodeGet(rel.props, "updated_at")) && found {
          var e := Extract.DecodeRelationship(lib, rel);
          if e.Err? {
            if dir == Engine.Incoming {
              return Err(e.msg);
            }
          } else {
            var edge := if dir == Engine.Outgoing then e.value.(fromEntity := Some(entity), toEntity := Some(Stub(rel.toId)))
                        else e.value.(fromEntity := Some(Stub(rel.fromId)), toEntity := Some(entity));
            PrependTwice(results, [edge], Gather(ps[i + 1..]));
            results := results + [edge];
          }
        }
        i := i + 1;
      }
      assert ps[i..] == [] && results + [] == results;
      if |results| == 0 {
        return Err("no edge found");
      }
      return Ok(results);
    }

    /** `incoming_edges(entity, since, *labels)` */
    method IncomingEdges(entity: Entity, since: Option<int>, labels: seq<string>) returns (r: Result<seq<Edge>>)
      ensures r == LegacySpec.Adjacent(lib, Db(), Engine.Incoming, entity, since, labels)
    {
      r := Adjacent(Engine.Incoming, entity, since, labels);
    }

    /** `outgoing_edges(entity, since, *labels)` */
    method OutgoingEdges(entity: Entity, since: Option<int>, labels: seq<string>) returns (r: Result<seq<Edge>>)
      ensures r == LegacySpec.Adjacent(lib, Db(), Engine.Outgoing, entity, since, labels)
    {
      r := Adjacent(Engine.Outgoing, entity, since, labels);
    }

    /** `find_edge_by_id(id)` */
    method FindEdgeById(id: string) returns (r: Result<Edge>)
      ensures r == LegacySpec.FindEdgeById(lib, Db(), id)
    {
      var rel := FirstRel(rels, id);
      if rel.None? {
        return Err("no edge was found");
      }
      var e := Extract.DecodeRelationship(lib, rel.value);
      if e.Err? {
        return Err(e.msg);
      }
      return Ok(e.value.(fromEntity := Some(Stub(rel.value.fromId)), toEntity := Some(Stub(rel.value.toId))));
    }

    /** `edge_seen(edge, updated)` */
    method EdgeSeen(id: string, updated: int)
      modifies this`rels
      ensures rels == LegacySpec.EdgeSeen(old(rels), id, updated)
    {
      rels := LegacySpec.EdgeSeen(rels, id, updated);
    }

    /** `get_duplicate_edge(edge, updated)` */
    method GetDuplicateEdge(edge: Edge, updated: int) returns (dup: Option<Edge>)
      modifies this`rels
      ensures var d := LegacySpec.GetDuplicateEdge(lib, old(Db()), edge, updated);
        dup == d.found && Db() == d.db
    {
      if edge.fromEntity.None? || edge.toEntity.None? {
        return None;
      }
      var outs := OutgoingEdges(edge.fromEntity.value, None, []);
      if outs.Err? {
        return None;
      }
      var i := 0;
      while i < |outs.value|
        invariant 0 <= i <= |outs.value|
        invariant FirstSame(outs.value, edge) == FirstSame(outs.value[i..], edge)
      {
        var out := outs.value[i];
        if SameEdge(out, edge) {
          EdgeSeen(out.id, updated);
          var e := FindEdgeById(out.id);
          if e.Err? {
            return None;
          }
          return Some(e.value);
        }
        assert outs.value[i..][1..] == outs.value[i + 1..];
        i := i + 1;
      }
      return None;
    }

    /** `create_edge(edge)`, with the clock reading and the element id of
        the new relationship passed in. */
    method CreateEdge(edge: Edge, now: int, elementId: string) returns (r: Result<Edge>)
      modifies this`rels
      ensures var out := LegacySpec.CreateEdge(lib, old(Db()), edge, now, elementId);
        r == out.result && Db() == out.db
    {
      if edge.relation.None? || edge.fromEntity.None? || edge.toEntity.None? {
        return Err("failed input validation check");
      }
      var from, to, relation := edge.fromEntity.value, edge.toEntity.value, edge.relation.value;
      if from.asset.None? || to.asset.None? {
        return Err(NoneAttribute);
      }
      if !lib.validRelationship(from.asset.value.assetType, lib.relationLabel(relation), relation.rtype, to.asset.value.assetType) {
        return Err(TaxonomyFormatError);
      }
      var e := edge;
      if e.updatedAt.None? {
        e := e.(updatedAt := Some(now));
      }
      var dup := GetDuplicateEdge(e, e.updatedAt.value);
      if dup.Some? {
        return Ok(dup.value);
      }
      if e.createdAt.None? {
        e := e.(createdAt := Some(now));
      }
      if from.id !in entityIds || to.id !in entityIds {
        return Err("no records returned from the query");
      }
      var rel := NewRel(lib, e, elementId);
      rels := rels + [rel];
      var decoded := Extract.DecodeRelationship(lib, rel);
      if decoded.Err? {
        return Err(decoded.msg);
      }
      return Ok(decoded.value.(fromEntity := edge.fromEntity, toEntity := edge.toEntity));
    }

    // ---------------------------------------------------------------- tags

    method TagNodesOf(kind: TagKind) returns (nodes: seq<Dict>)
      ensures nodes == TagNodes(Db(), kind)
    {
      nodes := if kind == EntityTagKind then entityTagNodes else edgeTagNodes;
    }

    /** The record loop of the content lookups: decode every node. */
    method DecodeNodes(kind: TagKind, nodes: seq<Dict>) returns (r: Result<seq<Tag>>)
      ensures r == DecodeAll(lib, kind, nodes)
    {
      ghost var ps := DecodePicks(lib, kind, nodes);
      var tags: seq<Tag> := [];
      PrependNil(Gather(ps));
      assert ps[0..] == ps;
      var i := 0;
      while i < |nodes|
        invariant 0 <= i <= |nodes|
        invariant Gather(ps) == Prepend(tags, Gather(ps[i..]))
      {
        assert ps[i..][1..] == ps[i + 1..];
        var t := Extract.DecodeTag(lib, kind, nodes[i]);
        if t.Err? {
          return Err(t.msg);
        }
        PrependTwice(tags, [t.value], Gather(ps[i + 1..]));
        tags := tags + [t.value];
        i := i + 1;
      }
      assert ps[i..] == [] && tags + [] == tags;
      if |tags| == 0 {
        return Err(NoTagMessage(kind));
      }
      return Ok(tags);
    }

    /** `find_entity_tags_by_content(prop, since)` /
        `find_edge_tags_by_content(prop, since)` */
    method FindTagsByContent(kind: TagKind, prop: Option<Property>, since: Option<int>) returns (r: Result<seq<Tag>>)
      ensures r == LegacySpec.FindTagsByContent(lib, Db(), kind, prop, since)
    {
      if prop.None? {
        return Err("asset type not supported");
      }
      var pairs := QueryPairsAsWritten(prop.value);
      if pairs.Err? {
        return Err(pairs.msg);
      }
      var all := TagNodesOf(kind);
      var nodes := Select(all, n => ContentKeep(pairs.value, since, n));
      if |nodes| == 0 {
        return Err(NoTagsMessage(kind));
      }
      r := DecodeNodes(kind, nodes);
    }

    /** The record loop of the owner lookups: decode every node and keep
        those whose property name is listed. */
    method DecodeNamedNodes(kind: TagKind, names: seq<string>, nodes: seq<Dict>) returns (r: Result<seq<Tag>>)
      ensures r == DecodeNamed(lib, kind, names, nodes)
    {
      ghost var ps := NamePicks(lib, kind, names, nodes);
      var tags: seq<Tag> := [];
      PrependNil(Gather(ps));
      assert ps[0..] == ps;
      var i := 0;
      while i < |nodes|
        invariant 0 <= i <= |nodes|
        invariant Gather(ps) == Prepend(tags, Gather(ps[i..]))
      {
        assert ps[i..][1..] == ps[i + 1..];
        var t := Extract.DecodeTag(lib, kind, nodes[i]);
        if t.Err? {
          return Err(t.msg);
        }
        if |names| == 0 || lib.propertyName(t.value.prop.value) in names {
          PrependTwice(tags, [t.value], Gather(ps[i + 1..]));
          tags := tags + [t.value];
        }
        i := i + 1;
      }
      assert ps[i..] == [] && tags + [] == tags;
      if |tags| == 0 {
        return Err(NoTagMessage(kind));
      }
      return Ok(tags);
    }

    /** `find_entity_tags(entity, since, *names)` /
        `find_edge_tags(edge, since, *names)` */
    method FindTags(kind: TagKind, ownerId: string, since: Option<int>, names: seq<string>) returns (r: Result<seq<Tag>>)
      ensures r == LegacySpec.FindTags(lib, Db(), kind, ownerId, since, names)
    {
      var all := TagNodesOf(kind);
      var nodes := Select(all, n => OwnerKeep(kind, ownerId, since, n));
      if |nodes| == 0 {
        return Err(NoTagsMessage(kind));
      }
      r := DecodeNamedNodes(kind, names, nodes);
    }

    /** The `existing_tag` of `create_entity_tag` / `create_edge_tag`. */
    method FindExistingTag(kind: TagKind, owner: Owner, tag: Tag, now: int) returns (existing: Option<Tag>)
      requires OwnerId(kind, owner).Some?
      ensures existing == ExistingTag(lib, Db(), kind, owner, tag, now)
    {
      if tag.id != "" {
        return Some(Tag(kind, tag.id, tag.createdAt, Some(now), owner, tag.prop));
      }
      var found := FindTagsByContent(kind, tag.prop, None);
      if found.Err? {
        return None;
      }
      var tags := found.value;
      var id := OwnerId(kind, owner).value;
      var i := 0;
      while i < |tags|
        invariant 0 <= i <= |tags|
        invariant FirstOwned(tags, kind, id) == FirstOwned(tags[i..], kind, id)
      {
        if OwnerId(kind, tags[i].owner) == Some(id) {
          return Some(tags[i].(owner := owner, prop := tag.prop, updatedAt := Some(now)));
        }
        assert tags[i..][1..] == tags[i + 1..];
        i := i + 1;
      }
      return None;
    }

    method SetTagNodesOf(kind: TagKind, nodes: seq<Dict>)
      modifies this`entityTagNodes, this`edgeTagNodes
      ensures Db() == WithTagNodes(old(Db()), kind, nodes)
    {
      if kind == EntityTagKind {
        entityTagNodes := nodes;
      } else {
        edgeTagNodes := nodes;
      }
    }

    /** `create_entity_tag(entity, tag)` / `create_edge_tag(edge, tag)`,
        with the clock reading and a fresh id passed in. */
    method CreateTag(kind: TagKind, owner: Owner, tag: Tag, now: int, freshId: string) returns (r: Result<Tag>)
      requires OwnerId(kind, owner).Some?
      modifies this`entityTagNodes, this`edgeTagNodes
      ensures var out := LegacySpec.CreateTag(lib, old(Db()), kind, owner, tag, now, freshId);
        r == out.result && Db() == out.db
    {
      var existing := FindExistingTag(kind, owner, tag, now);
      var nodes := TagNodesOf(kind);
      if existing.Some? {
        var ex := existing.value;
        if tag.prop.None? || ex.prop.None? {
          return Err(NoneAttribute);
        }
        if tag.prop.value.ptype != ex.prop.value.ptype {
          return Err(MismatchMessage);
        }
        var props := TagToDict(ex);
        if props.Err? {
          return Err(props.msg);
        }
        if !HasTagId(nodes, ex.id) {
          return Err("no records returned from the query");
        }
        SetTagNodesOf(kind, SetTagNodes(nodes, ex.id, props.value));
        r := Extract.DecodeTag(lib, kind, props.value);
        return;
      }
      var t := tag.(kind := kind, owner := owner);
      if t.id == "" {
        t := t.(id := freshId);
      }
      if t.createdAt.None? {
        t := t.(createdAt := Some(now));
      }
      if t.updatedAt.None? {
        t := t.(updatedAt := Some(now));
      }
      assert t == NewTag(kind, owner, tag, now, freshId);
      var props := TagToDict(t);
      if props.Err? {
        return Err(props.msg);
      }
      SetTagNodesOf(kind, nodes + [props.value]);
      r := Extract.DecodeTag(lib, kind, props.value);
    }

    /** `create_entity_property(entity, prop)` */
    method CreateEntityProperty(entity: Entity, prop: Property, now: int, freshId: string) returns (r: Result<Tag>)
      modifies this`entityTagNodes, this`edgeTagNodes
      ensures var out := LegacySpec.CreateTag(lib, old(Db()), EntityTagKind, OwnerEntity(entity), PropertyTag(EntityTagKind, prop), now, freshId);
        r == out.result && Db() == out.db
    {
      r := CreateTag(EntityTagKind, OwnerEntity(entity), PropertyTag(EntityTagKind, prop), now, freshId);
    }

    /** `create_edge_property(edge, prop)` */
    method CreateEdgeProperty(edge: Edge, prop: Property, now: int, freshId: string) returns (r: Result<Tag>)
      modifies this`entityTagNodes, this`edgeTagNodes
      ensures var out := LegacySpec.CreateTag(lib, old(Db()), EdgeTagKind, OwnerEdge(edge), PropertyTag(EdgeTagKind, prop), now, freshId);
        r == out.result && Db() == out.db
    {
      r := CreateTag(EdgeTagKind, OwnerEdge(edge), PropertyTag(EdgeTagKind, prop), now, freshId);
    }
  }
}
