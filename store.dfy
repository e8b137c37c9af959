/** `NeoRepository` of the `asset_store` engine: the repository object whose
    methods run the Cypher queries of edge.py, entity_tag.py and edge_tag.py
    and buffer the events they emit.  The database it talks to is held in the
    object's fields; every method is proved to do what the matching
    `Engine` function says, and the loops over query records carry the
    invariants that connect them. */
module Store {
  import opened Wrappers
  import opened Values
  import opened Oam
  import opened Records
  import opened Engine

  /** The label loop of `incoming_edges` / `outgoing_edges`: does any label
      equal the relationship type under casefold? */
  method LabelMatches(labels: seq<string>, relType: string) returns (found: bool)
    ensures found == LabelOk(labels, relType)
  {
    if |labels| == 0 {
      return true;
    }
    var j := 0;
    while j < |labels|
      invariant 0 <= j <= |labels|
      invariant forall k | 0 <= k < j :: Fold(labels[k]) != Fold(relType)
    {
      if Fold(labels[j]) == Fold(relType) {
        return true;
      }
      j := j + 1;
    }
    return false;
  }

  class NeoRepository {
    const lib: Library
    const enforceTaxonomy: bool
    const emitEvents: bool
    // the database
    var entities: map<string, Entity>
    var edges: seq<EdgeRow>
    var entityTags: seq<TagRow>
    var edgeTags: seq<TagRow>
    // `_events_buffer`
    var events: seq<Event>

    function State(): Graph
      reads this
    {
      Graph(entities, edges, entityTags, edgeTags)
    }

    /** What `_emit` adds to the buffer: the event when events are enabled. */
    function Emitted(ev: Option<Event>): seq<Event> {
      if emitEvents && ev.Some? then [ev.value] else []
    }

    /** `NeoRepository(uri, auth, enforce_taxonomy=True, emit_events=False)`
        over a database holding `db`; the event buffer starts empty. */
    constructor(lib: Library, db: Graph, enforceTaxonomy: bool := true, emitEvents: bool := false)
      ensures this.lib == lib && this.enforceTaxonomy == enforceTaxonomy && this.emitEvents == emitEvents
      ensures State() == db && events == []
    {
      this.lib := lib;
      this.enforceTaxonomy := enforceTaxonomy;
      this.emitEvents := emitEvents;
      entities := db.entities;
      edges := db.edges;
      entityTags := db.entityTags;
      edgeTags := db.edgeTags;
      events := [];
    }

    /** `_emit`: buffered only when events are enabled. */
    method Emit(ev: Event)
      modifies this`events
      ensures events == old(events) + Emitted(Some(ev))
    {
      if emitEvents {
        events := events + [ev];
      }
    }

    /** `flush_events`: hands over the buffer and empties it. */
    method FlushEvents() returns (flushed: seq<Event>)
      modifies this`events
      ensures flushed == old(events) && events == []
    {
      flushed := events;
      events := [];
    }

    // ---------------------------------------------------------------- edges

    /** `find_edge_by_id` */
    method FindEdgeById(id: string) returns (r: Result<Edge>)
      ensures r == Engine.FindEdgeById(State(), id)
    {
      var i := 0;
      while i < |edges|
        invariant 0 <= i <= |edges|
        invariant FirstEdgeRow(entities, edges, id) == FirstEdgeRow(entities, edges[i..], id)
      {
        var row := edges[i];
        if row.id == id && row.fromId in entities && row.toId in entities {
          return Ok(HydrateEdge(row, entities[row.fromId], entities[row.toId]));
        }
        assert edges[i..][1..] == edges[i + 1..];
        i := i + 1;
      }
      return Err("no edge was found");
    }

    /** The record loop shared by `incoming_edges` and `outgoing_edges`. */
    method Adjacent(dir: Direction, entity: Entity, since: Option<int>, labels: seq<string>) returns (r: seq<Edge>)
      ensures r == Engine.Adjacent(State(), dir, entity, since, labels)
    {
      r := [];
      var i := 0;
      while i < |edges|
        invariant 0 <= i <= |edges|
        invariant r == AdjacentRows(entities, edges[..i], dir, entity, since, labels)
      {
        var row := edges[i];
        var anchored := if dir == Outgoing then row.fromId == entity.id else row.toId == entity.id;
        if anchored && row.fromId in entities && row.toId in entities && SinceOk(since, row.updatedAt) {
          var found := LabelMatches(labels, row.relType);
          if found {
            r := r + [HydrateAdjacent(entities, row, dir, entity)];
          }
        }
        AdjacentRowsAppend(entities, edges[..i], row, dir, entity, since, labels);
        assert edges[..i + 1] == edges[..i] + [row];
        i := i + 1;
      }
      assert edges[..i] == edges;
    }

    /** `incoming_edges(entity, since, *labels)` */
    method IncomingEdges(entity: Entity, since: Option<int>, labels: seq<string>) returns (r: seq<Edge>)
      ensures r == Engine.Adjacent(State(), Incoming, entity, since, labels)
    {
      r := Adjacent(Incoming, entity, since, labels);
    }

    /** `outgoing_edges(entity, since, *labels)` */
    method OutgoingEdges(entity: Entity, since: Option<int>, labels: seq<string>) returns (r: seq<Edge>)
      ensures r == Engine.Adjacent(State(), Outgoing, entity, since, labels)
    {
      r := Adjacent(Outgoing, entity, since, labels);
    }

    /** `_find_existing_edge` */
    method FindExistingEdge(edge: Edge) returns (r: Result<Option<Edge>>)
      ensures r == Engine.FindExistingEdge(lib, State(), edge)
    {
      if edge.id != "" {
        var e := FindEdgeById(edge.id);
        if e.Err? {
          return Err(e.msg);
        }
        return Ok(Some(e.value));
      }
      if edge.fromEntity.None? || edge.toEntity.None? || edge.relation.None? {
        return Ok(None);
      }
      var outs := OutgoingEdges(edge.fromEntity.value, None, []);
      var i := 0;
      while i < |outs|
        invariant 0 <= i <= |outs|
        invariant FirstDuplicate(lib, outs, edge) == FirstDuplicate(lib, outs[i..], edge)
      {
        if IsDuplicate(lib, outs[i], edge) {
          return Ok(Some(outs[i]));
        }
        assert outs[i..][1..] == outs[i + 1..];
        i := i + 1;
      }
      return Ok(None);
    }

    /** `create_edge`, with the fresh id and the clock reading passed in. */
    method CreateEdge(edge: Edge, now: int, freshId: string) returns (r: Result<Edge>)
      modifies this
      ensures var s := Engine.CreateEdge(lib, enforceTaxonomy, old(State()), edge, now, freshId);
        r == s.result && State() == s.graph && events == old(events) + Emitted(s.event)
    {
      var gate := TaxonomyCheck(lib, enforceTaxonomy, edge);
      if gate.Some? {
        return Err(gate.value);
      }
      var existing := FindExistingEdge(edge);
      if existing.Err? {
        return Err(existing.msg);
      }
      if existing.value.None? {
        if edge.fromEntity.None? || edge.toEntity.None? || edge.relation.None? {
          return Err(NoneAttribute);
        }
        var from, to, rel := edge.fromEntity.value, edge.toEntity.value, edge.relation.value;
        var ne := Records.CreateEdge(rel, from, to, freshId, now);
        if from.id !in entities || to.id !in entities {
          return Err("no records returned from the query");
        }
        edges := edges + [EdgeRow(freshId, now, now, rel, from.id, to.id, Upper(lib.relationLabel(rel)))];
        Emit(EdgeInserted(ne));
        return Ok(ne);
      }
      var prev := existing.value.value;
      if edge.relation.None? || prev.relation.None? {
        return Err(NoneAttribute);
      }
      if lib.relationIsFresher(edge.relation.value, prev.relation.value) {
        var ne := prev.(relation := Some(lib.relationOverride(prev.relation.value, edge.relation.value)), updatedAt := Some(now));
        if ne.createdAt.None? || !RowExists(edges, prev.id) {
          return Err("no records returned from the query");
        }
        edges := SetById(edges, prev.id, ne);
        Emit(EdgeUpdated(prev, ne));
        return Ok(ne);
      }
      Emit(EdgeUntouched(prev));
      return Ok(prev);
    }

    /** `create_relation(relation, from_entity, to_entity)` */
    method CreateRelation(relation: Relation, from: Entity, to: Entity, now: int, freshId: string) returns (r: Result<Edge>)
      modifies this
      ensures var s := Engine.CreateEdge(lib, enforceTaxonomy, old(State()), RelationEdge(relation, from, to), now, freshId);
        r == s.result && State() == s.graph && events == old(events) + Emitted(s.event)
    {
      r := CreateEdge(RelationEdge(relation, from, to), now, freshId);
    }

    /** `delete_edge` */
    method DeleteEdge(id: string) returns (r: Result<Edge>)
      modifies this
      ensures var s := Engine.DeleteEdge(old(State()), id);
        r == s.result && State() == s.graph && events == old(events) + Emitted(s.event)
    {
      r := FindEdgeById(id);
      if r.Err? {
        return;
      }
      edges := RemoveEdgeRows(edges, id);
      Emit(EdgeDeleted(r.value));
    }

    // ---------------------------------------------------------------- tags

    method FindOwner(kind: TagKind, id: string) returns (r: Result<Owner>)
      ensures r == Engine.FindOwner(State(), kind, id)
    {
      if kind == EntityTagKind {
        if id !in entities {
          return Err("entity not found");
        }
        return Ok(OwnerEntity(entities[id]));
      }
      var e := FindEdgeById(id);
      if e.Err? {
        return Err(e.msg);
      }
      return Ok(OwnerEdge(e.value));
    }

    /** `_node_to_entity_tag` / `_node_to_edge_tag` on a stored node. */
    method HydrateTag(kind: TagKind, row: TagRow) returns (r: Result<Tag>)
      ensures r == Engine.HydrateTag(State(), kind, row)
    {
      var o := FindOwner(kind, row.ownerId);
      if o.Err? {
        return Err(o.msg);
      }
      return Ok(Tag(kind, row.id, Some(row.createdAt), Some(row.updatedAt), o.value, Some(row.prop)));
    }

    /** `find_entity_tag_by_id` / `find_edge_tag_by_id`, as intended. */
    method FindTagById(kind: TagKind, id: string) returns (r: Result<Tag>)
      ensures r == Engine.FindTagById(State(), kind, id)
    {
      var rows := TagRows(State(), kind);
      var i := 0;
      while i < |rows|
        invariant 0 <= i <= |rows|
        invariant FirstTagRow(rows, id) == FirstTagRow(rows[i..], id)
      {
        if rows[i].id == id {
          r := HydrateTag(kind, rows[i]);
          return;
        }
        assert rows[i..][1..] == rows[i + 1..];
        i := i + 1;
      }
      return Err(NotFoundMessage(kind, id));
    }

    /** `find_entity_tags_by_content` / `find_edge_tags_by_content` */
    method FindTagsByContent(kind: TagKind, prop: Property, since: Option<int>) returns (r: Result<seq<Tag>>)
      ensures r == Engine.FindTagsByContent(State(), kind, prop, since)
    {
      if prop.attrs == [] {
        return Err("Invalid input: empty WHERE clause");
      }
      var rows := TagRows(State(), kind);
      var tags: seq<Tag> := [];
      var i := 0;
      assert rows[0..] == rows;
      PrependNil(DecodeMatches(State(), kind, rows, prop, since));
      while i < |rows|
        invariant 0 <= i <= |rows|
        invariant DecodeMatches(State(), kind, rows, prop, since) ==
          Prepend(tags, DecodeMatches(State(), kind, rows[i..], prop, since))
      {
        assert rows[i..][0] == rows[i] && rows[i..][1..] == rows[i + 1..];
        if RowMatches(kind, rows[i], prop, since) {
          var t := HydrateTag(kind, rows[i]);
          if t.Err? {
            return Err(t.msg);
          }
          PrependTwice(tags, [t.value], DecodeMatches(State(), kind, rows[i + 1..], prop, since));
          tags := tags + [t.value];
        }
        i := i + 1;
      }
      assert rows[i..] == [] && tags + [] == tags;
      return Ok(tags);
    }

    /** The record loop of `find_entity_tags` / `find_edge_tags`: decode
        each node, keep those whose property name is asked for. */
    method DecodeOwnedRows(kind: TagKind, rows: seq<TagRow>, names: seq<string>) returns (r: Result<seq<Tag>>)
      ensures r == DecodeOwned(lib, State(), kind, rows, names)
    {
      var tags: seq<Tag> := [];
      var i := 0;
      assert rows[0..] == rows;
      PrependNil(DecodeOwned(lib, State(), kind, rows, names));
      while i < |rows|
        invariant 0 <= i <= |rows|
        invariant DecodeOwned(lib, State(), kind, rows, names) ==
          Prepend(tags, DecodeOwned(lib, State(), kind, rows[i..], names))
      {
        assert rows[i..][0] == rows[i] && rows[i..][1..] == rows[i + 1..];
        var t := HydrateTag(kind, rows[i]);
        if t.Err? {
          return Err(t.msg);
        }
        if |names| == 0 || lib.propertyName(rows[i].prop) in names {
          PrependTwice(tags, [t.value], DecodeOwned(lib, State(), kind, rows[i + 1..], names));
          tags := tags + [t.value];
        }
        i := i + 1;
      }
      assert rows[i..] == [] && tags + [] == tags;
      return Ok(tags);
    }

    /** `find_entity_tags` / `find_edge_tags` */
    method FindTags(kind: TagKind, ownerId: string, since: Option<int>, names: seq<string>) returns (r: Result<seq<Tag>>)
      ensures r == Engine.FindTags(lib, State(), kind, ownerId, since, names)
    {
      var rows := OwnedRows(TagRows(State(), kind), ownerId, since);
      if kind == EntityTagKind && |rows| == 0 {
        return Err("no entity tags found");
      }
      r := DecodeOwnedRows(kind, rows, names);
      if r.Ok? && kind == EntityTagKind && |r.value| == 0 {
        return Err("no entity tag found");
      }
    }

    /** `_find_existing_entity_tag` / `_find_existing_edge_tag` */
    method FindExistingTag(kind: TagKind, tag: Tag) returns (r: Result<Option<Tag>>)
      requires tag.prop.Some?
      ensures r == Engine.FindExistingTag(State(), kind, tag)
    {
      if tag.id != "" {
        var t := FindTagById(kind, tag.id);
        if t.Err? {
          return Err(t.msg);
        }
        return Ok(Some(t.value));
      }
      var found := FindTagsByContent(kind, tag.prop.value, None);
      if found.Err? {
        return Err(found.msg);
      }
      if |found.value| > 0 {
        return Ok(Some(found.value[0]));
      }
      return Ok(None);
    }

    method SetTagRowsOf(kind: TagKind, rows: seq<TagRow>)
      modifies this`entityTags, this`edgeTags
      ensures State() == WithTagRows(old(State()), kind, rows)
    {
      if kind == EntityTagKind {
        entityTags := rows;
      } else {
        edgeTags := rows;
      }
    }

    /** `create_entity_tag` / `create_edge_tag`, with the fresh id and the
        clock reading passed in. */
    method CreateTag(kind: TagKind, tag: Tag, now: int, freshId: string) returns (r: Result<Tag>)
      modifies this
      ensures var s := Engine.CreateTag(lib, old(State()), kind, tag, now, freshId);
        r == s.result && State() == s.graph && events == old(events) + Emitted(s.event)
    {
      if tag.prop.None? {
        return Err("malformed entity tag");
      }
      var existing := FindExistingTag(kind, tag);
      if existing.Err? {
        return Err(existing.msg);
      }
      var rows := TagRows(State(), kind);
      if existing.value.None? {
        var nt := Records.CreateTag(kind, tag.owner, tag.prop.value, freshId, now);
        if OwnerId(kind, nt.owner).None? {
          return Err(NoneAttribute);
        }
        SetTagRowsOf(kind, rows + [RowOf(kind, nt)]);
        Emit(TagInserted(nt));
        return Ok(nt);
      }
      var prev := existing.value.value;
      if prev.prop.None? {
        return Err(NoneAttribute);
      }
      if lib.propertyIsFresher(tag.prop.value, prev.prop.value) {
        var nt := prev.(updatedAt := Some(now), prop := Some(lib.propertyOverride(prev.prop.value, tag.prop.value)));
        if nt.createdAt.None? || OwnerId(kind, nt.owner).None? {
          return Err(NoneAttribute);
        }
        if kind == EdgeTagKind && FirstTagRow(rows, prev.id).None? {
          return Err("no records returned from the query");
        }
        SetTagRowsOf(kind, SetTagRows(rows, prev.id, RowOf(kind, nt)));
        Emit(TagUpdated(prev, nt));
        return Ok(nt);
      }
      Emit(TagUntouched(prev));
      return Ok(prev);
    }

    /** `create_entity_property(entity, prop)` */
    method CreateEntityProperty(entity: Entity, prop: Property, now: int, freshId: string) returns (r: Result<Tag>)
      modifies this
      ensures var s := Engine.CreateTag(lib, old(State()), EntityTagKind, PropertyTag(EntityTagKind, OwnerEntity(entity), prop), now, freshId);
        r == s.result && State() == s.graph && events == old(events) + Emitted(s.event)
    {
      r := CreateTag(EntityTagKind, PropertyTag(EntityTagKind, OwnerEntity(entity), prop), now, freshId);
    }

    /** `create_edge_property(edge, prop)` */
    method CreateEdgeProperty(edge: Edge, prop: Property, now: int, freshId: string) returns (r: Result<Tag>)
      modifies this
      ensures var s := Engine.CreateTag(lib, old(State()), EdgeTagKind, PropertyTag(EdgeTagKind, OwnerEdge(edge), prop), now, freshId);
        r == s.result && State() == s.graph && events == old(events) + Emitted(s.event)
    {
      r := CreateTag(EdgeTagKind, PropertyTag(EdgeTagKind, OwnerEdge(edge), prop), now, freshId);
    }

    /** `delete_entity_tag` / `delete_edge_tag` */
    method DeleteTag(kind: TagKind, id: string) returns (r: Result<Tag>)
      modifies this
      ensures var s := Engine.DeleteTag(old(State()), kind, id);
        r == s.result && State() == s.graph && events == old(events) + Emitted(s.event)
    {
      r := FindTagById(kind, id);
      if r.Err? {
        return;
      }
      SetTagRowsOf(kind, RemoveTagRows(TagRows(State(), kind), id));
      Emit(TagDeleted(r.value));
    }
  }
}
