/** The store of the `asset_store` engine as values: the graph the Neo4j
    queries read and write, and one function per repository operation giving
    its result, the graph afterwards and the event it emits.  These are the
    specifications the `Store.NeoRepository` methods are proved against. */
module Engine {
  import opened Wrappers
  import opened Values
  import opened Oam
  import opened Records

  /** A stored relationship, as its properties decode. */
  datatype EdgeRow = EdgeRow(
    id: string, createdAt: int, updatedAt: int, relation: Relation,
    fromId: string, toId: string,
    relType: string)   // the relationship type, the edge label at creation

  /** A stored tag node, as its properties decode. */
  datatype TagRow = TagRow(id: string, createdAt: int, updatedAt: int, ownerId: string, prop: Property)

  datatype Graph = Graph(
    entities: map<string, Entity>,  // entity nodes by entity_id
    edges: seq<EdgeRow>,
    entityTags: seq<TagRow>,
    edgeTags: seq<TagRow>)

  datatype Event =
    | EdgeInserted(edge: Edge)
    | EdgeUpdated(oldEdge: Edge, edge: Edge)
    | EdgeUntouched(edge: Edge)
    | EdgeDeleted(oldEdge: Edge)
    | TagInserted(tag: Tag)            // EntityTagInserted / EdgeTagInserted
    | TagUpdated(oldTag: Tag, tag: Tag)
    | TagUntouched(tag: Tag)
    | TagDeleted(oldTag: Tag)

  /** One call: what it returns, the graph afterwards, the event it emits. */
  datatype Step<T> = Step(result: Result<T>, graph: Graph, event: Option<Event>)

  function Fail<T>(g: Graph, msg: string): Step<T> {
    Step(Err(msg), g, None)
  }

  /** Each entity node is filed under its own id. */
  ghost predicate Valid(g: Graph) {
    && (forall id | id in g.entities :: g.entities[id].id == id)
    && (forall i | 0 <= i < |g.edges| :: g.edges[i].fromId in g.entities && g.edges[i].toId in g.entities)
  }

  /** entity.py is not part of this model: a lookup by id that fails when
      no entity node has it. */
  function FindEntity(g: Graph, id: string): Result<Entity> {
    if id in g.entities then Ok(g.entities[id]) else Err("entity not found")
  }

  // ---------------------------------------------------------------- edges

  function HydrateEdge(row: EdgeRow, from: Entity, to: Entity): Edge {
    Edge(row.id, Some(row.createdAt), Some(row.updatedAt), Some(row.relation), Some(from), Some(to))
  }

  /** The first relationship with this edge_id between two entity nodes. */
  function FirstEdgeRow(ents: map<string, Entity>, rows: seq<EdgeRow>, id: string): (r: Option<EdgeRow>)
    ensures r.Some? ==> r.value in rows && r.value.id == id && r.value.fromId in ents && r.value.toId in ents
    ensures r.None? <==> forall i | 0 <= i < |rows| ::
      !(rows[i].id == id && rows[i].fromId in ents && rows[i].toId in ents)
  {
    if rows == [] then None
    else if rows[0].id == id && rows[0].fromId in ents && rows[0].toId in ents then Some(rows[0])
    else
      var r := FirstEdgeRow(ents, rows[1..], id);
      assert forall i | 1 <= i < |rows| :: rows[i] == rows[1..][i - 1];
      r
  }

  /** `find_edge_by_id`: found iff a relationship between stored entities
      carries the id; the edge then has that id and both stored endpoints. */
  function FindEdgeById(g: Graph, id: string): (r: Result<Edge>)
    ensures r.Ok? <==> exists i | 0 <= i < |g.edges| ::
      g.edges[i].id == id && g.edges[i].fromId in g.entities && g.edges[i].toId in g.entities
    ensures r.Err? ==> r.msg == "no edge was found"
    ensures r.Ok? ==> (
      && r.value.id == id
      && r.value.fromEntity.Some? && r.value.fromEntity.value in g.entities.Values
      && r.value.toEntity.Some? && r.value.toEntity.value in g.entities.Values)
  {
    match FirstEdgeRow(g.entities, g.edges, id)
    case None => Err("no edge was found")
    case Some(row) => Ok(HydrateEdge(row, g.entities[row.fromId], g.entities[row.toId]))
  }

  datatype Direction = Outgoing | Incoming

  /** The label filter: no labels keeps everything, otherwise some label must
      equal the relationship type under casefold. */
  predicate LabelOk(labels: seq<string>, relType: string) {
    |labels| == 0 || exists i | 0 <= i < |labels| :: Fold(labels[i]) == Fold(relType)
  }

  /** `updated_at >= since` when a since is given. */
  predicate SinceOk(since: Option<int>, updatedAt: int) {
    since.None? || updatedAt >= since.value
  }

  /** The query matches the row and the filters keep it. */
  predicate Keep(ents: map<string, Entity>, row: EdgeRow, dir: Direction, entity: Entity, since: Option<int>, labels: seq<string>) {
    && (if dir == Outgoing then row.fromId == entity.id else row.toId == entity.id)
    && row.fromId in ents && row.toId in ents
    && SinceOk(since, row.updatedAt) && LabelOk(labels, row.relType)
  }

  /** The outgoing edge holds the given entity as `from_entity` and the looked
      up one as `to_entity`; the incoming edge the other way round. */
  function HydrateAdjacent(ents: map<string, Entity>, row: EdgeRow, dir: Direction, entity: Entity): Edge
    requires row.fromId in ents && row.toId in ents
  {
    if dir == Outgoing then HydrateEdge(row, entity, ents[row.toId])
    else HydrateEdge(row, ents[row.fromId], entity)
  }

  function AdjacentRows(ents: map<string, Entity>, rows: seq<EdgeRow>, dir: Direction, entity: Entity, since: Option<int>, labels: seq<string>): (r: seq<Edge>)
    ensures |r| <= |rows|
    ensures forall e | e in r :: Touches(e, dir, entity) && e.updatedAt.Some? && SinceOk(since, e.updatedAt.value)
  {
    if rows == [] then []
    else
      (if Keep(ents, rows[0], dir, entity, since, labels) then [HydrateAdjacent(ents, rows[0], dir, entity)] else [])
      + AdjacentRows(ents, rows[1..], dir, entity, since, labels)
  }

  /** The edge holds the entity at the queried end. */
  predicate Touches(e: Edge, dir: Direction, entity: Entity) {
    if dir == Outgoing then e.fromEntity == Some(entity) else e.toEntity == Some(entity)
  }

  /** `outgoing_edges(entity, since, *labels)` / `incoming_edges(...)`: at
      most one edge per relationship, each holding the entity at the queried
      end and not older than `since`. */
  function Adjacent(g: Graph, dir: Direction, entity: Entity, since: Option<int>, labels: seq<string>): (r: seq<Edge>)
    ensures |r| <= |g.edges|
    ensures forall e | e in r :: Touches(e, dir, entity) && e.updatedAt.Some? && SinceOk(since, e.updatedAt.value)
  {
    AdjacentRows(g.entities, g.edges, dir, entity, since, labels)
  }

  lemma {:induction false} AdjacentRowsMembers(ents: map<string, Entity>, rows: seq<EdgeRow>, dir: Direction, entity: Entity, since: Option<int>, labels: seq<string>, e: Edge)
    ensures e in AdjacentRows(ents, rows, dir, entity, since, labels) <==>
      exists i | 0 <= i < |rows| :: Keep(ents, rows[i], dir, entity, since, labels) && e == HydrateAdjacent(ents, rows[i], dir, entity)
    decreases |rows|
  {
    if rows != [] {
      AdjacentRowsMembers(ents, rows[1..], dir, entity, since, labels, e);
      if e in AdjacentRows(ents, rows[1..], dir, entity, since, labels) {
        var i :| 1 <= i + 1 < |rows| + 1 && 0 <= i < |rows[1..]| && Keep(ents, rows[1..][i], dir, entity, since, labels)
          && e == HydrateAdjacent(ents, rows[1..][i], dir, entity);
        assert rows[i + 1] == rows[1..][i];
      }
      if exists i | 0 <= i < |rows| :: Keep(ents, rows[i], dir, entity, since, labels) && e == HydrateAdjacent(ents, rows[i], dir, entity) {
        var i :| 0 <= i < |rows| && Keep(ents, rows[i], dir, entity, since, labels) && e == HydrateAdjacent(ents, rows[i], dir, entity);
        if i > 0 { assert rows[1..][i - 1] == rows[i]; }
      }
    }
  }

  /** An edge is listed iff its relationship touches the entity on the
      queried side, is not older than `since` and passes the label filter. */
  lemma AdjacentMembers(g: Graph, dir: Direction, entity: Entity, since: Option<int>, labels: seq<string>, e: Edge)
    ensures e in Adjacent(g, dir, entity, since, labels) <==>
      exists i | 0 <= i < |g.edges| :: Keep(g.entities, g.edges[i], dir, entity, since, labels) && e == HydrateAdjacent(g.entities, g.edges[i], dir, entity)
  {
    AdjacentRowsMembers(g.entities, g.edges, dir, entity, since, labels, e);
  }

  /** No relationship passing the filters gives the empty list, not an error. */
  lemma {:induction false} AdjacentNone(ents: map<string, Entity>, rows: seq<EdgeRow>, dir: Direction, entity: Entity, since: Option<int>, labels: seq<string>)
    requires forall i | 0 <= i < |rows| :: !Keep(ents, rows[i], dir, entity, since, labels)
    ensures AdjacentRows(ents, rows, dir, entity, since, labels) == []
    decreases |rows|
  {
    if rows != [] {
      assert forall i | 0 <= i < |rows[1..]| :: rows[1..][i] == rows[i + 1];
      AdjacentNone(ents, rows[1..], dir, entity, since, labels);
    }
  }

  lemma {:induction false} AdjacentRowsAppend(ents: map<string, Entity>, rows: seq<EdgeRow>, row: EdgeRow, dir: Direction, entity: Entity, since: Option<int>, labels: seq<string>)
    ensures AdjacentRows(ents, rows + [row], dir, entity, since, labels) ==
      AdjacentRows(ents, rows, dir, entity, since, labels)
      + (if Keep(ents, row, dir, entity, since, labels) then [HydrateAdjacent(ents, row, dir, entity)] else [])
    decreases |rows|
  {
    if rows == [] {
      assert [row][1..] == [];
    } else {
      assert (rows + [row])[1..] == rows[1..] + [row];
      AdjacentRowsAppend(ents, rows[1..], row, dir, entity, since, labels);
    }
  }

  /** The label filter is case-insensitive on both sides, and the upper-case
      type a relation is stored under matches its own label. */
  lemma LabelOfRelationMatches(lib: Library, r: Relation)
    ensures LabelOk([lib.relationLabel(r)], Upper(lib.relationLabel(r)))
  {
    FoldUpper(lib.relationLabel(r));
    assert Fold([lib.relationLabel(r)][0]) == Fold(Upper(lib.relationLabel(r)));
  }

  /** The first outgoing edge to the same entity whose relation `equals` the
      incoming one. */
  function FirstDuplicate(lib: Library, outs: seq<Edge>, edge: Edge): (r: Option<Edge>)
    requires edge.toEntity.Some? && edge.relation.Some?
    ensures r.Some? ==> IsDuplicate(lib, r.value, edge) && FirstAt(lib, outs, edge, r.value)
    ensures r.None? <==> forall i | 0 <= i < |outs| :: !IsDuplicate(lib, outs[i], edge)
  {
    if outs == [] then None
    else if IsDuplicate(lib, outs[0], edge) then Some(outs[0])
    else
      var r := FirstDuplicate(lib, outs[1..], edge);
      assert forall i | 1 <= i < |outs| :: outs[i] == outs[1..][i - 1];
      if r.Some? then
        var k :| 0 <= k < |outs[1..]| && outs[1..][k] == r.value && forall j | 0 <= j < k :: !IsDuplicate(lib, outs[1..][j], edge);
        assert outs[k + 1] == r.value && forall j | 0 <= j < k + 1 :: !IsDuplicate(lib, outs[j], edge);
        r
      else r
  }

  /** `x` occurs in `outs` with no duplicate before it. */
  ghost predicate FirstAt(lib: Library, outs: seq<Edge>, edge: Edge, x: Edge)
    requires edge.toEntity.Some? && edge.relation.Some?
  {
    exists i | 0 <= i < |outs| :: outs[i] == x && forall j | 0 <= j < i :: !IsDuplicate(lib, outs[j], edge)
  }

  predicate IsDuplicate(lib: Library, out: Edge, edge: Edge)
    requires edge.toEntity.Some? && edge.relation.Some?
  {
    && out.toEntity.Some? && out.relation.Some?
    && edge.toEntity.value.id == out.toEntity.value.id
    && lib.relationEquals(edge.relation.value, out.relation.value)
  }

  lemma {:induction false} FirstDuplicateAppend(lib: Library, outs: seq<Edge>, x: Edge, edge: Edge)
    requires edge.toEntity.Some? && edge.relation.Some?
    requires FirstDuplicate(lib, outs, edge).None? && IsDuplicate(lib, x, edge)
    ensures FirstDuplicate(lib, outs + [x], edge) == Some(x)
    decreases |outs|
  {
    if outs == [] {
    } else {
      assert (outs + [x])[1..] == outs[1..] + [x];
      FirstDuplicateAppend(lib, outs[1..], x, edge);
    }
  }

  /** `_find_existing_edge`: an explicit id is looked up and its error
      propagates; otherwise the outgoing edges are scanned and a failure of
      the scan counts as "no duplicate". */
  function FindExistingEdge(lib: Library, g: Graph, edge: Edge): (r: Result<Option<Edge>>)
    ensures edge.id != "" ==> r == (match FindEdgeById(g, edge.id) case Ok(e) => Ok(Some(e)) case Err(m) => Err(m))
    ensures edge.id == "" ==> r.Ok?
    ensures edge.id == "" && edge.fromEntity.Some? && edge.toEntity.Some? && edge.relation.Some? ==>
      r == Ok(FirstDuplicate(lib, Adjacent(g, Outgoing, edge.fromEntity.value, None, []), edge))
    ensures edge.id == "" && r.value.Some? ==>
      && edge.fromEntity.Some? && edge.toEntity.Some? && edge.relation.Some?
      && r.value.value in Adjacent(g, Outgoing, edge.fromEntity.value, None, [])
      && IsDuplicate(lib, r.value.value, edge)
  {
    if edge.id != "" then
      var e :- FindEdgeById(g, edge.id);
      Ok(Some(e))
    else if edge.fromEntity.None? || edge.toEntity.None? || edge.relation.None? then Ok(None)
    else Ok(FirstDuplicate(lib, Adjacent(g, Outgoing, edge.fromEntity.value, None, []), edge))
  }

  /** The taxonomy message of `create_edge`. */
  function TaxonomyMessage(lib: Library, edge: Edge): string
    requires edge.fromEntity.Some? && edge.toEntity.Some? && edge.relation.Some?
    requires edge.fromEntity.value.asset.Some? && edge.toEntity.value.asset.Some?
  {
    edge.fromEntity.value.asset.value.assetType + " -" + lib.relationLabel(edge.relation.value) + "-> "
      + edge.toEntity.value.asset.value.assetType + " is not valid in the taxonomy"
  }

  /** The taxonomy gate: None when the edge may be created. */
  function TaxonomyCheck(lib: Library, enforce: bool, edge: Edge): Option<string> {
    if !enforce then None
    else if edge.fromEntity.None? || edge.toEntity.None? || edge.relation.None?
         || edge.fromEntity.value.asset.None? || edge.toEntity.value.asset.None? then Some(NoneAttribute)
    else if !lib.validRelationship(edge.fromEntity.value.asset.value.assetType, lib.relationLabel(edge.relation.value),
                                   edge.relation.value.rtype, edge.toEntity.value.asset.value.assetType)
    then Some(TaxonomyMessage(lib, edge))
    else None
  }

  /** `SET r = $props`: the relationship takes the edge's properties; its
      type and endpoints are not properties and stay. */
  function Overwrite(row: EdgeRow, e: Edge): EdgeRow
    requires e.createdAt.Some? && e.updatedAt.Some? && e.relation.Some?
  {
    row.(id := e.id, createdAt := e.createdAt.value, updatedAt := e.updatedAt.value, relation := e.relation.value)
  }

  /** The update by edge_id: exactly the relationships carrying the id are
      overwritten, in place. */
  function SetById(rows: seq<EdgeRow>, id: string, e: Edge): (r: seq<EdgeRow>)
    requires e.createdAt.Some? && e.updatedAt.Some? && e.relation.Some?
    ensures |r| == |rows|
    ensures forall i | 0 <= i < |rows| && rows[i].id != id :: r[i] == rows[i]
    ensures forall i | 0 <= i < |rows| && rows[i].id == id ::
      r[i].id == e.id && r[i].relation == e.relation.value && r[i].updatedAt == e.updatedAt.value
      && r[i].fromId == rows[i].fromId && r[i].toId == rows[i].toId && r[i].relType == rows[i].relType
  {
    seq(|rows|, i requires 0 <= i < |rows| => if rows[i].id == id then Overwrite(rows[i], e) else rows[i])
  }

  /** The update query as the code writes it: `MATCH (from)-[r:LABEL]->(to)
      SET r = $props` overwrites every relationship of that type between the
      two entities, not only the edge being updated. */
  function SetByLabel(rows: seq<EdgeRow>, fromId: string, toId: string, relLabel: string, e: Edge): (r: seq<EdgeRow>)
    requires e.createdAt.Some? && e.updatedAt.Some? && e.relation.Some?
    ensures |r| == |rows|
    ensures forall i | 0 <= i < |rows| && !(rows[i].fromId == fromId && rows[i].toId == toId && rows[i].relType == relLabel) ::
      r[i] == rows[i]
    ensures forall i | 0 <= i < |rows| && rows[i].fromId == fromId && rows[i].toId == toId && rows[i].relType == relLabel ::
      r[i].id == e.id && r[i].relation == e.relation.value
  {
    seq(|rows|, i requires 0 <= i < |rows| =>
      if rows[i].fromId == fromId && rows[i].toId == toId && rows[i].relType == relLabel then Overwrite(rows[i], e) else rows[i])
  }

  /** A sibling relationship with the same endpoints and type loses its own
      edge_id and relation to the updated edge's under the query as written;
      the update by id leaves it alone. */
  lemma SetByLabelClobbersSibling(rows: seq<EdgeRow>, prev: Edge, e: Edge, relLabel: string, j: int)
    requires e.createdAt.Some? && e.updatedAt.Some? && e.relation.Some?
    requires prev.fromEntity.Some? && prev.toEntity.Some? && e.id == prev.id
    requires 0 <= j < |rows| && rows[j].id != prev.id
    requires rows[j].fromId == prev.fromEntity.value.id && rows[j].toId == prev.toEntity.value.id && rows[j].relType == relLabel
    ensures SetByLabel(rows, prev.fromEntity.value.id, prev.toEntity.value.id, relLabel, e)[j].id == prev.id
    ensures SetByLabel(rows, prev.fromEntity.value.id, prev.toEntity.value.id, relLabel, e)[j].relation == e.relation.value
    ensures SetById(rows, prev.id, e)[j] == rows[j]
  {
  }

  function RowExists(rows: seq<EdgeRow>, id: string): bool {
    exists i | 0 <= i < |rows| :: rows[i].id == id
  }

  /** `create_edge`, with the fresh id and the clock reading passed in.  It
      writes relationships only: a failure changes nothing, and entities and
      tag nodes are never touched. */
  function CreateEdge(lib: Library, enforce: bool, g: Graph, edge: Edge, now: int, freshId: string): (s: Step<Edge>)
    ensures s.result.Err? ==> s.graph == g && s.event.None?
    ensures s.graph.entities == g.entities && s.graph.entityTags == g.entityTags && s.graph.edgeTags == g.edgeTags
  {
    match TaxonomyCheck(lib, enforce, edge)
    case Some(msg) => Fail(g, msg)
    case None =>
      match FindExistingEdge(lib, g, edge)
      case Err(msg) => Fail(g, msg)
      case Ok(None) =>
        if edge.fromEntity.None? || edge.toEntity.None? || edge.relation.None? then Fail(g, NoneAttribute)
        else
          var from := edge.fromEntity.value;
          var to := edge.toEntity.value;
          var rel := edge.relation.value;
          var ne := Records.CreateEdge(rel, from, to, freshId, now);
          if from.id !in g.entities || to.id !in g.entities then Fail(g, "no records returned from the query")
          else
            var row := EdgeRow(freshId, now, now, rel, from.id, to.id, Upper(lib.relationLabel(rel)));
            Step(Ok(ne), g.(edges := g.edges + [row]), Some(EdgeInserted(ne)))
      case Ok(Some(prev)) =>
        if edge.relation.None? || prev.relation.None? then Fail(g, NoneAttribute)
        else if lib.relationIsFresher(edge.relation.value, prev.relation.value) then
          var ne := prev.(relation := Some(lib.relationOverride(prev.relation.value, edge.relation.value)), updatedAt := Some(now));
          if ne.createdAt.None? || !RowExists(g.edges, prev.id) then Fail(g, "no records returned from the query")
          else Step(Ok(ne), g.(edges := SetById(g.edges, prev.id, ne)), Some(EdgeUpdated(prev, ne)))
        else Step(Ok(prev), g, Some(EdgeUntouched(prev)))
  }

  /** `create_relation(relation, from_entity, to_entity)`: an edge without id
      or timestamps handed to `create_edge`. */
  function RelationEdge(relation: Relation, from: Entity, to: Entity): Edge {
    Edge("", None, None, Some(relation), Some(from), Some(to))
  }

  /** `delete_edge`: looked up first, so a missing id fails before any write;
      only relationships are removed, the edge's tag nodes stay. */
  function DeleteEdge(g: Graph, id: string): (s: Step<Edge>)
    ensures s.result == FindEdgeById(g, id)
    ensures s.result.Err? ==> s.graph == g && s.event.None?
    ensures s.graph.entities == g.entities && s.graph.entityTags == g.entityTags && s.graph.edgeTags == g.edgeTags
  {
    match FindEdgeById(g, id)
    case Err(msg) => Fail(g, msg)
    case Ok(e) => Step(Ok(e), g.(edges := RemoveEdgeRows(g.edges, id)), Some(EdgeDeleted(e)))
  }

  function RemoveEdgeRows(rows: seq<EdgeRow>, id: string): (r: seq<EdgeRow>)
    ensures forall x :: x in r <==> x in rows && x.id != id
  {
    if rows == [] then []
    else (if rows[0].id == id then [] else [rows[0]]) + RemoveEdgeRows(rows[1..], id)
  }

  // ---------------------------------------------------------------- tags

  function TagRows(g: Graph, kind: TagKind): seq<TagRow> {
    if kind == EntityTagKind then g.entityTags else g.edgeTags
  }

  function WithTagRows(g: Graph, kind: TagKind, rows: seq<TagRow>): Graph {
    if kind == EntityTagKind then g.(entityTags := rows) else g.(edgeTags := rows)
  }

  /** The owner the decoder looks up: `find_entity_by_id` for an entity tag,
      `find_edge_by_id` for an edge tag. */
  function FindOwner(g: Graph, kind: TagKind, id: string): Result<Owner> {
    if kind == EntityTagKind then
      var e :- FindEntity(g, id);
      Ok(OwnerEntity(e))
    else
      var e :- FindEdgeById(g, id);
      Ok(OwnerEdge(e))
  }

  function HydrateTag(g: Graph, kind: TagKind, row: TagRow): (r: Result<Tag>)
    ensures r.Ok? ==> r.value.id == row.id && r.value.prop == Some(row.prop) && r.value.kind == kind
  {
    var o :- FindOwner(g, kind, row.ownerId);
    Ok(Tag(kind, row.id, Some(row.createdAt), Some(row.updatedAt), o, Some(row.prop)))
  }

  function NotFoundMessage(kind: TagKind, id: string): string {
    if kind == EntityTagKind then "the entity tag with ID " + id + " was not found"
    else "the edge tag with ID " + id + " was not found"
  }

  function FirstTagRow(rows: seq<TagRow>, id: string): (r: Option<TagRow>)
    ensures r.Some? ==> r.value in rows && r.value.id == id
    ensures r.None? <==> forall i | 0 <= i < |rows| :: rows[i].id != id
  {
    if rows == [] then None
    else if rows[0].id == id then Some(rows[0])
    else
      var r := FirstTagRow(rows[1..], id);
      assert forall i | 1 <= i < |rows| :: rows[i] == rows[1..][i - 1];
      r
  }

  /** `find_entity_tag_by_id` / `find_edge_tag_by_id` as intended: the tag
      node with this tag_id, decoded. */
  function FindTagById(g: Graph, kind: TagKind, id: string): (r: Result<Tag>)
    ensures (forall i | 0 <= i < |TagRows(g, kind)| :: TagRows(g, kind)[i].id != id) ==> r == Err(NotFoundMessage(kind, id))
    ensures r.Ok? ==> r.value.id == id && r.value.kind == kind && exists i | 0 <= i < |TagRows(g, kind)| ::
      TagRows(g, kind)[i].id == id && r.value.prop == Some(TagRows(g, kind)[i].prop)
  {
    match FirstTagRow(TagRows(g, kind), id)
    case None => Err(NotFoundMessage(kind, id))
    case Some(row) => HydrateTag(g, kind, row)
  }

  /** The lookup as written: `execute_query` without a result transformer
      returns an eager result (records, summary, keys), which is never None
      and has no `get`, so every call raises AttributeError. */
  function FindTagByIdAsWritten(g: Graph, kind: TagKind, id: string): Result<Tag> {
    Err("'EagerResult' object has no attribute 'get'")
  }

  /** The lookup as written fails even for a stored tag that the intended
      lookup finds. */
  lemma FindTagByIdAsWrittenFails(g: Graph, kind: TagKind, i: int)
    requires 0 <= i < |TagRows(g, kind)| && (forall j | 0 <= j < i :: TagRows(g, kind)[j].id != TagRows(g, kind)[i].id)
    requires FindOwner(g, kind, TagRows(g, kind)[i].ownerId).Ok?
    ensures FindTagById(g, kind, TagRows(g, kind)[i].id).Ok?
    ensures FindTagById(g, kind, TagRows(g, kind)[i].id).value.id == TagRows(g, kind)[i].id
    ensures FindTagByIdAsWritten(g, kind, TagRows(g, kind)[i].id).Err?
  {
    FirstTagRowIndex(TagRows(g, kind), i);
  }

  lemma {:induction false} FirstTagRowIndex(rows: seq<TagRow>, i: int)
    requires 0 <= i < |rows| && (forall j | 0 <= j < i :: rows[j].id != rows[i].id)
    ensures FirstTagRow(rows, rows[i].id) == Some(rows[i])
    decreases |rows|
  {
    if i > 0 {
      assert rows[0].id != rows[i].id;
      assert rows[1..][i - 1] == rows[i];
      FirstTagRowIndex(rows[1..], i - 1);
    }
  }

  /** The properties a tag node is stored with: its `to_dict()`. */
  function RowProps(kind: TagKind, row: TagRow): Dict {
    var owner := if kind == EntityTagKind then OwnerEntity(Entity(row.ownerId, None, None, None))
                 else OwnerEdge(Edge(row.ownerId, None, None, None, None, None));
    TagToDict(Tag(kind, row.id, Some(row.createdAt), Some(row.updatedAt), owner, Some(row.prop))).value
  }

  /** A parameter value `p.k = $k` can equal: neither null nor a map. */
  predicate Scalar(v: Value) {
    !v.VNone? && !v.VDict?
  }

  /** The node carries the property's type label and agrees with every key of
      `prop.to_dict()`. */
  ghost predicate ContentMatches(kind: TagKind, row: TagRow, prop: Property) {
    && PropertyTypeValue(row.prop.ptype) == PropertyTypeValue(prop.ptype)
    && forall k | k in Keys(prop.attrs) ::
         Scalar(Get(prop.attrs, k).value) && Get(RowProps(kind, row), k) == Get(prop.attrs, k)
  }

  /** The same test, key by key along the dict, as the query's conjunction. */
  function MatchesAll(kind: TagKind, row: TagRow, props: Dict, keys: seq<string>): bool
    requires forall k | k in keys :: k in Keys(props)
  {
    forall j | 0 <= j < |keys| :: Scalar(Get(props, keys[j]).value) && Get(RowProps(kind, row), keys[j]) == Get(props, keys[j])
  }

  function KeyList(d: Dict): (r: seq<string>)
    ensures forall k :: k in r <==> k in Keys(d)
  {
    if d == [] then []
    else
      var r := KeyList(d[..|d| - 1]) + [d[|d| - 1].0];
      assert Keys(d) == Keys(d[..|d| - 1]) + {d[|d| - 1].0} by {
        assert forall i | 0 <= i < |d| - 1 :: d[..|d| - 1][i] == d[i];
      }
      r
  }

  predicate RowMatches(kind: TagKind, row: TagRow, prop: Property, since: Option<int>) {
    && PropertyTypeValue(row.prop.ptype) == PropertyTypeValue(prop.ptype)
    && MatchesAll(kind, row, prop.attrs, KeyList(prop.attrs))
    && SinceOk(since, row.updatedAt)
  }

  lemma RowMatchesContent(kind: TagKind, row: TagRow, prop: Property)
    ensures RowMatches(kind, row, prop, None) <==> ContentMatches(kind, row, prop)
  {
    var ks := KeyList(prop.attrs);
    if RowMatches(kind, row, prop, None) {
      forall k | k in Keys(prop.attrs)
        ensures Scalar(Get(prop.attrs, k).value) && Get(RowProps(kind, row), k) == Get(prop.attrs, k)
      {
        var j :| 0 <= j < |ks| && ks[j] == k;
      }
    }
  }

  /** Decode the matching nodes in order; the first failure propagates. */
  function DecodeMatches(g: Graph, kind: TagKind, rows: seq<TagRow>, prop: Property, since: Option<int>): Result<seq<Tag>>
  {
    if rows == [] then Ok([])
    else if RowMatches(kind, rows[0], prop, since) then
      var t :- HydrateTag(g, kind, rows[0]);
      var rest :- DecodeMatches(g, kind, rows[1..], prop, since);
      Ok([t] + rest)
    else DecodeMatches(g, kind, rows[1..], prop, since)
  }

  /** `find_entity_tags_by_content` / `find_edge_tags_by_content`.  An empty
      `to_dict()` leaves the WHERE clause empty, a Cypher syntax error.
      Every tag found is of the kind asked for and of the property's type. */
  function FindTagsByContent(g: Graph, kind: TagKind, prop: Property, since: Option<int>): (r: Result<seq<Tag>>)
    ensures prop.attrs == [] ==> r.Err?
    ensures r.Ok? ==> forall t | t in r.value ::
      t.kind == kind && t.prop.Some? && PropertyTypeValue(t.prop.value.ptype) == PropertyTypeValue(prop.ptype)
  {
    if prop.attrs == [] then Err("Invalid input: empty WHERE clause")
    else
      DecodeMatchesSound(g, kind, TagRows(g, kind), prop, since);
      DecodeMatches(g, kind, TagRows(g, kind), prop, since)
  }

  /** The tags found are exactly the decoded matching nodes; the lookup fails
      iff some matching node does not decode; no matching node gives []. */
  lemma {:induction false} DecodeMatchesSound(g: Graph, kind: TagKind, rows: seq<TagRow>, prop: Property, since: Option<int>)
    ensures var r := DecodeMatches(g, kind, rows, prop, since);
      && (r.Ok? ==> forall t | t in r.value :: exists i | 0 <= i < |rows| ::
            RowMatches(kind, rows[i], prop, since) && HydrateTag(g, kind, rows[i]) == Ok(t))
      && (r.Ok? ==> forall i | 0 <= i < |rows| && RowMatches(kind, rows[i], prop, since) ::
            HydrateTag(g, kind, rows[i]).Ok? && HydrateTag(g, kind, rows[i]).value in r.value)
      && (r.Err? <==> exists i | 0 <= i < |rows| :: RowMatches(kind, rows[i], prop, since) && HydrateTag(g, kind, rows[i]).Err?)
      && ((forall i | 0 <= i < |rows| :: !RowMatches(kind, rows[i], prop, since)) ==> r == Ok([]))
    decreases |rows|
  {
    if rows != [] {
      DecodeMatchesSound(g, kind, rows[1..], prop, since);
      assert forall i | 1 <= i < |rows| :: rows[i] == rows[1..][i - 1];
    }
  }

  /** `_find_existing_entity_tag` / `_find_existing_edge_tag`: an explicit id is
      looked up; otherwise the FIRST content match, whoever owns it. */
  function FindExistingTag(g: Graph, kind: TagKind, tag: Tag): (r: Result<Option<Tag>>)
    requires tag.prop.Some?
    ensures tag.id != "" ==> r == (match FindTagById(g, kind, tag.id) case Ok(t) => Ok(Some(t)) case Err(m) => Err(m))
    ensures tag.id == "" ==> r == (match FindTagsByContent(g, kind, tag.prop.value, None)
      case Ok(found) => Ok(if |found| > 0 then Some(found[0]) else None)
      case Err(m) => Err(m))
    ensures tag.id == "" && r.Ok? && r.value.Some? ==>
      && r.value.value.kind == kind && r.value.value.prop.Some?
      && PropertyTypeValue(r.value.value.prop.value.ptype) == PropertyTypeValue(tag.prop.value.ptype)
      && exists i | 0 <= i < |TagRows(g, kind)| ::
           RowMatches(kind, TagRows(g, kind)[i], tag.prop.value, None) && HydrateTag(g, kind, TagRows(g, kind)[i]) == Ok(r.value.value)
    ensures tag.id == "" && r == Ok(None) ==>
      forall i | 0 <= i < |TagRows(g, kind)| :: !RowMatches(kind, TagRows(g, kind)[i], tag.prop.value, None)
  {
    if tag.id != "" then
      var t :- FindTagById(g, kind, tag.id);
      Ok(Some(t))
    else
      DecodeMatchesSound(g, kind, TagRows(g, kind), tag.prop.value, None);
      var found :- FindTagsByContent(g, kind, tag.prop.value, None);
      if |found| > 0 then Ok(Some(found[0])) else Ok(None)
  }

  /** `SET n = $props` on every tag node with this tag_id. */
  function SetTagRows(rows: seq<TagRow>, id: string, nr: TagRow): (r: seq<TagRow>)
    ensures |r| == |rows|
    ensures forall i | 0 <= i < |rows| :: r[i] == if rows[i].id == id then nr else rows[i]
  {
    seq(|rows|, i requires 0 <= i < |rows| => if rows[i].id == id then nr else rows[i])
  }

  function RemoveTagRows(rows: seq<TagRow>, id: string): (r: seq<TagRow>)
    ensures forall x :: x in r <==> x in rows && x.id != id
  {
    if rows == [] then []
    else (if rows[0].id == id then [] else [rows[0]]) + RemoveTagRows(rows[1..], id)
  }

  /** The row a tag is written as. */
  function RowOf(kind: TagKind, t: Tag): TagRow
    requires t.createdAt.Some? && t.updatedAt.Some? && t.prop.Some? && OwnerId(kind, t.owner).Some?
  {
    TagRow(t.id, t.createdAt.value, t.updatedAt.value, OwnerId(kind, t.owner).value, t.prop.value)
  }

  /** `create_entity_tag` / `create_edge_tag`, with the fresh id and the clock
      reading passed in.  Both report a missing property as "malformed entity
      tag"; only the edge-tag update checks that the write returned a record. */
  function CreateTag(lib: Library, g: Graph, kind: TagKind, tag: Tag, now: int, freshId: string): (s: Step<Tag>)
    ensures tag.prop.None? ==> s.result == Err("malformed entity tag")
    ensures s.result.Err? ==> s.graph == g && s.event.None?
    ensures s.graph.entities == g.entities && s.graph.edges == g.edges
    ensures TagRows(s.graph, OtherKind(kind)) == TagRows(g, OtherKind(kind))
  {
    if tag.prop.None? then Fail(g, "malformed entity tag")
    else match FindExistingTag(g, kind, tag)
      case Err(msg) => Fail(g, msg)
      case Ok(None) =>
        var nt := Records.CreateTag(kind, tag.owner, tag.prop.value, freshId, now);
        if OwnerId(kind, nt.owner).None? then Fail(g, NoneAttribute)
        else
          var rows := TagRows(g, kind) + [RowOf(kind, nt)];
          Step(Ok(nt), WithTagRows(g, kind, rows), Some(TagInserted(nt)))
      case Ok(Some(prev)) =>
        if prev.prop.None? then Fail(g, NoneAttribute)
        else if lib.propertyIsFresher(tag.prop.value, prev.prop.value) then
          var nt := prev.(updatedAt := Some(now), prop := Some(lib.propertyOverride(prev.prop.value, tag.prop.value)));
          if nt.createdAt.None? || OwnerId(kind, nt.owner).None? then Fail(g, NoneAttribute)
          else if kind == EdgeTagKind && FirstTagRow(TagRows(g, kind), prev.id).None? then
            Fail(g, "no records returned from the query")
          else
            var rows := SetTagRows(TagRows(g, kind), prev.id, RowOf(kind, nt));
            Step(Ok(nt), WithTagRows(g, kind, rows), Some(TagUpdated(prev, nt)))
        else Step(Ok(prev), g, Some(TagUntouched(prev)))
  }

  function OtherKind(kind: TagKind): TagKind {
    if kind == EntityTagKind then EdgeTagKind else EntityTagKind
  }

  /** `create_entity_property(entity, prop)` / `create_edge_property(edge, prop)` */
  function PropertyTag(kind: TagKind, owner: Owner, prop: Property): (t: Tag)
    ensures t.kind == kind && t.id == "" && t.owner == owner
    ensures t.prop == Some(prop) && TagType(t) == Ok(PropertyTypeValue(prop.ptype))
  {
    Tag(kind, "", None, None, owner, Some(prop))
  }

  /** Decode the owner's tag nodes in order, keeping those whose property name
      is listed (all of them when no name is given). */
  function DecodeOwned(lib: Library, g: Graph, kind: TagKind, rows: seq<TagRow>, names: seq<string>): (r: Result<seq<Tag>>)
    ensures r.Ok? ==> forall t | t in r.value ::
      t.kind == kind && t.prop.Some? && (|names| == 0 || lib.propertyName(t.prop.value) in names)
  {
    if rows == [] then Ok([])
    else
      var t :- HydrateTag(g, kind, rows[0]);
      var rest :- DecodeOwned(lib, g, kind, rows[1..], names);
      if |names| == 0 || lib.propertyName(rows[0].prop) in names then Ok([t] + rest) else Ok(rest)
  }

  function OwnedRows(rows: seq<TagRow>, ownerId: string, since: Option<int>): (r: seq<TagRow>)
    ensures forall x :: x in r <==> x in rows && x.ownerId == ownerId && SinceOk(since, x.updatedAt)
  {
    if rows == [] then []
    else
      var head := if rows[0].ownerId == ownerId && SinceOk(since, rows[0].updatedAt) then [rows[0]] else [];
      head + OwnedRows(rows[1..], ownerId, since)
  }

  /** `find_entity_tags` / `find_edge_tags`: entity tags raise both when the
      owner has no tag node and when the name filter leaves nothing; edge
      tags return [] in both cases. */
  function FindTags(lib: Library, g: Graph, kind: TagKind, ownerId: string, since: Option<int>, names: seq<string>): (r: Result<seq<Tag>>)
    ensures kind == EntityTagKind && r.Ok? ==> |r.value| > 0
    ensures r.Ok? ==> forall t | t in r.value ::
      t.kind == kind && t.prop.Some? && (|names| == 0 || lib.propertyName(t.prop.value) in names)
  {
    var rows := OwnedRows(TagRows(g, kind), ownerId, since);
    if kind == EntityTagKind && |rows| == 0 then Err("no entity tags found")
    else
      var tags :- DecodeOwned(lib, g, kind, rows, names);
      if kind == EntityTagKind && |tags| == 0 then Err("no entity tag found") else Ok(tags)
  }

  /** Every node is decoded before the filter, so a successful listing means
      every node decodes; the tags kept are exactly the decoded nodes whose
      property name passes the exact-name filter, and with no names every
      node is kept. */
  lemma {:induction false} DecodeOwnedFilter(lib: Library, g: Graph, kind: TagKind, rows: seq<TagRow>, names: seq<string>)
    requires DecodeOwned(lib, g, kind, rows, names).Ok?
    ensures forall t | t in DecodeOwned(lib, g, kind, rows, names).value ::
      t.prop.Some? && (|names| == 0 || lib.propertyName(t.prop.value) in names)
    ensures forall t | t in DecodeOwned(lib, g, kind, rows, names).value :: exists i | 0 <= i < |rows| ::
      HydrateTag(g, kind, rows[i]) == Ok(t) && (|names| == 0 || lib.propertyName(rows[i].prop) in names)
    ensures forall i | 0 <= i < |rows| :: HydrateTag(g, kind, rows[i]).Ok?
    ensures forall i | 0 <= i < |rows| && (|names| == 0 || lib.propertyName(rows[i].prop) in names) ::
      HydrateTag(g, kind, rows[i]).value in DecodeOwned(lib, g, kind, rows, names).value
    ensures |names| == 0 ==> |DecodeOwned(lib, g, kind, rows, names).value| == |rows|
    decreases |rows|
  {
    if rows != [] {
      DecodeOwnedFilter(lib, g, kind, rows[1..], names);
      assert forall i | 1 <= i < |rows| :: rows[i] == rows[1..][i - 1];
    }
  }

  /** `delete_entity_tag` / `delete_edge_tag`: looked up first, so a missing
      id fails before any write. */
  function DeleteTag(g: Graph, kind: TagKind, id: string): (s: Step<Tag>)
    ensures s.result == FindTagById(g, kind, id)
    ensures s.result.Err? ==> s.graph == g && s.event.None?
    ensures s.graph.entities == g.entities && s.graph.edges == g.edges
    ensures TagRows(s.graph, OtherKind(kind)) == TagRows(g, OtherKind(kind))
  {
    match FindTagById(g, kind, id)
    case Err(msg) => Fail(g, msg)
    case Ok(t) => Step(Ok(t), WithTagRows(g, kind, RemoveTagRows(TagRows(g, kind), id)), Some(TagDeleted(t)))
  }

  // ---------------------------------------------------------------- what the operations promise

  /** The edge an event reports. */
  function EventEdge(ev: Event): Option<Edge> {
    match ev
    case EdgeInserted(e) => Some(e)
    case EdgeUpdated(_, e) => Some(e)
    case EdgeUntouched(e) => Some(e)
    case _ => None
  }

  /** `create_edge` either fails without writing or emitting, or returns the
      edge its single event reports; only an insert or an update writes. */
  lemma CreateEdgeOutcome(lib: Library, enforce: bool, g: Graph, edge: Edge, now: int, freshId: string)
    ensures var s := CreateEdge(lib, enforce, g, edge, now, freshId);
      && (s.result.Err? ==> s.graph == g && s.event.None?)
      && (s.result.Ok? ==> s.event.Some? && EventEdge(s.event.value) == Some(s.result.value))
      && (s.event.Some? && s.event.value.EdgeUntouched? ==> s.graph == g)
      && (s.event.Some? && s.event.value.EdgeInserted? ==> s.graph.entities == g.entities && |s.graph.edges| == |g.edges| + 1)
  {
  }

  /** With the taxonomy enforced, an edge the taxonomy refuses is reported
      and nothing is looked up or written. */
  lemma TaxonomyGate(lib: Library, g: Graph, edge: Edge, now: int, freshId: string)
    requires edge.fromEntity.Some? && edge.toEntity.Some? && edge.relation.Some?
    requires edge.fromEntity.value.asset.Some? && edge.toEntity.value.asset.Some?
    requires !lib.validRelationship(edge.fromEntity.value.asset.value.assetType, lib.relationLabel(edge.relation.value),
                                    edge.relation.value.rtype, edge.toEntity.value.asset.value.assetType)
    ensures CreateEdge(lib, true, g, edge, now, freshId) == Fail(g, TaxonomyMessage(lib, edge))
  {
  }

  /** A new edge between stored entities is appended under the fresh id and
      can then be found by that id. */
  lemma {:induction false} CreateEdgeInserts(lib: Library, enforce: bool, g: Graph, edge: Edge, now: int, freshId: string)
    requires Valid(g) && forall i | 0 <= i < |g.edges| :: g.edges[i].id != freshId
    requires TaxonomyCheck(lib, enforce, edge).None?
    requires edge.id == "" && edge.fromEntity.Some? && edge.toEntity.Some? && edge.relation.Some?
    requires edge.fromEntity.value.id in g.entities && edge.toEntity.value.id in g.entities
    requires FirstDuplicate(lib, Adjacent(g, Outgoing, edge.fromEntity.value, None, []), edge).None?
    ensures var s := CreateEdge(lib, enforce, g, edge, now, freshId);
      && s.result == Ok(Records.CreateEdge(edge.relation.value, edge.fromEntity.value, edge.toEntity.value, freshId, now))
      && s.event == Some(EdgeInserted(s.result.value))
      && Valid(s.graph)
      && FindEdgeById(s.graph, freshId).Ok?
      && FindEdgeById(s.graph, freshId).value.relation == edge.relation
      && FindEdgeById(s.graph, freshId).value.updatedAt == Some(now)
  {
    var s := CreateEdge(lib, enforce, g, edge, now, freshId);
    var rows := s.graph.edges;
    assert rows == g.edges + [rows[|rows| - 1]];
    assert forall i | 0 <= i < |g.edges| :: rows[i] == g.edges[i];
    var r := FirstEdgeRow(g.entities, rows, freshId);
    assert r.Some? by { assert rows[|rows| - 1].id == freshId; }
  }

  /** Submitting the same relation between the same entities again finds the
      stored edge and leaves it as it is: one edge, the same id, an
      "untouched" event (given a relation that equals itself and is not
      fresher than itself). */
  lemma {:induction false} ResubmitIsUntouched(lib: Library, enforce: bool, g: Graph, edge: Edge, now: int, later: int, freshId: string, otherId: string)
    requires Valid(g)
    requires edge.id == "" && edge.fromEntity.Some? && edge.toEntity.Some? && edge.relation.Some?
    requires lib.relationEquals(edge.relation.value, edge.relation.value)
    requires !lib.relationIsFresher(edge.relation.value, edge.relation.value)
    requires CreateEdge(lib, enforce, g, edge, now, freshId).event.Some?
    requires CreateEdge(lib, enforce, g, edge, now, freshId).event.value.EdgeInserted?
    ensures var s1 := CreateEdge(lib, enforce, g, edge, now, freshId);
      var s2 := CreateEdge(lib, enforce, s1.graph, edge, later, otherId);
      && s2.result.Ok? && s2.result.value.id == s1.result.value.id == freshId
      && s2.graph == s1.graph
      && s2.event == Some(EdgeUntouched(s2.result.value))
  {
    var s1 := CreateEdge(lib, enforce, g, edge, now, freshId);
    var from, to, rel := edge.fromEntity.value, edge.toEntity.value, edge.relation.value;
    var outs := Adjacent(g, Outgoing, from, None, []);
    assert FirstDuplicate(lib, outs, edge).None?;
    var row := EdgeRow(freshId, now, now, rel, from.id, to.id, Upper(lib.relationLabel(rel)));
    assert s1.graph == g.(edges := g.edges + [row]);
    AdjacentRowsAppend(g.entities, g.edges, row, Outgoing, from, None, []);
    var x := HydrateAdjacent(g.entities, row, Outgoing, from);
    assert Adjacent(s1.graph, Outgoing, from, None, []) == outs + [x];
    assert IsDuplicate(lib, x, edge);
    FirstDuplicateAppend(lib, outs, x, edge);
    assert FindExistingEdge(lib, s1.graph, edge) == Ok(Some(x));
  }

  /** An update by a fresher relation keeps the edge's id and creation time,
      stamps it with the clock reading, stores the override and leaves every
      other edge as it was. */
  lemma CreateEdgeUpdates(lib: Library, enforce: bool, g: Graph, edge: Edge, now: int, freshId: string, prev: Edge)
    requires TaxonomyCheck(lib, enforce, edge).None?
    requires FindExistingEdge(lib, g, edge) == Ok(Some(prev))
    requires edge.relation.Some? && prev.relation.Some? && prev.createdAt.Some?
    requires lib.relationIsFresher(edge.relation.value, prev.relation.value)
    requires RowExists(g.edges, prev.id)
    ensures var s := CreateEdge(lib, enforce, g, edge, now, freshId);
      && s.result.Ok? && s.result.value.id == prev.id && s.result.value.createdAt == prev.createdAt
      && s.result.value.updatedAt == Some(now)
      && s.result.value.relation == Some(lib.relationOverride(prev.relation.value, edge.relation.value))
      && s.result.value.fromEntity == prev.fromEntity && s.result.value.toEntity == prev.toEntity
      && s.event == Some(EdgeUpdated(prev, s.result.value))
      && |s.graph.edges| == |g.edges|
      && (forall i | 0 <= i < |g.edges| && g.edges[i].id != prev.id :: s.graph.edges[i] == g.edges[i])
      && (forall i | 0 <= i < |g.edges| && g.edges[i].id == prev.id ::
            s.graph.edges[i].relation == lib.relationOverride(prev.relation.value, edge.relation.value)
            && s.graph.edges[i].updatedAt == now)
  {
  }

  /** An existing edge that the submitted relation is not fresher than is
      returned as found, nothing is written, and the event says so. */
  lemma CreateEdgeUntouched(lib: Library, enforce: bool, g: Graph, edge: Edge, now: int, freshId: string, prev: Edge)
    requires TaxonomyCheck(lib, enforce, edge).None?
    requires FindExistingEdge(lib, g, edge) == Ok(Some(prev))
    requires edge.relation.Some? && prev.relation.Some?
    requires !lib.relationIsFresher(edge.relation.value, prev.relation.value)
    ensures CreateEdge(lib, enforce, g, edge, now, freshId) == Step(Ok(prev), g, Some(EdgeUntouched(prev)))
  {
  }

  /** A deleted edge can no longer be found, and every other relationship is
      still stored. */
  lemma DeleteEdgeRemoves(g: Graph, id: string)
    ensures var s := DeleteEdge(g, id);
      && (s.result.Err? ==> s.graph == g && s.event.None?)
      && (s.result.Ok? ==>
            && s.result == FindEdgeById(g, id) && s.event == Some(EdgeDeleted(s.result.value))
            && FindEdgeById(s.graph, id).Err?
            && forall x | x in g.edges && x.id != id :: x in s.graph.edges)
  {
    var s := DeleteEdge(g, id);
    if s.result.Ok? {
      var rows := s.graph.edges;
      assert forall i | 0 <= i < |rows| :: rows[i] in rows;
    }
  }

  // ---- tags

  /** `create_entity_tag` / `create_edge_tag` either fail without writing or
      emitting, or return the tag their single event reports. */
  lemma CreateTagOutcome(lib: Library, g: Graph, kind: TagKind, tag: Tag, now: int, freshId: string)
    ensures var s := CreateTag(lib, g, kind, tag, now, freshId);
      && (s.result.Err? ==> s.graph == g && s.event.None?)
      && (s.result.Ok? ==>
            || s.event == Some(TagInserted(s.result.value))
            || s.event == Some(TagUntouched(s.result.value))
            || (s.event.Some? && s.event.value.TagUpdated? && s.event.value.tag == s.result.value))
      && (tag.prop.None? ==> s.result == Err("malformed entity tag"))
      && (s.event.Some? && s.event.value.TagUntouched? ==> s.graph == g)
      && s.graph.entities == g.entities && s.graph.edges == g.edges
      && (kind == EntityTagKind ==> s.graph.edgeTags == g.edgeTags)
      && (kind == EdgeTagKind ==> s.graph.entityTags == g.entityTags)
  {
  }

  lemma {:induction false} FirstTagRowAppend(rows: seq<TagRow>, x: TagRow)
    requires forall i | 0 <= i < |rows| :: rows[i].id != x.id
    ensures FirstTagRow(rows + [x], x.id) == Some(x)
    decreases |rows|
  {
    if rows != [] {
      assert (rows + [x])[1..] == rows[1..] + [x];
      assert forall i | 0 <= i < |rows[1..]| :: rows[1..][i] == rows[i + 1];
      FirstTagRowAppend(rows[1..], x);
    }
  }

  /** A tag inserted under a fresh id is then stored under that id, with the
      submitted property and owner. */
  lemma CreateTagInserts(lib: Library, g: Graph, kind: TagKind, tag: Tag, now: int, freshId: string)
    requires forall i | 0 <= i < |TagRows(g, kind)| :: TagRows(g, kind)[i].id != freshId
    requires CreateTag(lib, g, kind, tag, now, freshId).event.Some?
    requires CreateTag(lib, g, kind, tag, now, freshId).event.value.TagInserted?
    ensures var s := CreateTag(lib, g, kind, tag, now, freshId);
      && s.result.Ok? && s.result.value.id == freshId && s.result.value.prop == tag.prop && s.result.value.owner == tag.owner
      && FirstTagRow(TagRows(s.graph, kind), freshId) == Some(RowOf(kind, s.result.value))
  {
    var s := CreateTag(lib, g, kind, tag, now, freshId);
    assert tag.prop.Some? && FindExistingTag(g, kind, tag) == Ok(None);
    var nt := Records.CreateTag(kind, tag.owner, tag.prop.value, freshId, now);
    assert s.result == Ok(nt) && TagRows(s.graph, kind) == TagRows(g, kind) + [RowOf(kind, nt)];
    FirstTagRowAppend(TagRows(g, kind), RowOf(kind, nt));
  }

  /** An update by a fresher property keeps the tag's id, creation time and
      owner, stamps it with the clock reading, stores the override, and
      rewrites exactly the tag nodes carrying that id. */
  lemma CreateTagUpdates(lib: Library, g: Graph, kind: TagKind, tag: Tag, now: int, freshId: string, prev: Tag)
    requires tag.prop.Some? && FindExistingTag(g, kind, tag) == Ok(Some(prev))
    requires prev.prop.Some? && prev.createdAt.Some? && OwnerId(kind, prev.owner).Some?
    requires lib.propertyIsFresher(tag.prop.value, prev.prop.value)
    requires kind == EdgeTagKind ==> FirstTagRow(TagRows(g, kind), prev.id).Some?
    ensures var s := CreateTag(lib, g, kind, tag, now, freshId);
      && s.result.Ok? && s.result.value.id == prev.id && s.result.value.createdAt == prev.createdAt
      && s.result.value.owner == prev.owner && s.result.value.kind == prev.kind
      && s.result.value.updatedAt == Some(now)
      && s.result.value.prop == Some(lib.propertyOverride(prev.prop.value, tag.prop.value))
      && s.event == Some(TagUpdated(prev, s.result.value))
      && |TagRows(s.graph, kind)| == |TagRows(g, kind)|
      && (forall i | 0 <= i < |TagRows(g, kind)| && TagRows(g, kind)[i].id != prev.id ::
            TagRows(s.graph, kind)[i] == TagRows(g, kind)[i])
      && (forall i | 0 <= i < |TagRows(g, kind)| && TagRows(g, kind)[i].id == prev.id ::
            TagRows(s.graph, kind)[i] == RowOf(kind, s.result.value))
  {
  }

  /** An existing tag that the submitted property is not fresher than is
      returned as found, nothing is written, and the event says so. */
  lemma CreateTagUntouched(lib: Library, g: Graph, kind: TagKind, tag: Tag, now: int, freshId: string, prev: Tag)
    requires tag.prop.Some? && FindExistingTag(g, kind, tag) == Ok(Some(prev))
    requires prev.prop.Some? && !lib.propertyIsFresher(tag.prop.value, prev.prop.value)
    ensures CreateTag(lib, g, kind, tag, now, freshId) == Step(Ok(prev), g, Some(TagUntouched(prev)))
  {
  }

  /** A deleted tag can no longer be found, and the other tag nodes stay. */
  lemma DeleteTagRemoves(g: Graph, kind: TagKind, id: string)
    ensures var s := DeleteTag(g, kind, id);
      && (s.result.Err? ==> s.graph == g && s.event.None?)
      && (s.result.Ok? ==>
            && s.event == Some(TagDeleted(s.result.value))
            && FindTagById(s.graph, kind, id) == Err(NotFoundMessage(kind, id))
            && forall x | x in TagRows(g, kind) && x.id != id :: x in TagRows(s.graph, kind))
  {
    var s := DeleteTag(g, kind, id);
    if s.result.Ok? {
      var rows := TagRows(s.graph, kind);
      assert forall i | 0 <= i < |rows| :: rows[i] in rows;
    }
  }

  /** An owner without tag nodes: entity tags raise, edge tags give []. */
  lemma FindTagsWithoutNodes(lib: Library, g: Graph, kind: TagKind, ownerId: string, since: Option<int>, names: seq<string>)
    requires forall i | 0 <= i < |TagRows(g, kind)| :: TagRows(g, kind)[i].ownerId != ownerId
    ensures FindTags(lib, g, kind, ownerId, since, names) ==
      if kind == EntityTagKind then Err("no entity tags found") else Ok([])
  {
  }

  /** The tags listed are exactly the decoded nodes of the owner that are not
      older than `since` and pass the exact-name filter; an entity-tag listing
      is never empty. */
  lemma FindTagsFilter(lib: Library, g: Graph, kind: TagKind, ownerId: string, since: Option<int>, names: seq<string>)
    requires FindTags(lib, g, kind, ownerId, since, names).Ok?
    ensures forall t | t in FindTags(lib, g, kind, ownerId, since, names).value ::
      t.prop.Some? && (|names| == 0 || lib.propertyName(t.prop.value) in names)
    ensures forall t | t in FindTags(lib, g, kind, ownerId, since, names).value :: exists x | x in TagRows(g, kind) ::
      && x.ownerId == ownerId && SinceOk(since, x.updatedAt) && HydrateTag(g, kind, x) == Ok(t)
      && (|names| == 0 || lib.propertyName(x.prop) in names)
    ensures forall x | x in TagRows(g, kind) && x.ownerId == ownerId && SinceOk(since, x.updatedAt)
        && (|names| == 0 || lib.propertyName(x.prop) in names) ::
      HydrateTag(g, kind, x).Ok? && HydrateTag(g, kind, x).value in FindTags(lib, g, kind, ownerId, since, names).value
    ensures kind == EntityTagKind ==> |FindTags(lib, g, kind, ownerId, since, names).value| > 0
  {
    var rows := OwnedRows(TagRows(g, kind), ownerId, since);
    DecodeOwnedFilter(lib, g, kind, rows, names);
    forall x | x in TagRows(g, kind) && x.ownerId == ownerId && SinceOk(since, x.updatedAt)
        && (|names| == 0 || lib.propertyName(x.prop) in names)
      ensures HydrateTag(g, kind, x).Ok? && HydrateTag(g, kind, x).value in FindTags(lib, g, kind, ownerId, since, names).value
    {
      assert x in rows;
      var i :| 0 <= i < |rows| && rows[i] == x;
    }
  }
}
