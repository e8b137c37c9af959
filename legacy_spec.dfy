/** What the `asset_db` repository's operations do to the Neo4j database,
    as functions on an in-memory picture of it: the entity ids, the stored
    relationships and the entity-tag and edge-tag nodes, each node the dict
    of properties its `to_dict()` wrote.  Every read decodes with the
    `asset_db` decoders. */
module LegacySpec {
  import opened Wrappers
  import opened Values
  import opened Flattening
  import opened Oam
  import opened Records
  import opened Codec
  import opened Query
  import Extract
  import Engine

  datatype Db = Db(entityIds: set<string>, rels: seq<Extract.Rel>, entityTagNodes: seq<Dict>, edgeTagNodes: seq<Dict>)

  /** An operation's result together with the database after it. */
  datatype Out<T> = Out(result: Result<T>, db: Db)

  /** What a loop over query records does with one record: skip it, keep a
      value, or raise. */
  datatype Pick<T> = Skip | Take(value: T) | Raise(msg: string)

  /** The loop over the records: the kept values in order, or the first
      exception. */
  function Gather<T>(ps: seq<Pick<T>>): Result<seq<T>>
    decreases |ps|
  {
    if ps == [] then Ok([])
    else match ps[0]
      case Skip => Gather(ps[1..])
      case Raise(m) => Err(m)
      case Take(v) => Prepend([v], Gather(ps[1..]))
  }

  /** The loop succeeds iff no record raises; it then keeps exactly the
      taken values, and otherwise fails with the first record that raises. */
  lemma {:induction false} GatherSpec<T>(ps: seq<Pick<T>>)
    ensures Gather(ps).Ok? <==> forall i | 0 <= i < |ps| :: !ps[i].Raise?
    ensures Gather(ps).Ok? ==> forall x :: x in Gather(ps).value <==> exists i | 0 <= i < |ps| :: ps[i] == Take(x)
    ensures Gather(ps).Err? ==> exists i | 0 <= i < |ps| :: ps[i] == Raise(Gather(ps).msg) && forall j | 0 <= j < i :: !ps[j].Raise?
    ensures (forall i | 0 <= i < |ps| :: ps[i].Skip?) ==> Gather(ps) == Ok([])
    decreases |ps|
  {
    if ps != [] {
      GatherSpec(ps[1..]);
      assert forall i | 1 <= i < |ps| :: ps[i] == ps[1..][i - 1];
      if ps[0].Skip? || ps[0].Take? {
        if Gather(ps[1..]).Err? {
          var i :| 0 <= i < |ps[1..]| && ps[1..][i] == Raise(Gather(ps[1..]).msg) && forall j | 0 <= j < i :: !ps[1..][j].Raise?;
          assert ps[i + 1] == Raise(Gather(ps).msg);
          forall j | 0 <= j < i + 1 ensures !ps[j].Raise? {
            if j > 0 { assert ps[j] == ps[1..][j - 1]; }
          }
        }
      }
    }
  }

  /** One record of a successful loop: it did not raise, and a value it
      took is kept. */
  lemma {:induction false} GatherAt<T>(ps: seq<Pick<T>>, ts: seq<T>, i: int)
    requires Gather(ps) == Ok(ts) && 0 <= i < |ps|
    ensures !ps[i].Raise? && (ps[i].Take? ==> ps[i].value in ts)
    decreases |ps|
  {
    match ps[0]
    case Skip =>
      if i > 0 {
        GatherAt(ps[1..], ts, i - 1);
      }
    case Take(v) =>
      var rest := Gather(ps[1..]).value;
      assert ts == [v] + rest;
      if i > 0 {
        GatherAt(ps[1..], rest, i - 1);
      }
  }

  /** A value a successful loop keeps was taken from some record. */
  lemma {:induction false} GatherSource<T>(ps: seq<Pick<T>>, ts: seq<T>, x: T) returns (i: int)
    requires Gather(ps) == Ok(ts) && x in ts
    ensures 0 <= i < |ps| && ps[i] == Take(x)
    decreases |ps|
  {
    match ps[0]
    case Skip =>
      i := GatherSource(ps[1..], ts, x);
      i := i + 1;
    case Take(v) =>
      var rest := Gather(ps[1..]).value;
      assert ts == [v] + rest;
      if x == v {
        i := 0;
      } else {
        i := GatherSource(ps[1..], rest, x);
        i := i + 1;
      }
  }

  /** The id-only stand-in the decoders and the adjacency queries attach. */
  function Stub(id: string): Entity {
    Entity(id, None, None, None)
  }

  /** `WHERE x.updated_at >= localDateTime(since)`: a missing or non-DateTime
      value never passes. */
  predicate SinceHolds(since: Option<int>, v: Value) {
    since.None? || (v.VTime? && v.t >= since.value)
  }

  // ---------------------------------------------------------------- edges

  /** The query and filters of `outgoing_edges` / `incoming_edges` for one
      relationship: not an edge of the entity, not updated since, or not one
      of the labels is skipped; a decoding failure raises in
      `incoming_edges` and is skipped by `outgoing_edges`. */
  function AdjacentPick(lib: Library, r: Extract.Rel, dir: Engine.Direction, entity: Entity, since: Option<int>, labels: seq<string>): Pick<Edge> {
    if !RelPasses(r, dir, entity, since, labels) then Skip
    else match Extract.RelationshipToEdge(lib, r)
      case Err(m) => if dir == Engine.Incoming then Raise(m) else Skip
      case Ok(e) =>
        if dir == Engine.Outgoing then Take(e.(fromEntity := Some(entity), toEntity := Some(Stub(r.toId))))
        else Take(e.(fromEntity := Some(Stub(r.fromId)), toEntity := Some(entity)))
  }

  function AdjacentPicks(lib: Library, rels: seq<Extract.Rel>, dir: Engine.Direction, entity: Entity, since: Option<int>, labels: seq<string>): (ps: seq<Pick<Edge>>)
    ensures |ps| == |rels|
    ensures forall i | 0 <= i < |rels| :: ps[i] == AdjacentPick(lib, rels[i], dir, entity, since, labels)
  {
    seq(|rels|, i requires 0 <= i < |rels| => AdjacentPick(lib, rels[i], dir, entity, since, labels))
  }

  /** `outgoing_edges(entity, since, *labels)` / `incoming_edges(...)`: an
      empty result raises. */
  function Adjacent(lib: Library, db: Db, dir: Engine.Direction, entity: Entity, since: Option<int>, labels: seq<string>): (r: Result<seq<Edge>>)
    ensures r.Ok? ==> |r.value| > 0
    ensures (forall i | 0 <= i < |db.rels| :: !RelPasses(db.rels[i], dir, entity, since, labels)) ==> r == Err("no edge found")
  {
    GatherSpec(AdjacentPicks(lib, db.rels, dir, entity, since, labels));
    var es :- Gather(AdjacentPicks(lib, db.rels, dir, entity, since, labels));
    if |es| == 0 then Err("no edge found") else Ok(es)
  }

  /** The relationship r touches the entity at the queried end and passes
      the since and label filters. */
  predicate RelPasses(r: Extract.Rel, dir: Engine.Direction, entity: Entity, since: Option<int>, labels: seq<string>) {
    && (if dir == Engine.Outgoing then r.fromId else r.toId) == entity.id
    && SinceHolds(since, NodeGet(r.props, "updated_at"))
    && Engine.LabelOk(labels, r.relType)
  }

  /** The edge e is relationship r read as an edge of the entity in the
      direction asked for, kept by the since and label filters. */
  predicate AdjacentOf(r: Extract.Rel, dir: Engine.Direction, entity: Entity, since: Option<int>, labels: seq<string>, e: Edge) {
    && RelPasses(r, dir, entity, since, labels)
    && e.id == r.elementId
    && (dir == Engine.Outgoing ==> e.fromEntity == Some(entity) && e.toEntity == Some(Stub(r.toId)))
    && (dir == Engine.Incoming ==> e.toEntity == Some(entity) && e.fromEntity == Some(Stub(r.fromId)))
  }

  /** What one relationship contributes: a kept edge is that relationship
      read as an edge of the entity, and `outgoing_edges` never raises on
      it. */
  lemma AdjacentPickSound(lib: Library, r: Extract.Rel, dir: Engine.Direction, entity: Entity, since: Option<int>, labels: seq<string>)
    ensures var p := AdjacentPick(lib, r, dir, entity, since, labels);
      && (p.Take? ==> AdjacentOf(r, dir, entity, since, labels, p.value))
      && (RelPasses(r, dir, entity, since, labels) && Extract.RelationshipToEdge(lib, r).Ok? ==> p.Take?)
      && (dir == Engine.Outgoing ==> !p.Raise?)
  {
  }

  /** The edges returned are exactly the relationships of the entity in the
      right direction, updated since `since` and carrying one of the labels,
      each decoded with the entity at its end; the result is never empty.
      `outgoing_edges` fails only with "no edge found", skipping what it
      cannot decode, while `incoming_edges` fails on the first matching
      relationship it cannot decode. */
  lemma AdjacentSpec(lib: Library, db: Db, dir: Engine.Direction, entity: Entity, since: Option<int>, labels: seq<string>)
    ensures var r := Adjacent(lib, db, dir, entity, since, labels);
      && (r.Ok? ==> |r.value| > 0)
      && (r.Ok? ==> forall e | e in r.value :: exists i | 0 <= i < |db.rels| :: AdjacentOf(db.rels[i], dir, entity, since, labels, e))
      && (r.Ok? ==> forall i | 0 <= i < |db.rels| && RelPasses(db.rels[i], dir, entity, since, labels)
            && Extract.RelationshipToEdge(lib, db.rels[i]).Ok? ::
            exists e | e in r.value :: AdjacentOf(db.rels[i], dir, entity, since, labels, e))
      && (dir == Engine.Outgoing && r.Err? ==> r.msg == "no edge found")
  {
    var ps := AdjacentPicks(lib, db.rels, dir, entity, since, labels);
    GatherSpec(ps);
    var r := Adjacent(lib, db, dir, entity, since, labels);
    if r.Ok? {
      forall e | e in r.value
        ensures exists i | 0 <= i < |db.rels| :: AdjacentOf(db.rels[i], dir, entity, since, labels, e)
      {
        var i :| 0 <= i < |ps| && ps[i] == Take(e);
        AdjacentPickSound(lib, db.rels[i], dir, entity, since, labels);
      }
      AdjacentComplete(lib, db, dir, entity, since, labels, r.value);
    }
    if dir == Engine.Outgoing {
      forall i | 0 <= i < |ps| ensures !ps[i].Raise? {
        AdjacentPickSound(lib, db.rels[i], dir, entity, since, labels);
      }
    }
  }

  /** Every relationship that passes the filters and decodes is kept. */
  lemma AdjacentComplete(lib: Library, db: Db, dir: Engine.Direction, entity: Entity, since: Option<int>, labels: seq<string>, es: seq<Edge>)
    requires Gather(AdjacentPicks(lib, db.rels, dir, entity, since, labels)) == Ok(es)
    ensures forall i | 0 <= i < |db.rels| && RelPasses(db.rels[i], dir, entity, since, labels)
      && Extract.RelationshipToEdge(lib, db.rels[i]).Ok? ::
      exists e | e in es :: AdjacentOf(db.rels[i], dir, entity, since, labels, e)
  {
    var ps := AdjacentPicks(lib, db.rels, dir, entity, since, labels);
    GatherSpec(ps);
    forall i | 0 <= i < |db.rels| && RelPasses(db.rels[i], dir, entity, since, labels)
        && Extract.RelationshipToEdge(lib, db.rels[i]).Ok?
      ensures exists e | e in es :: AdjacentOf(db.rels[i], dir, entity, since, labels, e)
    {
      AdjacentPickSound(lib, db.rels[i], dir, entity, since, labels);
      assert ps[i] == Take(ps[i].value);
      assert ps[i].value in es;
    }
  }

  /** `find_edge_by_id(id)`'s `Result.single`: the first relationship with
      that element id. */
  function FirstRel(rels: seq<Extract.Rel>, id: string): (r: Option<Extract.Rel>)
    ensures r.Some? ==> r.value in rels && r.value.elementId == id
    ensures r.None? <==> forall i | 0 <= i < |rels| :: rels[i].elementId != id
    decreases |rels|
  {
    if rels == [] then None
    else if rels[0].elementId == id then Some(rels[0])
    else
      var r := FirstRel(rels[1..], id);
      assert forall i | 1 <= i < |rels| :: rels[i] == rels[1..][i - 1];
      r
  }

  /** `find_edge_by_id(id)`: both endpoints come back as id-only entities. */
  function FindEdgeById(lib: Library, db: Db, id: string): (r: Result<Edge>)
    ensures (forall i | 0 <= i < |db.rels| :: db.rels[i].elementId != id) ==> r == Err("no edge was found")
    ensures r.Ok? ==> r.value.id == id && r.value.fromEntity.Some? && r.value.toEntity.Some?
  {
    match FirstRel(db.rels, id)
    case None => Err("no edge was found")
    case Some(r) =>
      var e :- Extract.RelationshipToEdge(lib, r);
      Ok(e.(fromEntity := Some(Stub(r.fromId)), toEntity := Some(Stub(r.toId))))
  }

  /** `edge_seen(edge, updated)`: `SET r.updated_at` on the relationship with
      that element id. */
  function EdgeSeen(rels: seq<Extract.Rel>, id: string, updated: int): (r: seq<Extract.Rel>)
    ensures |r| == |rels|
    ensures forall i | 0 <= i < |rels| ::
      r[i] == if rels[i].elementId == id then rels[i].(props := Put(rels[i].props, "updated_at", VTime(updated))) else rels[i]
  {
    seq(|rels|, i requires 0 <= i < |rels| =>
      if rels[i].elementId == id then rels[i].(props := Put(rels[i].props, "updated_at", VTime(updated))) else rels[i])
  }

  /** The comparison of `get_duplicate_edge`: same target id and a relation
      equal under `==`. */
  predicate SameEdge(out: Edge, edge: Edge)
    requires edge.toEntity.Some?
  {
    out.toEntity.Some? && out.toEntity.value.id == edge.toEntity.value.id && out.relation == edge.relation
  }

  function FirstSame(outs: seq<Edge>, edge: Edge): (r: Option<Edge>)
    requires edge.toEntity.Some?
    ensures r.Some? ==> r.value in outs && SameEdge(r.value, edge)
    ensures r.None? ==> forall o | o in outs :: !SameEdge(o, edge)
    decreases |outs|
  {
    if outs == [] then None
    else if SameEdge(outs[0], edge) then Some(outs[0])
    else FirstSame(outs[1..], edge)
  }

  datatype Dup = Dup(found: Option<Edge>, db: Db)

  /** `get_duplicate_edge(edge, updated)`: bump and re-read the first
      outgoing edge that duplicates the given one; every exception, before
      or after the bump, gives None. */
  function GetDuplicateEdge(lib: Library, db: Db, edge: Edge, updated: int): (d: Dup)
    ensures d.db.entityIds == db.entityIds && d.db.entityTagNodes == db.entityTagNodes && d.db.edgeTagNodes == db.edgeTagNodes
    ensures |d.db.rels| == |db.rels|
    ensures forall i | 0 <= i < |db.rels| :: d.db.rels[i].fromId == db.rels[i].fromId && d.db.rels[i].toId == db.rels[i].toId
    ensures edge.fromEntity.None? || edge.toEntity.None? ==> d == Dup(None, db)
  {
    if edge.fromEntity.None? || edge.toEntity.None? then Dup(None, db)
    else match Adjacent(lib, db, Engine.Outgoing, edge.fromEntity.value, None, [])
      case Err(_) => Dup(None, db)
      case Ok(outs) =>
        match FirstSame(outs, edge)
        case None => Dup(None, db)
        case Some(out) =>
          var bumped := db.(rels := EdgeSeen(db.rels, out.id, updated));
          match FindEdgeById(lib, bumped, out.id)
          case Err(_) => Dup(None, bumped)
          case Ok(e) => Dup(Some(e), bumped)
  }

  /** A duplicate found is the stored relationship re-read after the bump:
      its `updated_at` is the given time, and only relationships with its
      element id changed, in their `updated_at` alone. */
  lemma DuplicateIsBumped(lib: Library, db: Db, edge: Edge, updated: int)
    ensures var d := GetDuplicateEdge(lib, db, edge, updated);
      && d.db.entityIds == db.entityIds && d.db.entityTagNodes == db.entityTagNodes && d.db.edgeTagNodes == db.edgeTagNodes
      && |d.db.rels| == |db.rels|
      && (d.found.Some? ==>
            && d.found.value.updatedAt == Some(updated)
            && d.db.rels == EdgeSeen(db.rels, d.found.value.id, updated))
  {
    var d := GetDuplicateEdge(lib, db, edge, updated);
    if d.found.Some? {
      var outs := Adjacent(lib, db, Engine.Outgoing, edge.fromEntity.value, None, []).value;
      var out := FirstSame(outs, edge).value;
      AdjacentSpec(lib, db, Engine.Outgoing, edge.fromEntity.value, None, []);
      var i :| 0 <= i < |db.rels| && AdjacentOf(db.rels[i], Engine.Outgoing, edge.fromEntity.value, None, [], out);
      FirstRelBumped(db.rels, out.id, updated);
      var r := FirstRel(db.rels, out.id).value;
      GetPut(r.props, "updated_at", VTime(updated), "updated_at");
    }
  }

  /** The relationship `find_edge_by_id` reads after `edge_seen` is the one
      it read before, with `updated_at` replaced. */
  lemma {:induction false} FirstRelBumped(rels: seq<Extract.Rel>, id: string, updated: int)
    requires FirstRel(rels, id).Some?
    ensures FirstRel(EdgeSeen(rels, id, updated), id) ==
      Some(FirstRel(rels, id).value.(props := Put(FirstRel(rels, id).value.props, "updated_at", VTime(updated))))
    decreases |rels|
  {
    var rels' := EdgeSeen(rels, id, updated);
    if rels[0].elementId != id {
      assert rels'[1..] == EdgeSeen(rels[1..], id, updated);
      FirstRelBumped(rels[1..], id, updated);
    }
  }

  const TaxonomyFormatError := "'Exception' object has no attribute 'format'"

  /** The relationship `create_edge` writes: the edge's upper-case label as
      its type and its `to_dict()` as its properties. */
  function NewRel(lib: Library, edge: Edge, elementId: string): Extract.Rel
    requires edge.relation.Some? && edge.fromEntity.Some? && edge.toEntity.Some?
  {
    Extract.Rel(elementId, edge.fromEntity.value.id, edge.toEntity.value.id,
                Upper(lib.relationLabel(edge.relation.value)), EdgeToDict(edge).value)
  }

  /** The CREATE of `create_edge`: no row comes back when an endpoint is not
      stored; otherwise the relationship is written, then decoded and given
      the input's endpoints. */
  function InsertEdge(lib: Library, db: Db, edge: Edge, elementId: string): (out: Out<Edge>)
    requires edge.relation.Some? && edge.fromEntity.Some? && edge.toEntity.Some?
    ensures edge.fromEntity.value.id !in db.entityIds || edge.toEntity.value.id !in db.entityIds ==>
      out == Out(Err("no records returned from the query"), db)
    ensures out.db.entityIds == db.entityIds && out.db.entityTagNodes == db.entityTagNodes && out.db.edgeTagNodes == db.edgeTagNodes
    ensures out.db.rels == db.rels || |out.db.rels| == |db.rels| + 1
    ensures Valid(db) ==> Valid(out.db)
  {
    if edge.fromEntity.value.id !in db.entityIds || edge.toEntity.value.id !in db.entityIds
    then Out(Err("no records returned from the query"), db)
    else
      var rel := NewRel(lib, edge, elementId);
      var db' := db.(rels := db.rels + [rel]);
      match Extract.RelationshipToEdge(lib, rel)
      case Err(m) => Out(Err(m), db')
      case Ok(e) => Out(Ok(e.(fromEntity := edge.fromEntity, toEntity := edge.toEntity)), db')
  }

  /** `create_edge(edge)` of the `asset_db` store; `now` is the clock reading
      and `elementId` the id Neo4j gives a new relationship. */
  function CreateEdge(lib: Library, db: Db, edge: Edge, now: int, elementId: string): (out: Out<Edge>)
    ensures out.db.entityIds == db.entityIds && out.db.entityTagNodes == db.entityTagNodes && out.db.edgeTagNodes == db.edgeTagNodes
    ensures |db.rels| <= |out.db.rels| <= |db.rels| + 1
  {
    if edge.relation.None? || edge.fromEntity.None? || edge.toEntity.None?
    then Out(Err("failed input validation check"), db)
    else if edge.fromEntity.value.asset.None? || edge.toEntity.value.asset.None?
    then Out(Err(NoneAttribute), db)
    else if !lib.validRelationship(edge.fromEntity.value.asset.value.assetType, lib.relationLabel(edge.relation.value),
                                   edge.relation.value.rtype, edge.toEntity.value.asset.value.assetType)
    then Out(Err(TaxonomyFormatError), db)
    else
      var stamped := edge.(updatedAt := if edge.updatedAt.None? then Some(now) else edge.updatedAt);
      var d := GetDuplicateEdge(lib, db, stamped, stamped.updatedAt.value);
      if d.found.Some? then Out(Ok(d.found.value), d.db)
      else InsertEdge(lib, d.db, stamped.(createdAt := if edge.createdAt.None? then Some(now) else edge.createdAt), elementId)
  }

  /** Every relationship joins two stored entity nodes, as a Neo4j graph
      does. */
  ghost predicate Valid(db: Db)
  {
    forall i | 0 <= i < |db.rels| :: db.rels[i].fromId in db.entityIds && db.rels[i].toId in db.entityIds
  }

  /** `create_edge` keeps every relationship between stored entities: the
      bump changes no endpoint, and the CREATE matches both endpoints first. */
  lemma CreateEdgeKeepsValid(lib: Library, db: Db, edge: Edge, now: int, elementId: string)
    requires Valid(db)
    ensures Valid(CreateEdge(lib, db, edge, now, elementId).db)
  {
    if edge.relation.Some? && edge.fromEntity.Some? && edge.toEntity.Some? {
      var stamped := edge.(updatedAt := if edge.updatedAt.None? then Some(now) else edge.updatedAt);
      var d := GetDuplicateEdge(lib, db, stamped, stamped.updatedAt.value);
      assert Valid(d.db);
    }
  }

  /** A missing relation or endpoint, and a relationship the taxonomy
      rejects, raise before any lookup or write. */
  lemma CreateEdgeRejects(lib: Library, db: Db, edge: Edge, now: int, elementId: string)
    ensures edge.relation.None? || edge.fromEntity.None? || edge.toEntity.None? ==>
      CreateEdge(lib, db, edge, now, elementId) == Out(Err("failed input validation check"), db)
    ensures edge.relation.Some? && edge.fromEntity.Some? && edge.toEntity.Some?
      && edge.fromEntity.value.asset.Some? && edge.toEntity.value.asset.Some?
      && !lib.validRelationship(edge.fromEntity.value.asset.value.assetType, lib.relationLabel(edge.relation.value),
                                edge.relation.value.rtype, edge.toEntity.value.asset.value.assetType)
      ==> CreateEdge(lib, db, edge, now, elementId) == Out(Err(TaxonomyFormatError), db)
  {
  }

  /** On a duplicate, `create_edge` returns it, re-read with its `updated_at`
      bumped to the edge's (or now when unset), and writes nothing else. */
  lemma CreateEdgeDuplicate(lib: Library, db: Db, edge: Edge, now: int, elementId: string)
    requires edge.relation.Some? && edge.fromEntity.Some? && edge.toEntity.Some?
    requires CreateEdge(lib, db, edge, now, elementId).result.Ok?
    requires var stamped := edge.(updatedAt := if edge.updatedAt.None? then Some(now) else edge.updatedAt);
      GetDuplicateEdge(lib, db, stamped, stamped.updatedAt.value).found.Some?
    ensures var out := CreateEdge(lib, db, edge, now, elementId);
      && out.result.value.updatedAt == (if edge.updatedAt.None? then Some(now) else edge.updatedAt)
      && |out.db.rels| == |db.rels|
      && out.db.rels == EdgeSeen(db.rels, out.result.value.id, out.result.value.updatedAt.value)
  {
    var stamped := edge.(updatedAt := if edge.updatedAt.None? then Some(now) else edge.updatedAt);
    DuplicateIsBumped(lib, db, stamped, stamped.updatedAt.value);
  }

  /** The CREATE appends exactly one relationship, typed with the
      relation's `etype`, and returns the decoded edge with the input's
      endpoints and the new element id. */
  lemma InsertEdgeSpec(lib: Library, db: Db, edge: Edge, elementId: string)
    requires edge.relation.Some? && edge.fromEntity.Some? && edge.toEntity.Some?
    requires edge.fromEntity.value.id in db.entityIds && edge.toEntity.value.id in db.entityIds
    ensures var out := InsertEdge(lib, db, edge, elementId);
      && out.db == db.(rels := db.rels + [NewRel(lib, edge, elementId)])
      && ("etype" !in Keys(Leaves(edge.relation.value.attrs)) ==>
            Get(NewRel(lib, edge, elementId).props, "etype") == Some(VStr(RelationTypeValue(edge.relation.value.rtype))))
      && (out.result.Ok? ==>
            && out.result.value.id == elementId
            && out.result.value.fromEntity == edge.fromEntity && out.result.value.toEntity == edge.toEntity)
  {
    EdgeToDictGet(edge, "etype");
  }

  /** Without a duplicate, `create_edge` writes exactly one relationship,
      at the end, carrying `updated_at` and `created_at` as given or now
      when unset, and returns it with the input's endpoints. */
  lemma CreateEdgeInserts(lib: Library, db: Db, edge: Edge, now: int, elementId: string)
    requires edge.relation.Some? && edge.fromEntity.Some? && edge.toEntity.Some?
    requires edge.fromEntity.value.asset.Some? && edge.toEntity.value.asset.Some?
    requires lib.validRelationship(edge.fromEntity.value.asset.value.assetType, lib.relationLabel(edge.relation.value),
                                   edge.relation.value.rtype, edge.toEntity.value.asset.value.assetType)
    requires edge.fromEntity.value.id in db.entityIds && edge.toEntity.value.id in db.entityIds
    requires var stamped := edge.(updatedAt := if edge.updatedAt.None? then Some(now) else edge.updatedAt);
      GetDuplicateEdge(lib, db, stamped, stamped.updatedAt.value).found.None?
    ensures var out := CreateEdge(lib, db, edge, now, elementId);
      var full := edge.(createdAt := if edge.createdAt.None? then Some(now) else edge.createdAt,
                        updatedAt := if edge.updatedAt.None? then Some(now) else edge.updatedAt);
      && |out.db.rels| == |db.rels| + 1
      && out.db.rels[|db.rels|] == NewRel(lib, full, elementId)
      && out.db.entityTagNodes == db.entityTagNodes && out.db.edgeTagNodes == db.edgeTagNodes
      && (out.result.Ok? ==>
            && out.result.value.id == elementId
            && out.result.value.fromEntity == edge.fromEntity && out.result.value.toEntity == edge.toEntity)
  {
    var stamped := edge.(updatedAt := if edge.updatedAt.None? then Some(now) else edge.updatedAt);
    var full := edge.(createdAt := if edge.createdAt.None? then Some(now) else edge.createdAt,
                      updatedAt := if edge.updatedAt.None? then Some(now) else edge.updatedAt);
    var d := GetDuplicateEdge(lib, db, stamped, stamped.updatedAt.value);
    assert stamped.(createdAt := if edge.createdAt.None? then Some(now) else edge.createdAt) == full;
    assert CreateEdge(lib, db, edge, now, elementId) == InsertEdge(lib, d.db, full, elementId);
    DuplicateIsBumped(lib, db, stamped, stamped.updatedAt.value);
    InsertEdgeSpec(lib, d.db, full, elementId);
  }

  // ---------------------------------------------------------------- tags

  function TagNodes(db: Db, kind: TagKind): seq<Dict> {
    if kind == EntityTagKind then db.entityTagNodes else db.edgeTagNodes
  }

  function WithTagNodes(db: Db, kind: TagKind, nodes: seq<Dict>): Db {
    if kind == EntityTagKind then db.(entityTagNodes := nodes) else db.(edgeTagNodes := nodes)
  }

  /** The message when the query returns no record. */
  function NoTagsMessage(kind: TagKind): string {
    if kind == EntityTagKind then "no entity tags found" else "no edge tags found"
  }

  /** The message when no tag survives the loop. */
  function NoTagMessage(kind: TagKind): string {
    if kind == EntityTagKind then "no entity tag found" else "no edge tag found"
  }

  /** The nodes a MATCH returns, in store order. */
  function Select(nodes: seq<Dict>, keep: Dict -> bool): (r: seq<Dict>)
    ensures forall x :: x in r <==> x in nodes && keep(x)
    decreases |nodes|
  {
    if nodes == [] then []
    else
      var head := if keep(nodes[0]) then [nodes[0]] else [];
      head + Select(nodes[1..], keep)
  }

  /** `MATCH (p:EntityTag {k: v, ...}) WHERE p.updated_at >= since`. */
  predicate ContentKeep(pairs: seq<(string, Literal)>, since: Option<int>, node: Dict) {
    NodeMatches(node, pairs) && SinceHolds(since, NodeGet(node, "updated_at"))
  }

  /** The node decodes, and its tag is among ts when its property name
      passes the name filter (always, with no names). */
  predicate Listed(lib: Library, kind: TagKind, names: seq<string>, n: Dict, ts: seq<Tag>) {
    && Extract.NodeToTag(lib, kind, n).Ok?
    && (|names| == 0 || lib.propertyName(Extract.NodeToTag(lib, kind, n).value.prop.value) in names ==>
          Extract.NodeToTag(lib, kind, n).value in ts)
  }

  /** What holds of every node a MATCH returns holds of every stored node it
      keeps. */
  lemma SelectedListed(lib: Library, kind: TagKind, names: seq<string>, all: seq<Dict>, keep: Dict -> bool, ts: seq<Tag>)
    requires forall i | 0 <= i < |Select(all, keep)| :: Listed(lib, kind, names, Select(all, keep)[i], ts)
    ensures forall n | n in all && keep(n) :: Listed(lib, kind, names, n, ts)
  {
    var nodes := Select(all, keep);
    forall n | n in all && keep(n) ensures Listed(lib, kind, names, n, ts) {
      assert n in nodes;
      var i :| 0 <= i < |nodes| && nodes[i] == n;
    }
  }

  /** The content loop decodes every record, and a decoding failure raises. */
  function DecodePick(lib: Library, kind: TagKind, node: Dict): Pick<Tag> {
    match Extract.NodeToTag(lib, kind, node)
    case Ok(t) => Take(t)
    case Err(m) => Raise(m)
  }

  function DecodePicks(lib: Library, kind: TagKind, nodes: seq<Dict>): (ps: seq<Pick<Tag>>)
    ensures |ps| == |nodes|
    ensures forall i | 0 <= i < |nodes| :: ps[i] == DecodePick(lib, kind, nodes[i])
  {
    seq(|nodes|, i requires 0 <= i < |nodes| => DecodePick(lib, kind, nodes[i]))
  }

  /** The content loop over the matched nodes: a tag per node, the first
      decoding failure, or the "no tag" error for an empty result. */
  function DecodeAll(lib: Library, kind: TagKind, nodes: seq<Dict>): (r: Result<seq<Tag>>)
    ensures r.Ok? ==> |r.value| > 0 && forall t | t in r.value ::
      exists i | 0 <= i < |nodes| :: Extract.NodeToTag(lib, kind, nodes[i]) == Ok(t)
    ensures r.Ok? ==> forall i | 0 <= i < |nodes| :: Listed(lib, kind, [], nodes[i], r.value)
  {
    var tags :- Gather(DecodePicks(lib, kind, nodes));
    DecodePicksSound(lib, kind, nodes, tags);
    DecodePicksListed(lib, kind, nodes, tags);
    if |tags| == 0 then Err(NoTagMessage(kind)) else Ok(tags)
  }

  /** Every tag the content loop keeps is a decoded node. */
  lemma DecodePicksSound(lib: Library, kind: TagKind, nodes: seq<Dict>, ts: seq<Tag>)
    requires Gather(DecodePicks(lib, kind, nodes)) == Ok(ts)
    ensures forall t | t in ts :: exists i | 0 <= i < |nodes| :: Extract.NodeToTag(lib, kind, nodes[i]) == Ok(t)
  {
    var ps := DecodePicks(lib, kind, nodes);
    forall t | t in ts ensures exists i | 0 <= i < |nodes| :: Extract.NodeToTag(lib, kind, nodes[i]) == Ok(t) {
      var i := GatherSource(ps, ts, t);
      assert Extract.NodeToTag(lib, kind, nodes[i]) == Ok(t);
    }
  }

  /** After a successful content loop every node decodes and is kept. */
  lemma DecodePicksListed(lib: Library, kind: TagKind, nodes: seq<Dict>, ts: seq<Tag>)
    requires Gather(DecodePicks(lib, kind, nodes)) == Ok(ts)
    ensures forall i | 0 <= i < |nodes| :: Listed(lib, kind, [], nodes[i], ts)
  {
    var ps := DecodePicks(lib, kind, nodes);
    forall i | 0 <= i < |nodes| ensures Listed(lib, kind, [], nodes[i], ts) {
      GatherAt(ps, ts, i);
    }
  }

  /** `find_entity_tags_by_content(prop, since)` /
      `find_edge_tags_by_content(prop, since)` of the `asset_db` store. */
  function FindTagsByContent(lib: Library, db: Db, kind: TagKind, prop: Option<Property>, since: Option<int>): (r: Result<seq<Tag>>)
    ensures prop.None? || !Query.Handled(prop.value.ptype) ==> r == Err("asset type not supported")
    ensures prop.Some? && QueryPairsAsWritten(prop.value).Err? ==> r == Err(QueryPairsAsWritten(prop.value).msg)
    ensures r.Ok? ==> |r.value| > 0 && forall t | t in r.value :: t.kind == kind
  {
    if prop.None? then Err("asset type not supported")
    else
      var pairs :- QueryPairsAsWritten(prop.value);
      var nodes := Select(TagNodes(db, kind), n => ContentKeep(pairs, since, n));
      if |nodes| == 0 then Err(NoTagsMessage(kind)) else DecodeAll(lib, kind, nodes)
  }

  /** A pattern that cannot be built is the lookup's error.  Otherwise,
      without a matching node the lookup raises; with one it fails on the
      first node it cannot decode or returns one tag per matching node, each
      decoded from a node of the right kind that matches the property's
      pattern as written and was updated since `since`. */
  lemma FindTagsByContentSpec(lib: Library, db: Db, kind: TagKind, p: Property, since: Option<int>)
    ensures QueryPairsAsWritten(p).Err? ==>
      FindTagsByContent(lib, db, kind, Some(p), since) == Err(QueryPairsAsWritten(p).msg)
    ensures QueryPairsAsWritten(p).Ok? ==> var pairs := QueryPairsAsWritten(p).value;
      var r := FindTagsByContent(lib, db, kind, Some(p), since);
      && ((forall n | n in TagNodes(db, kind) :: !ContentKeep(pairs, since, n)) ==> r == Err(NoTagsMessage(kind)))
      && (r.Ok? ==> |r.value| > 0 && forall t | t in r.value ::
            exists n | n in TagNodes(db, kind) :: ContentKeep(pairs, since, n) && Extract.NodeToTag(lib, kind, n) == Ok(t))
      && (r.Ok? ==> forall n | n in TagNodes(db, kind) && ContentKeep(pairs, since, n) :: Listed(lib, kind, [], n, r.value))
  {
    if QueryPairsAsWritten(p).Err? {
      return;
    }
    var pairs := QueryPairsAsWritten(p).value;
    var nodes := Select(TagNodes(db, kind), n => ContentKeep(pairs, since, n));
    if |nodes| > 0 {
      assert nodes[0] in nodes;
      var r := DecodeAll(lib, kind, nodes);
      if r.Ok? {
        forall t | t in r.value
          ensures exists n | n in TagNodes(db, kind) :: ContentKeep(pairs, since, n) && Extract.NodeToTag(lib, kind, n) == Ok(t)
        {
          var i :| 0 <= i < |nodes| && Extract.NodeToTag(lib, kind, nodes[i]) == Ok(t);
          assert nodes[i] in nodes;
        }
        SelectedListed(lib, kind, [], TagNodes(db, kind), n => ContentKeep(pairs, since, n), r.value);
      }
    }
  }

  /** As written, looking a Vuln property up by content always raises when
      no stored node carries a `vuln_id` key, as none the store writes from
      a property without one does. */
  lemma VulnContentNeverFound(lib: Library, db: Db, kind: TagKind, p: Property, since: Option<int>)
    requires p.ptype == VulnProperty
    requires forall n | n in TagNodes(db, kind) :: "vuln_id" !in Keys(n)
    ensures FindTagsByContent(lib, db, kind, Some(p), since).Err?
  {
    FindTagsByContentSpec(lib, db, kind, p, since);
    if QueryPairsAsWritten(p).Ok? {
      var pairs := QueryPairsAsWritten(p).value;
      forall n | n in TagNodes(db, kind) ensures !ContentKeep(pairs, since, n) {
        assert pairs[0].0 == "vuln_id" && pairs[0].1.Quoted?;
        assert NodeGet(n, "vuln_id") == VNone;
      }
    }
  }

  /** `MATCH (p:EntityTag {entity_id: '<id>'}) WHERE p.updated_at >= since`. */
  predicate OwnerKeep(kind: TagKind, ownerId: string, since: Option<int>, node: Dict) {
    NodeGet(node, OwnerKey(kind)) == VStr(ownerId) && SinceHolds(since, NodeGet(node, "updated_at"))
  }

  /** The owner loop: a decoding failure raises; with names given, a tag
      whose property name is not listed is skipped. */
  function NamePick(lib: Library, kind: TagKind, names: seq<string>, node: Dict): Pick<Tag> {
    match Extract.NodeToTag(lib, kind, node)
    case Err(m) => Raise(m)
    case Ok(t) =>
      if |names| > 0 && lib.propertyName(t.prop.value) !in names then Skip else Take(t)
  }

  function NamePicks(lib: Library, kind: TagKind, names: seq<string>, nodes: seq<Dict>): (ps: seq<Pick<Tag>>)
    ensures |ps| == |nodes|
    ensures forall i | 0 <= i < |nodes| :: ps[i] == NamePick(lib, kind, names, nodes[i])
  {
    seq(|nodes|, i requires 0 <= i < |nodes| => NamePick(lib, kind, names, nodes[i]))
  }

  /** The owner loop over the matched nodes: the tags passing the name
      filter, the first decoding failure, or the "no tag" error when none
      passes. */
  function DecodeNamed(lib: Library, kind: TagKind, names: seq<string>, nodes: seq<Dict>): (r: Result<seq<Tag>>)
    ensures r.Ok? ==> |r.value| > 0 && forall t | t in r.value ::
      && t.prop.Some? && (|names| == 0 || lib.propertyName(t.prop.value) in names)
      && exists i | 0 <= i < |nodes| :: Extract.NodeToTag(lib, kind, nodes[i]) == Ok(t)
    ensures r.Ok? ==> forall i | 0 <= i < |nodes| :: Listed(lib, kind, names, nodes[i], r.value)
  {
    var tags :- Gather(NamePicks(lib, kind, names, nodes));
    NamePicksSound(lib, kind, names, nodes, tags);
    NamePicksListed(lib, kind, names, nodes, tags);
    if |tags| == 0 then Err(NoTagMessage(kind)) else Ok(tags)
  }

  /** Every tag the owner loop keeps is a decoded node passing the name
      filter. */
  lemma NamePicksSound(lib: Library, kind: TagKind, names: seq<string>, nodes: seq<Dict>, ts: seq<Tag>)
    requires Gather(NamePicks(lib, kind, names, nodes)) == Ok(ts)
    ensures forall t | t in ts ::
      && t.prop.Some? && (|names| == 0 || lib.propertyName(t.prop.value) in names)
      && exists i | 0 <= i < |nodes| :: Extract.NodeToTag(lib, kind, nodes[i]) == Ok(t)
  {
    var ps := NamePicks(lib, kind, names, nodes);
    forall t | t in ts
      ensures t.prop.Some? && (|names| == 0 || lib.propertyName(t.prop.value) in names)
      ensures exists i | 0 <= i < |nodes| :: Extract.NodeToTag(lib, kind, nodes[i]) == Ok(t)
    {
      var i := GatherSource(ps, ts, t);
      NamePickTake(lib, kind, names, nodes[i], t);
    }
  }

  /** A node the owner loop keeps decodes to the kept tag, which passes the
      name filter. */
  lemma NamePickTake(lib: Library, kind: TagKind, names: seq<string>, node: Dict, t: Tag)
    requires NamePick(lib, kind, names, node) == Take(t)
    ensures Extract.NodeToTag(lib, kind, node) == Ok(t)
    ensures t.prop.Some? && (|names| == 0 || lib.propertyName(t.prop.value) in names)
  {
  }

  /** After a successful owner loop every node decodes, and each whose
      property name passes the filter is kept. */
  lemma NamePicksListed(lib: Library, kind: TagKind, names: seq<string>, nodes: seq<Dict>, ts: seq<Tag>)
    requires Gather(NamePicks(lib, kind, names, nodes)) == Ok(ts)
    ensures forall i | 0 <= i < |nodes| :: Listed(lib, kind, names, nodes[i], ts)
  {
    var ps := NamePicks(lib, kind, names, nodes);
    forall i | 0 <= i < |nodes| ensures Listed(lib, kind, names, nodes[i], ts) {
      GatherAt(ps, ts, i);
    }
  }

  /** `find_entity_tags(entity, since, *names)` /
      `find_edge_tags(edge, since, *names)` of the `asset_db` store. */
  function FindTags(lib: Library, db: Db, kind: TagKind, ownerId: string, since: Option<int>, names: seq<string>): (r: Result<seq<Tag>>)
    ensures r.Ok? ==> |r.value| > 0 && forall t | t in r.value ::
      t.kind == kind && t.prop.Some? && (|names| == 0 || lib.propertyName(t.prop.value) in names)
  {
    var nodes := Select(TagNodes(db, kind), n => OwnerKeep(kind, ownerId, since, n));
    if |nodes| == 0 then Err(NoTagsMessage(kind)) else DecodeNamed(lib, kind, names, nodes)
  }

  /** Both stores raise when the owner has no tag node and when no tag
      survives the name filter; every tag returned is decoded from a node
      of that owner updated since `since`, and its property name is listed
      when names are given. */
  lemma FindTagsSpec(lib: Library, db: Db, kind: TagKind, ownerId: string, since: Option<int>, names: seq<string>)
    ensures var r := FindTags(lib, db, kind, ownerId, since, names);
      && ((forall n | n in TagNodes(db, kind) :: !OwnerKeep(kind, ownerId, since, n)) ==> r == Err(NoTagsMessage(kind)))
      && (r.Ok? ==> |r.value| > 0 && forall t | t in r.value ::
            && t.prop.Some? && (|names| == 0 || lib.propertyName(t.prop.value) in names)
            && exists n | n in TagNodes(db, kind) :: OwnerKeep(kind, ownerId, since, n) && Extract.NodeToTag(lib, kind, n) == Ok(t))
      && (r.Ok? ==> forall n | n in TagNodes(db, kind) && OwnerKeep(kind, ownerId, since, n) :: Listed(lib, kind, names, n, r.value))
  {
    var nodes := Select(TagNodes(db, kind), n => OwnerKeep(kind, ownerId, since, n));
    if |nodes| > 0 {
      assert nodes[0] in nodes;
      var r := DecodeNamed(lib, kind, names, nodes);
      if r.Ok? {
        forall t | t in r.value
          ensures exists n | n in TagNodes(db, kind) :: OwnerKeep(kind, ownerId, since, n) && Extract.NodeToTag(lib, kind, n) == Ok(t)
        {
          var i :| 0 <= i < |nodes| && Extract.NodeToTag(lib, kind, nodes[i]) == Ok(t);
          assert nodes[i] in nodes;
        }
        SelectedListed(lib, kind, names, TagNodes(db, kind), n => OwnerKeep(kind, ownerId, since, n), r.value);
      }
    }
  }

  /** The first tag owned by the entity or edge with the given id. */
  function FirstOwned(tags: seq<Tag>, kind: TagKind, id: string): (r: Option<Tag>)
    ensures r.Some? ==> r.value in tags && OwnerId(kind, r.value.owner) == Some(id)
    ensures r.None? ==> forall t | t in tags :: OwnerId(kind, t.owner) != Some(id)
    decreases |tags|
  {
    if tags == [] then None
    else if OwnerId(kind, tags[0].owner) == Some(id) then Some(tags[0])
    else FirstOwned(tags[1..], kind, id)
  }

  /** The `existing_tag` of `create_entity_tag` / `create_edge_tag`: with an
      explicit id, the input itself with `updated_at` now; otherwise the
      first content match owned by the same entity or edge, given the
      input's owner and property and `updated_at` now.  A failed lookup
      counts as no match. */
  function ExistingTag(lib: Library, db: Db, kind: TagKind, owner: Owner, tag: Tag, now: int): (r: Option<Tag>)
    requires OwnerId(kind, owner).Some?
    ensures tag.id != "" ==> r.Some? && r.value.id == tag.id && r.value.createdAt == tag.createdAt
    ensures r.Some? ==> r.value.kind == kind && r.value.updatedAt == Some(now)
  {
    if tag.id != "" then Some(Tag(kind, tag.id, tag.createdAt, Some(now), owner, tag.prop))
    else match FindTagsByContent(lib, db, kind, tag.prop, None)
      case Err(_) => None
      case Ok(tags) =>
        match FirstOwned(tags, kind, OwnerId(kind, owner).value)
        case None => None
        case Some(t) => Some(t.(owner := owner, prop := tag.prop, updatedAt := Some(now)))
  }

  const MismatchMessage := "the property type does not match the existing tag"

  /** `SET n = $props` on every tag node with the tag id. */
  function SetTagNodes(nodes: seq<Dict>, id: string, props: Dict): (r: seq<Dict>)
    ensures |r| == |nodes|
    ensures forall i | 0 <= i < |nodes| :: r[i] == if NodeGet(nodes[i], "tag_id") == VStr(id) then props else nodes[i]
  {
    seq(|nodes|, i requires 0 <= i < |nodes| => if NodeGet(nodes[i], "tag_id") == VStr(id) then props else nodes[i])
  }

  function HasTagId(nodes: seq<Dict>, id: string): (b: bool)
    ensures b <==> exists i | 0 <= i < |nodes| :: NodeGet(nodes[i], "tag_id") == VStr(id)
    decreases |nodes|
  {
    if nodes == [] then false
    else
      assert forall i | 1 <= i < |nodes| :: nodes[i] == nodes[1..][i - 1];
      NodeGet(nodes[0], "tag_id") == VStr(id) || HasTagId(nodes[1..], id)
  }

  /** The tag `create_*_tag` writes when nothing exists: a fresh id when it
      has none, the clock for unset timestamps, the given owner. */
  function NewTag(kind: TagKind, owner: Owner, tag: Tag, now: int, freshId: string): Tag {
    Tag(kind, if tag.id == "" then freshId else tag.id,
        if tag.createdAt.None? then Some(now) else tag.createdAt,
        if tag.updatedAt.None? then Some(now) else tag.updatedAt, owner, tag.prop)
  }

  /** `create_entity_tag(entity, tag)` / `create_edge_tag(edge, tag)` of the
      `asset_db` store; `owner` is the entity or edge. */
  function CreateTag(lib: Library, db: Db, kind: TagKind, owner: Owner, tag: Tag, now: int, freshId: string): (out: Out<Tag>)
    requires OwnerId(kind, owner).Some?
    ensures out.db.rels == db.rels && out.db.entityIds == db.entityIds
    ensures TagNodes(out.db, Engine.OtherKind(kind)) == TagNodes(db, Engine.OtherKind(kind))
    ensures |TagNodes(db, kind)| <= |TagNodes(out.db, kind)| <= |TagNodes(db, kind)| + 1
  {
    match ExistingTag(lib, db, kind, owner, tag, now)
    case Some(ex) =>
      if tag.prop.None? || ex.prop.None? then Out(Err(NoneAttribute), db)
      else if tag.prop.value.ptype != ex.prop.value.ptype then Out(Err(MismatchMessage), db)
      else
        (match TagToDict(ex)
         case Err(m) => Out(Err(m), db)
         case Ok(props) =>
           if !HasTagId(TagNodes(db, kind), ex.id) then Out(Err("no records returned from the query"), db)
           else Out(Extract.NodeToTag(lib, kind, props), WithTagNodes(db, kind, SetTagNodes(TagNodes(db, kind), ex.id, props))))
    case None =>
      match TagToDict(NewTag(kind, owner, tag, now, freshId))
      case Err(m) => Out(Err(m), db)
      case Ok(props) => Out(Extract.NodeToTag(lib, kind, props), WithTagNodes(db, kind, TagNodes(db, kind) + [props]))
  }

  /** The type-mismatch check cannot fire: the existing tag carries the
      input's own property in both branches. */
  lemma MismatchNeverRaised(lib: Library, db: Db, kind: TagKind, owner: Owner, tag: Tag, now: int)
    requires OwnerId(kind, owner).Some?
    ensures var ex := ExistingTag(lib, db, kind, owner, tag, now);
      ex.Some? ==> ex.value.prop == tag.prop && ex.value.owner == owner && ex.value.updatedAt == Some(now)
  {
  }

  /** The existing tag found by content belongs to the same owner and is
      a stored tag matching the property; with an explicit id it is that
      id. */
  lemma ExistingTagSource(lib: Library, db: Db, kind: TagKind, owner: Owner, tag: Tag, now: int)
    requires OwnerId(kind, owner).Some? && tag.prop.Some?
    ensures var ex := ExistingTag(lib, db, kind, owner, tag, now);
      && (tag.id != "" ==> ex.Some? && ex.value.id == tag.id && ex.value.createdAt == tag.createdAt)
      && (tag.id == "" && ex.Some? ==>
            && QueryPairsAsWritten(tag.prop.value).Ok?
            && exists n | n in TagNodes(db, kind) ::
              && ContentKeep(QueryPairsAsWritten(tag.prop.value).value, None, n)
              && Extract.NodeToTag(lib, kind, n).Ok?
              && Extract.NodeToTag(lib, kind, n).value.id == ex.value.id
              && OwnerId(kind, Extract.NodeToTag(lib, kind, n).value.owner) == OwnerId(kind, owner))
  {
    var ex := ExistingTag(lib, db, kind, owner, tag, now);
    if tag.id == "" && ex.Some? {
      FindTagsByContentSpec(lib, db, kind, tag.prop.value, None);
      var tags := FindTagsByContent(lib, db, kind, tag.prop, None).value;
      var t := FirstOwned(tags, kind, OwnerId(kind, owner).value).value;
      assert t in tags;
    }
  }

  /** Updating an existing tag rewrites every node with its id to its
      `to_dict()` and nothing else; without such a node nothing is
      written and the call raises. */
  lemma CreateTagUpdates(lib: Library, db: Db, kind: TagKind, owner: Owner, tag: Tag, now: int, freshId: string)
    requires OwnerId(kind, owner).Some? && tag.prop.Some?
    requires ExistingTag(lib, db, kind, owner, tag, now).Some?
    ensures var ex := ExistingTag(lib, db, kind, owner, tag, now).value;
      var out := CreateTag(lib, db, kind, owner, tag, now, freshId);
      && (!HasTagId(TagNodes(db, kind), ex.id) ==> out == Out(Err("no records returned from the query"), db))
      && (HasTagId(TagNodes(db, kind), ex.id) ==>
            && TagToDict(ex).Ok?
            && out.db == WithTagNodes(db, kind, SetTagNodes(TagNodes(db, kind), ex.id, TagToDict(ex).value))
            && out.result == Extract.NodeToTag(lib, kind, TagToDict(ex).value))
  {
    MismatchNeverRaised(lib, db, kind, owner, tag, now);
  }

  /** With nothing existing, the tag is written once, at the end of its
      kind's nodes, with a fresh id, the clock for unset timestamps and the
      given owner; the other stores are untouched. */
  lemma CreateTagInserts(lib: Library, db: Db, kind: TagKind, owner: Owner, tag: Tag, now: int, freshId: string)
    requires OwnerId(kind, owner).Some? && tag.prop.Some? && tag.id == ""
    requires ExistingTag(lib, db, kind, owner, tag, now).None?
    ensures var out := CreateTag(lib, db, kind, owner, tag, now, freshId);
      var t := NewTag(kind, owner, tag, now, freshId);
      && t.id == freshId && t.owner == owner && t.prop == tag.prop
      && t.createdAt.Some? && t.updatedAt.Some?
      && TagToDict(t).Ok?
      && TagNodes(out.db, kind) == TagNodes(db, kind) + [TagToDict(t).value]
      && TagNodes(out.db, if kind == EntityTagKind then EdgeTagKind else EntityTagKind)
         == TagNodes(db, if kind == EntityTagKind then EdgeTagKind else EntityTagKind)
      && out.db.rels == db.rels && out.db.entityIds == db.entityIds
      && out.result == Extract.NodeToTag(lib, kind, TagToDict(t).value)
  {
  }

  /** `create_entity_property(entity, prop)` / `create_edge_property(edge,
      prop)`: a tag with no id or timestamps. */
  function PropertyTag(kind: TagKind, prop: Property): (t: Tag)
    ensures t.kind == kind && t.id == "" && t.createdAt.None? && t.updatedAt.None?
    ensures t.prop == Some(prop) && TagType(t) == Ok(PropertyTypeValue(prop.ptype))
  {
    Tag(kind, "", None, None, NoOwner, Some(prop))
  }
}
