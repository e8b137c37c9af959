/** The repository's behaviour over several calls, as its test suite
    exercises it against a live database: an edge submitted twice and a
    deleted edge, with the event buffer flushed in between. */
module Scenarios {
  import opened Wrappers
  import opened Records
  import Engine
  import Store

  /** Submitting the same relation twice stores one edge: the first call
      inserts it, the second finds it and leaves it alone; the buffer then
      holds one event per call, in call order, and a second flush is empty. */
  method ResubmitEdge(repo: Store.NeoRepository, edge: Edge, now: int, later: int, freshId: string, otherId: string)
      returns (first: Result<Edge>, second: Result<Edge>, flushed: seq<Engine.Event>, again: seq<Engine.Event>)
    requires repo.emitEvents && repo.events == [] && Engine.Valid(repo.State())
    requires edge.id == "" && edge.fromEntity.Some? && edge.toEntity.Some? && edge.relation.Some?
    requires repo.lib.relationEquals(edge.relation.value, edge.relation.value)
    requires !repo.lib.relationIsFresher(edge.relation.value, edge.relation.value)
    requires Engine.CreateEdge(repo.lib, repo.enforceTaxonomy, repo.State(), edge, now, freshId).event.Some?
    requires Engine.CreateEdge(repo.lib, repo.enforceTaxonomy, repo.State(), edge, now, freshId).event.value.EdgeInserted?
    modifies repo
    ensures first.Ok? && second.Ok? && first.value.id == freshId && second.value.id == freshId
    ensures flushed == [Engine.EdgeInserted(first.value), Engine.EdgeUntouched(second.value)]
    ensures again == [] && repo.events == []
    ensures |repo.State().edges| == |old(repo.State().edges)| + 1
  {
    ghost var g := repo.State();
    Engine.ResubmitIsUntouched(repo.lib, repo.enforceTaxonomy, g, edge, now, later, freshId, otherId);
    Engine.CreateEdgeOutcome(repo.lib, repo.enforceTaxonomy, g, edge, now, freshId);
    first := repo.CreateEdge(edge, now, freshId);
    ghost var g1 := repo.State();
    Engine.CreateEdgeOutcome(repo.lib, repo.enforceTaxonomy, g1, edge, later, otherId);
    second := repo.CreateEdge(edge, later, otherId);
    flushed := repo.FlushEvents();
    again := repo.FlushEvents();
  }

  /** A deleted edge is gone: looking it up again fails with "no edge was
      found", and the buffer reports the deletion once, with the edge as it
      was. */
  method DeleteThenFind(repo: Store.NeoRepository, id: string)
      returns (deleted: Result<Edge>, found: Result<Edge>, flushed: seq<Engine.Event>)
    requires repo.emitEvents && repo.events == []
    requires Engine.FindEdgeById(repo.State(), id).Ok?
    modifies repo
    ensures deleted == Engine.FindEdgeById(old(repo.State()), id)
    ensures found == Err("no edge was found")
    ensures flushed == [Engine.EdgeDeleted(deleted.value)] && repo.events == []
  {
    Engine.DeleteEdgeRemoves(repo.State(), id);
    deleted := repo.DeleteEdge(id);
    found := repo.FindEdgeById(id);
    flushed := repo.FlushEvents();
  }
}
