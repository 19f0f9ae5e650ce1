/** The dependencies that tasks declare, against the index that a round judges
    them by. */
module SchedulerDeclared {
  import opened BoardTypes
  import opened FileScopes
  import opened Dependencies
  import opened BoardRouter
  import opened SchedulerSafety
  import opened SchedulerOrder

  /** The declared graph: an id has the dependencies of all its entries. */
  function Declared(tasks: seq<BoardTask>): Adjacency
  {
    map t | t in tasks :: t.taskId := DeclaredBy(tasks, t.taskId)
  }

  function DeclaredBy(tasks: seq<BoardTask>, id: string): set<string>
  {
    set t, e | t in tasks && t.taskId == id && e in t.dependsOn :: e.taskId
  }

  lemma DeclaredSuccessors(tasks: seq<BoardTask>, id: string, d: string)
    ensures d in Successors(Declared(tasks), id) <==> DeclaredEdge(tasks, id, d)
  {
    if t :| t in tasks && t.taskId == id && d in DependencyIds(t) {
      var e :| e in t.dependsOn && e.taskId == d;
      assert d in DeclaredBy(tasks, id);
    }
    if d in Successors(Declared(tasks), id) {
      var t, e :| t in tasks && t.taskId == id && e in t.dependsOn && e.taskId == d;
      assert DeclaredEdge(tasks, id, d);
    }
  }

  /** No declared path leads from one member to another. */
  ghost predicate DeclaredApart(tasks: seq<BoardTask>, members: seq<BoardTask>)
  {
    forall a, b :: a in members && b in members && a.taskId != b.taskId ==> !Reaches(Declared(tasks), a.taskId, b.taskId)
  }

  /** The index still reaches every dependency that some entry declares. */
  ghost predicate EdgesStillReach(tasks: seq<BoardTask>)
  {
    forall t, d :: t in tasks && d in DependencyIds(t) && d != t.taskId ==> Reaches(IndexOf(tasks), t.taskId, d)
  }

  lemma ReachesJoin(adjacency: Adjacency, a: string, b: string, c: string)
    requires Reaches(adjacency, a, b) && Reaches(adjacency, b, c)
    ensures Reaches(adjacency, a, c)
  {
    var p :| PathBetween(adjacency, a, b, p);
    var q :| PathBetween(adjacency, b, c, q);
    var joined := p + q[1..];
    assert PathBetween(adjacency, a, c, joined) by {
      forall i | 0 <= i < |joined| - 1 ensures joined[i + 1] in Successors(adjacency, joined[i]) {
        if i >= |p| - 1 {
          assert joined[i] == q[i + 1 - |p|] && joined[i + 1] == q[i + 2 - |p|];
        }
      }
    }
  }

  lemma {:induction false} DeclaredPathIndexed(tasks: seq<BoardTask>, path: seq<string>)
    requires EdgesStillReach(tasks) && IsPath(Declared(tasks), path) && path[0] != path[|path| - 1]
    ensures Reaches(IndexOf(tasks), path[0], path[|path| - 1])
  {
    var n := |path| - 1;
    var front := path[..n];
    assert path[n - 1 + 1] in Successors(Declared(tasks), path[n - 1]);
    DeclaredSuccessors(tasks, path[n - 1], path[n]);
    if |path| > 2 && path[0] != path[n - 1] {
      DeclaredPathIndexed(tasks, front);
      if path[n - 1] != path[n] {
        ReachesJoin(IndexOf(tasks), path[0], path[n - 1], path[n]);
      }
    }
  }

  /** Then declared and indexed reachability agree between distinct ids. */
  lemma DeclaredIsIndexed(tasks: seq<BoardTask>, a: string, b: string)
    requires EdgesStillReach(tasks) && a != b
    ensures Reaches(Declared(tasks), a, b) ==> Reaches(IndexOf(tasks), a, b)
  {
    if path :| PathBetween(Declared(tasks), a, b, path) {
      DeclaredPathIndexed(tasks, path);
    }
  }

  lemma CoveringEdgesReach(tasks: seq<BoardTask>)
    ensures LastEntriesCover(tasks) ==> EdgesStillReach(tasks)
    ensures DistinctIds(tasks) ==> EdgesStillReach(tasks)
  {
    IndexIsDeclaredGraphIff(tasks);
    if LastEntriesCover(tasks) {
      forall t, d | t in tasks && d in DependencyIds(t) ensures Reaches(IndexOf(tasks), t.taskId, d) {
        assert DeclaredEdge(tasks, t.taskId, d);
        EdgeReaches(IndexOf(tasks), t.taskId, d);
      }
    }
  }

  /** Safety against the declared dependencies: when no entry hides a dependency
      of its id, as with distinct ids, no declared path joins two members. */
  lemma DeclaredSafety(resolve: Resolver, r: Request)
    requires Scheduled(resolve, r).Ok?
    requires EdgesStillReach(ActiveTasks(r) + r.ready) || DistinctIds(ActiveTasks(r) + r.ready)
    ensures DeclaredApart(ActiveTasks(r) + r.ready, Members(resolve, r))
  {
    var tasks := ActiveTasks(r) + r.ready;
    WholeSetSafety(resolve, r);
    CoveringEdgesReach(tasks);
    forall a, b | a in Members(resolve, r) && b in Members(resolve, r) && a.taskId != b.taskId
      ensures !Reaches(Declared(tasks), a.taskId, b.taskId)
    {
      assert Apart(ContextOf(resolve, r), a, b);
      DeclaredIsIndexed(tasks, a.taskId, b.taskId);
    }
  }
}
