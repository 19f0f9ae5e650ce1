/** Concrete rounds on the failing side of the scheduler's conditions. */
module SchedulerWitnesses {
  import opened Values
  import opened BoardTypes
  import opened Ordering
  import opened FileScopes
  import opened Dependencies
  import opened ResourceLocks
  import opened BoardRouter
  import opened SchedulerSafety
  import opened SchedulerRounds
  import opened SchedulerOrder
  import opened SchedulerDeclared
  import opened SchedulerHidden

  /** A declared task that touches nothing and depends on the given tasks. */
  function Bare(id: string, dependencies: seq<string>): BoardTask
  {
    BoardTask(
      id, [], [], seq(|dependencies|, i requires 0 <= i < |dependencies| => DepEdge(dependencies[i], 1, "")), [], "", true, 0)
  }

  /** The round that feeds back these tasks, with these ready ones. */
  function Fed(tasks: seq<BoardTask>, ready: seq<BoardTask>): Request
  {
    Request(
      ready, 1, ReservationsFor(tasks), Some(SnapshotOf(ReservationsFor(tasks))), [], map[], map[], NoGate, true)
  }

  lemma BareFacts(id: string, dependencies: seq<string>)
    requires |id| > 0
    ensures var t := Bare(id, dependencies);
            !IsAmbiguous(t) && KnownClaims(t.resources) && ScopesOf(t) == []
            && (forall d :: d in DependencyIds(t) <==> d in dependencies)
  {
    var t := Bare(id, dependencies);
    forall d | d in dependencies ensures d in DependencyIds(t) {
      var i :| 0 <= i < |dependencies| && dependencies[i] == d;
      assert t.dependsOn[i] in t.dependsOn;
    }
  }

  /** Bare tasks conflict only through dependencies. */
  ghost predicate AllBare(tasks: seq<BoardTask>)
  {
    forall t :: t in tasks ==> |t.taskId| > 0 && !IsAmbiguous(t) && t.resources == [] && ScopesOf(t) == []
  }

  lemma {:induction false} BareClaimNothing(tasks: seq<BoardTask>)
    requires AllBare(tasks)
    ensures ClaimsOf(tasks) == []
  {
    if |tasks| == 0 {
    } else {
      BareClaimNothing(tasks[1..]);
    }
  }

  lemma BareIsSafe(cx: Context, tasks: seq<BoardTask>)
    requires AllBare(tasks) && DistinctIds(tasks) && SortedBy(tasks, IdLeq) && cx.capacities == map[]
    requires forall a, b :: a in tasks && b in tasks && a.taskId != b.taskId ==>
               !DirectDependency(a, b) && !Connected(cx.adjacency, a.taskId, b.taskId)
    ensures SafeSet(cx, tasks)
  {
    BareClaimNothing(tasks);
    EmptyIsFeasible(cx.capacities);
  }

  lemma FedIsPrepared(cx: Context, tasks: seq<BoardTask>, ready: seq<BoardTask>)
    requires SafeSet(cx, tasks) && cx.capacities == map[] && IdsNonEmpty(ready)
    ensures Continues(tasks, Fed(tasks, ready))
    ensures Prepare(Fed(tasks, ready)).Ok? && multiset(ActiveTasks(Fed(tasks, ready))) == multiset(tasks)
  {
    var r := Fed(tasks, ready);
    InheritedIsPrepared(cx, tasks, r);
    NothingReleased(tasks);
  }

  lemma {:induction false} NothingReleased(tasks: seq<BoardTask>)
    ensures Unreleased(ReservationsFor(tasks), []) == tasks
  {
    if |tasks| == 0 {
    } else {
      assert ReservationsFor(tasks)[1..] == ReservationsFor(tasks[1..]);
      NothingReleased(tasks[1..]);
    }
  }

  // ---------------------------------------------------------------------------
  // A snapshot that a later round refuses
  // ---------------------------------------------------------------------------

  /** Two unrelated tasks, the first waiting on one that is not there. */
  function Pair(): seq<BoardTask>
  {
    [Bare("a", ["m"]), Bare("b", [])]
  }

  lemma PairIsSafe(resolve: Resolver)
    ensures SafeSet(Context(resolve, IndexOf(Pair()), map[]), Pair())
  {
    BareFacts("a", ["m"]);
    BareFacts("b", []);
    var tasks := Pair();
    assert LexLeq("a", "b");
    assert DistinctIds(tasks) by {
      assert tasks[0].taskId[0] != tasks[1].taskId[0];
    }
    forall x, y | x in tasks && y in tasks && x.taskId != y.taskId
      ensures !DirectDependency(x, y)
    {
      assert "m"[0] != "b"[0] && "m"[0] != "a"[0];
    }
    forall x, y | x in tasks && y in tasks && x.taskId != y.taskId
      ensures !Connected(IndexOf(tasks), x.taskId, y.taskId)
    {
      NoEdgesNoPaths(tasks, x, y);
      NoEdgesNoPaths(tasks, y, x);
    }
    BareIsSafe(Context(resolve, IndexOf(tasks), map[]), tasks);
  }

  /** The round keeps both; its snapshot, fed back with a ready task that joins
      them, is refused. */
  lemma NewPathIsRefused(resolve: Resolver)
    ensures var first, next := Fed(Pair(), []), Fed(Pair(), [Bare("m", ["b"])]);
            && Scheduled(resolve, first).Ok? && Continues(Members(resolve, first), next)
            && Scheduled(resolve, next).Raised?
  {
    var tasks, cx := Pair(), Context(resolve, IndexOf(Pair()), map[]);
    var joint := Bare("m", ["b"]);
    var first, next := Fed(tasks, []), Fed(tasks, [joint]);
    PairIsSafe(resolve);
    BareFacts("m", ["b"]);
    FedIsPrepared(cx, tasks, []);
    FedIsPrepared(cx, tasks, [joint]);
    FirstKeepsAll(resolve, cx, tasks);
    JointConnects(ActiveTasks(next), joint);
    SnapshotRefusedIff(resolve, first, resolve, next);
  }

  lemma FirstKeepsAll(resolve: Resolver, cx: Context, tasks: seq<BoardTask>)
    requires cx.resolve == resolve && cx.capacities == map[] && SafeSet(cx, tasks)
    ensures Scheduled(resolve, Fed(tasks, [])).Ok? && Members(resolve, Fed(tasks, [])) == tasks
  {
    var first := Fed(tasks, []);
    FedIsPrepared(cx, tasks, []);
    InheritedIsPrepared(cx, tasks, first);
    NothingReleased(tasks);
    InheritedValidation(cx, tasks, resolve, ActiveTasks(first), first);
    NothingNewByItself(cx, tasks, ActiveTasks(first));
    NotNewlyConnectedAlone(cx, tasks, ActiveTasks(first));
    QuietRound(resolve, first, tasks);
  }

  lemma JointConnects(active: seq<BoardTask>, joint: BoardTask)
    requires multiset(active) == multiset(Pair()) && joint == Bare("m", ["b"])
    ensures NewlyConnected(active, [joint])
  {
    var a, b := Bare("a", ["m"]), Bare("b", []);
    var all := active + [joint];
    MultisetMembers(active, Pair());
    BareFacts("a", ["m"]);
    BareFacts("m", ["b"]);
    assert a in Pair() && b in Pair();
    assert DistinctIds(Pair() + [joint]) by {
      var ids := Pair() + [joint];
      assert ids[0].taskId[0] == 'a' && ids[1].taskId[0] == 'b' && ids[2].taskId[0] == 'm';
    }
    DistinctSurvivesReordering(Pair() + [joint], all);
    IndexEntries(all, "a");
    IndexEntries(all, "m");
    assert a in all && joint in all;
    EdgeReaches(IndexOf(all), "a", "m");
    ReachesThenEdge(IndexOf(all), "a", "m", "b");
    assert a.taskId[0] != b.taskId[0];
  }

  // ---------------------------------------------------------------------------
  // Listing orders that matter
  // ---------------------------------------------------------------------------

  /** Two ready entries for `m`, of which only one depends on `b`: the last one
      counts, and the pair is kept or refused. */
  lemma ReadyOrderMatters(resolve: Resolver)
    ensures Scheduled(resolve, Fed(Pair(), [Bare("m", ["b"]), Bare("m", [])])).Ok?
    ensures Scheduled(resolve, Fed(Pair(), [Bare("m", []), Bare("m", ["b"])])).Raised?
  {
    BareFacts("m", ["b"]);
    BareFacts("m", []);
    OrderDecides(resolve, Bare("m", ["b"]), Bare("m", []));
  }

  lemma OrderDecides(resolve: Resolver, joint: BoardTask, free: BoardTask)
    requires joint == Bare("m", ["b"]) && free == Bare("m", [])
    ensures Scheduled(resolve, Fed(Pair(), [joint, free])).Ok?
    ensures Scheduled(resolve, Fed(Pair(), [free, joint])).Raised?
  {
    PairThenReady(resolve, [joint, free]);
    PairThenReady(resolve, [free, joint]);
    LastEntryJoins(ActiveTasks(Fed(Pair(), [free, joint])), free, joint);
    LastEntryParts(ActiveTasks(Fed(Pair(), [joint, free])), joint, free);
  }

  lemma PairThenReady(resolve: Resolver, ready: seq<BoardTask>)
    requires IdsNonEmpty(ready)
    ensures var r := Fed(Pair(), ready);
            && Prepare(r).Ok? && multiset(ActiveTasks(r)) == multiset(Pair())
            && (Scheduled(resolve, r).Raised? <==> NewlyConnected(ActiveTasks(r), ready))
  {
    var tasks, cx := Pair(), Context(resolve, IndexOf(Pair()), map[]);
    PairIsSafe(resolve);
    FirstKeepsAll(resolve, cx, tasks);
    FedIsPrepared(cx, tasks, ready);
    SnapshotRefusedIff(resolve, Fed(tasks, []), resolve, Fed(tasks, ready));
  }

  lemma LastEntryJoins(active: seq<BoardTask>, free: BoardTask, joint: BoardTask)
    requires multiset(active) == multiset(Pair()) && free.taskId == joint.taskId && joint == Bare("m", ["b"])
    ensures NewlyConnected(active, [free, joint])
  {
    JointConnects(active, joint);
    LastReplaces(active, free, joint);
  }

  lemma LastReplaces(active: seq<BoardTask>, first: BoardTask, last: BoardTask)
    requires first.taskId == last.taskId
    ensures IndexOf(active + [first, last]) == IndexOf(active + [last])
  {
    var both, one := active + [first, last], active + [last];
    assert both[..|both| - 1] == active + [first] && (active + [first])[..|active|] == active;
    assert one[..|one| - 1] == active;
  }

  lemma LastEntryParts(active: seq<BoardTask>, joint: BoardTask, free: BoardTask)
    requires multiset(active) == multiset(Pair()) && joint.taskId == "m" && free == Bare("m", [])
    ensures !NewlyConnected(active, [joint, free])
  {
    LastReplaces(active, joint, free);
    MultisetMembers(active, Pair());
    BareFacts("a", ["m"]);
    BareFacts("b", []);
    BareFacts("m", []);
    var all := Pair() + [free];
    assert all[0].taskId[0] == 'a' && all[1].taskId[0] == 'b' && all[2].taskId[0] == 'm';
    DistinctSurvivesReordering(all, active + [free]);
    MultisetMembers(all, active + [free]);
    FreeIndex(active + [free]);
    forall x, y | x in active && y in active && x.taskId != y.taskId
      ensures !Reaches(IndexOf(active + [free]), x.taskId, y.taskId)
    {
      StaysApart(IndexOf(active + [free]), x.taskId, y.taskId);
    }
  }

  lemma FreeIndex(all: seq<BoardTask>)
    requires DistinctIds(all) && multiset(all) == multiset(Pair() + [Bare("m", [])])
    ensures Successors(IndexOf(all), "a") == {"m"}
    ensures Successors(IndexOf(all), "b") == {} && Successors(IndexOf(all), "m") == {}
  {
    MultisetMembers(all, Pair() + [Bare("m", [])]);
    BareFacts("a", ["m"]);
    BareFacts("b", []);
    BareFacts("m", []);
    assert Pair()[0] in Pair() + [Bare("m", [])] && Pair()[1] in Pair() + [Bare("m", [])];
    assert Bare("m", []) in Pair() + [Bare("m", [])];
    IndexEntries(all, "a");
    IndexEntries(all, "b");
    IndexEntries(all, "m");
    assert DependencyIds(Bare("b", [])) == {} && DependencyIds(Bare("m", [])) == {};
  }

  lemma StaysApart(adjacency: Adjacency, x: string, y: string)
    requires Successors(adjacency, "a") == {"m"} && Successors(adjacency, "b") == {} && Successors(adjacency, "m") == {}
    requires (x == "a" && y == "b") || (x == "b" && y == "a")
    ensures !Reaches(adjacency, x, y)
  {
    assert "a"[0] == 'a' && "b"[0] == 'b' && "m"[0] == 'm';
    if path :| PathBetween(adjacency, x, y, path) {
      ClosedSetHoldsPath(adjacency, x, if x == "a" then {"m"} else {}, path);
    }
  }

  /** Two reservations for `a`, the second one to be released. */
  const TWICE := [Bare("a", []), WAITING]

  function Listing(listed: seq<Reservation>): Request
  {
    Request([], 1, listed, Some(SnapshotOf(ReservationsFor(TWICE))), [Release(Sha256(WAITING), "settled")], map[], map[], NoGate, true)
  }

  /** In this order the first one is kept; in the other the hash does not match. */
  lemma ListingMatters(resolve: Resolver)
    ensures Scheduled(resolve, Listing(ReservationsFor(TWICE))).Ok?
    ensures Scheduled(resolve, Listing([ReservationFor(WAITING), ReservationFor(TWICE[0])])) == Raised(SnapshotMismatch)
  {
    var listed, other := ReservationsFor(TWICE), [ReservationFor(WAITING), ReservationFor(TWICE[0])];
    LexReflexive("a");
    SortFixesSorted(listed, ReservationLeq);
    SortFixesSorted(other, ReservationLeq);
    TwiceDiffer();
    assert SnapshotOf(listed).preimage[0] == ("a", Sha256(TWICE[0]));
    assert SnapshotOf(other).preimage[0] == ("a", Sha256(WAITING));
    IsMismatch(resolve, Listing(other));
    KeepsFirst(resolve, Listing(listed));
  }

  lemma TwiceDiffer()
    ensures TWICE[0] != WAITING
  {
    assert |TWICE[0].dependsOn| != |WAITING.dependsOn|;
  }

  lemma KeepsFirst(resolve: Resolver, r: Request)
    requires r == Listing(ReservationsFor(TWICE)) && Supplied(r) == r.active
    ensures Scheduled(resolve, r).Ok?
  {
    var kept := [TWICE[0]];
    TwiceDiffer();
    BareFacts("a", []);
    TwiceUnreleased(r.active, r.releases);
    ListingIsAccepted(r);
    assert TaskError(kept, r.ready, r.capacities).None?;
    assert Sort(kept, PriorityLeq) == kept by {
      SortFixesSorted(kept, PriorityLeq);
    }
    AloneIsValid(RoundContext(resolve, r, kept), kept);
  }

  lemma ListingIsAccepted(r: Request)
    requires r == Listing(ReservationsFor(TWICE)) && Supplied(r) == r.active
    ensures SnapshotError(r).None?
  {
    assert r.active[1] in r.active && r.active[1].token == Sha256(WAITING);
    assert ReleaseError(r.releases, 1).None?;
    assert ReleaseError(r.releases, 0).None?;
    assert ReleasesKnown(r.releases, r.active);
  }

  lemma TwiceUnreleased(listed: seq<Reservation>, events: seq<Release>)
    requires listed == ReservationsFor(TWICE) && events == [Release(Sha256(WAITING), "settled")]
    ensures Unreleased(listed, events) == [TWICE[0]]
  {
    TwiceDiffer();
    assert events[0] in events;
    assert IsReleased(events, listed[1].token) && !IsReleased(events, listed[0].token);
    var rest := listed[1..];
    assert rest == [listed[1]] && Unreleased(rest[1..], events) == [];
    assert Unreleased(rest, events) == [];
  }

  lemma AloneIsValid(cx: Context, kept: seq<BoardTask>)
    requires |kept| == 1 && |kept[0].resources| == 0
    ensures ActiveError(cx, kept, 0).None?
  {
    assert kept[..1] == kept && |kept[1..]| == 0;
    assert ClaimsOf(kept) == [];
    EmptyIsFeasible(cx.capacities);
    assert ActiveError(cx, kept, 1).None?;
  }

  // ---------------------------------------------------------------------------
  // A snapshot whose files come to alias
  // ---------------------------------------------------------------------------

  /** A declared task that writes one path. */
  function Writer(id: string, path: string): BoardTask
  {
    BoardTask(id, [path], [], [], [], "", true, 0)
  }

  const WRITERS := [Writer("a", "/a"), Writer("b", "/b")]

  /** Every path is a file of its own. */
  const PLAIN: Resolver := (path, root) => CanonicalPath(path, None)

  /** Every path leads to one file. */
  const LINKED: Resolver := (path, root) => CanonicalPath("/a", None)

  lemma WritersAreApart(x: BoardTask, y: BoardTask)
    requires x in WRITERS && y in WRITERS && x.taskId != y.taskId
    ensures !FilesConflict(PLAIN, x, y)
  {
    forall s, q | s in ScopesOf(x) && q in ScopesOf(y)
      ensures !PathsAlias(PLAIN(s.path, x.worktreeRoot), PLAIN(q.path, y.worktreeRoot))
    {
      assert s.path[1] != q.path[1];
    }
  }

  lemma WritersAreSafe()
    ensures SafeSet(Context(PLAIN, IndexOf(WRITERS), map[]), WRITERS)
  {
    assert LexLeq("a", "b");
    assert WRITERS[0].taskId[0] != WRITERS[1].taskId[0];
    forall x, y | x in WRITERS && y in WRITERS && x.taskId != y.taskId
      ensures Compatible(Context(PLAIN, IndexOf(WRITERS), map[]), x, y)
    {
      WritersAreApart(x, y);
      NoEdgesNoPaths(WRITERS, x, y);
      NoEdgesNoPaths(WRITERS, y, x);
    }
    assert ClaimsOf(WRITERS[1..]) == [] && ClaimsOf(WRITERS) == [];
    EmptyIsFeasible(map[]);
  }

  /** The round keeps both tasks; the same request is refused once their paths
      lead to one file. */
  lemma NewLinkIsRefused()
    ensures var r := Fed(WRITERS, []);
            && Scheduled(PLAIN, r).Ok? && Continues(Members(PLAIN, r), r)
            && Scheduled(LINKED, r).Raised?
  {
    var r, cx := Fed(WRITERS, []), Context(PLAIN, IndexOf(WRITERS), map[]);
    WritersAreSafe();
    FedIsPrepared(cx, WRITERS, []);
    FirstKeepsAll(PLAIN, cx, WRITERS);
    SnapshotRefusedIff(PLAIN, r, LINKED, r);
    WritersCanAlias(ActiveTasks(r));
  }

  lemma WritersCanAlias(active: seq<BoardTask>)
    requires multiset(active) == multiset(WRITERS)
    ensures NewlyAliased(LINKED, active)
  {
    var a, b := WRITERS[0], WRITERS[1];
    MultisetMembers(WRITERS, active);
    assert a.taskId[0] != b.taskId[0];
    assert ScopesOf(a)[0] in ScopesOf(a) && ScopesOf(b)[0] in ScopesOf(b);
    assert FilesConflict(LINKED, a, b);
  }

  // ---------------------------------------------------------------------------
  // A round that runs dependent tasks
  // ---------------------------------------------------------------------------

  /** A task waiting on `m`. */
  const WAITING := Bare("a", ["m"])

  /** A second entry for `a` without dependencies, `m` waiting on `x`, and `x`. */
  const OFFERED := [Bare("a", []), Bare("m", ["x"]), Bare("x", [])]

  lemma WaitingIsSafe(resolve: Resolver)
    ensures SafeSet(Context(resolve, map[], map[]), [WAITING])
  {
    BareFacts("a", ["m"]);
    LexReflexive("a");
    BareIsSafe(Context(resolve, map[], map[]), [WAITING]);
  }

  lemma OfferedIndex(tasks: seq<BoardTask>)
    requires tasks == [WAITING] + OFFERED
    ensures Successors(IndexOf(tasks), "a") == {} && Successors(IndexOf(tasks), "x") == {}
    ensures Reaches(Declared(tasks), "a", "x")
  {
    BareFacts("a", []);
    BareFacts("a", ["m"]);
    BareFacts("m", ["x"]);
    BareFacts("x", []);
    assert OFFERED[0].taskId == "a" && OFFERED[1].taskId == "m" && OFFERED[2].taskId == "x";
    assert tasks[1] == Bare("a", []) && tasks[3] == Bare("x", []) && tasks[0] == WAITING && tasks[2] == Bare("m", ["x"]);
    assert "a"[0] == 'a' && "m"[0] == 'm' && "x"[0] == 'x';
    assert LastEntry(tasks, "a") == Some(1) by {
      assert tasks[1] in tasks;
    }
    assert LastEntry(tasks, "x") == Some(3) by {
      assert tasks[3] in tasks;
    }
    IndexKeepsLast(tasks, "a");
    IndexKeepsLast(tasks, "x");
    assert DependencyIds(Bare("a", [])) == {} && DependencyIds(Bare("x", [])) == {};
    assert tasks[0] in tasks && tasks[2] in tasks;
    assert DeclaredEdge(tasks, "a", "m") && DeclaredEdge(tasks, "m", "x");
    DeclaredSuccessors(tasks, "a", "m");
    DeclaredSuccessors(tasks, "m", "x");
    EdgeReaches(Declared(tasks), "a", "m");
    ReachesThenEdge(Declared(tasks), "a", "m", "x");
  }

  /** So the index is not the declared graph of these tasks. */
  lemma OfferedIsNotCovered()
    ensures !LastEntriesCover([WAITING] + OFFERED)
  {
    var tasks := [WAITING] + OFFERED;
    OfferedIndex(tasks);
    IndexIsDeclaredGraphIff(tasks);
    BareFacts("a", ["m"]);
    assert tasks[0] in tasks;
    assert DeclaredEdge(tasks, "a", "m");
  }

  lemma NothingReached(adjacency: Adjacency, source: string, target: string)
    requires Successors(adjacency, source) == {}
    ensures !Reaches(adjacency, source, target)
  {
    if path :| PathBetween(adjacency, source, target, path) {
      ClosedSetHoldsPath(adjacency, source, {}, path);
    }
  }

  lemma XIsOffered(active: seq<BoardTask>)
    requires active == [WAITING]
    ensures Bare("x", []) in OFFERED && "x" !in DuplicateIds(active, OFFERED)
  {
    assert OFFERED[0].taskId == "a" && OFFERED[1].taskId == "m" && OFFERED[2].taskId == "x";
    assert "a"[0] == 'a' && "m"[0] == 'm' && "x"[0] == 'x';
    assert OFFERED[2] in OFFERED;
    assert IdsOf(OFFERED) == ["a", "m", "x"];
    DuplicatesCount(active, OFFERED, "x");
    assert !HasId(active, "x");
  }

  lemma BothAreSafe(cx: Context, both: seq<BoardTask>)
    requires both == [WAITING, Bare("x", [])] && cx.capacities == map[]
    requires !Connected(cx.adjacency, "a", "x") && !Connected(cx.adjacency, "x", "a")
    ensures SafeSet(cx, both)
  {
    BareFacts("x", []);
    BareFacts("a", ["m"]);
    assert "a"[0] == 'a' && "m"[0] == 'm' && "x"[0] == 'x';
    assert LexLeq("a", "x");
    assert forall t :: t in both <==> t == WAITING || t == Bare("x", []);
    assert !DirectDependency(WAITING, Bare("x", [])) && !DirectDependency(Bare("x", []), WAITING);
    BareIsSafe(cx, both);
  }

  /** The round over these tasks that has room for two. */
  function RoomForTwo(): Request
  {
    Fed([WAITING], OFFERED).(concurrency := 2)
  }

  lemma RoomIsPrepared(resolve: Resolver)
    ensures Prepare(RoomForTwo()) == Ok([WAITING])
  {
    var r := RoomForTwo();
    WaitingIsSafe(resolve);
    BareFacts("a", []);
    assert OFFERED[0].taskId == "a" && OFFERED[1].taskId == "m" && OFFERED[2].taskId == "x";
    InheritedIsPrepared(Context(resolve, map[], map[]), [WAITING], r);
    NothingReleased([WAITING]);
    var active := ActiveTasks(r);
    MultisetMembers(active, [WAITING]);
    assert |active| == |multiset(active)| == 1;
    assert active[0] in active;
  }

  /** `m` waits on `x` and the second `a` is a duplicate. */
  lemma OnlyXIsRunnable()
    ensures Runnable(OFFERED, DuplicateIds([WAITING], OFFERED), map[]) == [Bare("x", [])]
  {
    var duplicates := DuplicateIds([WAITING], OFFERED);
    var a, m, x := OFFERED[0], OFFERED[1], OFFERED[2];
    XIsOffered([WAITING]);
    BareFacts("x", []);
    assert Deferral(x, duplicates, map[]).None?;
    assert Deferral(m, duplicates, map[]).Some? by {
      assert |m.dependsOn| == 1;
    }
    assert a.taskId in duplicates by {
      assert "a"[0] == 'a';
      assert WAITING in [WAITING] + OFFERED[..0] && OFFERED[..1][..0] == OFFERED[..0];
      assert OFFERED[..1][0] == a && OFFERED[..2][..1] == OFFERED[..1] && OFFERED[..2] == OFFERED[..|OFFERED| - 1];
      assert a.taskId in DuplicateIds([WAITING], OFFERED[..1]);
    }
    assert OFFERED[..|OFFERED| - 1] == [a, m];
    assert [a, m][..1] == [a] && [a][..0] == [];
    assert Runnable([a], duplicates, map[]) == [];
    assert Runnable([a, m], duplicates, map[]) == [];
  }

  /** The round runs `x` beside `a`, although the tasks declare the path from `a`
      over `m` to `x`: the second entry for `a` has erased its first edge. */
  lemma DependentTasksCanRun(resolve: Resolver)
    ensures Prepare(RoomForTwo()) == Ok([WAITING])
    ensures Scheduled(resolve, RoomForTwo()).Ok? && Scheduled(resolve, RoomForTwo()).value.runNow == ["x"]
    ensures Members(resolve, RoomForTwo()) == [WAITING, Bare("x", [])]
    ensures Reaches(Declared([WAITING] + OFFERED), "a", "x") && !RunsApart(resolve, RoomForTwo())
  {
    OfferedIndex([WAITING] + OFFERED);
    RoomRunsX(resolve, RoomForTwo(), [WAITING], [Bare("x", [])]);
    var both := [WAITING, Bare("x", [])];
    assert both[0].taskId[0] != both[1].taskId[0];
  }

  lemma RoomRunsX(resolve: Resolver, r: Request, active: seq<BoardTask>, admitted: seq<BoardTask>)
    requires r == RoomForTwo() && active == [WAITING] && admitted == [Bare("x", [])]
    ensures Prepare(r) == Ok(active) && Scheduled(resolve, r).Ok?
    ensures Scheduled(resolve, r).value.runNow == ["x"] && Members(resolve, r) == [WAITING, Bare("x", [])]
  {
    RoomIsPrepared(resolve);
    RoomAdmitsX(resolve, r, active, admitted);
    RoundResult(resolve, r, active, admitted);
  }

  lemma RoundResult(resolve: Resolver, r: Request, active: seq<BoardTask>, admitted: seq<BoardTask>)
    requires Prepare(r) == Ok(active) && ActiveError(RoundContext(resolve, r, active), active, 0).None?
    requires Admitted(resolve, r, active).admitted == admitted && SortedBy(active + admitted, IdLeq)
    ensures Scheduled(resolve, r).Ok? && Scheduled(resolve, r).value.runNow == IdsOf(admitted)
    ensures Members(resolve, r) == active + admitted
  {
    AdmittedMembers(resolve, r);
    KeysAreOrders();
    SortFixesSorted(active + admitted, IdLeq);
  }

  lemma RoomAdmitsX(resolve: Resolver, r: Request, active: seq<BoardTask>, admitted: seq<BoardTask>)
    requires r == RoomForTwo() && active == [WAITING] && admitted == [Bare("x", [])]
    ensures SortedBy(active + admitted, IdLeq) && active + admitted == [WAITING, Bare("x", [])]
    ensures ActiveError(RoundContext(resolve, r, active), active, 0).None?
    ensures Admitted(resolve, r, active).admitted == admitted
    ensures IdsOf(admitted) == ["x"]
  {
    var cx := RoundContext(resolve, r, active);
    assert active + admitted == [WAITING, Bare("x", [])];
    RoomFits(cx);
    OnlyXIsRunnable();
    XIsAdmitted(cx, Deferrals(r.ready, DuplicateIds(active, r.ready), r.settled));
    UngatedAdmission(resolve, r, active, admitted);
    WaitingStaysValid(cx);
  }

  lemma RoomFits(cx: Context)
    requires cx.adjacency == IndexOf([WAITING] + OFFERED) && cx.capacities == map[]
    ensures SafeSet(cx, [WAITING, Bare("x", [])])
  {
    OfferedIndex([WAITING] + OFFERED);
    NothingReached(cx.adjacency, "a", "x");
    NothingReached(cx.adjacency, "x", "a");
    BothAreSafe(cx, [WAITING, Bare("x", [])]);
  }

  lemma UngatedAdmission(resolve: Resolver, r: Request, active: seq<BoardTask>, runnable: seq<BoardTask>)
    requires Runnable(r.ready, DuplicateIds(active, r.ready), r.settled) == runnable && r.logicalOnly
    requires var reasons := Deferrals(r.ready, DuplicateIds(active, r.ready), r.settled);
             Admit(RoundContext(resolve, r, active), active, Sort(runnable, PriorityLeq), r.concurrency, reasons).admitted
             == runnable
    ensures Admitted(resolve, r, active).admitted == runnable
  {
  }

  lemma XIsAdmitted(cx: Context, reasons: map<string, Reason>)
    requires SafeSet(cx, [WAITING, Bare("x", [])])
    ensures Admit(cx, [WAITING], Sort([Bare("x", [])], PriorityLeq), 2, reasons).admitted == [Bare("x", [])]
  {
    var runnable := [Bare("x", [])];
    KeysAreOrders();
    SortFixesSorted(runnable, PriorityLeq);
    assert runnable[..1] == runnable && [WAITING] + runnable == [WAITING, Bare("x", [])];
    FrontIsAdmitted(cx, [WAITING], runnable, 1, 2, reasons);
  }

  lemma WaitingStaysValid(cx: Context)
    requires SafeSet(cx, [WAITING, Bare("x", [])])
    ensures ActiveError(cx, [WAITING], 0).None?
  {
    assert [WAITING] + [Bare("x", [])] == [WAITING, Bare("x", [])];
    ActiveStaysValid(cx, [WAITING], [Bare("x", [])]);
  }
}
