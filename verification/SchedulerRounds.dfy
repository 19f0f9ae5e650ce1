/** Scheduling across rounds: when the snapshot a round returns can be fed back,
    although files and capacities may have changed in between. */
module SchedulerRounds {
  import opened Values
  import opened BoardTypes
  import opened Ordering
  import opened FileScopes
  import opened Dependencies
  import opened ResourceLocks
  import opened BoardRouter
  import opened BoardScheduler
  import opened SchedulerSafety

  // ---------------------------------------------------------------------------
  // Orders used as sort keys
  // ---------------------------------------------------------------------------

  lemma KeysAreOrders()
    ensures TotalPreorder(ReservationLeq) && TotalPreorder(IdLeq) && TotalPreorder(PriorityLeq)
  {
    LexIsTotalPreorder();
  }

  lemma DistinctIdsSeparate(tasks: seq<BoardTask>)
    requires DistinctIds(tasks)
    ensures Separates(tasks, IdLeq) && Separates(tasks, PriorityLeq)
  {
    LexIsTotalPreorder();
    forall x, y | x in tasks && y in tasks && x.taskId == y.taskId ensures x == y {
      var i :| 0 <= i < |tasks| && tasks[i] == x;
      var j :| 0 <= j < |tasks| && tasks[j] == y;
      assert i == j;
    }
  }

  // ---------------------------------------------------------------------------
  // Feeding a snapshot back
  // ---------------------------------------------------------------------------

  function Retained(reservations: seq<Reservation>, events: seq<Release>): seq<Reservation>
  {
    if |reservations| == 0 then []
    else
      (if IsReleased(events, reservations[0].token) then [] else [reservations[0]])
      + Retained(reservations[1..], events)
  }

  /** `next` feeds back the snapshot of reserved `tasks`, in any order, with
      valid releases, valid capacities and any ready tasks. */
  ghost predicate Continues(tasks: seq<BoardTask>, next: Request)
  {
    && multiset(next.active) == multiset(ReservationsFor(tasks))
    && next.snapshot == Some(SnapshotOf(ReservationsFor(tasks)))
    && CapacitiesValid(next.capacities)
    && ReleaseError(next.releases, 0).None?
    && ReleasesKnown(next.releases, ReservationsFor(tasks))
    && next.concurrency > 0
    && !(next.logicalOnly && next.gate.Gate?)
    && IdsNonEmpty(next.ready)
  }

  /** What every successful round leaves behind. */
  ghost predicate SafeSet(cx: Context, members: seq<BoardTask>)
  {
    && SortedBy(members, IdLeq)
    && NoneAmbiguous(members) && IdsNonEmpty(members) && KnownTasks(members)
    && MutuallyCompatible(cx, members)
    && Feasible(ClaimsOf(members), cx.capacities)
    && CapacitiesValid(cx.capacities)
  }

  /** Without direct edges between members, no path runs inside a graph whose
      edges all leave members. */
  lemma NoEdgesNoPaths(members: seq<BoardTask>, a: BoardTask, b: BoardTask)
    requires DistinctIds(members) && a in members && b in members && a.taskId != b.taskId
    requires forall x, y :: x in members && y in members && x.taskId != y.taskId ==> !DirectDependency(x, y)
    ensures !Reaches(IndexOf(members), a.taskId, b.taskId)
  {
    if path :| PathBetween(IndexOf(members), a.taskId, b.taskId, path) {
      var outside := Successors(IndexOf(members), a.taskId);
      forall n | n in outside ensures Successors(IndexOf(members), n) <= outside {
        IndexEntries(members, n);
        if m :| m in members && m.taskId == n {
          IndexEntries(members, a.taskId);
          assert n in DependencyIds(a);
          assert m.taskId == a.taskId;
        }
      }
      ClosedSetHoldsPath(IndexOf(members), a.taskId, outside, path);
      IndexEntries(members, a.taskId);
      assert b.taskId in DependencyIds(a);
      assert DirectDependency(a, b);
    }
  }

  /** With distinct ids the index is the declared graph. */
  lemma {:induction false} IndexEntries(tasks: seq<BoardTask>, id: string)
    requires DistinctIds(tasks)
    ensures id in IndexOf(tasks) <==> exists t :: t in tasks && t.taskId == id
    ensures forall t :: t in tasks && t.taskId == id ==> id in IndexOf(tasks) && IndexOf(tasks)[id] == DependencyIds(t)
  {
    if |tasks| == 0 {
    } else {
      var front, last := tasks[..|tasks| - 1], tasks[|tasks| - 1];
      IndexEntries(front, id);
      assert forall t :: t in tasks <==> t in front || t == last;
    }
  }

  function Dropped(reservations: seq<Reservation>, events: seq<Release>): seq<BoardTask>
  {
    if |reservations| == 0 then []
    else
      (if IsReleased(events, reservations[0].token) then [reservations[0].task] else [])
      + Dropped(reservations[1..], events)
  }

  lemma {:induction false} RetainedTasks(tasks: seq<BoardTask>, events: seq<Release>)
    ensures Retained(ReservationsFor(tasks), events) == ReservationsFor(Unreleased(ReservationsFor(tasks), events))
  {
    if |tasks| == 0 {
    } else {
      var all, rest := ReservationsFor(tasks), ReservationsFor(tasks[1..]);
      RetainedTasks(tasks[1..], events);
      assert all[1..] == rest && all[0] == ReservationFor(tasks[0]);
      var kept := Unreleased(rest, events);
      assert ReservationsFor([tasks[0]] + kept) == [all[0]] + ReservationsFor(kept);
    }
  }

  /** Every task is either kept or dropped. */
  lemma {:induction false} KeptOrDropped(all: seq<Reservation>, events: seq<Release>)
    ensures multiset(Unreleased(all, events)) + multiset(Dropped(all, events)) == multiset(TasksOf(all))
  {
    if |all| == 0 {
    } else {
      KeptOrDropped(all[1..], events);
      assert TasksOf(all) == [all[0].task] + TasksOf(all[1..]);
    }
  }

  lemma KeptOrDroppedTasks(tasks: seq<BoardTask>, events: seq<Release>)
    ensures multiset(Unreleased(ReservationsFor(tasks), events) + Dropped(ReservationsFor(tasks), events)) == multiset(tasks)
  {
    KeptOrDropped(ReservationsFor(tasks), events);
    assert TasksOf(ReservationsFor(tasks)) == tasks;
  }

  lemma RetainedAreTasks(tasks: seq<BoardTask>, events: seq<Release>)
    ensures forall t :: t in Unreleased(ReservationsFor(tasks), events) ==> t in tasks
  {
    KeptOrDroppedTasks(tasks, events);
    var kept, dropped := Unreleased(ReservationsFor(tasks), events), Dropped(ReservationsFor(tasks), events);
    MultisetMembers(kept + dropped, tasks);
    assert forall t :: t in kept ==> t in kept + dropped;
  }

  lemma {:induction false} RetainedStaysOrdered(tasks: seq<BoardTask>, events: seq<Release>)
    requires SortedBy(tasks, IdLeq) && DistinctIds(tasks)
    ensures SortedBy(Unreleased(ReservationsFor(tasks), events), IdLeq)
    ensures DistinctIds(Unreleased(ReservationsFor(tasks), events))
  {
    if |tasks| == 0 {
    } else {
      var all, rest := ReservationsFor(tasks), ReservationsFor(tasks[1..]);
      RetainedStaysOrdered(tasks[1..], events);
      assert all[1..] == rest && all[0] == ReservationFor(tasks[0]);
      RetainedAreTasks(tasks[1..], events);
      var kept := Unreleased(rest, events);
      forall t | t in kept ensures IdLeq(tasks[0], t) && tasks[0].taskId != t.taskId {
        var j :| 0 <= j < |tasks[1..]| && tasks[1..][j] == t;
        assert tasks[j + 1] == t;
      }
    }
  }

  lemma SuppliedFromSnapshot(tasks: seq<BoardTask>, next: Request)
    requires SortedBy(tasks, IdLeq) && DistinctIds(tasks)
    requires multiset(next.active) == multiset(ReservationsFor(tasks))
    ensures Supplied(next) == ReservationsFor(tasks)
  {
    var all := ReservationsFor(tasks);
    KeysAreOrders();
    LexIsTotalPreorder();
    MultisetMembers(next.active, all);
    assert SortedBy(all, ReservationLeq) by {
      forall i, j | 0 <= i < j < |all| ensures ReservationLeq(all[i], all[j]) {
        assert IdLeq(tasks[i], tasks[j]);
      }
    }
    forall x, y | x in all && y in all && x.taskId == y.taskId ensures x == y {
      var i :| 0 <= i < |all| && all[i] == x;
      var j :| 0 <= j < |all| && all[j] == y;
      assert tasks[i].taskId == tasks[j].taskId;
      assert i == j;
    }
    SortForgetsOrder(next.active, all, ReservationLeq);
    SortFixesSorted(all, ReservationLeq);
  }

  lemma KeptIsFeasible(members: seq<BoardTask>, kept: seq<BoardTask>, dropped: seq<BoardTask>, capacities: Capacities)
    requires multiset(kept + dropped) == multiset(members) && KnownTasks(members)
    requires Feasible(ClaimsOf(members), capacities)
    ensures Feasible(ClaimsOf(kept), capacities)
  {
    MultisetMembers(kept + dropped, members);
    ClaimsForgetOrder(kept + dropped, members);
    FeasibleForgetsOrder(ClaimsOf(kept + dropped), ClaimsOf(members), capacities);
    ClaimsAppend(kept, dropped);
    assert forall t :: t in kept || t in dropped ==> t in kept + dropped;
    ClaimsKnown(kept);
    ClaimsKnown(dropped);
    FeasibleIsMonotone(ClaimsOf(kept), ClaimsOf(dropped), capacities);
  }

  /** The tasks a continuing round inherits. */
  function Inherited(tasks: seq<BoardTask>, next: Request): seq<BoardTask>
  {
    Unreleased(ReservationsFor(tasks), next.releases)
  }

  lemma InheritedIsSafe(cx: Context, tasks: seq<BoardTask>, next: Request)
    requires SafeSet(cx, tasks)
    ensures SafeSet(cx, Inherited(tasks, next))
  {
    KeptOrDroppedTasks(tasks, next.releases);
    RetainedAreTasks(tasks, next.releases);
    RetainedStaysOrdered(tasks, next.releases);
    KeptIsFeasible(tasks, Inherited(tasks, next), Dropped(ReservationsFor(tasks), next.releases), cx.capacities);
  }

  lemma InheritedIsPrepared(cx: Context, tasks: seq<BoardTask>, next: Request)
    requires SafeSet(cx, tasks) && Continues(tasks, next)
    ensures Prepare(next) == Ok(Sort(Inherited(tasks, next), PriorityLeq))
  {
    SuppliedFromSnapshot(tasks, next);
    InheritedIsSafe(cx, tasks, next);
    MultisetMembers(next.active, ReservationsFor(tasks));
    assert ReservationsValid(next.active);
    assert ReleasesKnown(next.releases, next.active);
    assert SnapshotError(next).None?;
    assert TaskError(Inherited(tasks, next), next.ready, next.capacities).None?;
  }

  /** Between inherited tasks three kinds of conflict can arise: a dependency
      path, aliasing files, resources that no longer suffice. */
  lemma InheritedPair(cx: Context, tasks: seq<BoardTask>, cx': Context, a: BoardTask, b: BoardTask)
    requires MutuallyCompatible(cx, tasks)
    requires a in tasks && b in tasks && a.taskId != b.taskId
    ensures Compatible(cx', a, b) <==>
            && !Connected(cx'.adjacency, a.taskId, b.taskId)
            && !FilesConflict(cx'.resolve, a, b)
            && !ResourceConflictPairwise(a, b, cx'.capacities)
    ensures !DirectDependency(a, b) && !FilesConflict(cx.resolve, a, b)
  {
    assert Compatible(cx, a, b);
  }

  /** Two inherited tasks become connected through the next round's graph. */
  ghost predicate NewlyConnected(active: seq<BoardTask>, ready: seq<BoardTask>)
  {
    exists a, b :: a in active && b in active && a.taskId != b.taskId
                   && Reaches(IndexOf(active + ready), a.taskId, b.taskId)
  }

  /** Two inherited tasks have come to share a file. */
  ghost predicate NewlyAliased(resolve: Resolver, active: seq<BoardTask>)
  {
    exists a, b :: a in active && b in active && a.taskId != b.taskId && FilesConflict(resolve, a, b)
  }

  /** What the next round may hold against the tasks it inherits. */
  ghost predicate Refutes(resolve: Resolver, active: seq<BoardTask>, next: Request)
  {
    || NewlyConnected(active, next.ready)
    || NewlyAliased(resolve, active)
    || !Feasible(ClaimsOf(active), next.capacities)
  }

  /** Totals that fit leave no pair of tasks in conflict over a resource. */
  lemma FeasiblePair(active: seq<BoardTask>, a: BoardTask, b: BoardTask, capacities: Capacities)
    requires KnownTasks(active) && Feasible(ClaimsOf(active), capacities)
    requires a in active && b in active && a != b
    ensures !ResourceConflictPairwise(a, b, capacities)
  {
    forall c, d | c in a.resources && d in b.resources && KeyOf(c) == KeyOf(d)
      ensures || (c.mode.Read? && d.mode.Read?)
              || (c.mode.Count? && d.mode.Count? && c.units + d.units <= CapacityOf(capacities, KeyOf(c)))
    {
      PairWithin(active, a, b, KeyOf(c));
      ShareWithin(a.resources, c);
      ShareWithin(b.resources, d);
      assert FitsAt(ClaimsOf(active), KeyOf(c), capacities);
      PairFits(active, c, d, capacities);
    }
  }

  lemma PairFits(active: seq<BoardTask>, c: ResourceClaim, d: ResourceClaim, capacities: Capacities)
    requires IsKnown(c) && IsKnown(d) && FitsAt(ClaimsOf(active), KeyOf(c), capacities)
    requires forall aspect :: 0 <= Weight(c, aspect) && 0 <= Weight(d, aspect)
                              && Weight(c, aspect) + Weight(d, aspect) <= Total(ClaimsOf(active), KeyOf(c), aspect)
    ensures || (c.mode.Read? && d.mode.Read?)
            || (c.mode.Count? && d.mode.Count? && c.units + d.units <= CapacityOf(capacities, KeyOf(c)))
  {
    assert Weight(c, Readers) + Weight(c, Writers) + Weight(c, Counted) == 1;
    assert Weight(d, Readers) + Weight(d, Writers) + Weight(d, Counted) == 1;
    assert Weight(c, Units) + Weight(d, Units) <= Total(ClaimsOf(active), KeyOf(c), Units);
  }

  lemma {:induction false} TaskWithin(tasks: seq<BoardTask>, t: BoardTask, k: ResourceKey)
    requires KnownTasks(tasks) && t in tasks
    ensures forall aspect :: Total(t.resources, k, aspect) <= Total(ClaimsOf(tasks), k, aspect)
  {
    AllTotalsAppend(tasks[0].resources, ClaimsOf(tasks[1..]), k);
    AllNonNegative(tasks[0].resources, k);
    ClaimsKnown(tasks[1..]);
    AllNonNegative(ClaimsOf(tasks[1..]), k);
    if t in tasks[1..] {
      TaskWithin(tasks[1..], t, k);
    }
  }

  /** Two tasks of a list add their totals to its total. */
  lemma {:induction false} PairWithin(tasks: seq<BoardTask>, a: BoardTask, b: BoardTask, k: ResourceKey)
    requires KnownTasks(tasks) && a in tasks && b in tasks && a != b
    ensures forall aspect ::
              Total(a.resources, k, aspect) + Total(b.resources, k, aspect) <= Total(ClaimsOf(tasks), k, aspect)
  {
    AllTotalsAppend(tasks[0].resources, ClaimsOf(tasks[1..]), k);
    AllNonNegative(tasks[0].resources, k);
    if tasks[0] == a {
      TaskWithin(tasks[1..], b, k);
    } else if tasks[0] == b {
      TaskWithin(tasks[1..], a, k);
    } else {
      PairWithin(tasks[1..], a, b, k);
    }
  }

  lemma AllNonNegative(claims: seq<ResourceClaim>, k: ResourceKey)
    requires KnownClaims(claims)
    ensures forall aspect :: Total(claims, k, aspect) >= 0
  {
    forall aspect ensures Total(claims, k, aspect) >= 0 {
      TotalsArePositive(claims, k);
      match aspect case Readers => case Writers => case Counted => case Units =>
    }
  }

  /** The total of a resource is at least the share of each claim on it. */
  lemma {:induction false} ShareWithin(claims: seq<ResourceClaim>, c: ResourceClaim)
    requires KnownClaims(claims) && c in claims
    ensures forall aspect :: 0 <= Weight(c, aspect) <= Total(claims, KeyOf(c), aspect)
  {
    var k := KeyOf(c);
    assert claims[0] in claims;
    AllNonNegative(claims[1..], k);
    if c in claims[1..] {
      ShareWithin(claims[1..], c);
    }
  }

  lemma {:induction false} ErrorIsConflict(cx: Context, active: seq<BoardTask>, i: nat)
    requires i <= |active| && KnownTasks(active) && Feasible(ClaimsOf(active), cx.capacities)
    ensures ActiveError(cx, active, i).Some? ==> ActiveError(cx, active, i).value.ActiveConflict?
    decreases |active| - i
  {
    if i < |active| {
      PrefixFeasible(active, i + 1, cx.capacities);
      ErrorIsConflict(cx, active, i + 1);
    }
  }

  lemma CompatibleIffNothingNew(cx: Context, kept: seq<BoardTask>, cx': Context, active: seq<BoardTask>, ready: seq<BoardTask>)
    requires MutuallyCompatible(cx, kept) && multiset(active) == multiset(kept)
    requires cx'.adjacency == IndexOf(active + ready)
    requires KnownTasks(active) && Feasible(ClaimsOf(active), cx'.capacities)
    ensures MutuallyCompatible(cx', active) <==> !NewlyConnected(active, ready) && !NewlyAliased(cx'.resolve, active)
  {
    MultisetMembers(kept, active);
    DistinctSurvivesReordering(kept, active);
    forall a, b | a in active && b in active && a.taskId != b.taskId
      ensures Compatible(cx', a, b) <==>
              !Connected(cx'.adjacency, a.taskId, b.taskId) && !FilesConflict(cx'.resolve, a, b)
    {
      InheritedPair(cx, kept, cx', a, b);
      FeasiblePair(active, a, b, cx'.capacities);
    }
  }

  /** Re-validating inherited tasks, in any order, fails exactly on what is new. */
  lemma InheritedValidation(cx: Context, kept: seq<BoardTask>, resolve: Resolver, active: seq<BoardTask>, next: Request)
    requires SafeSet(cx, kept) && multiset(active) == multiset(kept)
    ensures var error := ActiveError(RoundContext(resolve, next, active), active, 0);
            && (error.Some? <==> Refutes(resolve, active, next))
            && (error.Some? && Feasible(ClaimsOf(active), next.capacities) ==> error.value.ActiveConflict?)
  {
    var cx' := RoundContext(resolve, next, active);
    MultisetMembers(kept, active);
    ActiveValid(cx', active);
    if Feasible(ClaimsOf(active), next.capacities) {
      CompatibleIffNothingNew(cx, kept, cx', active, next.ready);
      ErrorIsConflict(cx', active, 0);
    }
  }

  /** With the files and the capacities of the earlier round only ready tasks can
      bring something new. */
  lemma NothingNewByItself(cx: Context, kept: seq<BoardTask>, active: seq<BoardTask>)
    requires SafeSet(cx, kept) && multiset(active) == multiset(kept)
    ensures !NewlyAliased(cx.resolve, active) && Feasible(ClaimsOf(active), cx.capacities)
  {
    MultisetMembers(kept, active);
    ClaimsForgetOrder(kept, active);
    FeasibleForgetsOrder(ClaimsOf(kept), ClaimsOf(active), cx.capacities);
    forall a, b | a in active && b in active && a.taskId != b.taskId
      ensures !FilesConflict(cx.resolve, a, b)
    {
      InheritedPair(cx, kept, cx, a, b);
    }
  }

  lemma NotNewlyConnectedAlone(cx: Context, kept: seq<BoardTask>, active: seq<BoardTask>)
    requires SafeSet(cx, kept) && multiset(active) == multiset(kept)
    ensures !NewlyConnected(active, [])
  {
    MultisetMembers(kept, active);
    DistinctSurvivesReordering(kept, active);
    assert active + [] == active;
    forall a, b | a in active && b in active && a.taskId != b.taskId
      ensures !DirectDependency(a, b)
    {
      InheritedPair(cx, kept, cx, a, b);
    }
    forall a, b | a in active && b in active && a.taskId != b.taskId
      ensures !Reaches(IndexOf(active), a.taskId, b.taskId)
    {
      NoEdgesNoPaths(active, a, b);
    }
  }

  /** Every successful round leaves a safe set, persisted in id order. */
  lemma RoundLeavesSafeSet(resolve: Resolver, r: Request)
    requires Scheduled(resolve, r).Ok?
    ensures Prepare(r).Ok? && SafeSet(ContextOf(resolve, r), Members(resolve, r))
    ensures Scheduled(resolve, r).value.reservations == ReservationsFor(Members(resolve, r))
    ensures Scheduled(resolve, r).value.snapshot == SnapshotOf(ReservationsFor(Members(resolve, r)))
  {
    AdmittedMembers(resolve, r);
    RoundAdmission(resolve, r);
    var active := ActiveTasks(r);
    var admitted := Admitted(resolve, r, active).admitted;
    PreparedIdsNonEmpty(r);
    RunnableTasksAreDeclared(r.ready, DuplicateIds(active, r.ready), r.settled);
    SafeAfterSorting(ContextOf(resolve, r), active + admitted, Members(resolve, r));
  }

  lemma PreparedIdsNonEmpty(r: Request)
    requires Prepare(r).Ok?
    ensures IdsNonEmpty(ActiveTasks(r)) && IdsNonEmpty(r.ready) && CapacitiesValid(r.capacities)
  {
    MultisetMembers(StillActive(r), ActiveTasks(r));
    assert TaskError(StillActive(r), r.ready, r.capacities).None?;
  }

  lemma SafeAfterSorting(cx: Context, unsorted: seq<BoardTask>, members: seq<BoardTask>)
    requires members == Sort(unsorted, IdLeq)
    requires NoneAmbiguous(unsorted) && IdsNonEmpty(unsorted) && KnownTasks(unsorted)
    requires MutuallyCompatible(cx, unsorted) && Feasible(ClaimsOf(unsorted), cx.capacities)
    requires CapacitiesValid(cx.capacities)
    ensures SafeSet(cx, members)
  {
    KeysAreOrders();
    SortIsSorted(unsorted, IdLeq);
    MultisetMembers(unsorted, members);
    DistinctSurvivesReordering(unsorted, members);
    ClaimsForgetOrder(unsorted, members);
    FeasibleForgetsOrder(ClaimsOf(unsorted), ClaimsOf(members), cx.capacities);
  }

  /** A returned snapshot is refused by a later round exactly when its ready
      tasks join two inherited tasks by a path, files of two of them have come to
      alias, or its capacities no longer carry them. */
  lemma SnapshotRefusedIff(resolve: Resolver, r: Request, resolve': Resolver, next: Request)
    requires Scheduled(resolve, r).Ok? && Continues(Members(resolve, r), next)
    ensures Prepare(next).Ok?
    ensures Scheduled(resolve', next).Raised? <==> Refutes(resolve', ActiveTasks(next), next)
    ensures Scheduled(resolve', next).Raised? && Feasible(ClaimsOf(ActiveTasks(next)), next.capacities) ==>
              Scheduled(resolve', next).error.ActiveConflict?
    ensures resolve' == resolve ==> !NewlyAliased(resolve', ActiveTasks(next))
    ensures next.capacities == r.capacities ==> Feasible(ClaimsOf(ActiveTasks(next)), next.capacities)
  {
    RoundLeavesSafeSet(resolve, r);
    var members, cx := Members(resolve, r), ContextOf(resolve, r);
    InheritedIsPrepared(cx, members, next);
    InheritedIsSafe(cx, members, next);
    InheritedValidation(cx, Inherited(members, next), resolve', ActiveTasks(next), next);
    NothingNewByItself(cx, Inherited(members, next), ActiveTasks(next));
  }

  /** Snapshot closure: fed back without ready tasks, a returned snapshot comes
      back as exactly its unreleased reservations, although locks are now
      acquired in a different global order, if and only if no files have come to
      alias and the capacities still suffice; so it does when neither changed. */
  lemma SnapshotClosure(resolve: Resolver, r: Request, resolve': Resolver, next: Request)
    requires Scheduled(resolve, r).Ok? && Continues(Members(resolve, r), next)
    requires next.ready == []
    ensures Prepare(next).Ok?
    ensures var kept := Retained(Scheduled(resolve, r).value.reservations, next.releases);
            Scheduled(resolve', next) == Ok(Round([], [], map[], kept, SnapshotOf(kept)))
            <==> !NewlyAliased(resolve', ActiveTasks(next)) && Feasible(ClaimsOf(ActiveTasks(next)), next.capacities)
    ensures resolve' == resolve && next.capacities == r.capacities ==> Scheduled(resolve', next).Ok?
  {
    SnapshotRefusedIff(resolve, r, resolve', next);
    RoundLeavesSafeSet(resolve, r);
    var members, cx := Members(resolve, r), ContextOf(resolve, r);
    var kept := Inherited(members, next);
    InheritedIsPrepared(cx, members, next);
    InheritedIsSafe(cx, members, next);
    NotNewlyConnectedAlone(cx, kept, ActiveTasks(next));
    RetainedTasks(members, next.releases);
    if Scheduled(resolve', next).Ok? {
      QuietRound(resolve', next, kept);
    }
  }

  lemma NothingAdmitted(resolve: Resolver, r: Request, active: seq<BoardTask>)
    requires r.ready == []
    ensures Admitted(resolve, r, active) == Admission([], map[])
  {
    var duplicates := DuplicateIds(active, r.ready);
    assert |Runnable(r.ready, duplicates, r.settled)| == 0;
    assert |Sort(Runnable(r.ready, duplicates, r.settled), PriorityLeq)| == 0;
  }

  lemma QuietPublish(next: Request, kept: seq<BoardTask>, active: seq<BoardTask>)
    requires next.ready == [] && SortedBy(kept, IdLeq) && DistinctIds(kept)
    requires multiset(active) == multiset(kept)
    ensures Publish(next, active, Admission([], map[]))
            == Round([], [], map[], ReservationsFor(kept), SnapshotOf(ReservationsFor(kept)))
  {
    KeysAreOrders();
    DistinctIdsSeparate(kept);
    SortForgetsOrder(kept, active, IdLeq);
    SortFixesSorted(kept, IdLeq);
    assert active + [] == active;
  }

  lemma QuietRound(resolve: Resolver, next: Request, kept: seq<BoardTask>)
    requires Scheduled(resolve, next).Ok? && next.ready == []
    requires SortedBy(kept, IdLeq) && DistinctIds(kept) && Prepare(next) == Ok(Sort(kept, PriorityLeq))
    ensures Scheduled(resolve, next)
            == Ok(Round([], [], map[], ReservationsFor(kept), SnapshotOf(ReservationsFor(kept))))
  {
    NothingAdmitted(resolve, next, ActiveTasks(next));
    QuietPublish(next, kept, ActiveTasks(next));
  }
}
