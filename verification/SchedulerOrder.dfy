/** The outcome of a round does not depend on the order in which ready tasks and
    active reservations are listed, and every ready task is accounted for. */
module SchedulerOrder {
  import opened Collections
  import opened Values
  import opened BoardTypes
  import opened Ordering
  import opened FileScopes
  import opened Dependencies
  import opened BoardRouter
  import opened SchedulerSafety
  import opened SchedulerRounds

  // ---------------------------------------------------------------------------
  // The pieces of a round as functions of sets
  // ---------------------------------------------------------------------------

  ghost predicate HasId(tasks: seq<BoardTask>, id: string)
  {
    exists t :: t in tasks && t.taskId == id
  }

  /** Repeated ids: twice among the ready tasks, or there and among the active. */
  lemma {:induction false} DuplicatesCount(active: seq<BoardTask>, ready: seq<BoardTask>, id: string)
    ensures HasId(ready, id) <==> multiset(IdsOf(ready))[id] > 0
    ensures id in DuplicateIds(active, ready) <==>
            multiset(IdsOf(ready))[id] > 1 || (HasId(ready, id) && HasId(active, id))
  {
    if |ready| == 0 {
    } else {
      var front, last := ready[..|ready| - 1], ready[|ready| - 1];
      DuplicatesCount(active, front, id);
      assert IdsOf(ready) == IdsOf(front) + [last.taskId];
      assert forall t :: t in ready <==> t in front || t == last;
      assert HasId(active + front, id) <==> HasId(active, id) || HasId(front, id);
      assert HasId(active + front, last.taskId) <==> (exists t :: t in active + front && t.taskId == last.taskId);
    }
  }

  lemma DuplicatesForgetOrder(active: seq<BoardTask>, a: seq<BoardTask>, b: seq<BoardTask>)
    requires multiset(a) == multiset(b)
    ensures DuplicateIds(active, a) == DuplicateIds(active, b)
  {
    IdsForgetOrder(a, b);
    forall id ensures id in DuplicateIds(active, a) <==> id in DuplicateIds(active, b) {
      DuplicatesCount(active, a, id);
      DuplicatesCount(active, b, id);
    }
  }

  ghost predicate RepeatsCaught(ready: seq<BoardTask>, duplicates: set<string>)
  {
    forall i, j :: 0 <= i < j < |ready| && ready[i].taskId == ready[j].taskId ==> ready[i].taskId in duplicates
  }

  lemma RunnableLast(ready: seq<BoardTask>, front: seq<BoardTask>, last: BoardTask, duplicates: set<string>,
                     settled: map<string, (int, string)>)
    requires ready == front + [last]
    ensures multiset(Runnable(ready, duplicates, settled)) ==
            multiset(Runnable(front, duplicates, settled))
            + if Deferral(last, duplicates, settled).None? then multiset{last} else multiset{}
  {
    assert ready[..|ready| - 1] == front;
  }

  lemma {:induction false} RunnableCount(ready: seq<BoardTask>, duplicates: set<string>,
                                         settled: map<string, (int, string)>, x: BoardTask)
    ensures multiset(Runnable(ready, duplicates, settled))[x]
            == if Deferral(x, duplicates, settled).None? then multiset(ready)[x] else 0
  {
    if |ready| == 0 {
    } else {
      var front, last := ready[..|ready| - 1], ready[|ready| - 1];
      RunnableCount(front, duplicates, settled, x);
      assert ready == front + [last];
      RunnableLast(ready, front, last, duplicates, settled);
    }
  }

  lemma RunnableForgetsOrder(a: seq<BoardTask>, b: seq<BoardTask>, duplicates: set<string>,
                             settled: map<string, (int, string)>)
    requires multiset(a) == multiset(b)
    ensures multiset(Runnable(a, duplicates, settled)) == multiset(Runnable(b, duplicates, settled))
  {
    forall x ensures multiset(Runnable(a, duplicates, settled))[x] == multiset(Runnable(b, duplicates, settled))[x] {
      RunnableCount(a, duplicates, settled, x);
      RunnableCount(b, duplicates, settled, x);
    }
  }

  lemma {:induction false} RunnableIsDistinct(ready: seq<BoardTask>, duplicates: set<string>,
                                              settled: map<string, (int, string)>)
    requires RepeatsCaught(ready, duplicates)
    ensures DistinctIds(Runnable(ready, duplicates, settled))
    ensures forall t :: t in Runnable(ready, duplicates, settled) <==> t in ready && Deferral(t, duplicates, settled).None?
  {
    if |ready| == 0 {
    } else {
      var front, last := ready[..|ready| - 1], ready[|ready| - 1];
      assert forall t :: t in ready <==> t in front || t == last;
      RunnableIsDistinct(front, duplicates, settled);
      if last.taskId !in duplicates {
        forall t | t in front ensures t.taskId != last.taskId {
          var i :| 0 <= i < |front| && front[i] == t;
          assert ready[i] == t && ready[|ready| - 1] == last;
        }
      }
    }
  }

  /** What `Deferrals` records: a reason for each deferred id. */
  lemma {:induction false} DeferralsRecord(ready: seq<BoardTask>, duplicates: set<string>,
                                           settled: map<string, (int, string)>)
    requires RepeatsCaught(ready, duplicates)
    ensures forall t :: t in ready ==>
              var d := Deferral(t, duplicates, settled);
              (d.Some? <==> t.taskId in Deferrals(ready, duplicates, settled))
              && (d.Some? ==> Deferrals(ready, duplicates, settled)[t.taskId] == d.value)
    ensures forall id :: id in Deferrals(ready, duplicates, settled) ==> HasId(ready, id)
  {
    if |ready| == 0 {
    } else {
      var front, last := ready[..|ready| - 1], ready[|ready| - 1];
      assert forall t :: t in ready <==> t in front || t == last;
      DeferralsRecord(front, duplicates, settled);
      forall t | t in front && t.taskId == last.taskId
        ensures Deferral(t, duplicates, settled) == Deferral(last, duplicates, settled) == Some(DuplicateDeferred)
      {
        var i :| 0 <= i < |front| && front[i] == t;
        assert ready[i].taskId == ready[|ready| - 1].taskId;
      }
      if last.taskId in Deferrals(front, duplicates, settled) {
        assert HasId(front, last.taskId);
      }
    }
  }

  lemma DeferralsForgetOrder(a: seq<BoardTask>, b: seq<BoardTask>, duplicates: set<string>,
                             settled: map<string, (int, string)>)
    requires multiset(a) == multiset(b) && RepeatsCaught(a, duplicates) && RepeatsCaught(b, duplicates)
    ensures Deferrals(a, duplicates, settled) == Deferrals(b, duplicates, settled)
  {
    MultisetMembers(a, b);
    DeferralsRecord(a, duplicates, settled);
    DeferralsRecord(b, duplicates, settled);
    var left, right := Deferrals(a, duplicates, settled), Deferrals(b, duplicates, settled);
    forall id ensures id in left <==> id in right
      ensures id in left ==> left[id] == right[id]
    {
      if id in left {
        var t :| t in a && t.taskId == id;
      }
      if id in right {
        var t :| t in b && t.taskId == id;
      }
    }
  }

  /** Entries with the same id depend on the same tasks. */
  ghost predicate SameIdsAgree(tasks: seq<BoardTask>)
  {
    forall t, u :: t in tasks && u in tasks && t.taskId == u.taskId ==> DependencyIds(t) == DependencyIds(u)
  }

  lemma {:induction false} IndexAppend(active: seq<BoardTask>, ready: seq<BoardTask>, id: string)
    requires SameIdsAgree(ready)
    ensures HasId(ready, id) ==> id in IndexOf(active + ready)
    ensures forall t :: t in ready && t.taskId == id ==> id in IndexOf(active + ready) && IndexOf(active + ready)[id] == DependencyIds(t)
    ensures !HasId(ready, id) ==> (id in IndexOf(active + ready) <==> id in IndexOf(active))
    ensures !HasId(ready, id) && id in IndexOf(active) ==> IndexOf(active + ready)[id] == IndexOf(active)[id]
  {
    if |ready| == 0 {
      assert active + ready == active;
    } else {
      var front, last := ready[..|ready| - 1], ready[|ready| - 1];
      IndexAppend(active, front, id);
      assert (active + ready)[..|active + ready| - 1] == active + front;
      assert forall t :: t in ready <==> t in front || t == last;
    }
  }

  lemma IndexForgetsOrder(active: seq<BoardTask>, a: seq<BoardTask>, b: seq<BoardTask>)
    requires multiset(a) == multiset(b) && SameIdsAgree(a)
    ensures IndexOf(active + a) == IndexOf(active + b)
  {
    MultisetMembers(a, b);
    var left, right := IndexOf(active + a), IndexOf(active + b);
    forall id ensures id in left <==> id in right
      ensures id in left ==> left[id] == right[id]
    {
      IndexAppend(active, a, id);
      IndexAppend(active, b, id);
      if HasId(a, id) {
        var t :| t in a && t.taskId == id;
        assert t in b;
      }
    }
  }

  // ---------------------------------------------------------------------------
  // Order independence
  // ---------------------------------------------------------------------------

  /** Entries with the same id are the same entry. */
  ghost predicate IdsDetermine(reservations: seq<Reservation>)
  {
    forall v, w :: v in reservations && w in reservations && v.taskId == w.taskId ==> v == w
  }

  /** Equal outcomes up to the order in which waiting ids are listed. */
  ghost predicate SameOutcome(a: Outcome<Round>, b: Outcome<Round>)
  {
    match a
    case Raised(error) => b == Raised(error)
    case Ok(round) =>
      && b.Ok?
      && b.value.runNow == round.runNow && b.value.reasons == round.reasons
      && b.value.reservations == round.reservations && b.value.snapshot == round.snapshot
      && multiset(b.value.mustWait) == multiset(round.mustWait)
  }

  lemma SuppliedForgetsOrder(r: Request, r': Request)
    requires multiset(r.active) == multiset(r'.active) && IdsDetermine(r.active)
    ensures Supplied(r) == Supplied(r')
  {
    KeysAreOrders();
    LexIsTotalPreorder();
    SortForgetsOrder(r.active, r'.active, ReservationLeq);
  }

  lemma ReservationChecksForgetOrder(a: seq<Reservation>, b: seq<Reservation>, events: seq<Release>)
    requires multiset(a) == multiset(b)
    ensures |a| == |b| && ReservationsValid(a) == ReservationsValid(b)
    ensures ReleasesKnown(events, a) == ReleasesKnown(events, b)
  {
    MultisetMembers(a, b);
  }

  lemma SnapshotErrorForgetsOrder(r: Request, r': Request)
    requires r' == r.(ready := r'.ready, active := r'.active)
    requires multiset(r.active) == multiset(r'.active) && Supplied(r) == Supplied(r')
    ensures SnapshotError(r) == SnapshotError(r')
  {
    ReservationChecksForgetOrder(r.active, r'.active, r.releases);
    assert r'.releases == r.releases && r'.snapshot == r.snapshot && r'.concurrency == r.concurrency;
    assert r'.gate == r.gate && r'.logicalOnly == r.logicalOnly;
  }

  lemma TaskErrorForgetsOrder(active: seq<BoardTask>, a: seq<BoardTask>, b: seq<BoardTask>, capacities: Capacities)
    requires multiset(a) == multiset(b)
    ensures TaskError(active, a, capacities) == TaskError(active, b, capacities)
  {
    MultisetMembers(a, b);
    assert IdsNonEmpty(a) == IdsNonEmpty(b);
  }

  lemma PrepareForgetsOrder(r: Request, r': Request)
    requires r' == r.(ready := r'.ready, active := r'.active)
    requires multiset(r.ready) == multiset(r'.ready) && multiset(r.active) == multiset(r'.active)
    requires Supplied(r) == Supplied(r')
    ensures Prepare(r) == Prepare(r')
  {
    SnapshotErrorForgetsOrder(r, r');
    TaskErrorForgetsOrder(StillActive(r), r.ready, r'.ready, r.capacities);
  }

  lemma RepeatsAreCaught(active: seq<BoardTask>, ready: seq<BoardTask>)
    ensures RepeatsCaught(ready, DuplicateIds(active, ready))
  {
    forall i, j | 0 <= i < j < |ready| && ready[i].taskId == ready[j].taskId
      ensures ready[i].taskId in DuplicateIds(active, ready)
    {
      DuplicatesAreCaught(active, ready, i, j);
    }
  }

  lemma AdmittedForgetsOrder(resolve: Resolver, r: Request, r': Request, active: seq<BoardTask>)
    requires r' == r.(ready := r'.ready, active := r'.active)
    requires multiset(r.ready) == multiset(r'.ready) && SameIdsAgree(r.ready)
    ensures RoundContext(resolve, r, active) == RoundContext(resolve, r', active)
    ensures Admitted(resolve, r, active) == Admitted(resolve, r', active)
  {
    IndexForgetsOrder(active, r.ready, r'.ready);
    DuplicatesForgetOrder(active, r.ready, r'.ready);
    RepeatsAreCaught(active, r.ready);
    RepeatsAreCaught(active, r'.ready);
    var duplicates := DuplicateIds(active, r.ready);
    DeferralsForgetOrder(r.ready, r'.ready, duplicates, r.settled);
    RunnableForgetsOrder(r.ready, r'.ready, duplicates, r.settled);
    RunnableIsDistinct(r.ready, duplicates, r.settled);
    KeysAreOrders();
    DistinctIdsSeparate(Runnable(r.ready, duplicates, r.settled));
    SortForgetsOrder(Runnable(r.ready, duplicates, r.settled), Runnable(r'.ready, duplicates, r.settled), PriorityLeq);
  }

  lemma {:induction false} WaitingCount(ready: seq<BoardTask>, running: seq<string>, id: string)
    ensures multiset(Waiting(ready, running))[id] == if id in running then 0 else multiset(IdsOf(ready))[id]
  {
    if |ready| == 0 {
    } else {
      WaitingCount(ready[..|ready| - 1], running, id);
      assert IdsOf(ready) == IdsOf(ready[..|ready| - 1]) + [ready[|ready| - 1].taskId];
    }
  }

  lemma {:induction false} IdsForgetOrder(a: seq<BoardTask>, b: seq<BoardTask>)
    requires multiset(a) == multiset(b)
    ensures multiset(IdsOf(a)) == multiset(IdsOf(b))
  {
    if |a| == 0 {
      assert |multiset(b)| == |b|;
    } else {
      MultisetMembers(a, b);
      assert a[0] in b;
      var i :| 0 <= i < |b| && b[i] == a[0];
      var front, back := b[..i], b[i + 1..];
      assert b == front + [a[0]] + back;
      RestAgrees(a, front, back);
      IdsForgetOrder(a[1..], front + back);
      assert IdsOf(b) == IdsOf(front) + [a[0].taskId] + IdsOf(back);
      assert IdsOf(front + back) == IdsOf(front) + IdsOf(back);
      assert IdsOf(a) == [a[0].taskId] + IdsOf(a[1..]);
    }
  }

  /** Order independence: permuting the ready tasks (whose ids determine their
      dependencies) and the supplied reservations (whose ids determine them)
      changes nothing but the listing order of the waiting ids. */
  lemma OrderIndependence(resolve: Resolver, r: Request, r': Request)
    requires r' == r.(ready := r'.ready, active := r'.active)
    requires multiset(r.ready) == multiset(r'.ready) && multiset(r.active) == multiset(r'.active)
    requires SameIdsAgree(r.ready) && IdsDetermine(r.active)
    ensures SameOutcome(Scheduled(resolve, r), Scheduled(resolve, r'))
  {
    SuppliedForgetsOrder(r, r');
    PrepareForgetsOrder(r, r');
    if Prepare(r).Ok? {
      var active := Prepare(r).value;
      AdmittedForgetsOrder(resolve, r, r', active);
      IdsForgetOrder(r.ready, r'.ready);
      var running := IdsOf(Admitted(resolve, r, active).admitted);
      forall id ensures multiset(Waiting(r.ready, running))[id] == multiset(Waiting(r'.ready, running))[id] {
        WaitingCount(r.ready, running, id);
        WaitingCount(r'.ready, running, id);
      }
    }
  }

  // ---------------------------------------------------------------------------
  // When the order of the supplied reservations matters
  // ---------------------------------------------------------------------------

  lemma {:induction false} NeighboursDiffer(s: seq<Reservation>, i: nat, j: nat) returns (k: nat)
    requires SortedBy(s, ReservationLeq) && i < j < |s|
    requires s[i].taskId == s[j].taskId && s[i] != s[j]
    ensures i <= k < j && s[k].taskId == s[k + 1].taskId && s[k] != s[k + 1]
    decreases j - i
  {
    LexIsTotalPreorder();
    assert ReservationLeq(s[i], s[i + 1]);
    assert i + 1 == j || ReservationLeq(s[i + 1], s[j]);
    if s[i] != s[i + 1] {
      k := i;
    } else {
      k := NeighboursDiffer(s, i + 1, j);
    }
  }

  function SwapAt(s: seq<Reservation>, k: nat): seq<Reservation>
    requires k + 1 < |s|
  {
    s[k := s[k + 1]][k + 1 := s[k]]
  }

  lemma SwapKeepsMembers(s: seq<Reservation>, k: nat)
    requires k + 1 < |s|
    ensures multiset(SwapAt(s, k)) == multiset(s)
  {
    assert s == s[..k] + [s[k]] + [s[k + 1]] + s[k + 2..];
    assert SwapAt(s, k) == s[..k] + [s[k + 1]] + [s[k]] + s[k + 2..];
  }

  lemma SwapKeepsSorted(s: seq<Reservation>, k: nat)
    requires k + 1 < |s| && SortedBy(s, ReservationLeq) && s[k].taskId == s[k + 1].taskId
    ensures SortedBy(SwapAt(s, k), ReservationLeq)
  {
    LexIsTotalPreorder();
    var t := SwapAt(s, k);
    forall i, j | 0 <= i < j < |t| ensures ReservationLeq(t[i], t[j]) {
      var i', j' := (if i == k then k + 1 else if i == k + 1 then k else i), (if j == k then k + 1 else if j == k + 1 then k else j);
      assert t[i] == s[i'] && t[j] == s[j'];
      assert i' < j' ==> ReservationLeq(s[i'], s[j']);
    }
  }

  lemma SnapshotsDiffer(s: seq<Reservation>, k: nat)
    requires k + 1 < |s| && s[k] != s[k + 1]
    requires forall v :: v in s ==> v == ReservationFor(v.task)
    ensures SnapshotOf(SwapAt(s, k)) != SnapshotOf(s)
  {
    var t := SwapAt(s, k);
    assert SnapshotOf(s).preimage[k] == (s[k].taskId, s[k].token);
    assert SnapshotOf(t).preimage[k] == (s[k + 1].taskId, s[k + 1].token);
  }

  /** Both ways of supplying the same reservations pass every check before the
      snapshot comparison. */
  ghost predicate OtherwiseWellFormed(r: Request)
  {
    r.concurrency > 0 && !(r.logicalOnly && r.gate.Gate?) && ReservationsValid(r.active)
  }

  lemma ListingForgotten(resolve: Resolver, r: Request, r': Request)
    requires r' == r.(active := r'.active) && multiset(r'.active) == multiset(r.active) && IdsDetermine(r.active)
    ensures SameOutcome(Scheduled(resolve, r), Scheduled(resolve, r'))
  {
    SuppliedForgetsOrder(r, r');
    PrepareForgetsOrder(r, r');
    if Prepare(r).Ok? {
      SameAdmission(resolve, r, r', Prepare(r).value);
    }
  }

  lemma SameAdmission(resolve: Resolver, r: Request, r': Request, active: seq<BoardTask>)
    requires r' == r.(active := r'.active)
    ensures RoundContext(resolve, r, active) == RoundContext(resolve, r', active)
    ensures Admitted(resolve, r, active) == Admitted(resolve, r', active)
  {
    assert r'.ready == r.ready && r'.settled == r.settled && r'.gate == r.gate;
  }

  /** The listing order of valid reservations is irrelevant, whatever snapshot
      hash accompanies them, exactly when equal ids mean equal entries. The sort
      by id is stable, so two entries that share an id are hashed in the order
      in which they were supplied. */
  lemma ReservationOrderIrrelevantIff(resolve: Resolver, r: Request)
    requires OtherwiseWellFormed(r)
    ensures IdsDetermine(r.active) <==>
            forall listed, snapshot :: multiset(listed) == multiset(r.active) ==>
              SameOutcome(Scheduled(resolve, r.(snapshot := snapshot)),
                          Scheduled(resolve, r.(snapshot := snapshot, active := listed)))
  {
    if IdsDetermine(r.active) {
      forall listed, snapshot | multiset(listed) == multiset(r.active)
        ensures SameOutcome(Scheduled(resolve, r.(snapshot := snapshot)),
                            Scheduled(resolve, r.(snapshot := snapshot, active := listed)))
      {
        ListingForgotten(resolve, r.(snapshot := snapshot), r.(snapshot := snapshot, active := listed));
      }
    } else {
      var listed, snapshot := OrderMatters(resolve, r);
      assert !SameOutcome(Scheduled(resolve, r.(snapshot := snapshot)),
                          Scheduled(resolve, r.(snapshot := snapshot, active := listed)));
    }
  }

  lemma OrderMatters(resolve: Resolver, r: Request) returns (listed: seq<Reservation>, snapshot: Option<Snapshot>)
    requires OtherwiseWellFormed(r) && !IdsDetermine(r.active)
    ensures multiset(listed) == multiset(r.active)
    ensures !SameOutcome(Scheduled(resolve, r.(snapshot := snapshot)),
                         Scheduled(resolve, r.(snapshot := snapshot, active := listed)))
  {
    var sorted := Supplied(r);
    MultisetMembers(sorted, r.active);
    KeysAreOrders();
    SortIsSorted(r.active, ReservationLeq);
    var k := ConflictingNeighbours(sorted, r.active);
    listed := SwapAt(sorted, k);
    SwapKeepsMembers(sorted, k);
    SwapKeepsSorted(sorted, k);
    SortFixesSorted(listed, ReservationLeq);
    SnapshotsDiffer(sorted, k);
    MultisetMembers(listed, r.active);
    snapshot := Some(SnapshotOf(sorted));
    ListingsDiffer(resolve, r, sorted, listed, snapshot);
  }

  lemma ListingsDiffer(resolve: Resolver, r: Request, sorted: seq<Reservation>, listed: seq<Reservation>,
                       snapshot: Option<Snapshot>)
    requires OtherwiseWellFormed(r) && sorted == Supplied(r) && snapshot == Some(SnapshotOf(sorted))
    requires Sort(listed, ReservationLeq) == listed && multiset(listed) == multiset(r.active)
    requires SnapshotOf(listed) != SnapshotOf(sorted)
    ensures !SameOutcome(Scheduled(resolve, r.(snapshot := snapshot)),
                         Scheduled(resolve, r.(snapshot := snapshot, active := listed)))
  {
    MultisetMembers(listed, r.active);
    var first, second := r.(snapshot := snapshot), r.(snapshot := snapshot, active := listed);
    assert Supplied(first) == sorted && Supplied(second) == listed;
    NotMismatch(resolve, first);
    IsMismatch(resolve, second);
  }

  lemma ConflictingNeighbours(sorted: seq<Reservation>, listed: seq<Reservation>) returns (k: nat)
    requires SortedBy(sorted, ReservationLeq) && !IdsDetermine(listed)
    requires forall v :: v in sorted <==> v in listed
    ensures k + 1 < |sorted| && sorted[k].taskId == sorted[k + 1].taskId && sorted[k] != sorted[k + 1]
  {
    var v, w :| v in listed && w in listed && v.taskId == w.taskId && v != w;
    var i :| 0 <= i < |sorted| && sorted[i] == v;
    var j :| 0 <= j < |sorted| && sorted[j] == w;
    if i < j {
      k := NeighboursDiffer(sorted, i, j);
    } else {
      k := NeighboursDiffer(sorted, j, i);
    }
  }

  lemma NotMismatch(resolve: Resolver, r: Request)
    requires OtherwiseWellFormed(r) && r.snapshot == Some(SnapshotOf(Supplied(r)))
    ensures Scheduled(resolve, r) != Raised(SnapshotMismatch)
  {
    ReleaseErrorKind(r.releases, 0);
    assert SnapshotError(r) != Some(SnapshotMismatch);
    if Prepare(r).Ok? {
      ActiveErrorKind(RoundContext(resolve, r, Prepare(r).value), Prepare(r).value, 0);
    }
  }

  lemma {:induction false} ActiveErrorKind(cx: Context, active: seq<BoardTask>, i: nat)
    requires i <= |active|
    ensures ActiveError(cx, active, i) != Some(SnapshotMismatch)
    decreases |active| - i
  {
    if i < |active| {
      ActiveErrorKind(cx, active, i + 1);
    }
  }

  lemma {:induction false} ReleaseErrorKind(events: seq<Release>, i: nat)
    requires i <= |events|
    ensures ReleaseError(events, i) in {None, Some(BadReleaseOutcome), Some(DuplicateRelease)}
    decreases |events| - i
  {
    if i < |events| {
      ReleaseErrorKind(events, i + 1);
    }
  }

  lemma IsMismatch(resolve: Resolver, r: Request)
    requires OtherwiseWellFormed(r) && r.snapshot.Some? && r.snapshot.value != SnapshotOf(Supplied(r))
    ensures Scheduled(resolve, r) == Raised(SnapshotMismatch)
  {
    assert SnapshotError(r) == Some(SnapshotMismatch);
  }

  // ---------------------------------------------------------------------------
  // Accounting
  // ---------------------------------------------------------------------------

  lemma {:induction false} DuplicatesAreCaught(active: seq<BoardTask>, ready: seq<BoardTask>, i: nat, j: nat)
    requires i < j < |ready| && ready[i].taskId == ready[j].taskId
    ensures ready[i].taskId in DuplicateIds(active, ready)
  {
    var front, last := ready[..|ready| - 1], ready[|ready| - 1];
    if j == |ready| - 1 {
      assert front[i] in active + front;
    } else {
      assert front[i] == ready[i] && front[j] == ready[j];
      DuplicatesAreCaught(active, front, i, j);
    }
  }

  /** A runnable task with this id was passed over. */
  ghost predicate PassedOver(runnable: seq<BoardTask>, admitted: seq<BoardTask>, id: string)
  {
    exists t :: t in runnable && t !in admitted && t.taskId == id
  }

  lemma {:induction false} AdmitReasons(cx: Context, active: seq<BoardTask>, runnable: seq<BoardTask>,
                                        concurrency: int, reasons: map<string, Reason>, id: string)
    requires DistinctIds(runnable)
    ensures var a := Admit(cx, active, runnable, concurrency, reasons);
            && (forall t :: t in a.admitted ==> t in runnable)
            && (id in a.reasons <==> id in reasons || PassedOver(runnable, a.admitted, id))
  {
    if |runnable| == 0 {
    } else {
      var front, last := runnable[..|runnable| - 1], runnable[|runnable| - 1];
      AdmitReasons(cx, active, front, concurrency, reasons, id);
      var before := Admit(cx, active, front, concurrency, reasons).admitted;
      assert forall t :: t in runnable <==> t in front || t == last;
      assert last !in front;
      assert PassedOver(runnable, before + [last], id) <==> PassedOver(front, before, id);
      assert PassedOver(runnable, before, id) <==> PassedOver(front, before, id) || id == last.taskId;
    }
  }

  lemma {:induction false} AllDeferredKeys(tasks: seq<BoardTask>, reasons: map<string, Reason>, id: string)
    ensures id in AllDeferred(tasks, reasons) <==> id in reasons || HasId(tasks, id)
  {
    if |tasks| == 0 {
    } else {
      var front, last := tasks[..|tasks| - 1], tasks[|tasks| - 1];
      AllDeferredKeys(front, reasons, id);
      assert forall t :: t in tasks <==> t in front || t == last;
    }
  }

  /** Every ready id either runs now or has a recorded reason to wait, never
      both, and nothing else is recorded. */
  lemma EveryReadyTaskIsAccountedFor(resolve: Resolver, r: Request, id: string)
    requires Scheduled(resolve, r).Ok?
    ensures var round := Scheduled(resolve, r).value;
            && (HasId(r.ready, id) <==> id in round.runNow || id in round.reasons)
            && !(id in round.runNow && id in round.reasons)
  {
    var active := ActiveTasks(r);
    AdmittedMembers(resolve, r);
    AdmissionAccounts(resolve, r, active, id);
    var admitted := Admitted(resolve, r, active).admitted;
    assert id in IdsOf(admitted) <==> HasId(admitted, id) by {
      assert forall i :: 0 <= i < |admitted| ==> IdsOf(admitted)[i] == admitted[i].taskId;
    }
  }

  lemma AdmissionAccounts(resolve: Resolver, r: Request, active: seq<BoardTask>, id: string)
    ensures var a := Admitted(resolve, r, active);
            && (HasId(r.ready, id) <==> HasId(a.admitted, id) || id in a.reasons)
            && !(HasId(a.admitted, id) && id in a.reasons)
  {
    var duplicates := DuplicateIds(active, r.ready);
    RepeatsAreCaught(active, r.ready);
    var runnable := Runnable(r.ready, duplicates, r.settled);
    var deferrals := Deferrals(r.ready, duplicates, r.settled);
    RunnableIsDistinct(r.ready, duplicates, r.settled);
    DeferralsRecord(r.ready, duplicates, r.settled);
    var ordered := Sort(runnable, PriorityLeq);
    MultisetMembers(ordered, runnable);
    DistinctSurvivesReordering(runnable, ordered);
    AdmitReasons(RoundContext(resolve, r, active), active, ordered, r.concurrency, deferrals, id);
    var a := Admit(RoundContext(resolve, r, active), active, ordered, r.concurrency, deferrals);
    SameIdSameTask(ordered, id);
    assert PassedOver(ordered, a.admitted, id) <==> PassedOver(runnable, a.admitted, id);
    AllDeferredKeys(a.admitted, a.reasons, id);
    Accounted(r.ready, runnable, deferrals, a, id);
  }

  lemma SameIdSameTask(tasks: seq<BoardTask>, id: string)
    requires DistinctIds(tasks)
    ensures forall t, u :: t in tasks && u in tasks && t.taskId == id == u.taskId ==> t == u
  {
    DistinctIdsSeparate(tasks);
    LexReflexive(id);
  }

  lemma Accounted(ready: seq<BoardTask>, runnable: seq<BoardTask>, deferrals: map<string, Reason>, a: Admission, id: string)
    requires forall t :: t in runnable ==> t in ready && t.taskId !in deferrals
    requires forall t :: t in ready && t !in runnable ==> t.taskId in deferrals
    requires forall k :: k in deferrals ==> HasId(ready, k)
    requires forall t, u :: t in runnable && u in runnable && t.taskId == id == u.taskId ==> t == u
    requires forall t :: t in a.admitted ==> t in runnable
    requires id in a.reasons <==> id in deferrals || PassedOver(runnable, a.admitted, id)
    ensures HasId(ready, id) <==> HasId(a.admitted, id) || id in a.reasons
    ensures !(HasId(a.admitted, id) && id in a.reasons)
  {
    if HasId(ready, id) {
      var t :| t in ready && t.taskId == id;
    }
  }

  // ---------------------------------------------------------------------------
  // When the index is the declared graph
  // ---------------------------------------------------------------------------

  /** Some task of the list declares this dependency. */
  ghost predicate DeclaredEdge(tasks: seq<BoardTask>, id: string, dependency: string)
  {
    exists t :: t in tasks && t.taskId == id && dependency in DependencyIds(t)
  }

  ghost predicate IsLastEntry(tasks: seq<BoardTask>, i: nat)
    requires i < |tasks|
  {
    forall j :: i < j < |tasks| ==> tasks[j].taskId != tasks[i].taskId
  }

  /** No entry declares a dependency that the last entry of its id lacks. */
  ghost predicate LastEntriesCover(tasks: seq<BoardTask>)
  {
    forall i, j :: 0 <= i < |tasks| && 0 <= j < |tasks| && tasks[i].taskId == tasks[j].taskId && IsLastEntry(tasks, j) ==>
      DependencyIds(tasks[i]) <= DependencyIds(tasks[j])
  }

  /** Position of the last entry of an id. */
  function LastEntry(tasks: seq<BoardTask>, id: string): (r: Option<nat>)
    ensures r.None? <==> !HasId(tasks, id)
    ensures r.Some? ==> r.value < |tasks| && tasks[r.value].taskId == id
    ensures r.Some? ==> forall j :: r.value < j < |tasks| ==> tasks[j].taskId != id
  {
    if |tasks| == 0 then None
    else
      var n := |tasks| - 1;
      assert forall t :: t in tasks <==> t in tasks[..n] || t == tasks[n];
      if tasks[n].taskId == id then Some(n) else LastEntry(tasks[..n], id)
  }

  lemma {:induction false} IndexKeepsLast(tasks: seq<BoardTask>, id: string)
    ensures var last := LastEntry(tasks, id);
            && (id in IndexOf(tasks) <==> last.Some?)
            && (last.Some? ==> IndexOf(tasks)[id] == DependencyIds(tasks[last.value]))
  {
    if |tasks| == 0 {
    } else {
      IndexKeepsLast(tasks[..|tasks| - 1], id);
    }
  }

  lemma LastEntryIsLast(tasks: seq<BoardTask>, i: nat)
    requires i < |tasks|
    ensures IsLastEntry(tasks, i) <==> LastEntry(tasks, tasks[i].taskId) == Some(i)
  {
    assert tasks[i] in tasks;
    var k := LastEntry(tasks, tasks[i].taskId).value;
    assert i <= k;
    assert IsLastEntry(tasks, i) ==> !(i < k);
  }

  /** The dependency index holds exactly the declared edges if and only if last
      entries cover earlier ones; distinct ids are the case where every entry is
      a last one. */
  lemma IndexIsDeclaredGraphIff(tasks: seq<BoardTask>)
    ensures (forall id, d :: d in Successors(IndexOf(tasks), id) <==> DeclaredEdge(tasks, id, d)) <==> LastEntriesCover(tasks)
    ensures DistinctIds(tasks) ==> LastEntriesCover(tasks)
  {
    if forall id, d :: d in Successors(IndexOf(tasks), id) <==> DeclaredEdge(tasks, id, d) {
      forall i, j | 0 <= i < |tasks| && 0 <= j < |tasks| && tasks[i].taskId == tasks[j].taskId && IsLastEntry(tasks, j)
        ensures DependencyIds(tasks[i]) <= DependencyIds(tasks[j])
      {
        LastEntryIsLast(tasks, j);
        IndexKeepsLast(tasks, tasks[j].taskId);
        forall d | d in DependencyIds(tasks[i]) ensures d in DependencyIds(tasks[j]) {
          assert tasks[i] in tasks;
          assert DeclaredEdge(tasks, tasks[i].taskId, d);
        }
      }
    }
    if LastEntriesCover(tasks) {
      forall id, d ensures d in Successors(IndexOf(tasks), id) <==> DeclaredEdge(tasks, id, d) {
        CoveredEntry(tasks, id, d);
      }
    }
  }

  lemma CoveredEntry(tasks: seq<BoardTask>, id: string, d: string)
    requires LastEntriesCover(tasks)
    ensures d in Successors(IndexOf(tasks), id) <==> DeclaredEdge(tasks, id, d)
  {
    IndexKeepsLast(tasks, id);
    if HasId(tasks, id) {
      var j := LastEntry(tasks, id).value;
      LastEntryIsLast(tasks, j);
      if t :| t in tasks && t.taskId == id && d in DependencyIds(t) {
        var i :| 0 <= i < |tasks| && tasks[i] == t;
        assert DependencyIds(tasks[i]) <= DependencyIds(tasks[j]);
      }
      assert tasks[j] in tasks;
    }
  }
}
