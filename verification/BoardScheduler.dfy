/** The loops of `schedule`, proved to compute the specified round. */
module BoardScheduler {
  import opened Values
  import opened BoardTypes
  import opened Ordering
  import opened FileScopes
  import opened Dependencies
  import opened ResourceLocks
  import opened BoardRouter

  method BuildIndex(tasks: seq<BoardTask>) returns (index: DependencyIndex)
    ensures index.adjacency == IndexOf(tasks)
  {
    var adjacency: Adjacency := map[];
    for i := 0 to |tasks|
      invariant adjacency == IndexOf(tasks[..i])
    {
      assert tasks[..i + 1][..i] == tasks[..i];
      adjacency := adjacency[tasks[i].taskId := DependencyIds(tasks[i])];
    }
    assert tasks[..|tasks|] == tasks;
    index := new DependencyIndex(adjacency);
  }

  method PairConflict(resolve: Resolver, index: DependencyIndex, capacities: Capacities, a: BoardTask, b: BoardTask)
    returns (reason: Option<Reason>)
    ensures reason == ConflictReason(Context(resolve, index.adjacency, capacities), a, b)
  {
    if a.taskId == b.taskId {
      return Some(DuplicateIdentity(a.taskId));
    }
    if IsAmbiguous(a) || IsAmbiguous(b) {
      return Some(AmbiguousPair);
    }
    var connected := DirectDependency(a, b);
    if !connected {
      connected := index.DependsEither(a.taskId, b.taskId);
    }
    if connected {
      return Some(DependencyWith(b.taskId));
    }
    if FilesConflict(resolve, a, b) {
      return Some(WriteScopeCollision(b.taskId));
    }
    if ResourceConflictPairwise(a, b, capacities) {
      return Some(SharedResourceConflict(b.taskId));
    }
    reason := None;
  }

  method FindConflict(resolve: Resolver, index: DependencyIndex, capacities: Capacities,
                      t: BoardTask, members: seq<BoardTask>)
    returns (reason: Option<Reason>)
    ensures reason == FirstConflict(Context(resolve, index.adjacency, capacities), t, members)
  {
    ghost var cx := Context(resolve, index.adjacency, capacities);
    var i := 0;
    while i < |members|
      invariant 0 <= i <= |members|
      invariant FirstConflict(cx, t, members) == FirstConflict(cx, t, members[i..])
    {
      reason := PairConflict(resolve, index, capacities, t, members[i]);
      if reason.Some? {
        return;
      }
      i := i + 1;
    }
    reason := None;
  }

  /** The persisted snapshot is re-validated before it authorises new work; the
      lock table then holds exactly the active claims. */
  method ValidateActive(resolve: Resolver, index: DependencyIndex, capacities: Capacities, active: seq<BoardTask>)
    returns (error: Option<ScheduleError>, lock: LockTable)
    requires KnownTasks(active)
    ensures error == ActiveError(Context(resolve, index.adjacency, capacities), active, 0)
    ensures fresh(lock) && lock.capacities == capacities
    ensures error.None? ==> lock.state == TableOf(ClaimsOf(active)) && Feasible(ClaimsOf(active), capacities)
  {
    ghost var cx := Context(resolve, index.adjacency, capacities);
    lock := new LockTable(capacities);
    EmptyIsFeasible(capacities);
    var i := 0;
    while i < |active|
      invariant 0 <= i <= |active|
      invariant ActiveError(cx, active, 0) == ActiveError(cx, active, i)
      invariant fresh(lock) && lock.capacities == capacities
      invariant lock.state == TableOf(ClaimsOf(active[..i])) && Feasible(ClaimsOf(active[..i]), capacities)
    {
      var conflict := FindConflict(resolve, index, capacities, active[i], active[..i]);
      if conflict.Some? {
        return Some(ActiveConflict(conflict.value)), lock;
      }
      ClaimsKnown(active[..i]);
      ClaimsLast(active[..i], active[i]);
      assert active[..i + 1] == active[..i] + [active[i]];
      var acquired := lock.TryAcquire(active[i], ClaimsOf(active[..i]));
      if !acquired {
        return Some(ActiveOverCapacity), lock;
      }
      i := i + 1;
    }
    assert active[..i] == active;
    error := None;
  }

  method FindDuplicates(active: seq<BoardTask>, ready: seq<BoardTask>) returns (duplicates: set<string>)
    ensures duplicates == DuplicateIds(active, ready)
  {
    duplicates := {};
    var seen := set t | t in active :: t.taskId;
    for i := 0 to |ready|
      invariant duplicates == DuplicateIds(active, ready[..i])
      invariant forall id :: id in seen <==> exists t :: t in active + ready[..i] && t.taskId == id
    {
      assert ready[..i + 1][..i] == ready[..i];
      assert active + ready[..i + 1] == active + ready[..i] + [ready[i]];
      if ready[i].taskId in seen {
        duplicates := duplicates + {ready[i].taskId};
      }
      seen := seen + {ready[i].taskId};
    }
    assert ready[..|ready|] == ready;
  }

  method SplitReady(ready: seq<BoardTask>, duplicates: set<string>, settled: map<string, (int, string)>)
    returns (runnable: seq<BoardTask>, reasons: map<string, Reason>)
    ensures runnable == Runnable(ready, duplicates, settled)
    ensures reasons == Deferrals(ready, duplicates, settled)
  {
    runnable, reasons := [], map[];
    for i := 0 to |ready|
      invariant runnable == Runnable(ready[..i], duplicates, settled)
      invariant reasons == Deferrals(ready[..i], duplicates, settled)
    {
      assert ready[..i + 1][..i] == ready[..i];
      match Deferral(ready[i], duplicates, settled) {
        case Some(reason) => reasons := reasons[ready[i].taskId := reason];
        case None => runnable := runnable + [ready[i]];
      }
    }
    assert ready[..|ready|] == ready;
  }

  /** Whole-set admission: each runnable task in turn is checked against every
      member, then asked to acquire its locks on top of theirs. */
  method AdmitRunnable(resolve: Resolver, index: DependencyIndex, capacities: Capacities, lock: LockTable,
                       active: seq<BoardTask>, runnable: seq<BoardTask>, concurrency: int,
                       deferred: map<string, Reason>)
    returns (admitted: seq<BoardTask>, reasons: map<string, Reason>)
    requires KnownTasks(active) && KnownTasks(runnable)
    requires lock.capacities == capacities
    requires lock.state == TableOf(ClaimsOf(active)) && Feasible(ClaimsOf(active), capacities)
    modifies lock
    ensures Admission(admitted, reasons)
            == Admit(Context(resolve, index.adjacency, capacities), active, runnable, concurrency, deferred)
    ensures lock.state == TableOf(ClaimsOf(active + admitted))
  {
    ghost var cx := Context(resolve, index.adjacency, capacities);
    admitted, reasons := [], deferred;
    assert active + admitted == active;
    for i := 0 to |runnable|
      invariant Admission(admitted, reasons) == Admit(cx, active, runnable[..i], concurrency, deferred)
      invariant KnownTasks(active + admitted)
      invariant lock.state == TableOf(ClaimsOf(active + admitted))
      invariant Feasible(ClaimsOf(active + admitted), capacities)
    {
      assert runnable[..i + 1][..i] == runnable[..i];
      var t := runnable[i];
      assert t in runnable;
      if |active| + |admitted| >= concurrency {
        reasons := SetDefault(reasons, t.taskId, ConcurrencyBound);
        continue;
      }
      var members := active + admitted;
      var conflict := FindConflict(resolve, index, capacities, t, members);
      if conflict.None? {
        ClaimsKnown(members);
        ClaimsLast(members, t);
        assert members + [t] == active + (admitted + [t]);
        var acquired := lock.TryAcquire(t, ClaimsOf(members));
        if !acquired {
          conflict := Some(LockUnavailable);
        }
      }
      if conflict.None? {
        admitted := admitted + [t];
      } else {
        reasons := SetDefault(reasons, t.taskId, conflict.value);
      }
    }
    assert runnable[..|runnable|] == runnable;
  }

  lemma DeclaredClaimsAreKnown(t: BoardTask)
    requires !IsAmbiguous(t)
    ensures KnownClaims(t.resources)
  {
    forall c | c in t.resources ensures IsKnown(c) {
      assert ClaimDeclared(c);
    }
  }

  lemma {:induction false} RunnableTasksAreDeclared(ready: seq<BoardTask>, duplicates: set<string>,
                                                    settled: map<string, (int, string)>)
    ensures forall t :: t in Runnable(ready, duplicates, settled) ==> t in ready && !IsAmbiguous(t)
  {
    if |ready| == 0 {
    } else {
      RunnableTasksAreDeclared(ready[..|ready| - 1], duplicates, settled);
    }
  }

  lemma PreparedTasksAreDeclared(r: Request)
    requires Prepare(r).Ok?
    ensures forall t :: t in Prepare(r).value ==> !IsAmbiguous(t)
    ensures KnownTasks(Prepare(r).value)
  {
    var active := StillActive(r);
    MultisetMembers(active, Sort(active, PriorityLeq));
    forall t | t in Prepare(r).value ensures KnownClaims(t.resources) {
      assert t in active;
      DeclaredClaimsAreKnown(t);
    }
  }

  /** One atomic scheduling round. */
  method Schedule(resolve: Resolver, r: Request) returns (outcome: Outcome<Round>)
    ensures outcome == Scheduled(resolve, r)
  {
    var prepared := Prepare(r);
    if prepared.Raised? {
      return Raised(prepared.error);
    }
    var active := prepared.value;
    PreparedTasksAreDeclared(r);
    var duplicates := FindDuplicates(active, r.ready);
    var index := BuildIndex(active + r.ready);
    var error, lock := ValidateActive(resolve, index, r.capacities, active);
    if error.Some? {
      return Raised(error.value);
    }
    var runnable, reasons := SplitReady(r.ready, duplicates, r.settled);
    RunnableTasksAreDeclared(r.ready, duplicates, r.settled);
    var ordered := Sort(runnable, PriorityLeq);
    MultisetMembers(ordered, runnable);
    forall t | t in ordered ensures KnownClaims(t.resources) {
      DeclaredClaimsAreKnown(t);
    }
    var admitted;
    admitted, reasons := AdmitRunnable(resolve, index, r.capacities, lock, active, ordered, r.concurrency, reasons);
    var gated := Gated(r, active, Admission(admitted, reasons));
    outcome := Ok(Publish(r, active, gated));
  }
}
