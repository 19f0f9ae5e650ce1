/** What one scheduling round guarantees about the set it lets run. */
module SchedulerSafety {
  import opened BoardTypes
  import opened Ordering
  import opened FileScopes
  import opened ResourceLocks
  import opened BoardRouter
  import opened BoardScheduler

  ghost predicate Compatible(cx: Context, a: BoardTask, b: BoardTask)
  {
    ConflictReason(cx, a, b).None?
  }

  /** A set of distinct tasks without a pairwise conflict. */
  ghost predicate MutuallyCompatible(cx: Context, members: seq<BoardTask>)
  {
    && DistinctIds(members)
    && (forall a, b :: a in members && b in members && a.taskId != b.taskId ==> Compatible(cx, a, b))
  }

  lemma AliasIsSymmetric(a: CanonicalPath, b: CanonicalPath)
    ensures PathsAlias(a, b) == PathsAlias(b, a)
  {
  }

  lemma FilesConflictIsSymmetric(resolve: Resolver, a: BoardTask, b: BoardTask)
    requires FilesConflict(resolve, a, b)
    ensures FilesConflict(resolve, b, a)
  {
    var s, r :| s in ScopesOf(a) && r in ScopesOf(b) && (s.write || r.write)
                && PathsAlias(resolve(s.path, a.worktreeRoot), resolve(r.path, b.worktreeRoot));
    AliasIsSymmetric(resolve(s.path, a.worktreeRoot), resolve(r.path, b.worktreeRoot));
    assert r in ScopesOf(b) && s in ScopesOf(a) && (r.write || s.write);
  }

  lemma ResourceConflictIsSymmetric(a: BoardTask, b: BoardTask, capacities: Capacities)
    requires ResourceConflictPairwise(a, b, capacities)
    ensures ResourceConflictPairwise(b, a, capacities)
  {
    var c, d :| c in a.resources && d in b.resources && KeyOf(c) == KeyOf(d)
                && !(c.mode.Read? && d.mode.Read?)
                && (c.mode.Count? && d.mode.Count? ==> c.units + d.units > CapacityOf(capacities, KeyOf(c)));
    assert d in b.resources && c in a.resources && KeyOf(d) == KeyOf(c);
  }

  lemma CompatibleIsSymmetric(cx: Context, a: BoardTask, b: BoardTask)
    requires Compatible(cx, a, b)
    ensures Compatible(cx, b, a)
  {
    if FilesConflict(cx.resolve, b, a) {
      FilesConflictIsSymmetric(cx.resolve, b, a);
    }
    if ResourceConflictPairwise(b, a, cx.capacities) {
      ResourceConflictIsSymmetric(b, a, cx.capacities);
    }
  }

  lemma {:induction false} FirstConflictSearches(cx: Context, t: BoardTask, members: seq<BoardTask>)
    ensures FirstConflict(cx, t, members).None? <==> forall m :: m in members ==> Compatible(cx, t, m)
  {
    if |members| == 0 {
    } else {
      FirstConflictSearches(cx, t, members[1..]);
      if ConflictReason(cx, t, members[0]).Some? {
        assert members[0] in members && !Compatible(cx, t, members[0]);
      } else {
        assert forall m :: m in members <==> m == members[0] || m in members[1..];
      }
    }
  }

  lemma CompatibleHasNoConflict(cx: Context, members: seq<BoardTask>, i: nat)
    requires i < |members| && MutuallyCompatible(cx, members)
    ensures FirstConflict(cx, members[i], members[..i]).None?
  {
    FirstConflictSearches(cx, members[i], members[..i]);
    forall m | m in members[..i] ensures Compatible(cx, members[i], m) {
      var j :| 0 <= j < i && members[j] == m;
      assert members[j] in members && members[i] in members;
    }
  }

  lemma ExtendCompatible(cx: Context, members: seq<BoardTask>, t: BoardTask)
    requires MutuallyCompatible(cx, members)
    requires FirstConflict(cx, t, members).None?
    ensures MutuallyCompatible(cx, members + [t])
  {
    FirstConflictSearches(cx, t, members);
    forall m | m in members ensures Compatible(cx, t, m) && Compatible(cx, m, t) && m.taskId != t.taskId {
      CompatibleIsSymmetric(cx, t, m);
    }
  }

  /** Validation of the active snapshot succeeds exactly on mutually compatible
      sets whose claims fit. */
  lemma {:induction false} ValidatedPrefix(cx: Context, active: seq<BoardTask>, i: nat)
    requires i <= |active| && KnownTasks(active)
    requires MutuallyCompatible(cx, active[..i]) && Feasible(ClaimsOf(active[..i]), cx.capacities)
    ensures ActiveError(cx, active, i).None? <==>
            MutuallyCompatible(cx, active) && Feasible(ClaimsOf(active), cx.capacities)
    decreases |active| - i
  {
    if i == |active| {
      assert active[..i] == active;
    } else {
      var t := active[i];
      assert active[..i + 1] == active[..i] + [t];
      if FirstConflict(cx, t, active[..i]).Some? {
        if MutuallyCompatible(cx, active) {
          CompatibleHasNoConflict(cx, active, i);
        }
      } else {
        ExtendCompatible(cx, active[..i], t);
        if !Feasible(ClaimsOf(active[..i + 1]), cx.capacities) {
          if Feasible(ClaimsOf(active), cx.capacities) {
            PrefixFeasible(active, i + 1, cx.capacities);
          }
        } else {
          ValidatedPrefix(cx, active, i + 1);
        }
      }
    }
  }

  lemma PrefixFeasible(tasks: seq<BoardTask>, n: nat, capacities: Capacities)
    requires n <= |tasks| && KnownTasks(tasks) && Feasible(ClaimsOf(tasks), capacities)
    ensures Feasible(ClaimsOf(tasks[..n]), capacities)
  {
    assert tasks == tasks[..n] + tasks[n..];
    ClaimsAppend(tasks[..n], tasks[n..]);
    ClaimsKnown(tasks[..n]);
    ClaimsKnown(tasks[n..]);
    FeasibleIsMonotone(ClaimsOf(tasks[..n]), ClaimsOf(tasks[n..]), capacities);
  }

  lemma ActiveValid(cx: Context, active: seq<BoardTask>)
    requires KnownTasks(active)
    ensures ActiveError(cx, active, 0).None? <==>
            MutuallyCompatible(cx, active) && Feasible(ClaimsOf(active), cx.capacities)
  {
    EmptyIsFeasible(cx.capacities);
    assert active[..0] == [];
    ValidatedPrefix(cx, active, 0);
  }

  // ---------------------------------------------------------------------------
  // Greedy admission
  // ---------------------------------------------------------------------------

  /** A task cannot be added to a set: no slot, a conflict, or no capacity. */
  ghost predicate Blocked(cx: Context, t: BoardTask, members: seq<BoardTask>, concurrency: int)
  {
    || |members| >= concurrency
    || (exists m :: m in members && !Compatible(cx, t, m))
    || !Feasible(ClaimsOf(members) + t.resources, cx.capacities)
  }

  lemma BlockedStaysBlocked(cx: Context, t: BoardTask, members: seq<BoardTask>, more: BoardTask, concurrency: int)
    requires KnownTasks(members) && KnownClaims(more.resources) && KnownClaims(t.resources)
    requires Blocked(cx, t, members, concurrency)
    ensures Blocked(cx, t, members + [more], concurrency)
  {
    if m :| m in members && !Compatible(cx, t, m) {
      assert m in members + [more];
    } else if !Feasible(ClaimsOf(members) + t.resources, cx.capacities)
              && Feasible(ClaimsOf(members + [more]) + t.resources, cx.capacities) {
      var held := ClaimsOf(members);
      ClaimsLast(members, more);
      ClaimsKnown(members);
      assert multiset(held + more.resources + t.resources) == multiset(held + t.resources + more.resources);
      FeasibleForgetsOrder(held + more.resources + t.resources, held + t.resources + more.resources, cx.capacities);
      FeasibleIsMonotone(held + t.resources, more.resources, cx.capacities);
    }
  }

  /** What greedy admission keeps: the set stays safe, the bound holds, and
      every task passed over stays blocked by the final set. */
  lemma {:induction false} AdmissionIsSafeAndMaximal(cx: Context, active: seq<BoardTask>, runnable: seq<BoardTask>,
                                                     concurrency: int, reasons: map<string, Reason>)
    requires KnownTasks(active) && KnownTasks(runnable)
    requires MutuallyCompatible(cx, active) && Feasible(ClaimsOf(active), cx.capacities)
    ensures var members := active + Admit(cx, active, runnable, concurrency, reasons).admitted;
            && KnownTasks(members) && MutuallyCompatible(cx, members)
            && Feasible(ClaimsOf(members), cx.capacities)
            && (|members| > |active| ==> |members| <= concurrency)
    ensures var admitted := Admit(cx, active, runnable, concurrency, reasons).admitted;
            && (forall t :: t in admitted ==> t in runnable)
            && (forall t :: t in runnable && t !in admitted ==> Blocked(cx, t, active + admitted, concurrency))
  {
    if |runnable| == 0 {
      assert active + [] == active;
    } else {
      var front, t := runnable[..|runnable| - 1], runnable[|runnable| - 1];
      assert forall x :: x in runnable <==> x in front || x == t;
      AdmissionIsSafeAndMaximal(cx, active, front, concurrency, reasons);
      var before := Admit(cx, active, front, concurrency, reasons).admitted;
      var members := active + before;
      if |members| < concurrency && Rejection(cx, t, members).None? {
        ExtendCompatible(cx, members, t);
        ClaimsLast(members, t);
        assert members + [t] == active + (before + [t]);
        forall x | x in front && x !in before ensures Blocked(cx, x, members + [t], concurrency) {
          BlockedStaysBlocked(cx, x, members, t, concurrency);
        }
      } else {
        FirstConflictSearches(cx, t, members);
        assert Blocked(cx, t, members, concurrency);
      }
    }
  }

  // ---------------------------------------------------------------------------
  // The round
  // ---------------------------------------------------------------------------

  function TasksOf(reservations: seq<Reservation>): seq<BoardTask>
  {
    seq(|reservations|, i requires 0 <= i < |reservations| => reservations[i].task)
  }

  /** The tasks a successful round leaves reserved. */
  ghost function Members(resolve: Resolver, r: Request): seq<BoardTask>
    requires Scheduled(resolve, r).Ok?
  {
    TasksOf(Scheduled(resolve, r).value.reservations)
  }

  ghost function ActiveTasks(r: Request): seq<BoardTask>
    requires Prepare(r).Ok?
  {
    Prepare(r).value
  }

  ghost function ContextOf(resolve: Resolver, r: Request): Context
    requires Prepare(r).Ok?
  {
    RoundContext(resolve, r, ActiveTasks(r))
  }

  lemma DistinctSurvivesReordering(a: seq<BoardTask>, b: seq<BoardTask>)
    requires multiset(a) == multiset(b) && DistinctIds(a)
    ensures DistinctIds(b)
  {
    MultisetMembers(a, b);
    forall i, j | 0 <= i < j < |b| ensures b[i].taskId != b[j].taskId {
      assert b[i] in a && b[j] in a;
      if b[i].taskId == b[j].taskId {
        assert b[i] == b[j];
        TwiceInMultiset(b, i, j);
        var k :| 0 <= k < |a| && a[k] == b[i];
        OnceInMultiset(a, k);
        assert false;
      }
    }
  }

  lemma TwiceInMultiset<T>(s: seq<T>, i: nat, j: nat)
    requires i < j < |s| && s[i] == s[j]
    ensures multiset(s)[s[i]] >= 2
  {
    assert s == s[..i] + [s[i]] + s[i + 1..j] + [s[j]] + s[j + 1..];
  }

  lemma OnceInMultiset<T>(s: seq<T>, k: nat)
    requires k < |s| && forall i, j :: 0 <= i < j < |s| ==> s[i] != s[j]
    ensures multiset(s)[s[k]] == 1
  {
    assert s == s[..k] + [s[k]] + s[k + 1..];
    assert s[k] !in s[..k] && s[k] !in s[k + 1..];
  }

  lemma AdmittedMembers(resolve: Resolver, r: Request)
    requires Scheduled(resolve, r).Ok?
    ensures Prepare(r).Ok?
    ensures multiset(Members(resolve, r)) == multiset(ActiveTasks(r) + Admitted(resolve, r, ActiveTasks(r)).admitted)
    ensures Members(resolve, r) == Sort(ActiveTasks(r) + Admitted(resolve, r, ActiveTasks(r)).admitted, IdLeq)
    ensures Scheduled(resolve, r).value.reservations == ReservationsFor(Members(resolve, r))
    ensures Scheduled(resolve, r).value.snapshot == SnapshotOf(Scheduled(resolve, r).value.reservations)
    ensures Scheduled(resolve, r).value.runNow == IdsOf(Admitted(resolve, r, ActiveTasks(r)).admitted)
  {
    var sorted := Sort(ActiveTasks(r) + Admitted(resolve, r, ActiveTasks(r)).admitted, IdLeq);
    assert TasksOf(ReservationsFor(sorted)) == sorted;
  }

  /** No item lies under a write scope of one task and any scope of another. */
  ghost predicate ScopesApart(resolve: Resolver, a: BoardTask, b: BoardTask)
  {
    forall s, q, item :: s in ScopesOf(a) && q in ScopesOf(b) && (s.write || q.write) ==>
      !(Covers(resolve(s.path, a.worktreeRoot).key, item) && Covers(resolve(q.path, b.worktreeRoot).key, item))
  }

  /** No file is named by a write scope of one task and any scope of another. */
  ghost predicate FilesApart(resolve: Resolver, a: BoardTask, b: BoardTask)
  {
    forall s, q :: s in ScopesOf(a) && q in ScopesOf(b) && (s.write || q.write) ==>
      var i, j := resolve(s.path, a.worktreeRoot).identity, resolve(q.path, b.worktreeRoot).identity;
      i.Some? ==> i != j
  }

  /** The file axis is exact: `files_conflict` is silent precisely when the two
      tasks' items and files are apart. */
  lemma FilesConflictIsExact(resolve: Resolver, a: BoardTask, b: BoardTask)
    ensures !FilesConflict(resolve, a, b) <==> ScopesApart(resolve, a, b) && FilesApart(resolve, a, b)
  {
    forall s, q ensures KeysAlias(resolve(s, a.worktreeRoot).key, resolve(q, b.worktreeRoot).key) <==>
                        exists item :: Covers(resolve(s, a.worktreeRoot).key, item)
                                       && Covers(resolve(q, b.worktreeRoot).key, item) {
      AliasIffSharedItem(resolve(s, a.worktreeRoot).key, resolve(q, b.worktreeRoot).key);
    }
    if FilesConflict(resolve, a, b) {
      var s, q :| s in ScopesOf(a) && q in ScopesOf(b) && (s.write || q.write)
                  && PathsAlias(resolve(s.path, a.worktreeRoot), resolve(q.path, b.worktreeRoot));
      if KeysAlias(resolve(s.path, a.worktreeRoot).key, resolve(q.path, b.worktreeRoot).key) {
        var item :| Covers(resolve(s.path, a.worktreeRoot).key, item) && Covers(resolve(q.path, b.worktreeRoot).key, item);
        assert !ScopesApart(resolve, a, b);
      } else {
        assert !FilesApart(resolve, a, b);
      }
    } else {
      forall s, q, item | s in ScopesOf(a) && q in ScopesOf(b) && (s.write || q.write)
        && Covers(resolve(s.path, a.worktreeRoot).key, item)
        ensures !Covers(resolve(q.path, b.worktreeRoot).key, item)
      {
        assert !PathsAlias(resolve(s.path, a.worktreeRoot), resolve(q.path, b.worktreeRoot));
      }
      forall s, q | s in ScopesOf(a) && q in ScopesOf(b) && (s.write || q.write)
        && resolve(s.path, a.worktreeRoot).identity.Some?
        ensures resolve(s.path, a.worktreeRoot).identity != resolve(q.path, b.worktreeRoot).identity
      {
        assert !PathsAlias(resolve(s.path, a.worktreeRoot), resolve(q.path, b.worktreeRoot));
      }
    }
  }

  /** Two tasks may run side by side. */
  ghost predicate Apart(cx: Context, a: BoardTask, b: BoardTask)
  {
    && !Connected(cx.adjacency, a.taskId, b.taskId)
    && !DirectDependency(a, b)
    && ScopesApart(cx.resolve, a, b)
    && FilesApart(cx.resolve, a, b)
  }

  /** A set that may run: declared, without a pairwise conflict, feasible, and
      within the bound unless it is the active set alone. */
  ghost predicate MayRun(cx: Context, active: seq<BoardTask>, admitted: seq<BoardTask>, concurrency: int)
  {
    var members := active + admitted;
    && KnownTasks(members) && MutuallyCompatible(cx, members)
    && Feasible(ClaimsOf(members), cx.capacities)
    && (|members| > |active| ==> |members| <= concurrency)
    && (forall t :: t in members ==> !IsAmbiguous(t))
  }

  /** The admission stage of a round, before the caller's gate: the proposed set
      may run, and every runnable task it leaves out is blocked by it. */
  lemma RoundProposal(resolve: Resolver, r: Request)
    requires Scheduled(resolve, r).Ok?
    ensures Prepare(r).Ok?
    ensures var cx, active := ContextOf(resolve, r), ActiveTasks(r);
            var proposed := Proposed(resolve, r, active).admitted;
            var runnable := Runnable(r.ready, DuplicateIds(active, r.ready), r.settled);
            && MayRun(cx, active, proposed, r.concurrency)
            && (forall t :: t in proposed ==> t in runnable)
            && (forall t :: t in runnable && t !in proposed ==> Blocked(cx, t, active + proposed, r.concurrency))
  {
    var active := ActiveTasks(r);
    var cx := ContextOf(resolve, r);
    var duplicates := DuplicateIds(active, r.ready);
    var runnable := Runnable(r.ready, duplicates, r.settled);
    var ordered := Sort(runnable, PriorityLeq);
    PreparedTasksAreDeclared(r);
    RunnableTasksAreDeclared(r.ready, duplicates, r.settled);
    MultisetMembers(ordered, runnable);
    forall t | t in ordered ensures KnownClaims(t.resources) {
      DeclaredClaimsAreKnown(t);
    }
    ActiveValid(cx, active);
    AdmissionIsSafeAndMaximal(cx, active, ordered, r.concurrency, Deferrals(r.ready, duplicates, r.settled));
    assert active + [] == active;
  }

  /** After the gate the admitted set still may run. */
  lemma RoundAdmission(resolve: Resolver, r: Request)
    requires Scheduled(resolve, r).Ok?
    ensures Prepare(r).Ok?
    ensures var admitted := Admitted(resolve, r, ActiveTasks(r)).admitted;
            && MayRun(ContextOf(resolve, r), ActiveTasks(r), admitted, r.concurrency)
            && forall t :: t in admitted ==> t in Runnable(r.ready, DuplicateIds(ActiveTasks(r), r.ready), r.settled)
  {
    var active := ActiveTasks(r);
    RoundProposal(resolve, r);
    PreparedTasksAreDeclared(r);
    ActiveValid(ContextOf(resolve, r), active);
    assert active + [] == active;
  }

  /** Whole-set safety: in active plus newly admitted work, no two tasks are
      connected in the round's dependency graph, share an item or file that one
      of them writes, and every resource carries readers only, one writer, or
      counted claims within its capacity. */
  lemma WholeSetSafety(resolve: Resolver, r: Request)
    requires Scheduled(resolve, r).Ok?
    ensures Prepare(r).Ok?
    ensures var members := Members(resolve, r);
            && DistinctIds(members)
            && Feasible(ClaimsOf(members), r.capacities)
            && (forall a, b :: a in members && b in members && a.taskId != b.taskId ==>
                  Apart(ContextOf(resolve, r), a, b))
    ensures forall t :: t in ActiveTasks(r) ==> t in Members(resolve, r)
    ensures |Members(resolve, r)| > |ActiveTasks(r)| ==> |Members(resolve, r)| <= r.concurrency
  {
    AdmittedMembers(resolve, r);
    RoundAdmission(resolve, r);
    var cx := ContextOf(resolve, r);
    var unsorted := ActiveTasks(r) + Admitted(resolve, r, ActiveTasks(r)).admitted;
    var members := Members(resolve, r);
    MultisetMembers(unsorted, members);
    DistinctSurvivesReordering(unsorted, members);
    ClaimsForgetOrder(unsorted, members);
    FeasibleForgetsOrder(ClaimsOf(unsorted), ClaimsOf(members), r.capacities);
    forall a, b | a in members && b in members && a.taskId != b.taskId ensures Apart(cx, a, b) {
      assert Compatible(cx, a, b);
      FilesConflictIsExact(resolve, a, b);
    }
  }

  lemma BlockedForgetsOrder(cx: Context, t: BoardTask, a: seq<BoardTask>, b: seq<BoardTask>, concurrency: int)
    requires multiset(a) == multiset(b) && Blocked(cx, t, a, concurrency)
    ensures Blocked(cx, t, b, concurrency)
  {
    MultisetMembers(a, b);
    ClaimsForgetOrder(a, b);
    FeasibleForgetsOrder(ClaimsOf(a) + t.resources, ClaimsOf(b) + t.resources, cx.capacities);
  }

  lemma {:induction false} AllDeferredShows(tasks: seq<BoardTask>, reasons: map<string, Reason>)
    requires |tasks| > 0
    ensures GateDeferred in AllDeferred(tasks, reasons).Values
  {
    var all := AllDeferred(tasks, reasons);
    assert all[tasks[|tasks| - 1].taskId] == GateDeferred;
  }

  /** Greedy maximality: unless the gate deferred the round, every runnable task
      left waiting is blocked by the set that runs. A logical-only round has no
      gate. */
  lemma GreedyMaximality(resolve: Resolver, r: Request, t: BoardTask)
    requires Scheduled(resolve, r).Ok?
    requires r.logicalOnly || GateDeferred !in Scheduled(resolve, r).value.reasons.Values
    requires t in Runnable(r.ready, DuplicateIds(ActiveTasks(r), r.ready), r.settled)
    requires t.taskId !in Scheduled(resolve, r).value.runNow
    ensures Blocked(ContextOf(resolve, r), t, Members(resolve, r), r.concurrency)
  {
    AdmittedMembers(resolve, r);
    RoundProposal(resolve, r);
    UndeferredIsProposed(resolve, r);
    var admitted := Admitted(resolve, r, ActiveTasks(r)).admitted;
    assert forall i :: 0 <= i < |admitted| ==> IdsOf(admitted)[i] == admitted[i].taskId;
    assert t !in admitted;
    BlockedForgetsOrder(ContextOf(resolve, r), t, ActiveTasks(r) + admitted, Members(resolve, r), r.concurrency);
  }

  lemma UndeferredIsProposed(resolve: Resolver, r: Request)
    requires Scheduled(resolve, r).Ok?
    requires r.logicalOnly || GateDeferred !in Scheduled(resolve, r).value.reasons.Values
    ensures Admitted(resolve, r, ActiveTasks(r)) == Proposed(resolve, r, ActiveTasks(r))
  {
    var proposed := Proposed(resolve, r, ActiveTasks(r));
    if |proposed.admitted| > 0 {
      AllDeferredShows(proposed.admitted, proposed.reasons);
    }
  }
}
