/** Exactly when a round can run two tasks that declare a dependency on each
    other: the index must lose the path, and the two must otherwise fit. */
module SchedulerHidden {
  import opened Collections
  import opened BoardTypes
  import opened Ordering
  import opened FileScopes
  import opened Dependencies
  import opened ResourceLocks
  import opened BoardRouter
  import opened BoardScheduler
  import opened SchedulerSafety
  import opened SchedulerRounds
  import opened SchedulerOrder
  import opened SchedulerDeclared

  // ---------------------------------------------------------------------------
  // Tasks up to their priority
  // ---------------------------------------------------------------------------

  function Plain(t: BoardTask): BoardTask
  {
    t.(priority := 0)
  }

  function PlainAll(tasks: seq<BoardTask>): seq<BoardTask>
  {
    seq(|tasks|, i requires 0 <= i < |tasks| => Plain(tasks[i]))
  }

  lemma PlainFront(tasks: seq<BoardTask>)
    requires |tasks| > 0
    ensures PlainAll(tasks)[..|tasks| - 1] == PlainAll(tasks[..|tasks| - 1])
  {
  }

  lemma PlainConcat(a: seq<BoardTask>, b: seq<BoardTask>)
    ensures PlainAll(a + b) == PlainAll(a) + PlainAll(b)
    ensures PlainAll(PlainAll(a)) == PlainAll(a)
  {
  }

  lemma PlainMember(tasks: seq<BoardTask>, t: BoardTask)
    ensures t in tasks ==> Plain(t) in PlainAll(tasks)
    ensures t in PlainAll(tasks) ==> exists u :: u in tasks && Plain(u) == t
  {
    if t in tasks {
      var i :| 0 <= i < |tasks| && tasks[i] == t;
      assert PlainAll(tasks)[i] == Plain(t);
    }
    if t in PlainAll(tasks) {
      var i :| 0 <= i < |tasks| && PlainAll(tasks)[i] == t;
      assert tasks[i] in tasks;
    }
  }

  /** Priorities matter neither to the index nor to the declared graph. */
  lemma {:induction false} SameIndex(a: seq<BoardTask>, b: seq<BoardTask>)
    requires PlainAll(a) == PlainAll(b)
    ensures IndexOf(a) == IndexOf(b)
  {
    assert |a| == |PlainAll(a)| == |b|;
    if |a| > 0 {
      PlainFront(a);
      PlainFront(b);
      SameIndex(a[..|a| - 1], b[..|b| - 1]);
      assert Plain(a[|a| - 1]) == PlainAll(a)[|a| - 1] == Plain(b[|b| - 1]);
      assert DependencyIds(a[|a| - 1]) == DependencyIds(b[|b| - 1]);
    }
  }

  lemma SameEdges(a: seq<BoardTask>, b: seq<BoardTask>, id: string)
    requires PlainAll(a) == PlainAll(b)
    ensures DeclaredBy(a, id) <= DeclaredBy(b, id)
    ensures HasId(a, id) ==> HasId(b, id)
  {
    forall d | d in DeclaredBy(a, id) ensures d in DeclaredBy(b, id) {
      var t, e :| t in a && t.taskId == id && e in t.dependsOn && e.taskId == d;
      PlainMember(a, t);
      PlainMember(b, Plain(t));
      var u :| u in b && Plain(u) == Plain(t);
      assert e in u.dependsOn;
    }
    if t :| t in a && t.taskId == id {
      PlainMember(a, t);
      PlainMember(b, Plain(t));
    }
  }

  lemma SameDeclared(a: seq<BoardTask>, b: seq<BoardTask>)
    requires PlainAll(a) == PlainAll(b)
    ensures Declared(a) == Declared(b)
  {
    forall id ensures DeclaredBy(a, id) == DeclaredBy(b, id) && (HasId(a, id) <==> HasId(b, id)) {
      SameEdges(a, b, id);
      SameEdges(b, a, id);
    }
    assert forall id :: id in Declared(a) <==> HasId(a, id);
    assert forall id :: id in Declared(b) <==> HasId(b, id);
  }

  lemma {:induction false} SameDuplicates(active: seq<BoardTask>, a: seq<BoardTask>, b: seq<BoardTask>)
    requires PlainAll(a) == PlainAll(b)
    ensures DuplicateIds(active, a) == DuplicateIds(active, b)
  {
    assert |a| == |PlainAll(a)| == |b|;
    if |a| > 0 {
      var n := |a| - 1;
      PlainFront(a);
      PlainFront(b);
      SameDuplicates(active, a[..n], b[..n]);
      assert Plain(a[n]) == PlainAll(a)[n] == Plain(b[n]);
      SameEdges(a[..n], b[..n], a[n].taskId);
      SameEdges(b[..n], a[..n], a[n].taskId);
      assert (exists t :: t in active + a[..n] && t.taskId == a[n].taskId) <==>
        HasId(active, a[n].taskId) || HasId(a[..n], a[n].taskId);
      assert (exists t :: t in active + b[..n] && t.taskId == a[n].taskId) <==>
        HasId(active, a[n].taskId) || HasId(b[..n], a[n].taskId);
    }
  }

  lemma SameConflict(cx: Context, a: BoardTask, b: BoardTask, a': BoardTask, b': BoardTask)
    requires Plain(a) == Plain(a') && Plain(b) == Plain(b')
    ensures Compatible(cx, a, b) <==> Compatible(cx, a', b')
    ensures IsAmbiguous(a) <==> IsAmbiguous(a')
  {
    assert ScopesOf(a) == ScopesOf(a') && ScopesOf(b) == ScopesOf(b');
    assert a.resources == a'.resources && b.resources == b'.resources;
    assert a.worktreeRoot == a'.worktreeRoot && b.worktreeRoot == b'.worktreeRoot;
  }

  lemma {:induction false} SameClaims(a: seq<BoardTask>, b: seq<BoardTask>)
    requires PlainAll(a) == PlainAll(b)
    ensures ClaimsOf(a) == ClaimsOf(b)
  {
    assert |a| == |PlainAll(a)| == |b|;
    if |a| > 0 {
      assert Plain(a[0]) == PlainAll(a)[0] == Plain(b[0]);
      assert PlainAll(a[1..]) == PlainAll(a)[1..] && PlainAll(b[1..]) == PlainAll(b)[1..];
      SameClaims(a[1..], b[1..]);
    }
  }

  lemma SameMutual(cx: Context, a: seq<BoardTask>, b: seq<BoardTask>)
    requires PlainAll(a) == PlainAll(b) && MutuallyCompatible(cx, a)
    ensures MutuallyCompatible(cx, b)
  {
    assert |a| == |PlainAll(a)| == |b|;
    forall i | 0 <= i < |a| ensures Plain(a[i]) == Plain(b[i]) {
      assert PlainAll(a)[i] == PlainAll(b)[i];
    }
    forall x, y | x in b && y in b && x.taskId != y.taskId ensures Compatible(cx, x, y) {
      var i :| 0 <= i < |b| && b[i] == x;
      var j :| 0 <= j < |b| && b[j] == y;
      assert a[i] in a && a[j] in a;
      SameConflict(cx, a[i], a[j], x, y);
    }
  }

  // ---------------------------------------------------------------------------
  // Parts of a set that may run
  // ---------------------------------------------------------------------------

  lemma PartMayRun(cx: Context, active: seq<BoardTask>, admitted: seq<BoardTask>, part: seq<BoardTask>)
    requires KnownTasks(active + admitted) && MutuallyCompatible(cx, active + admitted)
    requires Feasible(ClaimsOf(active + admitted), cx.capacities)
    requires NoRepeats(part) && forall t :: t in part ==> t in admitted
    ensures MutuallyCompatible(cx, active + part) && Feasible(ClaimsOf(active + part), cx.capacities)
  {
    var rest := RestOf(part, admitted);
    var whole := active + part + rest;
    assert multiset(whole) == multiset(active + admitted) by {
      assert whole == active + (part + rest);
    }
    MultisetMembers(active + admitted, whole);
    DistinctSurvivesReordering(active + admitted, whole);
    ClaimsForgetOrder(active + admitted, whole);
    FeasibleForgetsOrder(ClaimsOf(active + admitted), ClaimsOf(whole), cx.capacities);
    PartIsFeasible(active + part, rest, cx.capacities);
    assert forall i :: 0 <= i < |active + part| ==> (active + part)[i] == whole[i];
    assert forall t :: t in active + part ==> t in whole;
  }

  lemma PartIsFeasible(part: seq<BoardTask>, rest: seq<BoardTask>, capacities: Capacities)
    requires KnownTasks(part + rest) && Feasible(ClaimsOf(part + rest), capacities)
    ensures Feasible(ClaimsOf(part), capacities)
  {
    ClaimsAppend(part, rest);
    assert forall t :: t in part || t in rest ==> t in part + rest;
    ClaimsKnown(part);
    ClaimsKnown(rest);
    FeasibleIsMonotone(ClaimsOf(part), ClaimsOf(rest), capacities);
  }

  // ---------------------------------------------------------------------------
  // The condition
  // ---------------------------------------------------------------------------

  /** One settlement can satisfy every edge of these tasks. */
  predicate EdgesAgree(tasks: seq<BoardTask>)
  {
    forall t, u, e, f :: t in tasks && u in tasks && e in t.dependsOn && f in u.dependsOn && e.taskId == f.taskId ==> e == f
  }

  /** At most two ready tasks that may join the active set together: named once,
      declared, with agreeing edges, and passing every check of the round. A
      caller tests this before the call: the candidates are the ready tasks whose
      id occurs nowhere else, each alone and in pairs, against the one index of
      active and ready tasks. */
  ghost predicate MayJoin(cx: Context, active: seq<BoardTask>, ready: seq<BoardTask>, joining: seq<BoardTask>)
  {
    && |joining| <= 2 && EdgesAgree(joining)
    && (forall t :: t in joining ==> t in ready && t.taskId !in DuplicateIds(active, ready) && !IsAmbiguous(t))
    && MutuallyCompatible(cx, active + joining) && Feasible(ClaimsOf(active + joining), cx.capacities)
  }

  /** Tasks that may join hide a dependency: a declared path joins two members
      although the index shows none. */
  ghost predicate HiddenDependency(resolve: Resolver, r: Request)
    requires Prepare(r).Ok?
  {
    exists joining :: HiddenBy(resolve, r, joining)
  }

  ghost predicate HiddenBy(resolve: Resolver, r: Request, joining: seq<BoardTask>)
    requires Prepare(r).Ok?
  {
    var active, ready := ActiveTasks(r), PlainAll(r.ready);
    && MayJoin(Context(resolve, IndexOf(active + ready), r.capacities), active, ready, joining)
    && !DeclaredApart(active + ready, active + joining)
  }

  /** The same tasks, snapshot, releases and capacities; other priorities,
      concurrency, settlements and gating. */
  ghost predicate Varies(r: Request, r': Request)
  {
    && r' == r.(ready := r'.ready, concurrency := r'.concurrency, settled := r'.settled, gate := r'.gate,
                logicalOnly := r'.logicalOnly)
    && PlainAll(r'.ready) == PlainAll(r.ready)
  }

  ghost predicate RunsApart(resolve: Resolver, r: Request)
  {
    Scheduled(resolve, r).Ok? ==> DeclaredApart(ActiveTasks(r) + r.ready, Members(resolve, r))
  }

  lemma VariantParts(resolve: Resolver, r: Request, r': Request)
    requires Prepare(r).Ok? && Prepare(r').Ok? && Varies(r, r')
    ensures ActiveTasks(r') == ActiveTasks(r)
    ensures var active, ready := ActiveTasks(r), PlainAll(r.ready);
            && ContextOf(resolve, r') == Context(resolve, IndexOf(active + ready), r.capacities)
            && Declared(active + r'.ready) == Declared(active + ready)
            && DuplicateIds(active, r'.ready) == DuplicateIds(active, ready)
  {
    var active, ready := ActiveTasks(r), PlainAll(r.ready);
    assert StillActive(r') == StillActive(r);
    PlainConcat(active, r'.ready);
    PlainConcat(active, ready);
    PlainConcat(r.ready, []);
    SameIndex(active + r'.ready, active + ready);
    SameDeclared(active + r'.ready, active + ready);
    SameDuplicates(active, r'.ready, ready);
  }

  // ---------------------------------------------------------------------------
  // A round that runs dependent tasks shows a hidden dependency
  // ---------------------------------------------------------------------------

  lemma {:induction false} RunnableFacts(ready: seq<BoardTask>, duplicates: set<string>, settled: map<string, (int, string)>)
    ensures forall t :: t in Runnable(ready, duplicates, settled) ==> t in ready && Deferral(t, duplicates, settled).None?
  {
    if |ready| == 0 {
    } else {
      RunnableFacts(ready[..|ready| - 1], duplicates, settled);
    }
  }

  lemma {:induction false} MetEdges(edges: seq<DepEdge>, settled: map<string, (int, string)>)
    ensures FirstUnmet(edges, settled).None? <==>
            forall e :: e in edges ==> e.taskId in settled && settled[e.taskId] == (e.generation, e.artifactSha256)
  {
    if |edges| == 0 {
    } else {
      MetEdges(edges[1..], settled);
      assert edges == [edges[0]] + edges[1..];
    }
  }

  lemma RunnableEdgesAgree(tasks: seq<BoardTask>, duplicates: set<string>, settled: map<string, (int, string)>)
    requires forall t :: t in tasks ==> Deferral(t, duplicates, settled).None?
    ensures EdgesAgree(tasks)
  {
    forall t | t in tasks
      ensures forall e :: e in t.dependsOn ==> e.taskId in settled && settled[e.taskId] == (e.generation, e.artifactSha256)
    {
      MetEdges(t.dependsOn, settled);
    }
  }

  function JoiningOf(active: seq<BoardTask>, a: BoardTask, b: BoardTask): (part: seq<BoardTask>)
    ensures |part| <= 2
    ensures forall t :: t in part <==> t !in active && (t == a || t == b)
  {
    (if a in active then [] else [a]) + (if b in active || b == a then [] else [b])
  }

  lemma RoundShowsHidden(resolve: Resolver, r: Request, r': Request)
    requires Prepare(r).Ok? && Varies(r, r') && !RunsApart(resolve, r')
    ensures HiddenDependency(resolve, r)
  {
    var active, ready := ActiveTasks(r), PlainAll(r.ready);
    VariantParts(resolve, r, r');
    var a, b :| a in Members(resolve, r') && b in Members(resolve, r') && a.taskId != b.taskId
                && Reaches(Declared(active + r'.ready), a.taskId, b.taskId);
    var part := JoiningOf(active, a, b);
    var admitted := VariantAdmits(resolve, r, r');
    MembersMayJoin(resolve, r, r', admitted, a, b);
    PlainExposes(active + ready, active, part, a, b);
    assert HiddenBy(resolve, r, PlainAll(part));
  }

  /** What a varied round admits, in terms of the given one. */
  lemma VariantAdmits(resolve: Resolver, r: Request, r': Request) returns (admitted: seq<BoardTask>)
    requires Prepare(r).Ok? && Varies(r, r') && Scheduled(resolve, r').Ok? && Prepare(r').Ok?
    ensures MayRun(ContextOf(resolve, r'), ActiveTasks(r), admitted, r'.concurrency)
    ensures forall t :: t in Members(resolve, r') ==> t in ActiveTasks(r) + admitted
    ensures forall t :: t in admitted ==>
              t in Runnable(r'.ready, DuplicateIds(ActiveTasks(r), r'.ready), r'.settled)
  {
    VariantParts(resolve, r, r');
    AdmittedMembers(resolve, r');
    RoundAdmission(resolve, r');
    admitted := Admitted(resolve, r', ActiveTasks(r)).admitted;
    MultisetMembers(Members(resolve, r'), ActiveTasks(r) + admitted);
  }

  lemma MembersMayJoin(
    resolve: Resolver, r: Request, r': Request, admitted: seq<BoardTask>, a: BoardTask, b: BoardTask)
    requires Prepare(r).Ok? && Varies(r, r') && Prepare(r').Ok?
    requires MayRun(ContextOf(resolve, r'), ActiveTasks(r), admitted, r'.concurrency)
    requires forall t :: t in admitted ==>
               t in Runnable(r'.ready, DuplicateIds(ActiveTasks(r), r'.ready), r'.settled)
    requires a in ActiveTasks(r) + admitted && b in ActiveTasks(r) + admitted
    ensures var active, ready := ActiveTasks(r), PlainAll(r.ready);
            MayJoin(Context(resolve, IndexOf(active + ready), r.capacities), active, ready, PlainAll(JoiningOf(active, a, b)))
  {
    var active := ActiveTasks(r);
    var part := JoiningOf(active, a, b);
    VariantParts(resolve, r, r');
    PartMayRun(ContextOf(resolve, r'), active, admitted, part);
    PartMayJoin(resolve, r, r', part);
  }

  lemma PlainExposes(tasks: seq<BoardTask>, active: seq<BoardTask>, part: seq<BoardTask>, a: BoardTask, b: BoardTask)
    requires a.taskId != b.taskId && Reaches(Declared(tasks), a.taskId, b.taskId)
    requires part == JoiningOf(active, a, b)
    ensures !DeclaredApart(tasks, active + PlainAll(part))
  {
    var x, y := if a in active then a else Plain(a), if b in active then b else Plain(b);
    PlainMember(part, a);
    PlainMember(part, b);
    assert x in active + PlainAll(part) && y in active + PlainAll(part);
  }

  lemma PartMayJoin(resolve: Resolver, r: Request, r': Request, part: seq<BoardTask>)
    requires Prepare(r).Ok? && Prepare(r').Ok? && Varies(r, r') && |part| <= 2
    requires forall t :: t in part ==> t in Runnable(r'.ready, DuplicateIds(ActiveTasks(r), r'.ready), r'.settled)
    requires var cx := ContextOf(resolve, r');
             MutuallyCompatible(cx, ActiveTasks(r) + part) && Feasible(ClaimsOf(ActiveTasks(r) + part), r.capacities)
    ensures var active, ready := ActiveTasks(r), PlainAll(r.ready);
            MayJoin(Context(resolve, IndexOf(active + ready), r.capacities), active, ready, PlainAll(part))
  {
    var active, ready := ActiveTasks(r), PlainAll(r.ready);
    var cx, joining := ContextOf(resolve, r'), PlainAll(part);
    var duplicates := DuplicateIds(active, r'.ready);
    VariantParts(resolve, r, r');
    RunnableFacts(r'.ready, duplicates, r'.settled);
    RunnableEdgesAgree(part, duplicates, r'.settled);
    PlainEdgesAgree(part);
    PlainConcat(active, part);
    PlainConcat(active, joining);
    PlainConcat(part, []);
    SameMutual(cx, active + part, active + joining);
    SameClaims(active + part, active + joining);
    forall t | t in joining ensures t in ready && t.taskId !in duplicates && !IsAmbiguous(t) {
      PlainMember(part, t);
      var u :| u in part && Plain(u) == t;
      PlainMember(r'.ready, u);
      SameConflict(cx, u, u, t, t);
    }
  }

  lemma PlainEdgesAgree(tasks: seq<BoardTask>)
    requires EdgesAgree(tasks)
    ensures EdgesAgree(PlainAll(tasks))
  {
    var plain := PlainAll(tasks);
    forall t | t in plain ensures exists u :: u in tasks && u.dependsOn == t.dependsOn {
      PlainMember(tasks, t);
      var u :| u in tasks && Plain(u) == t;
      assert u.dependsOn == t.dependsOn;
    }
  }

  // ---------------------------------------------------------------------------
  // A hidden dependency can run
  // ---------------------------------------------------------------------------

  /** The tasks that may join come first. */
  function Urged(ready: seq<BoardTask>, joining: seq<BoardTask>): seq<BoardTask>
  {
    seq(|ready|, i requires 0 <= i < |ready| => ready[i].(priority := if Plain(ready[i]) in joining then 0 else 1))
  }

  ghost predicate SettlesEdges(settled: map<string, (int, string)>, tasks: seq<BoardTask>)
  {
    forall t, e :: t in tasks && e in t.dependsOn ==>
      e.taskId in settled && settled[e.taskId] == (e.generation, e.artifactSha256)
  }

  function AllEdges(tasks: seq<BoardTask>): (r: seq<DepEdge>)
    ensures forall e :: e in r <==> exists t :: t in tasks && e in t.dependsOn
  {
    if |tasks| == 0 then [] else tasks[0].dependsOn + AllEdges(tasks[1..])
  }

  function Settlement(edges: seq<DepEdge>): map<string, (int, string)>
  {
    if |edges| == 0 then map[]
    else Settlement(edges[1..])[edges[0].taskId := (edges[0].generation, edges[0].artifactSha256)]
  }

  lemma {:induction false} SettlementMeets(edges: seq<DepEdge>, e: DepEdge)
    requires e in edges && forall f :: f in edges && f.taskId == e.taskId ==> f == e
    ensures e.taskId in Settlement(edges) && Settlement(edges)[e.taskId] == (e.generation, e.artifactSha256)
  {
    assert forall f :: f in edges[1..] ==> f in edges;
    if edges[0].taskId == e.taskId {
      assert edges[0] in edges;
    } else {
      SettlementMeets(edges[1..], e);
    }
  }

  lemma SettlementSettles(tasks: seq<BoardTask>)
    requires EdgesAgree(tasks)
    ensures SettlesEdges(Settlement(AllEdges(tasks)), tasks)
  {
    forall t, e | t in tasks && e in t.dependsOn
      ensures e.taskId in Settlement(AllEdges(tasks))
      ensures Settlement(AllEdges(tasks))[e.taskId] == (e.generation, e.artifactSha256)
    {
      SettlementMeets(AllEdges(tasks), e);
    }
  }

  /** How many tasks at the front are urgent. */
  function UrgentFront(tasks: seq<BoardTask>): (n: nat)
    ensures n <= |tasks|
    ensures forall i :: 0 <= i < n ==> tasks[i].priority == 0
    ensures n < |tasks| ==> tasks[n].priority != 0
  {
    if |tasks| == 0 || tasks[0].priority != 0 then 0 else 1 + UrgentFront(tasks[1..])
  }

  lemma UrgentComeFirst(tasks: seq<BoardTask>, t: BoardTask)
    requires SortedBy(tasks, PriorityLeq) && t in tasks && t.priority == 0
    requires forall u :: u in tasks ==> u.priority >= 0
    ensures t in tasks[..UrgentFront(tasks)]
  {
    var n := UrgentFront(tasks);
    var i :| 0 <= i < |tasks| && tasks[i] == t;
    assert n < |tasks| ==> tasks[n] in tasks;
    assert n < i ==> PriorityLeq(tasks[n], tasks[i]);
    assert tasks[..n][i] == t;
  }

  /** A leading part of the order that fits the active set is admitted whole. */
  lemma {:induction false} FrontIsAdmitted(
    cx: Context, active: seq<BoardTask>, runnable: seq<BoardTask>, n: nat, concurrency: int, reasons: map<string, Reason>)
    requires n <= |runnable| && |active| + n <= concurrency && KnownTasks(active + runnable[..n])
    requires MutuallyCompatible(cx, active + runnable[..n]) && Feasible(ClaimsOf(active + runnable[..n]), cx.capacities)
    ensures Admit(cx, active, runnable[..n], concurrency, reasons).admitted == runnable[..n]
  {
    if n == 0 {
    } else {
      var front, t := runnable[..n - 1], runnable[n - 1];
      var members := active + runnable[..n];
      assert runnable[..n] == front + [t] && runnable[..n][..n - 1] == front;
      assert members[..|active| + n - 1] == active + front && members == (active + front) + [t];
      CompatibleHasNoConflict(cx, members, |active| + n - 1);
      ClaimsLast(active + front, t);
      PartIsFeasible(active + front, [t], cx.capacities);
      FrontStaysCompatible(cx, members, active + front);
      FrontIsAdmitted(cx, active, runnable, n - 1, concurrency, reasons);
    }
  }

  lemma FrontStaysCompatible(cx: Context, members: seq<BoardTask>, front: seq<BoardTask>)
    requires MutuallyCompatible(cx, members) && front <= members && KnownTasks(members)
    ensures MutuallyCompatible(cx, front) && KnownTasks(front)
  {
    assert forall t :: t in front ==> t in members;
  }

  lemma {:induction false} AdmissionGrows(
    cx: Context, active: seq<BoardTask>, runnable: seq<BoardTask>, n: nat, concurrency: int, reasons: map<string, Reason>)
    requires n <= |runnable|
    ensures Admit(cx, active, runnable[..n], concurrency, reasons).admitted
            <= Admit(cx, active, runnable, concurrency, reasons).admitted
    decreases |runnable|
  {
    if n == |runnable| {
      assert runnable[..n] == runnable;
    } else {
      var front := runnable[..|runnable| - 1];
      assert front[..n] == runnable[..n];
      AdmissionGrows(cx, active, front, n, concurrency, reasons);
    }
  }

  /** Runnable tasks that come first and fit the active set together are admitted. */
  lemma UrgentAreAdmitted(
    cx: Context, active: seq<BoardTask>, runnable: seq<BoardTask>, concurrency: int, reasons: map<string, Reason>,
    joining: seq<BoardTask>)
    requires DistinctIds(runnable) && |active| + |runnable| <= concurrency
    requires KnownTasks(active + joining) && MutuallyCompatible(cx, active + joining)
    requires Feasible(ClaimsOf(active + joining), cx.capacities)
    requires forall t :: t in runnable ==> t.priority >= 0 && (t.priority == 0 ==> Plain(t) in joining)
    ensures forall t :: t in runnable && t.priority == 0 ==>
              t in Admit(cx, active, Sort(runnable, PriorityLeq), concurrency, reasons).admitted
  {
    var ordered := Sort(runnable, PriorityLeq);
    KeysAreOrders();
    SortIsSorted(runnable, PriorityLeq);
    MultisetMembers(runnable, ordered);
    DistinctSurvivesReordering(runnable, ordered);
    var n := UrgentFront(ordered);
    var front := ordered[..n];
    forall t | t in front ensures Plain(t) in joining {
      assert t in ordered;
    }
    UrgentMayRun(cx, active, front, joining);
    FrontIsAdmitted(cx, active, ordered, n, concurrency, reasons);
    AdmissionGrows(cx, active, ordered, n, concurrency, reasons);
    forall t | t in runnable && t.priority == 0
      ensures t in Admit(cx, active, ordered, concurrency, reasons).admitted
    {
      UrgentComeFirst(ordered, t);
    }
  }

  lemma UrgentMayRun(cx: Context, active: seq<BoardTask>, front: seq<BoardTask>, joining: seq<BoardTask>)
    requires DistinctIds(front) && forall t :: t in front ==> Plain(t) in joining
    requires KnownTasks(active + joining) && MutuallyCompatible(cx, active + joining)
    requires Feasible(ClaimsOf(active + joining), cx.capacities)
    ensures KnownTasks(active + front) && MutuallyCompatible(cx, active + front)
    ensures Feasible(ClaimsOf(active + front), cx.capacities)
  {
    var plain := PlainAll(front);
    forall t | t in plain ensures t in joining {
      PlainMember(front, t);
    }
    assert NoRepeats(plain) by {
      forall i, j | 0 <= i < j < |plain| ensures plain[i] != plain[j] {
        assert plain[i].taskId == front[i].taskId && plain[j].taskId == front[j].taskId;
      }
    }
    PartMayRun(cx, active, joining, plain);
    PlainConcat(active, front);
    PlainConcat(active, plain);
    PlainConcat(front, []);
    SameMutual(cx, active + plain, active + front);
    SameClaims(active + plain, active + front);
    forall t | t in active + front ensures KnownClaims(t.resources) {
      assert t !in active ==> Plain(t) in active + joining;
      assert t in active ==> t in active + joining;
    }
  }

  /** The round in which the joining tasks come first and nothing else stands in
      their way. */
  function UrgedRound(r: Request, joining: seq<BoardTask>, concurrency: int): Request
  {
    r.(ready := Urged(r.ready, joining), concurrency := concurrency, settled := Settlement(AllEdges(joining)),
       gate := NoGate, logicalOnly := true)
  }

  lemma UrgedIsPlain(ready: seq<BoardTask>, joining: seq<BoardTask>)
    ensures PlainAll(Urged(ready, joining)) == PlainAll(ready)
    ensures IdsNonEmpty(ready) ==> IdsNonEmpty(Urged(ready, joining))
  {
    var urged := Urged(ready, joining);
    forall i | 0 <= i < |urged| ensures Plain(urged[i]) == Plain(ready[i]) && ready[i] in ready {
    }
    forall t | t in urged ensures exists u :: u in ready && u.taskId == t.taskId {
      var i :| 0 <= i < |urged| && urged[i] == t;
      assert ready[i] in ready;
    }
  }

  lemma UrgedVaries(r: Request, joining: seq<BoardTask>, concurrency: int)
    requires Prepare(r).Ok? && concurrency > 0
    ensures var r' := UrgedRound(r, joining, concurrency); Varies(r, r') && Prepare(r').Ok?
  {
    var r' := UrgedRound(r, joining, concurrency);
    UrgedIsPlain(r.ready, joining);
    PreparedIdsNonEmpty(r);
    UngatedSnapshot(r, r');
    assert StillActive(r') == StillActive(r);
  }

  lemma UngatedSnapshot(r: Request, r': Request)
    requires SnapshotError(r).None? && r'.concurrency > 0 && r'.gate == NoGate
    requires r'.active == r.active && r'.releases == r.releases && r'.snapshot == r.snapshot
    ensures SnapshotError(r').None?
  {
  }

  lemma HiddenCanRun(resolve: Resolver, r: Request, joining: seq<BoardTask>) returns (r': Request)
    requires Prepare(r).Ok? && HiddenBy(resolve, r, joining)
    ensures Varies(r, r') && !RunsApart(resolve, r')
  {
    var active, ready := ActiveTasks(r), PlainAll(r.ready);
    r' := UrgedRound(r, joining, |active| + |r.ready| + 1);
    UrgedVaries(r, joining, |active| + |r.ready| + 1);
    VariantParts(resolve, r, r');
    JoiningRuns(resolve, r, r', joining);
    var a, b :| a in active + joining && b in active + joining && a.taskId != b.taskId
                && Reaches(Declared(active + ready), a.taskId, b.taskId);
    var x := if a in active then a else MemberFor(resolve, r', a);
    var y := if b in active then b else MemberFor(resolve, r', b);
    assert x in Members(resolve, r') && y in Members(resolve, r');
  }

  ghost predicate HasMember(resolve: Resolver, r: Request, t: BoardTask)
  {
    Scheduled(resolve, r).Ok? && exists m :: m in Members(resolve, r) && m.taskId == t.taskId
  }

  ghost function MemberFor(resolve: Resolver, r: Request, t: BoardTask): (m: BoardTask)
    requires HasMember(resolve, r, t)
    ensures m in Members(resolve, r) && m.taskId == t.taskId
  {
    var m :| m in Members(resolve, r) && m.taskId == t.taskId; m
  }

  lemma ActiveStaysValid(cx: Context, active: seq<BoardTask>, joining: seq<BoardTask>)
    requires NoneAmbiguous(active) && NoneAmbiguous(joining)
    requires MutuallyCompatible(cx, active + joining) && Feasible(ClaimsOf(active + joining), cx.capacities)
    ensures KnownTasks(active + joining) && ActiveError(cx, active, 0).None?
  {
    forall t | t in active + joining ensures KnownClaims(t.resources) {
      DeclaredClaimsAreKnown(t);
    }
    FrontStaysCompatible(cx, active + joining, active);
    PartIsFeasible(active, joining, cx.capacities);
    ActiveValid(cx, active);
  }

  lemma JoiningRuns(resolve: Resolver, r: Request, r': Request, joining: seq<BoardTask>)
    requires Prepare(r).Ok? && HiddenBy(resolve, r, joining)
    requires r' == UrgedRound(r, joining, |ActiveTasks(r)| + |r.ready| + 1) && Varies(r, r') && Prepare(r').Ok?
    ensures Scheduled(resolve, r').Ok?
    ensures forall t :: t in ActiveTasks(r) ==> t in Members(resolve, r')
    ensures forall t :: t in joining ==> HasMember(resolve, r', t)
  {
    VariantParts(resolve, r, r');
    PreparedTasksAreDeclared(r);
    ActiveStaysValid(ContextOf(resolve, r'), ActiveTasks(r), joining);
    assert Scheduled(resolve, r').Ok?;
    forall t | t in joining ensures HasMember(resolve, r', t) {
      var u := UrgedIsAdmitted(resolve, r, r', joining, t);
      AdmittedIsMember(resolve, r', u);
    }
    forall t | t in ActiveTasks(r) ensures t in Members(resolve, r') {
      AdmittedIsMember(resolve, r', t);
    }
  }

  lemma AdmittedIsMember(resolve: Resolver, r: Request, t: BoardTask)
    requires Scheduled(resolve, r).Ok? && Prepare(r).Ok?
    requires t in ActiveTasks(r) || t in Admitted(resolve, r, ActiveTasks(r)).admitted
    ensures t in Members(resolve, r)
  {
    AdmittedMembers(resolve, r);
    MultisetMembers(Members(resolve, r), ActiveTasks(r) + Admitted(resolve, r, ActiveTasks(r)).admitted);
  }

  lemma UrgedIsAdmitted(resolve: Resolver, r: Request, r': Request, joining: seq<BoardTask>, t: BoardTask)
    returns (u: BoardTask)
    requires Prepare(r).Ok? && HiddenBy(resolve, r, joining) && t in joining
    requires r' == UrgedRound(r, joining, |ActiveTasks(r)| + |r.ready| + 1) && Varies(r, r') && Prepare(r').Ok?
    requires KnownTasks(ActiveTasks(r) + joining)
    ensures u in Admitted(resolve, r', ActiveTasks(r)).admitted && u.taskId == t.taskId
  {
    var active := ActiveTasks(r);
    var duplicates := DuplicateIds(active, r'.ready);
    var runnable := Runnable(r'.ready, duplicates, r'.settled);
    VariantParts(resolve, r, r');
    u := UrgedIsRunnable(active, r.ready, r'.ready, joining, duplicates, t);
    UrgedPriorities(r.ready, joining, duplicates, r'.settled);
    RepeatsAreCaught(active, r'.ready);
    RunnableIsDistinct(r'.ready, duplicates, r'.settled);
    RunnableIsShorter(r'.ready, duplicates, r'.settled);
    UrgentAreAdmitted(
      ContextOf(resolve, r'), active, runnable, r'.concurrency, Deferrals(r'.ready, duplicates, r'.settled), joining);
  }

  lemma {:induction false} RunnableIsShorter(
    ready: seq<BoardTask>, duplicates: set<string>, settled: map<string, (int, string)>)
    ensures |Runnable(ready, duplicates, settled)| <= |ready|
  {
    if |ready| == 0 {
    } else {
      RunnableIsShorter(ready[..|ready| - 1], duplicates, settled);
    }
  }

  /** Among the urged tasks exactly those that may join are urgent. */
  lemma UrgedPriorities(
    ready: seq<BoardTask>, joining: seq<BoardTask>, duplicates: set<string>, settled: map<string, (int, string)>)
    ensures forall t :: t in Runnable(Urged(ready, joining), duplicates, settled) ==>
              t.priority >= 0 && (t.priority == 0 ==> Plain(t) in joining)
  {
    var urged := Urged(ready, joining);
    RunnableFacts(urged, duplicates, settled);
    forall t | t in urged ensures t.priority >= 0 && (t.priority == 0 ==> Plain(t) in joining) {
      var i :| 0 <= i < |urged| && urged[i] == t;
      assert Plain(t) == Plain(ready[i]);
    }
  }

  lemma UrgedIsRunnable(
    active: seq<BoardTask>, ready: seq<BoardTask>, urged: seq<BoardTask>, joining: seq<BoardTask>, duplicates: set<string>,
    t: BoardTask) returns (u: BoardTask)
    requires urged == Urged(ready, joining) && t in joining && t in PlainAll(ready) && t.taskId !in duplicates
    requires !IsAmbiguous(t) && EdgesAgree(joining) && duplicates == DuplicateIds(active, urged)
    ensures u in Runnable(urged, duplicates, Settlement(AllEdges(joining)))
    ensures u.priority == 0 && u.taskId == t.taskId
  {
    var settled := Settlement(AllEdges(joining));
    var i :| 0 <= i < |ready| && PlainAll(ready)[i] == t;
    u := urged[i];
    assert Plain(ready[i]) == t && u.priority == 0;
    SettlementSettles(joining);
    MetEdges(u.dependsOn, settled);
    assert t.dependsOn == u.dependsOn;
    RepeatsAreCaught(active, urged);
    RunnableIsDistinct(urged, duplicates, settled);
    assert IsAmbiguous(u) == IsAmbiguous(t) by {
      assert u.writePaths == t.writePaths && u.readPaths == t.readPaths && u.resources == t.resources;
      assert u.worktreeRoot == t.worktreeRoot && u.metadataComplete == t.metadataComplete;
    }
    assert u in urged;
  }

  // ---------------------------------------------------------------------------
  // The exact condition
  // ---------------------------------------------------------------------------

  /** With the tasks, the snapshot and the capacities given, no choice of
      priorities, concurrency, settlements and gate runs two tasks that a declared
      path joins, if and only if no tasks that may join hide a dependency. */
  lemma RunsApartIffNothingHidden(resolve: Resolver, r: Request)
    requires Prepare(r).Ok?
    ensures (forall r' :: Varies(r, r') ==> RunsApart(resolve, r')) <==> !HiddenDependency(resolve, r)
  {
    if joining :| HiddenBy(resolve, r, joining) {
      var r' := HiddenCanRun(resolve, r, joining);
    } else {
      forall r' | Varies(r, r') ensures RunsApart(resolve, r') {
        if !RunsApart(resolve, r') {
          RoundShowsHidden(resolve, r, r');
        }
      }
    }
  }
}
