/** What the fields of a scheduling round say about its request: who may run, why
    the others wait, and what a request must look like. */
module SchedulerMeaning {
  import opened Whitespace
  import opened Values
  import opened BoardTypes
  import opened Ordering
  import opened FileScopes
  import opened Dependencies
  import opened ResourceLocks
  import opened ResourceMeaning
  import opened BoardRouter
  import opened BoardScheduler
  import opened SchedulerSafety
  import opened SchedulerRounds
  import opened SchedulerOrder
  import opened SchedulerHidden

  // ---------------------------------------------------------------------------
  // Tasks
  // ---------------------------------------------------------------------------

  predicate Trimmed(s: string)
  {
    s != "" ==> !IsSpace(s[0]) && !IsSpace(s[|s| - 1])
  }

  predicate Located(path: string, worktreeRoot: string)
  {
    path != "" && '\0' !in path && (path[0] == '/' || worktreeRoot != "")
  }

  predicate SoundClaim(c: ResourceClaim)
  {
    c.resourceClass in KNOWN_RESOURCE_CLASSES && Trimmed(c.target) && c.mode in {Read, Write, Count} && c.units > 0
  }

  /** Everything the scheduler needs to know about a task is there. */
  ghost predicate CompleteMetadata(t: BoardTask)
  {
    && t.taskId != "" && t.metadataComplete
    && '\0' !in t.worktreeRoot && (t.worktreeRoot != "" ==> t.worktreeRoot[0] == '/')
    && (forall p :: p in t.writePaths || p in t.readPaths ==> Located(p, t.worktreeRoot))
    && (forall c :: c in t.resources ==> SoundClaim(c))
  }

  lemma CompleteIff(t: BoardTask)
    ensures CompleteMetadata(t) <==> !IsAmbiguous(t)
  {
    assert forall p :: p in t.writePaths + t.readPaths <==> p in t.writePaths || p in t.readPaths;
    assert forall c :: c in t.resources ==> (SoundClaim(c) <==> ClaimDeclared(c));
    assert forall p :: Located(p, t.worktreeRoot) <==> PathDeclared(p, t.worktreeRoot);
  }

  predicate DependsOn(a: BoardTask, b: BoardTask)
  {
    exists e :: e in a.dependsOn && e.taskId == b.taskId
  }

  /** The tasks are tied by a declared edge or by a path of the round's index. */
  ghost predicate Tied(adjacency: Adjacency, a: BoardTask, b: BoardTask)
  {
    || DependsOn(a, b) || DependsOn(b, a)
    || Reaches(adjacency, a.taskId, b.taskId) || Reaches(adjacency, b.taskId, a.taskId)
  }

  /** One task writes what the other reads or writes: the paths name one file, or
      something lies under both. */
  ghost predicate SharesFile(resolve: Resolver, a: BoardTask, b: BoardTask)
  {
    || PathsMeet(resolve, a, a.writePaths, b, b.writePaths)
    || PathsMeet(resolve, a, a.writePaths, b, b.readPaths)
    || PathsMeet(resolve, a, a.readPaths, b, b.writePaths)
  }

  ghost predicate PathsMeet(resolve: Resolver, a: BoardTask, ps: seq<string>, b: BoardTask, qs: seq<string>)
  {
    exists p, q :: p in ps && q in qs && Meet(resolve(p, a.worktreeRoot), resolve(q, b.worktreeRoot))
  }

  ghost predicate Meet(x: CanonicalPath, y: CanonicalPath)
  {
    (x.identity.Some? && x.identity == y.identity) || exists item :: Covers(x.key, item) && Covers(y.key, item)
  }

  /** Two claims on one resource do not go together, or their units exceed what is
      declared. */
  ghost predicate ClaimsClash(capacities: Capacities, a: BoardTask, b: BoardTask)
  {
    exists c, d :: c in a.resources && d in b.resources && Clash(capacities, c, d)
  }

  predicate Clash(capacities: Capacities, c: ResourceClaim, d: ResourceClaim)
  {
    && c.resourceClass == d.resourceClass && c.target == d.target
    && (GoTogether(c, d) ==>
          c.mode == Count && !WithinDeclared(capacities, c.resourceClass, c.target, c.units + d.units))
  }

  lemma MeetIff(x: CanonicalPath, y: CanonicalPath)
    ensures Meet(x, y) <==> PathsAlias(x, y)
  {
    AliasIffSharedItem(x.key, y.key);
  }

  lemma ScopesMean(t: BoardTask)
    ensures forall p :: p in t.writePaths <==> Scope(p, true) in ScopesOf(t)
    ensures forall p :: p in t.readPaths <==> Scope(p, false) in ScopesOf(t)
  {
    var n := |t.writePaths|;
    forall p | p in t.writePaths ensures Scope(p, true) in ScopesOf(t) {
      var i :| 0 <= i < n && t.writePaths[i] == p;
      assert ScopesOf(t)[i] == Scope(p, true);
    }
    forall p | p in t.readPaths ensures Scope(p, false) in ScopesOf(t) {
      var i :| 0 <= i < |t.readPaths| && t.readPaths[i] == p;
      assert ScopesOf(t)[n + i] == Scope(p, false);
    }
  }

  lemma MeetingConflicts(resolve: Resolver, a: BoardTask, s: Scope, b: BoardTask, q: Scope)
    requires s in ScopesOf(a) && q in ScopesOf(b) && (s.write || q.write)
    requires Meet(resolve(s.path, a.worktreeRoot), resolve(q.path, b.worktreeRoot))
    ensures FilesConflict(resolve, a, b)
  {
    MeetIff(resolve(s.path, a.worktreeRoot), resolve(q.path, b.worktreeRoot));
  }

  lemma SharingConflicts(resolve: Resolver, a: BoardTask, b: BoardTask)
    requires SharesFile(resolve, a, b)
    ensures FilesConflict(resolve, a, b)
  {
    ScopesMean(a);
    ScopesMean(b);
    if PathsMeet(resolve, a, a.writePaths, b, b.writePaths) {
      var p, q :| p in a.writePaths && q in b.writePaths && Meet(resolve(p, a.worktreeRoot), resolve(q, b.worktreeRoot));
      MeetingConflicts(resolve, a, Scope(p, true), b, Scope(q, true));
    } else if PathsMeet(resolve, a, a.writePaths, b, b.readPaths) {
      var p, q :| p in a.writePaths && q in b.readPaths && Meet(resolve(p, a.worktreeRoot), resolve(q, b.worktreeRoot));
      MeetingConflicts(resolve, a, Scope(p, true), b, Scope(q, false));
    } else {
      var p, q :| p in a.readPaths && q in b.writePaths && Meet(resolve(p, a.worktreeRoot), resolve(q, b.worktreeRoot));
      MeetingConflicts(resolve, a, Scope(p, false), b, Scope(q, true));
    }
  }

  lemma SharesFileIff(resolve: Resolver, a: BoardTask, b: BoardTask)
    ensures SharesFile(resolve, a, b) <==> FilesConflict(resolve, a, b)
  {
    if SharesFile(resolve, a, b) {
      SharingConflicts(resolve, a, b);
    }
    if FilesConflict(resolve, a, b) {
      var s, q :| s in ScopesOf(a) && q in ScopesOf(b) && (s.write || q.write)
                  && PathsAlias(resolve(s.path, a.worktreeRoot), resolve(q.path, b.worktreeRoot));
      ScopesMean(a);
      ScopesMean(b);
      MeetIff(resolve(s.path, a.worktreeRoot), resolve(q.path, b.worktreeRoot));
      assert s == Scope(s.path, s.write) && q == Scope(q.path, q.write);
    }
  }

  lemma ClaimsClashIff(capacities: Capacities, a: BoardTask, b: BoardTask)
    requires KnownClaims(a.resources) && KnownClaims(b.resources)
    ensures ClaimsClash(capacities, a, b) <==> ResourceConflictPairwise(a, b, capacities)
  {
    forall c, d | c in a.resources && d in b.resources
      ensures Clash(capacities, c, d) <==>
              KeyOf(c) == KeyOf(d) && !(c.mode.Read? && d.mode.Read?)
              && (c.mode.Count? && d.mode.Count? ==> c.units + d.units > CapacityOf(capacities, KeyOf(c)))
    {
    }
  }

  lemma TiedIff(adjacency: Adjacency, a: BoardTask, b: BoardTask)
    ensures Tied(adjacency, a, b) <==> DirectDependency(a, b) || Connected(adjacency, a.taskId, b.taskId)
  {
    assert DependsOn(a, b) <==> b.taskId in DependencyIds(a);
    assert DependsOn(b, a) <==> a.taskId in DependencyIds(b);
  }

  /** A recorded conflict with one member is a fact about the two. */
  ghost predicate ConflictHolds(cx: Context, t: BoardTask, m: BoardTask, reason: Reason)
  {
    match reason
    case DependencyWith(id) => m.taskId == id && Tied(cx.adjacency, t, m)
    case WriteScopeCollision(id) => m.taskId == id && SharesFile(cx.resolve, t, m)
    case SharedResourceConflict(id) => m.taskId == id && ClaimsClash(cx.capacities, t, m)
    case _ => false
  }

  ghost predicate Independent(cx: Context, a: BoardTask, b: BoardTask)
  {
    !Tied(cx.adjacency, a, b) && !SharesFile(cx.resolve, a, b) && !ClaimsClash(cx.capacities, a, b)
  }

  lemma ConflictMeans(cx: Context, t: BoardTask, m: BoardTask)
    requires t.taskId != m.taskId && CompleteMetadata(t) && CompleteMetadata(m)
    ensures match ConflictReason(cx, t, m)
            case None => Independent(cx, t, m)
            case Some(reason) => ConflictHolds(cx, t, m, reason)
  {
    CompleteIff(t);
    CompleteIff(m);
    DeclaredClaimsAreKnown(t);
    DeclaredClaimsAreKnown(m);
    TiedIff(cx.adjacency, t, m);
    SharesFileIff(cx.resolve, t, m);
    ClaimsClashIff(cx.capacities, t, m);
  }

  /** Two tasks of one id, or of which one lacks metadata, never go together. */
  lemma UnsoundPairConflicts(cx: Context, a: BoardTask, b: BoardTask)
    ensures a.taskId == b.taskId ==> ConflictReason(cx, a, b) == Some(DuplicateIdentity(a.taskId))
    ensures a.taskId != b.taskId && !(CompleteMetadata(a) && CompleteMetadata(b)) ==>
              ConflictReason(cx, a, b) == Some(AmbiguousPair)
  {
    CompleteIff(a);
    CompleteIff(b);
  }

  lemma {:induction false} FirstConflictMeans(cx: Context, t: BoardTask, members: seq<BoardTask>)
    requires CompleteMetadata(t) && forall m :: m in members ==> m.taskId != t.taskId && CompleteMetadata(m)
    ensures match FirstConflict(cx, t, members)
            case None => forall m :: m in members ==> Independent(cx, t, m)
            case Some(reason) => exists m :: m in members && ConflictHolds(cx, t, m, reason)
  {
    if |members| > 0 {
      ConflictMeans(cx, t, members[0]);
      assert forall m :: m in members <==> m == members[0] || m in members[1..];
      FirstConflictMeans(cx, t, members[1..]);
    }
  }

  // ---------------------------------------------------------------------------
  // Requests
  // ---------------------------------------------------------------------------

  predicate SoundCapacities(capacities: Capacities)
  {
    forall k :: k in capacities ==>
      && capacities[k] > 0 && k.resourceClass in KNOWN_RESOURCE_CLASSES
      && match k case ClassKey(_) => true case TargetKey(_, target) => Trimmed(target)
  }

  /** The reservation is in the snapshot and no event releases it. */
  ghost predicate StillHeld(r: Request, v: Reservation)
  {
    v in r.active && forall e :: e in r.releases ==> e.token != v.token
  }

  /** The snapshot and its releases. */
  ghost predicate SoundSnapshot(r: Request)
  {
    && r.concurrency > 0 && (r.logicalOnly ==> r.gate == NoGate)
    && (forall v :: v in r.active ==> v.taskId == v.task.taskId && v.token.preimage == v.task)
    && (r.active != [] ==> r.snapshot.Some?)
    && (r.snapshot.Some? ==> r.snapshot.value == SnapshotOf(Supplied(r)))
    && (forall e :: e in r.releases ==> e.outcome in {"settled", "cancelled"})
    && (forall i, j :: 0 <= i < j < |r.releases| ==> r.releases[i].token != r.releases[j].token)
    && (forall e :: e in r.releases ==> exists v :: v in r.active && v.token == e.token)
  }

  /** The tasks, ready or still held, and the capacities. */
  ghost predicate SoundTasks(r: Request)
  {
    && (forall t :: t in r.ready ==> t.taskId != "")
    && SoundCapacities(r.capacities)
    && (forall v :: StillHeld(r, v) ==> CompleteMetadata(v.task))
    && (forall i, j :: 0 <= i < j < |StillActive(r)| ==> StillActive(r)[i].taskId != StillActive(r)[j].taskId)
  }

  ghost predicate SoundRequest(r: Request)
  {
    SoundSnapshot(r) && SoundTasks(r)
  }

  lemma {:induction false} ReleasesMean(events: seq<Release>, i: nat)
    requires i <= |events|
    ensures ReleaseError(events, i).None? <==>
            && (forall k :: i <= k < |events| ==> events[k].outcome in {"settled", "cancelled"})
            && (forall j, k :: 0 <= j < k && i <= k < |events| ==> events[j].token != events[k].token)
    decreases |events| - i
  {
    if i < |events| {
      ReleasesMean(events, i + 1);
    }
  }

  lemma {:induction false} UnreleasedMeans(all: seq<Reservation>, events: seq<Release>, t: BoardTask)
    ensures t in Unreleased(all, events) <==>
            exists v :: v in all && v.task == t && forall e :: e in events ==> e.token != v.token
  {
    if |all| > 0 {
      UnreleasedMeans(all[1..], events, t);
      assert forall v :: v in all <==> v == all[0] || v in all[1..];
    }
  }

  lemma ActiveMeans(r: Request, t: BoardTask)
    ensures t in StillActive(r) <==> exists v :: StillHeld(r, v) && v.task == t
  {
    MultisetMembers(r.active, Supplied(r));
    UnreleasedMeans(Supplied(r), r.releases, t);
    if v :| v in Supplied(r) && v.task == t && forall e :: e in r.releases ==> e.token != v.token {
      assert StillHeld(r, v);
    }
  }

  lemma ActiveMeansAll(r: Request)
    ensures forall t :: t in StillActive(r) <==> exists v :: StillHeld(r, v) && v.task == t
  {
    forall t ensures t in StillActive(r) <==> exists v :: StillHeld(r, v) && v.task == t {
      ActiveMeans(r, t);
    }
  }

  /** What a round accepts: anything else raises before tasks are compared. */
  lemma PreparedIff(r: Request)
    ensures Prepare(r).Ok? <==> SoundRequest(r)
    ensures Prepare(r).Ok? ==> forall t :: t in ActiveTasks(r) <==> exists v :: StillHeld(r, v) && v.task == t
  {
    ActiveMeansAll(r);
    SnapshotMeans(r);
    TasksMean(r);
    if Prepare(r).Ok? {
      MultisetMembers(StillActive(r), ActiveTasks(r));
    }
  }

  lemma TasksMean(r: Request)
    ensures TaskError(StillActive(r), r.ready, r.capacities).None? <==> SoundTasks(r)
  {
    ActiveMeansAll(r);
    ActiveIsComplete(r);
    assert SoundCapacities(r.capacities) <==> CapacitiesValid(r.capacities);
    assert IdsNonEmpty(r.ready) <==> forall t :: t in r.ready ==> t.taskId != "";
  }

  lemma SnapshotMeans(r: Request)
    ensures SnapshotError(r).None? <==> SoundSnapshot(r)
  {
    ReleasesMean(r.releases, 0);
    assert forall v: Reservation :: v == ReservationFor(v.task) <==> v.taskId == v.task.taskId && v.token.preimage == v.task;
  }

  lemma ActiveIsComplete(r: Request)
    requires forall t :: t in StillActive(r) <==> exists v :: StillHeld(r, v) && v.task == t
    ensures (forall v :: StillHeld(r, v) ==> CompleteMetadata(v.task)) <==> NoneAmbiguous(StillActive(r))
    ensures NoneAmbiguous(StillActive(r)) ==> IdsNonEmpty(StillActive(r))
  {
    forall t ensures CompleteMetadata(t) <==> !IsAmbiguous(t) {
      CompleteIff(t);
    }
    forall v | StillHeld(r, v) ensures v.task in StillActive(r) {
    }
  }

  // ---------------------------------------------------------------------------
  // The round
  // ---------------------------------------------------------------------------

  /** Whole-set safety in fields: no two tasks of the set are tied or share a file,
      and every resource is shared fairly against its declared capacity. */
  lemma RoundIsSafe(resolve: Resolver, r: Request)
    requires Scheduled(resolve, r).Ok?
    ensures Prepare(r).Ok?
    ensures var members, cx := Members(resolve, r), ContextOf(resolve, r);
            && (forall t :: t in members ==> CompleteMetadata(t))
            && (forall a, b :: a in members && b in members && a.taskId != b.taskId ==> Independent(cx, a, b))
            && SharedFairly(ClaimsOf(members), r.capacities)
  {
    RoundLeavesSafeSet(resolve, r);
    var members, cx := Members(resolve, r), ContextOf(resolve, r);
    forall t ensures CompleteMetadata(t) <==> !IsAmbiguous(t) {
      CompleteIff(t);
    }
    forall a, b | a in members && b in members && a.taskId != b.taskId ensures Independent(cx, a, b) {
      ConflictMeans(cx, a, b);
      assert Compatible(cx, a, b);
    }
    ClaimsKnown(members);
    FeasibleMeans(ClaimsOf(members), r.capacities);
  }

  /** A round succeeds exactly when the request is sound and the active tasks still
      go together. */
  lemma SucceedsIff(resolve: Resolver, r: Request)
    ensures Scheduled(resolve, r).Ok? <==>
            && SoundRequest(r)
            && (Prepare(r).Ok? ==>
                  && (forall a, b :: a in ActiveTasks(r) && b in ActiveTasks(r) && a.taskId != b.taskId ==>
                        Independent(ContextOf(resolve, r), a, b))
                  && SharedFairly(ClaimsOf(ActiveTasks(r)), r.capacities))
  {
    PreparedIff(r);
    if Prepare(r).Ok? {
      var active, cx := ActiveTasks(r), ContextOf(resolve, r);
      PreparedTasksAreDeclared(r);
      PreparedIdsNonEmpty(r);
      MultisetMembers(StillActive(r), active);
      DistinctSurvivesReordering(StillActive(r), active);
      ActiveGoesTogether(cx, active);
    }
  }

  lemma ActiveGoesTogether(cx: Context, active: seq<BoardTask>)
    requires NoneAmbiguous(active) && DistinctIds(active) && AllPositive(cx.capacities)
    ensures ActiveError(cx, active, 0).None? <==>
            && (forall a, b :: a in active && b in active && a.taskId != b.taskId ==> Independent(cx, a, b))
            && SharedFairly(ClaimsOf(active), cx.capacities)
  {
    forall t | t in active ensures KnownClaims(t.resources) && CompleteMetadata(t) {
      CompleteIff(t);
      DeclaredClaimsAreKnown(t);
    }
    forall a, b | a in active && b in active && a.taskId != b.taskId ensures Independent(cx, a, b) <==> Compatible(cx, a, b) {
      ConflictMeans(cx, a, b);
    }
    ActiveValid(cx, active);
    ClaimsKnown(active);
    FeasibleMeans(ClaimsOf(active), cx.capacities);
  }

  /** The units that the members of a round hold of one resource stay within what
      is declared: for the target if anything is, else for the class, else one. */
  lemma RoundStaysWithinDeclared(resolve: Resolver, r: Request, resourceClass: string, target: string)
    requires Scheduled(resolve, r).Ok?
    ensures var units := UnitsHeld(Members(resolve, r), resourceClass, target);
            && (TargetKey(resourceClass, target) in r.capacities ==> units <= r.capacities[TargetKey(resourceClass, target)])
            && (TargetKey(resourceClass, target) !in r.capacities && ClassKey(resourceClass) in r.capacities ==>
                  units <= r.capacities[ClassKey(resourceClass)])
            && (TargetKey(resourceClass, target) !in r.capacities && ClassKey(resourceClass) !in r.capacities ==> units <= 1)
  {
    RoundIsSafe(resolve, r);
    UnitsAdd(Members(resolve, r), resourceClass, target);
  }

  /** The counted units of a resource over all tasks. */
  function UnitsHeld(tasks: seq<BoardTask>, resourceClass: string, target: string): int
  {
    if |tasks| == 0 then 0
    else CountedUnits(tasks[0].resources, resourceClass, target) + UnitsHeld(tasks[1..], resourceClass, target)
  }

  lemma {:induction false} CountedAppend(a: seq<ResourceClaim>, b: seq<ResourceClaim>, resourceClass: string, target: string)
    ensures CountedUnits(a + b, resourceClass, target)
            == CountedUnits(a, resourceClass, target) + CountedUnits(b, resourceClass, target)
  {
    if |a| == 0 {
      assert a + b == b;
    } else {
      assert (a + b)[1..] == a[1..] + b;
      CountedAppend(a[1..], b, resourceClass, target);
    }
  }

  lemma {:induction false} UnitsAdd(tasks: seq<BoardTask>, resourceClass: string, target: string)
    ensures CountedUnits(ClaimsOf(tasks), resourceClass, target) == UnitsHeld(tasks, resourceClass, target)
  {
    if |tasks| > 0 {
      CountedAppend(tasks[0].resources, ClaimsOf(tasks[1..]), resourceClass, target);
      UnitsAdd(tasks[1..], resourceClass, target);
    }
  }

  predicate Met(settled: map<string, (int, string)>, e: DepEdge)
  {
    e.taskId in settled && settled[e.taskId].0 == e.generation && settled[e.taskId].1 == e.artifactSha256
  }

  /** The id occurs once among the ready tasks and not among the active ones. */
  ghost predicate NamedOnce(active: seq<BoardTask>, ready: seq<BoardTask>, i: nat)
    requires i < |ready|
  {
    && (forall j :: 0 <= j < |ready| && j != i ==> ready[j].taskId != ready[i].taskId)
    && (forall t :: t in active ==> t.taskId != ready[i].taskId)
  }

  /** The ready task may be considered for a slot. */
  ghost predicate IsReady(active: seq<BoardTask>, r: Request, i: nat)
    requires i < |r.ready|
  {
    && NamedOnce(active, r.ready, i) && CompleteMetadata(r.ready[i])
    && forall e :: e in r.ready[i].dependsOn ==> Met(r.settled, e)
  }

  lemma OnceIffNoDuplicate(active: seq<BoardTask>, ready: seq<BoardTask>, i: nat)
    requires i < |ready|
    ensures NamedOnce(active, ready, i) <==> ready[i].taskId !in DuplicateIds(active, ready)
  {
    var id := ready[i].taskId;
    DuplicatesCount(active, ready, id);
    assert ready[i] in ready;
    if ready[i].taskId !in DuplicateIds(active, ready) {
      forall j | 0 <= j < |ready| && j != i ensures ready[j].taskId != id {
        if ready[j].taskId == id {
          TwiceInMultiset(IdsOf(ready), if i < j then i else j, if i < j then j else i);
        }
      }
    }
    if NamedOnce(active, ready, i) {
      assert IdsOf(ready) == IdsOf(ready)[..i] + [id] + IdsOf(ready)[i + 1..];
      assert id !in IdsOf(ready)[..i] && id !in IdsOf(ready)[i + 1..];
      assert multiset(IdsOf(ready))[id] == 1;
    }
  }

  lemma {:induction false} FirstUnmetMeans(edges: seq<DepEdge>, settled: map<string, (int, string)>)
    ensures match FirstUnmet(edges, settled)
            case None => forall e :: e in edges ==> Met(settled, e)
            case Some(edge) => exists k :: 0 <= k < |edges| && edges[k] == edge && !Met(settled, edge)
                                           && forall j :: 0 <= j < k ==> Met(settled, edges[j])
  {
    if |edges| > 0 {
      FirstUnmetMeans(edges[1..], settled);
      if Met(settled, edges[0]) {
        match FirstUnmet(edges[1..], settled)
        case None =>
        case Some(edge) =>
          var k :| 0 <= k < |edges[1..]| && edges[1..][k] == edge && !Met(settled, edge)
                   && forall j :: 0 <= j < k ==> Met(settled, edges[1..][j]);
          assert edges[k + 1] == edge;
          assert forall j :: 0 < j < k + 1 ==> edges[j] == edges[1..][j - 1];
      }
    }
  }

  /** Why a ready task is not considered, as a fact about the request. */
  ghost predicate DeferralHolds(active: seq<BoardTask>, r: Request, i: nat, reason: Reason)
    requires i < |r.ready|
  {
    match reason
    case DuplicateDeferred => !NamedOnce(active, r.ready, i)
    case AmbiguousDeferred => NamedOnce(active, r.ready, i) && !CompleteMetadata(r.ready[i])
    case UnmetDependency(id, generation) =>
      && NamedOnce(active, r.ready, i) && CompleteMetadata(r.ready[i])
      && exists k :: 0 <= k < |r.ready[i].dependsOn| && FirstUnmetAt(r, i, k)
                     && r.ready[i].dependsOn[k].taskId == id && r.ready[i].dependsOn[k].generation == generation
    case _ => false
  }

  ghost predicate FirstUnmetAt(r: Request, i: nat, k: nat)
    requires i < |r.ready| && k < |r.ready[i].dependsOn|
  {
    !Met(r.settled, r.ready[i].dependsOn[k]) && forall j :: 0 <= j < k ==> Met(r.settled, r.ready[i].dependsOn[j])
  }

  lemma DeferralMeans(active: seq<BoardTask>, r: Request, i: nat)
    requires i < |r.ready|
    ensures match Deferral(r.ready[i], DuplicateIds(active, r.ready), r.settled)
            case None => IsReady(active, r, i)
            case Some(reason) => DeferralHolds(active, r, i, reason)
  {
    OnceIffNoDuplicate(active, r.ready, i);
    CompleteIff(r.ready[i]);
    FirstUnmetMeans(r.ready[i].dependsOn, r.settled);
  }

  /** `a` comes before `b`: more urgent, or as urgent with an earlier id. */
  predicate Before(a: BoardTask, b: BoardTask)
  {
    a.priority < b.priority || (a.priority == b.priority && a.taskId != b.taskId && LexLeq(a.taskId, b.taskId))
  }

  /** One turn adds its task or none, and records no other reason. */
  lemma TurnAdds(cx: Context, active: seq<BoardTask>, all: Admission, last: BoardTask, concurrency: int)
    ensures var more := Consider(cx, active, all, last, concurrency);
            && (more.admitted == all.admitted || more.admitted == all.admitted + [last])
            && forall id :: id != last.taskId ==> (id in more.reasons <==> id in all.reasons)
                                                  && (id in all.reasons ==> more.reasons[id] == all.reasons[id])
  {
  }

  /** Later turns only add tasks from later in the order. */
  ghost predicate Extends(before: seq<BoardTask>, all: seq<BoardTask>, tail: seq<BoardTask>)
  {
    before <= all && forall i :: |before| <= i < |all| ==> all[i] in tail
  }

  lemma ExtendsOneMore(before: seq<BoardTask>, all: seq<BoardTask>, more: seq<BoardTask>, tail: seq<BoardTask>, last: BoardTask)
    requires Extends(before, all, tail) && (more == all || more == all + [last])
    ensures Extends(before, more, tail + [last])
  {
  }

  lemma {:induction false} AdmitExtends(
    cx: Context, active: seq<BoardTask>, before: seq<BoardTask>, tail: seq<BoardTask>, concurrency: int, reasons: map<string, Reason>)
    ensures Extends(Admit(cx, active, before, concurrency, reasons).admitted,
                    Admit(cx, active, before + tail, concurrency, reasons).admitted, tail)
    decreases |tail|
  {
    if |tail| == 0 {
      assert before + tail == before;
    } else {
      var n := |tail| - 1;
      var front, last := tail[..n], tail[n];
      AdmitExtends(cx, active, before, front, concurrency, reasons);
      SplitLast(before, tail);
      ExtendsByTurn(cx, active, before, front, last, concurrency, reasons);
    }
  }

  lemma SplitLast(before: seq<BoardTask>, tail: seq<BoardTask>)
    requires |tail| > 0
    ensures tail == tail[..|tail| - 1] + [tail[|tail| - 1]]
    ensures before + tail == before + tail[..|tail| - 1] + [tail[|tail| - 1]]
  {
  }

  lemma ExtendsByTurn(
    cx: Context, active: seq<BoardTask>, before: seq<BoardTask>, front: seq<BoardTask>, last: BoardTask, concurrency: int,
    reasons: map<string, Reason>)
    requires Extends(Admit(cx, active, before, concurrency, reasons).admitted,
                     Admit(cx, active, before + front, concurrency, reasons).admitted, front)
    ensures Extends(Admit(cx, active, before, concurrency, reasons).admitted,
                    Admit(cx, active, before + front + [last], concurrency, reasons).admitted, front + [last])
  {
    LastTurn(cx, active, before + front, last, concurrency, reasons);
    ExtendsOneMore(Admit(cx, active, before, concurrency, reasons).admitted,
                   Admit(cx, active, before + front, concurrency, reasons).admitted,
                   Admit(cx, active, before + front + [last], concurrency, reasons).admitted, front, last);
  }

  lemma LastTurn(
    cx: Context, active: seq<BoardTask>, front: seq<BoardTask>, last: BoardTask, concurrency: int, reasons: map<string, Reason>)
    ensures var all, more := Admit(cx, active, front, concurrency, reasons), Admit(cx, active, front + [last], concurrency, reasons);
            && more == Consider(cx, active, all, last, concurrency)
            && (more.admitted == all.admitted || more.admitted == all.admitted + [last])
  {
    var all := Admit(cx, active, front, concurrency, reasons);
    assert (front + [last])[..|front|] == front;
    TurnAdds(cx, active, all, last, concurrency);
  }

  /** The decision on one task of the order, made when it is its turn. */
  lemma {:induction false} AdmitDecides(
    cx: Context, active: seq<BoardTask>, runnable: seq<BoardTask>, concurrency: int, reasons: map<string, Reason>, k: nat)
    requires k < |runnable| && DistinctIds(runnable)
    requires forall t :: t in runnable ==> t.taskId !in reasons
    ensures Decided(cx, active, Admit(cx, active, runnable[..k], concurrency, reasons).admitted, concurrency, runnable[k],
                    Admit(cx, active, runnable, concurrency, reasons))
    decreases |runnable|
  {
    var n := |runnable| - 1;
    var front := runnable[..n];
    if k == n {
      LastIsDecided(cx, active, runnable, concurrency, reasons);
    } else {
      assert forall t :: t in front ==> t in runnable;
      AdmitDecides(cx, active, front, concurrency, reasons, k);
      assert front[..k] == runnable[..k] && front[k] == runnable[k] && runnable == front + [runnable[n]];
      LastTurn(cx, active, front, runnable[n], concurrency, reasons);
      DecidedStays(cx, active, Admit(cx, active, runnable[..k], concurrency, reasons).admitted, concurrency, runnable[k],
                   Admit(cx, active, front, concurrency, reasons), runnable[n]);
    }
  }

  lemma LastIsDecided(cx: Context, active: seq<BoardTask>, runnable: seq<BoardTask>, concurrency: int, reasons: map<string, Reason>)
    requires |runnable| > 0 && DistinctIds(runnable) && forall t :: t in runnable ==> t.taskId !in reasons
    ensures var n := |runnable| - 1;
            Decided(cx, active, Admit(cx, active, runnable[..n], concurrency, reasons).admitted, concurrency, runnable[n],
                    Admit(cx, active, runnable, concurrency, reasons))
  {
    var n := |runnable| - 1;
    var front, last := runnable[..n], runnable[n];
    AdmitReasons(cx, active, front, concurrency, reasons, last.taskId);
    assert !HasId(front, last.taskId);
    assert last in runnable && last !in front;
  }

  ghost predicate Decided(cx: Context, active: seq<BoardTask>, before: seq<BoardTask>, concurrency: int, t: BoardTask, all: Admission)
  {
    if |active| + |before| >= concurrency then t !in all.admitted && Recorded(all, t, ConcurrencyBound)
    else
      match Rejection(cx, t, active + before)
      case None => t in all.admitted
      case Some(reason) => t !in all.admitted && Recorded(all, t, reason)
  }

  predicate Recorded(all: Admission, t: BoardTask, reason: Reason)
  {
    t.taskId in all.reasons && all.reasons[t.taskId] == reason
  }

  lemma DecidedStays(
    cx: Context, active: seq<BoardTask>, before: seq<BoardTask>, concurrency: int, t: BoardTask, all: Admission, last: BoardTask)
    requires Decided(cx, active, before, concurrency, t, all) && t.taskId != last.taskId
    ensures Decided(cx, active, before, concurrency, t, Consider(cx, active, all, last, concurrency))
  {
  }

  /** Those already proposed when it was the turn of `t`. */
  ghost predicate IsAhead(proposed: seq<BoardTask>, t: BoardTask, ahead: seq<BoardTask>)
  {
    && ahead <= proposed && (forall u :: u in ahead ==> Before(u, t))
    && (forall i :: |ahead| <= i < |proposed| ==> !Before(proposed[i], t))
  }

  /** Why a task that may be considered gets no slot, as a fact about the tasks
      active and ahead of it. */
  ghost predicate RejectionHolds(cx: Context, members: seq<BoardTask>, concurrency: int, t: BoardTask, reason: Reason)
  {
    match reason
    case ConcurrencyBound => |members| >= concurrency
    case LockUnavailable => |members| < concurrency && !SharedFairly(ClaimsOf(members) + t.resources, cx.capacities)
    case _ => |members| < concurrency && exists m :: m in members && ConflictHolds(cx, t, m, reason)
  }

  /** A task fits beside the members. */
  ghost predicate FitsBeside(cx: Context, members: seq<BoardTask>, concurrency: int, t: BoardTask)
  {
    && |members| < concurrency && (forall m :: m in members ==> Independent(cx, t, m))
    && SharedFairly(ClaimsOf(members) + t.resources, cx.capacities)
  }

  lemma DecisionMeans(cx: Context, active: seq<BoardTask>, before: seq<BoardTask>, concurrency: int, t: BoardTask, all: Admission)
    requires Decided(cx, active, before, concurrency, t, all) && AllPositive(cx.capacities)
    requires CompleteMetadata(t) && forall m :: m in active + before ==> m.taskId != t.taskId && CompleteMetadata(m)
    ensures if t in all.admitted then FitsBeside(cx, active + before, concurrency, t)
            else t.taskId in all.reasons && RejectionHolds(cx, active + before, concurrency, t, all.reasons[t.taskId])
  {
    var members := active + before;
    FirstConflictMeans(cx, t, members);
    forall u | CompleteMetadata(u) ensures KnownClaims(u.resources) {
      CompleteIff(u);
      DeclaredClaimsAreKnown(u);
    }
    ClaimsKnown(members);
    FeasibleMeans(ClaimsOf(members) + t.resources, cx.capacities);
  }

  /** The turn of one task: what it meets ahead of it decides. */
  ghost predicate Settles(cx: Context, active: seq<BoardTask>, concurrency: int, t: BoardTask, all: Admission, ahead: seq<BoardTask>)
  {
    && IsAhead(all.admitted, t, ahead)
    && if t in all.admitted then FitsBeside(cx, active + ahead, concurrency, t)
       else t.taskId in all.reasons && RejectionHolds(cx, active + ahead, concurrency, t, all.reasons[t.taskId])
  }

  /** At the turn of a task exactly those before it in the order are ahead. */
  lemma TurnOrder(
    cx: Context, active: seq<BoardTask>, ordered: seq<BoardTask>, concurrency: int, reasons: map<string, Reason>, k: nat)
    requires k < |ordered| && DistinctIds(ordered) && SortedBy(ordered, PriorityLeq)
    ensures var ahead := Admit(cx, active, ordered[..k], concurrency, reasons).admitted;
            IsAhead(Admit(cx, active, ordered, concurrency, reasons).admitted, ordered[k], ahead)
            && forall u :: u in ahead ==> u in ordered[..k]
  {
    assert ordered == ordered[..k] + ordered[k..];
    AdmitExtends(cx, active, ordered[..k], ordered[k..], concurrency, reasons);
    AdmittedInOrder(cx, active, ordered[..k], concurrency, reasons);
    AheadInOrder(ordered, k, Admit(cx, active, ordered, concurrency, reasons).admitted,
                 Admit(cx, active, ordered[..k], concurrency, reasons).admitted);
  }

  lemma TurnMeans(cx: Context, r: Request, active: seq<BoardTask>, ordered: seq<BoardTask>, reasons: map<string, Reason>, k: nat)
    returns (ahead: seq<BoardTask>)
    requires Prepare(r).Ok? && active == ActiveTasks(r) && AllPositive(cx.capacities)
    requires k < |ordered| && DistinctIds(ordered) && SortedBy(ordered, PriorityLeq)
    requires forall t :: t in ordered ==> t in r.ready && Deferral(t, DuplicateIds(active, r.ready), r.settled).None?
    requires forall t :: t in ordered ==> t.taskId !in reasons
    ensures Settles(cx, active, r.concurrency, ordered[k], Admit(cx, active, ordered, r.concurrency, reasons), ahead)
  {
    AdmitDecides(cx, active, ordered, r.concurrency, reasons, k);
    TurnOrder(cx, active, ordered, r.concurrency, reasons, k);
    ahead := Admit(cx, active, ordered[..k], r.concurrency, reasons).admitted;
    var all := Admit(cx, active, ordered, r.concurrency, reasons);
    MembersAreComplete(active, r, ordered, k, ahead);
    assert ordered[k] in ordered;
    ReadyIsNoActive(active, r, ordered[k]);
    DecisionMeans(cx, active, ahead, r.concurrency, ordered[k], all);
  }

  /** What is proposed to the gate, task by task in the order of urgency. */
  lemma ProposalMeaning(resolve: Resolver, r: Request, i: nat) returns (ahead: seq<BoardTask>)
    requires i < |r.ready| && Prepare(r).Ok? && IsReady(ActiveTasks(r), r, i)
    ensures Settles(ContextOf(resolve, r), ActiveTasks(r), r.concurrency, r.ready[i], Proposed(resolve, r, ActiveTasks(r)), ahead)
  {
    var cx, active := ContextOf(resolve, r), ActiveTasks(r);
    var duplicates := DuplicateIds(active, r.ready);
    var ordered := Sort(Runnable(r.ready, duplicates, r.settled), PriorityLeq);
    OrderedRunnable(active, r);
    DeferralMeans(active, r, i);
    assert r.ready[i] in ordered;
    var k :| 0 <= k < |ordered| && ordered[k] == r.ready[i];
    PreparedIdsNonEmpty(r);
    ahead := TurnMeans(cx, r, active, ordered, Deferrals(r.ready, duplicates, r.settled), k);
  }

  /** The runnable tasks in order: each is ready, named once, and has no reason to
      wait recorded. */
  lemma OrderedRunnable(active: seq<BoardTask>, r: Request)
    ensures var duplicates := DuplicateIds(active, r.ready);
            var ordered := Sort(Runnable(r.ready, duplicates, r.settled), PriorityLeq);
            && DistinctIds(ordered) && SortedBy(ordered, PriorityLeq)
            && (forall t :: t in ordered <==> t in r.ready && Deferral(t, duplicates, r.settled).None?)
            && (forall t :: t in ordered ==> t.taskId !in Deferrals(r.ready, duplicates, r.settled))
  {
    var duplicates := DuplicateIds(active, r.ready);
    var runnable := Runnable(r.ready, duplicates, r.settled);
    RepeatsAreCaught(active, r.ready);
    RunnableIsDistinct(r.ready, duplicates, r.settled);
    DeferralsRecord(r.ready, duplicates, r.settled);
    KeysAreOrders();
    SortIsSorted(runnable, PriorityLeq);
    MultisetMembers(Sort(runnable, PriorityLeq), runnable);
    DistinctSurvivesReordering(runnable, Sort(runnable, PriorityLeq));
  }

  lemma AheadInOrder(ordered: seq<BoardTask>, k: nat, proposed: seq<BoardTask>, ahead: seq<BoardTask>)
    requires k < |ordered| && DistinctIds(ordered) && SortedBy(ordered, PriorityLeq)
    requires Extends(ahead, proposed, ordered[k..]) && forall u :: u in ahead ==> u in ordered[..k]
    ensures IsAhead(proposed, ordered[k], ahead)
  {
    LexIsTotalPreorder();
    forall u | u in ahead ensures Before(u, ordered[k]) {
      var j :| 0 <= j < k && ordered[j] == u;
      assert PriorityLeq(ordered[j], ordered[k]);
    }
    forall i | |ahead| <= i < |proposed| ensures !Before(proposed[i], ordered[k]) {
      var j :| k <= j < |ordered| && ordered[j] == proposed[i];
      assert k < j ==> PriorityLeq(ordered[k], ordered[j]);
    }
  }

  lemma MembersAreComplete(active: seq<BoardTask>, r: Request, ordered: seq<BoardTask>, k: nat, ahead: seq<BoardTask>)
    requires Prepare(r).Ok? && active == ActiveTasks(r) && k < |ordered| && DistinctIds(ordered)
    requires forall t :: t in ordered ==> t in r.ready && Deferral(t, DuplicateIds(active, r.ready), r.settled).None?
    requires forall u :: u in ahead ==> u in ordered[..k]
    ensures forall m :: m in active + ahead ==> m.taskId != ordered[k].taskId && CompleteMetadata(m)
  {
    PreparedTasksAreDeclared(r);
    assert ordered[k] in ordered;
    ReadyIsNoActive(active, r, ordered[k]);
    forall m | m in active + ahead ensures m.taskId != ordered[k].taskId && CompleteMetadata(m) {
      CompleteIff(m);
      if m !in active {
        var j :| 0 <= j < k && ordered[j] == m;
        assert m in ordered;
        ReadyIsNoActive(active, r, m);
      }
    }
  }

  lemma ReadyIsNoActive(active: seq<BoardTask>, r: Request, t: BoardTask)
    requires t in r.ready && Deferral(t, DuplicateIds(active, r.ready), r.settled).None?
    ensures CompleteMetadata(t) && forall m :: m in active ==> m.taskId != t.taskId
  {
    var i :| 0 <= i < |r.ready| && r.ready[i] == t;
    DeferralMeans(active, r, i);
  }

  /** The tasks that a round starts. */
  ghost function Started(resolve: Resolver, r: Request): seq<BoardTask>
    requires Scheduled(resolve, r).Ok?
  {
    Admitted(resolve, r, Prepare(r).value).admitted
  }

  predicate InOrder(tasks: seq<BoardTask>)
  {
    forall j, k :: 0 <= j < k < |tasks| ==> Before(tasks[j], tasks[k])
  }

  lemma {:induction false} AdmittedInOrder(
    cx: Context, active: seq<BoardTask>, runnable: seq<BoardTask>, concurrency: int, reasons: map<string, Reason>)
    requires DistinctIds(runnable) && SortedBy(runnable, PriorityLeq)
    ensures var admitted := Admit(cx, active, runnable, concurrency, reasons).admitted;
            (forall t :: t in admitted ==> t in runnable) && InOrder(admitted)
  {
    if |runnable| > 0 {
      var n := |runnable| - 1;
      var front := runnable[..n];
      AdmittedInOrder(cx, active, front, concurrency, reasons);
      var before := Admit(cx, active, front, concurrency, reasons).admitted;
      forall u | u in before ensures u in runnable && Before(u, runnable[n]) {
        assert u in front;
        var j :| 0 <= j < n && front[j] == u;
        assert runnable[j] == u && PriorityLeq(runnable[j], runnable[n]);
      }
    }
  }

  /** Who is ahead of a started task are those started before it. */
  lemma PlaceOf(started: seq<BoardTask>, k: nat, ahead: seq<BoardTask>)
    requires k < |started| && IsAhead(started, started[k], ahead)
    requires InOrder(started)
    ensures ahead == started[..k]
  {
    forall i | 0 <= i < |ahead| ensures ahead[i] == started[i] && Before(started[i], started[k]) {
      assert ahead[i] in ahead;
    }
    assert |ahead| <= k;
    var i := |ahead|;
    assert !Before(started[i], started[k]);
    assert i == k;
  }

  lemma StartedIsProposed(resolve: Resolver, r: Request)
    requires Scheduled(resolve, r).Ok? && Started(resolve, r) != []
    ensures Prepare(r).Ok? && Started(resolve, r) == Proposed(resolve, r, ActiveTasks(r)).admitted
    ensures r.logicalOnly || (r.gate.Gate? && r.gate.ask(ActiveTasks(r) + Started(resolve, r)) == Verdict(true))
    ensures InOrder(Started(resolve, r))
    ensures forall t :: t in Started(resolve, r) ==>
              t in r.ready && Deferral(t, DuplicateIds(ActiveTasks(r), r.ready), r.settled).None?
  {
    var active := ActiveTasks(r);
    var duplicates := DuplicateIds(active, r.ready);
    OrderedRunnable(active, r);
    AdmittedInOrder(ContextOf(resolve, r), active, Sort(Runnable(r.ready, duplicates, r.settled), PriorityLeq), r.concurrency,
                    Deferrals(r.ready, duplicates, r.settled));
  }

  lemma PlaceOfReady(active: seq<BoardTask>, r: Request, t: BoardTask) returns (i: nat)
    requires t in r.ready && Deferral(t, DuplicateIds(active, r.ready), r.settled).None?
    ensures i < |r.ready| && r.ready[i] == t && IsReady(active, r, i)
  {
    i :| 0 <= i < |r.ready| && r.ready[i] == t;
    DeferralMeans(active, r, i);
  }

  lemma StarterIsReady(resolve: Resolver, r: Request, k: nat) returns (i: nat)
    requires Scheduled(resolve, r).Ok? && k < |Started(resolve, r)|
    ensures Prepare(r).Ok? && i < |r.ready| && r.ready[i] == Started(resolve, r)[k] && IsReady(ActiveTasks(r), r, i)
  {
    StartedIsProposed(resolve, r);
    i := PlaceOfReady(ActiveTasks(r), r, Started(resolve, r)[k]);
  }

  /** Who runs: only ready tasks, in the order of urgency, each fitting beside the
      active ones and those started before it, and only with the consent of the
      gate. */
  lemma RunnersMeaning(resolve: Resolver, r: Request, k: nat)
    requires Scheduled(resolve, r).Ok? && k < |Scheduled(resolve, r).value.runNow|
    ensures Prepare(r).Ok? && Scheduled(resolve, r).value.runNow == IdsOf(Started(resolve, r))
    ensures var cx, active, started := ContextOf(resolve, r), ActiveTasks(r), Started(resolve, r);
            && (exists i :: 0 <= i < |r.ready| && r.ready[i] == started[k] && IsReady(active, r, i))
            && FitsBeside(cx, active + started[..k], r.concurrency, started[k])
            && (forall j :: 0 <= j < k ==> Before(started[j], started[k]))
            && (r.logicalOnly || (r.gate.Gate? && r.gate.ask(active + started) == Verdict(true)))
  {
    AdmittedMembers(resolve, r);
    var started := Started(resolve, r);
    StartedIsProposed(resolve, r);
    var i := StarterIsReady(resolve, r, k);
    var ahead := ProposalMeaning(resolve, r, i);
    PlaceOf(started, k, ahead);
  }

  /** Why the other ready tasks wait: the recorded reason is a fact about the
      request, or about the active tasks and the more urgent ones proposed before
      it, or about the gate. */
  lemma WaitersMeaning(resolve: Resolver, r: Request, i: nat)
    requires Scheduled(resolve, r).Ok? && i < |r.ready|
    requires r.ready[i].taskId !in Scheduled(resolve, r).value.runNow
    ensures Prepare(r).Ok? && r.ready[i].taskId in Scheduled(resolve, r).value.reasons
    ensures WaitsFor(resolve, r, i, Scheduled(resolve, r).value.reasons[r.ready[i].taskId])
  {
    AdmittedMembers(resolve, r);
    assert r.ready[i] in r.ready;
    EveryReadyTaskIsAccountedFor(resolve, r, r.ready[i].taskId);
    if IsReady(ActiveTasks(r), r, i) {
      ReadyWaits(resolve, r, i);
    } else {
      DeferralStays(resolve, r, i);
      DeferralMeans(ActiveTasks(r), r, i);
    }
  }

  lemma ReadyWaits(resolve: Resolver, r: Request, i: nat)
    requires Scheduled(resolve, r).Ok? && Prepare(r).Ok? && i < |r.ready| && IsReady(ActiveTasks(r), r, i)
    requires r.ready[i].taskId in Scheduled(resolve, r).value.reasons
    requires r.ready[i].taskId !in Scheduled(resolve, r).value.runNow
    ensures WaitsFor(resolve, r, i, Scheduled(resolve, r).value.reasons[r.ready[i].taskId])
  {
    var ahead := ProposalMeaning(resolve, r, i);
    GateMeans(resolve, r, r.ready[i]);
    ProposedIsAlone(resolve, r, i);
    if r.ready[i] !in Proposed(resolve, r, ActiveTasks(r)).admitted {
      RejectedWaits(ContextOf(resolve, r), ActiveTasks(r), r.concurrency, r.ready[i],
                    Proposed(resolve, r, ActiveTasks(r)), ahead);
    }
  }

  /** The gate is no reason of the proposal. */
  lemma RejectedWaits(cx: Context, active: seq<BoardTask>, concurrency: int, t: BoardTask, all: Admission, ahead: seq<BoardTask>)
    requires Settles(cx, active, concurrency, t, all, ahead) && t !in all.admitted
    ensures all.reasons[t.taskId] != GateDeferred
    ensures exists u :: IsAhead(all.admitted, t, u) && RejectionHolds(cx, active + u, concurrency, t, all.reasons[t.taskId])
  {
  }

  /** No other proposed task has the id of a ready one. */
  lemma ProposedIsAlone(resolve: Resolver, r: Request, i: nat)
    requires Prepare(r).Ok? && i < |r.ready| && IsReady(ActiveTasks(r), r, i)
    ensures var proposed := Proposed(resolve, r, ActiveTasks(r)).admitted;
            HasId(proposed, r.ready[i].taskId) <==> r.ready[i] in proposed
  {
    var active := ActiveTasks(r);
    var duplicates := DuplicateIds(active, r.ready);
    OrderedRunnable(active, r);
    AdmittedInOrder(ContextOf(resolve, r), active, Sort(Runnable(r.ready, duplicates, r.settled), PriorityLeq), r.concurrency,
                    Deferrals(r.ready, duplicates, r.settled));
    if u :| u in Proposed(resolve, r, active).admitted && u.taskId == r.ready[i].taskId {
      var j :| 0 <= j < |r.ready| && r.ready[j] == u;
    }
  }

  ghost predicate WaitsFor(resolve: Resolver, r: Request, i: nat, reason: Reason)
    requires Prepare(r).Ok? && i < |r.ready|
  {
    var cx, active, proposed := ContextOf(resolve, r), ActiveTasks(r), Proposed(resolve, r, ActiveTasks(r)).admitted;
    if !IsReady(active, r, i) then DeferralHolds(active, r, i, reason)
    else if reason == GateDeferred then
      r.ready[i] in proposed && !r.logicalOnly && !(r.gate.Gate? && r.gate.ask(active + proposed) == Verdict(true))
    else exists ahead :: IsAhead(proposed, r.ready[i], ahead) && RejectionHolds(cx, active + ahead, r.concurrency, r.ready[i], reason)
  }

  lemma {:induction false} AllDeferredMeans(tasks: seq<BoardTask>, reasons: map<string, Reason>, id: string)
    ensures HasId(tasks, id) ==> id in AllDeferred(tasks, reasons) && AllDeferred(tasks, reasons)[id] == GateDeferred
    ensures !HasId(tasks, id) ==>
              (id in AllDeferred(tasks, reasons) <==> id in reasons)
              && (id in reasons ==> AllDeferred(tasks, reasons)[id] == reasons[id])
  {
    if |tasks| > 0 {
      var front, last := tasks[..|tasks| - 1], tasks[|tasks| - 1];
      AllDeferredMeans(front, reasons, id);
      assert forall t :: t in tasks <==> t in front || t == last;
    }
  }

  /** What the gate makes of the proposal for one task. */
  lemma GateMeans(resolve: Resolver, r: Request, t: BoardTask)
    requires Scheduled(resolve, r).Ok? && Prepare(r).Ok? && t.taskId !in Scheduled(resolve, r).value.runNow
    ensures var proposed := Proposed(resolve, r, ActiveTasks(r));
            var reasons := Scheduled(resolve, r).value.reasons;
            if HasId(proposed.admitted, t.taskId) then
              && t.taskId in reasons && reasons[t.taskId] == GateDeferred && !r.logicalOnly
              && !(r.gate.Gate? && r.gate.ask(ActiveTasks(r) + proposed.admitted) == Verdict(true))
            else t.taskId in proposed.reasons ==> t.taskId in reasons && reasons[t.taskId] == proposed.reasons[t.taskId]
  {
    var proposed := Proposed(resolve, r, ActiveTasks(r));
    AllDeferredMeans(proposed.admitted, proposed.reasons, t.taskId);
    if u :| u in proposed.admitted && u.taskId == t.taskId {
      var j :| 0 <= j < |proposed.admitted| && proposed.admitted[j] == u;
      assert IdsOf(proposed.admitted)[j] == t.taskId;
    }
  }

  /** A deferral is the reason that is reported. */
  lemma DeferralStays(resolve: Resolver, r: Request, i: nat)
    requires Scheduled(resolve, r).Ok? && Prepare(r).Ok? && i < |r.ready| && !IsReady(ActiveTasks(r), r, i)
    requires r.ready[i].taskId !in Scheduled(resolve, r).value.runNow
    ensures Deferral(r.ready[i], DuplicateIds(ActiveTasks(r), r.ready), r.settled)
            == (var reasons := Scheduled(resolve, r).value.reasons;
                if r.ready[i].taskId in reasons then Some(reasons[r.ready[i].taskId]) else None)
  {
    var active, t := ActiveTasks(r), r.ready[i];
    var duplicates := DuplicateIds(active, r.ready);
    var ordered := Sort(Runnable(r.ready, duplicates, r.settled), PriorityLeq);
    var deferrals := Deferrals(r.ready, duplicates, r.settled);
    DeferralMeans(active, r, i);
    RepeatsAreCaught(active, r.ready);
    DeferralsRecord(r.ready, duplicates, r.settled);
    OrderedRunnable(active, r);
    FirstReasonStays(ContextOf(resolve, r), active, ordered, r.concurrency, deferrals, t.taskId);
    GateMeans(resolve, r, t);
  }

  lemma {:induction false} FirstReasonStays(
    cx: Context, active: seq<BoardTask>, runnable: seq<BoardTask>, concurrency: int, reasons: map<string, Reason>, id: string)
    requires id in reasons && forall t :: t in runnable ==> t.taskId != id
    ensures var a := Admit(cx, active, runnable, concurrency, reasons);
            id in a.reasons && a.reasons[id] == reasons[id] && !HasId(a.admitted, id)
  {
    if |runnable| > 0 {
      FirstReasonStays(cx, active, runnable[..|runnable| - 1], concurrency, reasons, id);
    }
  }

  /** The waiting ids are the ready ones that do not run, as often as they are
      listed. */
  lemma WaitingMeaning(resolve: Resolver, r: Request, id: string)
    requires Scheduled(resolve, r).Ok?
    ensures var round := Scheduled(resolve, r).value;
            multiset(round.mustWait)[id] == if id in round.runNow then 0 else multiset(IdsOf(r.ready))[id]
  {
    WaitingCount(r.ready, Scheduled(resolve, r).value.runNow, id);
  }
}
