/** The parallel-safety scheduler: one round of `schedule`, first as a
    specification on values and then as the loops that compute it. */
module BoardRouter {
  import opened Whitespace
  import opened Values
  import opened BoardTypes
  import opened Ordering
  import opened FileScopes
  import opened Dependencies
  import opened ResourceLocks

  // ---------------------------------------------------------------------------
  // Metadata completeness
  // ---------------------------------------------------------------------------

  const KNOWN_RESOURCE_CLASSES: set<string> := {
    "task_registry", "vault_db", "vault_index", "vault_compaction", "git_refs", "git_config", "git_hooks",
    "git_remotes", "integration_branch", "outbox", "reconciler", "board_state", "queue_ledger", "claim_ledger",
    "attempt_ledger", "generation_ledger", "mcp_server", "browser_profile", "port", "daemon", "cache",
    "credential_broker", "provider_quota", "tmux", "status_line", "temp"
  }

  /** `s == s.strip()` */
  predicate IsStripped(s: string)
  {
    |s| > 0 ==> !IsSpace(s[0]) && !IsSpace(s[|s| - 1])
  }

  predicate IsAbsolute(path: string)
  {
    |path| > 0 && path[0] == '/'
  }

  predicate PathDeclared(path: string, worktreeRoot: string)
  {
    |path| > 0 && '\0' !in path && (IsAbsolute(path) || |worktreeRoot| > 0)
  }

  predicate ClaimDeclared(c: ResourceClaim)
  {
    c.resourceClass in KNOWN_RESOURCE_CLASSES && IsStripped(c.target) && !c.mode.Other? && c.units > 0
  }

  predicate IsAmbiguous(t: BoardTask)
  {
    || |t.taskId| == 0
    || !t.metadataComplete
    || '\0' in t.worktreeRoot
    || (|t.worktreeRoot| > 0 && !IsAbsolute(t.worktreeRoot))
    || (exists p :: p in t.writePaths + t.readPaths && !PathDeclared(p, t.worktreeRoot))
    || (exists c :: c in t.resources && !ClaimDeclared(c))
  }

  predicate CapacitiesValid(capacities: Capacities)
  {
    forall k :: k in capacities ==>
      && capacities[k] > 0
      && k.resourceClass in KNOWN_RESOURCE_CLASSES
      && (k.TargetKey? ==> IsStripped(k.target))
  }

  // ---------------------------------------------------------------------------
  // Pairwise conflicts
  // ---------------------------------------------------------------------------

  datatype Scope = Scope(path: string, write: bool)

  function ScopesOf(t: BoardTask): seq<Scope>
  {
    seq(|t.writePaths|, i requires 0 <= i < |t.writePaths| => Scope(t.writePaths[i], true))
    + seq(|t.readPaths|, i requires 0 <= i < |t.readPaths| => Scope(t.readPaths[i], false))
  }

  /** Some scope of `a` aliases some scope of `b` and one of the two writes. */
  predicate FilesConflict(resolve: Resolver, a: BoardTask, b: BoardTask)
  {
    exists s, r :: s in ScopesOf(a) && r in ScopesOf(b) && (s.write || r.write)
                   && PathsAlias(resolve(s.path, a.worktreeRoot), resolve(r.path, b.worktreeRoot))
  }

  function DependencyIds(t: BoardTask): set<string>
  {
    set e | e in t.dependsOn :: e.taskId
  }

  predicate DirectDependency(a: BoardTask, b: BoardTask)
  {
    b.taskId in DependencyIds(a) || a.taskId in DependencyIds(b)
  }

  predicate ResourceConflictPairwise(a: BoardTask, b: BoardTask, capacities: Capacities)
  {
    exists c, d :: c in a.resources && d in b.resources && KeyOf(c) == KeyOf(d)
                   && !(c.mode.Read? && d.mode.Read?)
                   && (c.mode.Count? && d.mode.Count? ==> c.units + d.units > CapacityOf(capacities, KeyOf(c)))
  }

  datatype Reason =
    | DuplicateIdentity(taskId: string)
    | AmbiguousPair
    | DependencyWith(taskId: string)
    | WriteScopeCollision(taskId: string)
    | SharedResourceConflict(taskId: string)
    | DuplicateDeferred
    | AmbiguousDeferred
    | UnmetDependency(taskId: string, generation: int)
    | ConcurrencyBound
    | LockUnavailable
    | GateDeferred

  /** What a conflict is judged against: the file system, the round's
      dependency graph and the capacities. */
  datatype Context = Context(resolve: Resolver, adjacency: Adjacency, capacities: Capacities)

  ghost predicate Connected(adjacency: Adjacency, a: string, b: string)
  {
    Reaches(adjacency, a, b) || Reaches(adjacency, b, a)
  }

  ghost function ConflictReason(cx: Context, a: BoardTask, b: BoardTask): Option<Reason>
  {
    if a.taskId == b.taskId then Some(DuplicateIdentity(a.taskId))
    else if IsAmbiguous(a) || IsAmbiguous(b) then Some(AmbiguousPair)
    else if DirectDependency(a, b) || Connected(cx.adjacency, a.taskId, b.taskId) then Some(DependencyWith(b.taskId))
    else if FilesConflict(cx.resolve, a, b) then Some(WriteScopeCollision(b.taskId))
    else if ResourceConflictPairwise(a, b, cx.capacities) then Some(SharedResourceConflict(b.taskId))
    else None
  }

  /** The first member, in order, that a task conflicts with. */
  ghost function FirstConflict(cx: Context, t: BoardTask, members: seq<BoardTask>): Option<Reason>
  {
    if |members| == 0 then None
    else if ConflictReason(cx, t, members[0]).Some? then ConflictReason(cx, t, members[0])
    else FirstConflict(cx, t, members[1..])
  }

  // ---------------------------------------------------------------------------
  // Requests, reservations and outcomes
  // ---------------------------------------------------------------------------

  type Token = Digest<BoardTask>

  datatype Reservation = Reservation(taskId: string, token: Token, task: BoardTask)

  type Snapshot = Digest<seq<(string, Token)>>

  datatype Release = Release(token: Token, outcome: string)

  datatype GateReply = Verdict(ok: bool) | Unusable

  /** A caller predicate may be absent, and may fail or return no boolean. */
  datatype Gate = NoGate | Gate(ask: seq<BoardTask> -> GateReply)

  datatype Request = Request(
    ready: seq<BoardTask>,
    concurrency: int,
    active: seq<Reservation>,
    snapshot: Option<Snapshot>,
    releases: seq<Release>,
    settled: map<string, (int, string)>,
    capacities: Capacities,
    gate: Gate,
    logicalOnly: bool)

  datatype Round = Round(
    runNow: seq<string>,
    mustWait: seq<string>,
    reasons: map<string, Reason>,
    reservations: seq<Reservation>,
    snapshot: Snapshot)

  datatype ScheduleError =
    | BadConcurrency
    | GateWithLogicalOnly
    | InvalidReservation
    | SnapshotRequired
    | SnapshotMismatch
    | BadReleaseOutcome
    | DuplicateRelease
    | UnknownRelease
    | EmptyTaskId
    | BadCapacities
    | AmbiguousActive
    | DuplicateActive
    | ActiveConflict(reason: Reason)
    | ActiveOverCapacity

  datatype Outcome<T> = Ok(value: T) | Raised(error: ScheduleError)

  function ReservationFor(t: BoardTask): Reservation
  {
    Reservation(t.taskId, Sha256(t), t)
  }

  function ReservationsFor(tasks: seq<BoardTask>): seq<Reservation>
  {
    seq(|tasks|, i requires 0 <= i < |tasks| => ReservationFor(tasks[i]))
  }

  function SnapshotOf(reservations: seq<Reservation>): Snapshot
  {
    Sha256(seq(|reservations|, i requires 0 <= i < |reservations| => (reservations[i].taskId, reservations[i].token)))
  }

  predicate ReservationLeq(a: Reservation, b: Reservation)
  {
    LexLeq(a.taskId, b.taskId)
  }

  predicate IdLeq(a: BoardTask, b: BoardTask)
  {
    LexLeq(a.taskId, b.taskId)
  }

  predicate PriorityLeq(a: BoardTask, b: BoardTask)
  {
    a.priority < b.priority || (a.priority == b.priority && LexLeq(a.taskId, b.taskId))
  }

  function IdsOf(tasks: seq<BoardTask>): seq<string>
  {
    seq(|tasks|, i requires 0 <= i < |tasks| => tasks[i].taskId)
  }

  predicate DistinctIds(tasks: seq<BoardTask>)
  {
    forall i, j :: 0 <= i < j < |tasks| ==> tasks[i].taskId != tasks[j].taskId
  }

  // ---------------------------------------------------------------------------
  // The active snapshot
  // ---------------------------------------------------------------------------

  /** Release events are read in order; the first bad one raises. */
  function ReleaseError(events: seq<Release>, i: nat): Option<ScheduleError>
    requires i <= |events|
    decreases |events| - i
  {
    if i == |events| then None
    else if events[i].outcome != "settled" && events[i].outcome != "cancelled" then Some(BadReleaseOutcome)
    else if exists j :: 0 <= j < i && events[j].token == events[i].token then Some(DuplicateRelease)
    else ReleaseError(events, i + 1)
  }

  predicate IsReleased(events: seq<Release>, token: Token)
  {
    exists e :: e in events && e.token == token
  }

  /** The tasks whose reservations are not released, in the given order. */
  function Unreleased(reservations: seq<Reservation>, events: seq<Release>): seq<BoardTask>
  {
    if |reservations| == 0 then []
    else
      (if IsReleased(events, reservations[0].token) then [] else [reservations[0].task])
      + Unreleased(reservations[1..], events)
  }

  /** The snapshot in its persisted order. */
  function Supplied(r: Request): seq<Reservation>
  {
    Sort(r.active, ReservationLeq)
  }

  function StillActive(r: Request): seq<BoardTask>
  {
    Unreleased(Supplied(r), r.releases)
  }

  predicate ReservationsValid(reservations: seq<Reservation>)
  {
    forall v :: v in reservations ==> v == ReservationFor(v.task)
  }

  predicate ReleasesKnown(events: seq<Release>, reservations: seq<Reservation>)
  {
    forall e :: e in events ==> exists v :: v in reservations && v.token == e.token
  }

  predicate IdsNonEmpty(tasks: seq<BoardTask>)
  {
    forall t :: t in tasks ==> |t.taskId| > 0
  }

  predicate NoneAmbiguous(tasks: seq<BoardTask>)
  {
    forall t :: t in tasks ==> !IsAmbiguous(t)
  }

  /** The checks before the active set is known. */
  function SnapshotError(r: Request): Option<ScheduleError>
  {
    if r.concurrency <= 0 then Some(BadConcurrency)
    else if r.logicalOnly && r.gate.Gate? then Some(GateWithLogicalOnly)
    else if !ReservationsValid(r.active) then Some(InvalidReservation)
    else if |r.active| > 0 && r.snapshot.None? then Some(SnapshotRequired)
    else if r.snapshot.Some? && r.snapshot.value != SnapshotOf(Supplied(r)) then Some(SnapshotMismatch)
    else if ReleaseError(r.releases, 0).Some? then ReleaseError(r.releases, 0)
    else if !ReleasesKnown(r.releases, r.active) then Some(UnknownRelease)
    else None
  }

  /** The checks on the active set, the ready ids and the capacities. */
  function TaskError(active: seq<BoardTask>, ready: seq<BoardTask>, capacities: Capacities): Option<ScheduleError>
  {
    if !IdsNonEmpty(active) || !IdsNonEmpty(ready) then Some(EmptyTaskId)
    else if !CapacitiesValid(capacities) then Some(BadCapacities)
    else if !NoneAmbiguous(active) then Some(AmbiguousActive)
    else if !DistinctIds(active) then Some(DuplicateActive)
    else None
  }

  /** Up to the sorted list of still-active tasks. */
  function Prepare(r: Request): Outcome<seq<BoardTask>>
  {
    if SnapshotError(r).Some? then Raised(SnapshotError(r).value)
    else
      match TaskError(StillActive(r), r.ready, r.capacities)
      case Some(error) => Raised(error)
      case None => Ok(Sort(StillActive(r), PriorityLeq))
  }

  /** `build_dependency_index`: a later entry replaces an earlier one. */
  function IndexOf(tasks: seq<BoardTask>): Adjacency
  {
    if |tasks| == 0 then map[]
    else
      var last := tasks[|tasks| - 1];
      IndexOf(tasks[..|tasks| - 1])[last.taskId := DependencyIds(last)]
  }

  /** The active snapshot is re-validated task by task, conflicts before locks. */
  ghost function ActiveError(cx: Context, active: seq<BoardTask>, i: nat): Option<ScheduleError>
    requires i <= |active|
    decreases |active| - i
  {
    if i == |active| then None
    else if FirstConflict(cx, active[i], active[..i]).Some? then
      Some(ActiveConflict(FirstConflict(cx, active[i], active[..i]).value))
    else if !Feasible(ClaimsOf(active[..i + 1]), cx.capacities) then Some(ActiveOverCapacity)
    else ActiveError(cx, active, i + 1)
  }

  // ---------------------------------------------------------------------------
  // Runnability
  // ---------------------------------------------------------------------------

  /** Ids of ready tasks already seen among the active or earlier ready ones. */
  function DuplicateIds(active: seq<BoardTask>, ready: seq<BoardTask>): set<string>
  {
    if |ready| == 0 then {}
    else
      var front, last := ready[..|ready| - 1], ready[|ready| - 1];
      DuplicateIds(active, front)
      + if exists t :: t in active + front && t.taskId == last.taskId then {last.taskId} else {}
  }

  function FirstUnmet(edges: seq<DepEdge>, settled: map<string, (int, string)>): Option<DepEdge>
  {
    if |edges| == 0 then None
    else if edges[0].taskId in settled && settled[edges[0].taskId] == (edges[0].generation, edges[0].artifactSha256) then
      FirstUnmet(edges[1..], settled)
    else Some(edges[0])
  }

  /** Why a ready task is not runnable this round, if so. */
  function Deferral(t: BoardTask, duplicates: set<string>, settled: map<string, (int, string)>): Option<Reason>
  {
    if t.taskId in duplicates then Some(DuplicateDeferred)
    else if IsAmbiguous(t) then Some(AmbiguousDeferred)
    else
      match FirstUnmet(t.dependsOn, settled)
      case Some(edge) => Some(UnmetDependency(edge.taskId, edge.generation))
      case None => None
  }

  function Runnable(ready: seq<BoardTask>, duplicates: set<string>, settled: map<string, (int, string)>): seq<BoardTask>
  {
    if |ready| == 0 then []
    else
      var last := ready[|ready| - 1];
      Runnable(ready[..|ready| - 1], duplicates, settled)
      + if Deferral(last, duplicates, settled).None? then [last] else []
  }

  function Deferrals(ready: seq<BoardTask>, duplicates: set<string>, settled: map<string, (int, string)>): map<string, Reason>
  {
    if |ready| == 0 then map[]
    else
      var last := ready[|ready| - 1];
      var before := Deferrals(ready[..|ready| - 1], duplicates, settled);
      match Deferral(last, duplicates, settled)
      case Some(reason) => before[last.taskId := reason]
      case None => before
  }

  // ---------------------------------------------------------------------------
  // Admission
  // ---------------------------------------------------------------------------

  function SetDefault(reasons: map<string, Reason>, id: string, reason: Reason): map<string, Reason>
  {
    if id in reasons then reasons else reasons[id := reason]
  }

  /** Why a task cannot join `members`: a conflict, else unavailable locks. */
  ghost function Rejection(cx: Context, t: BoardTask, members: seq<BoardTask>): Option<Reason>
  {
    if FirstConflict(cx, t, members).Some? then FirstConflict(cx, t, members)
    else if !Feasible(ClaimsOf(members) + t.resources, cx.capacities) then Some(LockUnavailable)
    else None
  }

  datatype Admission = Admission(admitted: seq<BoardTask>, reasons: map<string, Reason>)

  /** Greedy admission in the given order. */
  ghost function Admit(cx: Context, active: seq<BoardTask>, runnable: seq<BoardTask>, concurrency: int,
                       reasons: map<string, Reason>): Admission
  {
    if |runnable| == 0 then Admission([], reasons)
    else
      var before := Admit(cx, active, runnable[..|runnable| - 1], concurrency, reasons);
      Consider(cx, active, before, runnable[|runnable| - 1], concurrency)
  }

  ghost function Consider(cx: Context, active: seq<BoardTask>, before: Admission, t: BoardTask, concurrency: int): Admission
  {
    if |active| + |before.admitted| >= concurrency then
      before.(reasons := SetDefault(before.reasons, t.taskId, ConcurrencyBound))
    else
      match Rejection(cx, t, active + before.admitted)
      case None => before.(admitted := before.admitted + [t])
      case Some(reason) => before.(reasons := SetDefault(before.reasons, t.taskId, reason))
  }

  function GateAccepts(gate: Gate, proposed: seq<BoardTask>): bool
  {
    gate.Gate? && gate.ask(proposed) == Verdict(true)
  }

  function AllDeferred(tasks: seq<BoardTask>, reasons: map<string, Reason>): map<string, Reason>
  {
    if |tasks| == 0 then reasons
    else AllDeferred(tasks[..|tasks| - 1], reasons)[tasks[|tasks| - 1].taskId := GateDeferred]
  }

  /** The optional caller predicate keeps the whole admission or drops it. */
  function Gated(r: Request, active: seq<BoardTask>, a: Admission): Admission
  {
    if |a.admitted| > 0 && !r.logicalOnly && !GateAccepts(r.gate, active + a.admitted) then
      Admission([], AllDeferred(a.admitted, a.reasons))
    else a
  }

  function Waiting(ready: seq<BoardTask>, running: seq<string>): seq<string>
  {
    if |ready| == 0 then []
    else
      Waiting(ready[..|ready| - 1], running)
      + if ready[|ready| - 1].taskId in running then [] else [ready[|ready| - 1].taskId]
  }

  function Publish(r: Request, active: seq<BoardTask>, a: Admission): Round
  {
    var reservations := ReservationsFor(Sort(active + a.admitted, IdLeq));
    Round(IdsOf(a.admitted), Waiting(r.ready, IdsOf(a.admitted)), a.reasons, reservations, SnapshotOf(reservations))
  }

  ghost function RoundContext(resolve: Resolver, r: Request, active: seq<BoardTask>): Context
  {
    Context(resolve, IndexOf(active + r.ready), r.capacities)
  }

  /** What admission proposes to the gate. */
  ghost function Proposed(resolve: Resolver, r: Request, active: seq<BoardTask>): Admission
  {
    var duplicates := DuplicateIds(active, r.ready);
    Admit(RoundContext(resolve, r, active), active,
          Sort(Runnable(r.ready, duplicates, r.settled), PriorityLeq), r.concurrency,
          Deferrals(r.ready, duplicates, r.settled))
  }

  ghost function Admitted(resolve: Resolver, r: Request, active: seq<BoardTask>): Admission
  {
    Gated(r, active, Proposed(resolve, r, active))
  }

  /** One scheduling round. */
  ghost function Scheduled(resolve: Resolver, r: Request): Outcome<Round>
  {
    match Prepare(r)
    case Raised(error) => Raised(error)
    case Ok(active) =>
      match ActiveError(RoundContext(resolve, r, active), active, 0)
      case Some(error) => Raised(error)
      case None => Ok(Publish(r, active, Admitted(resolve, r, active)))
  }
}
