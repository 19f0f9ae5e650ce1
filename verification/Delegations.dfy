/** The delegation checkpoint store (`scripts/python/coordination.py`): every
    locked method as one step on records and root ledgers, with a crash point
    between the ledger write and the record write. */
module Delegations {
  import opened Values
  import opened DelegationLineages

  datatype CheckpointState = Checkpointed | Dispatched | Settled | Cancelled | Stale

  predicate IsTerminal(s: CheckpointState)
  {
    s.Settled? || s.Cancelled? || s.Stale?
  }

  /** The identity excludes timestamps and includes attempt, generation and
      authority. */
  datatype Identity = Identity(
    parentTaskId: string, parentAttemptId: string, parentGeneration: int,
    target: string, question: string, authority: Digest<Authority>)

  /** `deleg-` and a digest of the identity. */
  datatype DelegationId = DelegationId(identity: Identity)

  type Payload = Dict

  /** What a checkpoint fixes once and for all. */
  datatype Delegation = Delegation(
    id: DelegationId,
    parentTaskId: string, parentAttemptId: string, parentGeneration: int,
    requester: string, target: string, question: string,
    lineage: Lineage, lineageHash: Digest<Lineage>,
    authority: Authority,
    createdAt: real, ttl: real, expiresAt: real,
    rootAdmittedTotal: int)

  /** A checkpoint file: the delegation and its progress. */
  datatype Record = Record(
    delegation: Delegation, state: CheckpointState,
    result: Option<Payload>, resultHash: Option<Digest<Payload>>, cancelReason: Option<string>)

  /** Checkpoint files by id and ledger files by root identity. */
  datatype State = State(records: map<DelegationId, Record>, ledgers: map<string, int>)

  datatype Ttl = DefaultTtl | Seconds(value: real) | NotFinite

  const DEFAULT_TTL_SECONDS: real := 300.0
  const MAX_TTL_SECONDS: real := 2592000.0

  function ValidatedTtl(t: Ttl): Option<real>
  {
    match t
    case DefaultTtl => Some(DEFAULT_TTL_SECONDS)
    case Seconds(value) => if 0.0 < value <= MAX_TTL_SECONDS then Some(value) else None
    case NotFinite => None
  }

  datatype Request = Request(
    parentTaskId: string, parentAttemptId: string, parentGeneration: int,
    requester: string, target: string, question: string,
    lineage: Lineage, budget: Budget, authority: Authority, ttl: Ttl)

  datatype Reply =
    | Admitted(record: Record)
    | Returned(record: Record)
    | Absent
    | Refused(reason: Denial)
    | Crashed

  function IdOf(r: Request): DelegationId
  {
    DelegationId(Identity(r.parentTaskId, r.parentAttemptId, r.parentGeneration, r.target, r.question, Sha256(r.authority)))
  }

  /** Non-terminal records of one acting parent. */
  ghost function InFlight(s: State, parentTaskId: string): set<DelegationId>
  {
    set id | id in s.records && !IsTerminal(s.records[id].state) && s.records[id].delegation.parentTaskId == parentTaskId
  }

  ghost predicate PreviouslyAdmitted(s: State, l: Lineage)
  {
    exists id :: id in s.records && s.records[id].delegation.lineageHash == Sha256(l)
  }

  function LedgerOf(s: State, root: string): int
  {
    if root in s.ledgers then s.ledgers[root] else 0
  }

  /** The ledger key is never taken from an unproven lineage. */
  ghost predicate RootTrusted(s: State, r: Request)
  {
    if r.lineage.chainDepth == 0 then r.lineage.originatingParent == r.parentTaskId
    else PreviouslyAdmitted(s, r.lineage)
  }

  function NewRecord(r: Request, advanced: Lineage, ttl: real, now: real, total: int): Record
  {
    Record(
      Delegation(IdOf(r), r.parentTaskId, r.parentAttemptId, r.parentGeneration, r.requester, r.target, r.question,
                 advanced, Sha256(advanced), r.authority, now, ttl, now + ttl, total),
      Checkpointed, None, None, None)
  }

  /** Why a new checkpoint is denied, in the order of the checks. */
  ghost function CheckpointDenial(s: State, r: Request): Option<Denial>
  {
    if |InFlight(s, r.parentTaskId)| >= r.budget.maxChildren then Some(ConcurrencyExceeded)
    else if !RootTrusted(s, r) then Some(LineageForgery)
    else if AdvanceBy(r.lineage, r.target, r.budget).Denied? then Some(AdvanceBy(r.lineage, r.target, r.budget).reason)
    else if LedgerOf(s, r.lineage.originatingParent) + 1 > r.budget.maxTotal then Some(GlobalBudgetExhausted)
    else None
  }

  ghost predicate WellFormedRequest(r: Request)
  {
    r.parentGeneration > 0 && ValidatedTtl(r.ttl).Some?
  }

  /** `checkpoint`: the ledger is written before the record; `crash` stops the
      process between the two. */
  ghost function Checkpoint(s: State, r: Request, now: real, crash: bool): (State, Reply)
  {
    if !WellFormedRequest(r) then (s, Refused(InvalidArgument))
    else if IdOf(r) in s.records then (s, Returned(s.records[IdOf(r)]))
    else if CheckpointDenial(s, r).Some? then (s, Refused(CheckpointDenial(s, r).value))
    else
      var root := r.lineage.originatingParent;
      var total := LedgerOf(s, root) + 1;
      var record := NewRecord(r, Extend(r.lineage, r.target), ValidatedTtl(r.ttl).value, now, total);
      var reserved := s.(ledgers := s.ledgers[root := total]);
      if crash then (reserved, Crashed)
      else (reserved.(records := s.records[IdOf(r) := record]), Admitted(record))
  }


  function MarkDispatched(s: State, id: DelegationId): (State, Reply)
  {
    if id !in s.records then (s, Refused(UnknownDelegation))
    else if !s.records[id].state.Checkpointed? then (s, Returned(s.records[id]))
    else
      var record := s.records[id].(state := Dispatched);
      (s.(records := s.records[id := record]), Returned(record))
  }

  function InjectResult(s: State, id: DelegationId, generation: int, result: Payload, resultHash: Digest<Payload>, now: real): (State, Reply)
  {
    if id !in s.records then (s, Refused(UnknownDelegation))
    else
      var record := s.records[id];
      if record.delegation.parentGeneration != generation then (s, Refused(GenerationMismatch))
      else if record.state.Settled? then
        if record.resultHash == Some(resultHash) then (s, Returned(record)) else (s, Refused(AlreadySettled))
      else if IsTerminal(record.state) then (s, Refused(Terminal))
      else if !record.state.Dispatched? then (s, Refused(NotDispatched))
      else if now >= record.delegation.expiresAt then
        (s.(records := s.records[id := record.(state := Stale)]), Refused(Expired))
      else if Sha256(result) != resultHash then (s, Refused(HashMismatch))
      else
        var settled := record.(state := Settled, result := Some(result), resultHash := Some(resultHash));
        (s.(records := s.records[id := settled]), Returned(settled))
  }

  function Cancel(s: State, id: DelegationId, reason: string): (State, Reply)
  {
    if id !in s.records then (s, Refused(UnknownDelegation))
    else if IsTerminal(s.records[id].state) then (s, Returned(s.records[id]))
    else
      var record := s.records[id].(state := Cancelled, cancelReason := Some(reason));
      (s.(records := s.records[id := record]), Returned(record))
  }

  predicate ExpiredAt(r: Record, moment: real)
  {
    !IsTerminal(r.state) && moment >= r.delegation.expiresAt
  }

  /** `sweep_expired`, having rewritten the files in `done` when it ends or
      crashes. */
  function Swept(s: State, moment: real, done: set<DelegationId>): State
  {
    s.(records := map id | id in s.records ::
         if id in done && ExpiredAt(s.records[id], moment) then s.records[id].(state := Stale) else s.records[id])
  }

  datatype Action =
    | DoCheckpoint(request: Request, now: real, crash: bool)
    | DoDispatch(id: DelegationId)
    | DoInject(id: DelegationId, generation: int, result: Payload, resultHash: Digest<Payload>, now: real)
    | DoCancel(id: DelegationId, reason: string)
    | DoSweep(now: real, done: set<DelegationId>)

  ghost function Step(s: State, a: Action): State
  {
    match a
    case DoCheckpoint(r, now, crash) => Checkpoint(s, r, now, crash).0
    case DoDispatch(id) => MarkDispatched(s, id).0
    case DoInject(id, generation, result, hash, now) => InjectResult(s, id, generation, result, hash, now).0
    case DoCancel(id, reason) => Cancel(s, id, reason).0
    case DoSweep(now, done) => Swept(s, now, done)
  }

  ghost function Run(s: State, actions: seq<Action>): State
  {
    if |actions| == 0 then s else Step(Run(s, actions[..|actions| - 1]), actions[|actions| - 1])
  }
}
