/** What a request, a result, a cancellation and a sweep mean field by field, and
    the deadline of a delegation over whole runs of the store. */
module DelegationRecords {
  import opened Values
  import opened DelegationLineages
  import opened Delegations

  // ---------------------------------------------------------------------------
  // Checkpoints
  // ---------------------------------------------------------------------------

  /** The request asks for this many seconds: five minutes unless it says
      otherwise, and at most thirty days. */
  predicate AsksFor(r: Request, seconds: real)
  {
    match r.ttl
    case DefaultTtl => seconds == 300.0
    case Seconds(value) => seconds == value && 0.0 < value <= 2592000.0
    case NotFinite => false
  }

  predicate Names(id: DelegationId, r: Request)
  {
    var i := id.identity;
    && i.parentTaskId == r.parentTaskId && i.parentAttemptId == r.parentAttemptId
    && i.parentGeneration == r.parentGeneration
    && i.target == r.target && i.question == r.question && i.authority.preimage == r.authority
  }

  /** The record says what the request asked for, when, and until when. */
  predicate Stores(record: Record, r: Request, now: real, counted: int)
  {
    var d, l := record.delegation, record.delegation.lineage;
    && Names(d.id, r)
    && d.parentTaskId == r.parentTaskId && d.parentAttemptId == r.parentAttemptId && d.parentGeneration == r.parentGeneration
    && d.requester == r.requester && d.target == r.target && d.question == r.question && d.authority == r.authority
    && d.createdAt == now && AsksFor(r, d.ttl) && d.expiresAt == now + d.ttl
    && l.originatingParent == r.lineage.originatingParent && l.visited == r.lineage.visited + [r.target]
    && l.chainDepth == r.lineage.chainDepth + 1 && l.totalDelegations == r.lineage.totalDelegations + 1
    && d.lineageHash.preimage == l && d.rootAdmittedTotal == counted
    && record.state == Checkpointed && record.result == None && record.resultHash == None && record.cancelReason == None
  }

  /** How many delegations the ledger of a root counts. */
  predicate Counts(s: State, root: string, n: int)
  {
    if root in s.ledgers then s.ledgers[root] == n else n == 0
  }

  /** The delegations of a parent that are checkpointed or dispatched. */
  ghost function OpenOf(s: State, parentTaskId: string): set<DelegationId>
  {
    set id | id in s.records && s.records[id].delegation.parentTaskId == parentTaskId
             && s.records[id].state in {Checkpointed, Dispatched}
  }

  /** A request at depth zero speaks for its own task; a deeper one presents a
      lineage that some record carries. */
  ghost predicate SpeaksForRoot(s: State, r: Request)
  {
    if r.lineage.chainDepth == 0 then r.lineage.originatingParent == r.parentTaskId
    else exists id :: id in s.records && s.records[id].delegation.lineageHash.preimage == r.lineage
  }

  predicate Sensible(r: Request)
  {
    r.parentGeneration > 0
    && match r.ttl case DefaultTtl => true case Seconds(value) => 0.0 < value <= 2592000.0 case NotFinite => false
  }

  predicate HopFits(r: Request)
  {
    && r.budget.maxDepth >= 0 && r.budget.maxChildren >= 0 && r.budget.maxTotal >= 0 && r.target != ""
    && r.lineage.chainDepth < r.budget.maxDepth && r.target !in r.lineage.visited
    && r.lineage.totalDelegations < r.budget.maxTotal
  }

  ghost predicate RootHasRoom(s: State, r: Request)
  {
    forall n :: Counts(s, r.lineage.originatingParent, n) ==> n < r.budget.maxTotal
  }

  ghost predicate MayDelegate(s: State, r: Request)
  {
    && Sensible(r) && (forall id :: id in s.records ==> !Names(id, r))
    && |OpenOf(s, r.parentTaskId)| < r.budget.maxChildren
    && SpeaksForRoot(s, r) && HopFits(r) && RootHasRoom(s, r)
  }

  lemma OpenIsInFlight(s: State, parentTaskId: string)
    ensures OpenOf(s, parentTaskId) == InFlight(s, parentTaskId)
  {
  }

  /** Whom a request is denied, and what an admitted one stores. */
  lemma CheckpointMeaning(s: State, r: Request, now: real)
    ensures var (t, reply) := Checkpoint(s, r, now, false);
            && (reply.Admitted? <==> MayDelegate(s, r))
            && (reply.Admitted? ==>
                  exists counted :: Counts(s, r.lineage.originatingParent, counted) && Stores(reply.record, r, now, counted + 1)
                    && t == State(s.records[reply.record.delegation.id := reply.record],
                                  s.ledgers[r.lineage.originatingParent := counted + 1]))
            && (!reply.Admitted? ==> t == s)
  {
    OpenIsInFlight(s, r.parentTaskId);
    var counted := LedgerOf(s, r.lineage.originatingParent);
    assert Counts(s, r.lineage.originatingParent, counted);
    assert forall id :: id in s.records && Names(id, r) ==> id == IdOf(r);
    assert Names(IdOf(r), r);
    SpeaksMeansTrusted(s, r);
  }

  lemma SpeaksMeansTrusted(s: State, r: Request)
    ensures SpeaksForRoot(s, r) <==> RootTrusted(s, r)
  {
    if id :| id in s.records && s.records[id].delegation.lineageHash.preimage == r.lineage {
      assert s.records[id].delegation.lineageHash == Sha256(r.lineage);
    }
  }

  /** Every refusal of a checkpoint names a fact about the request. */
  lemma DenialMeaning(s: State, r: Request, now: real)
    requires Checkpoint(s, r, now, false).1.Refused?
    ensures match Checkpoint(s, r, now, false).1.reason
            case InvalidArgument => !Sensible(r) || r.budget.maxDepth < 0 || r.budget.maxChildren < 0 || r.budget.maxTotal < 0 || r.target == ""
            case ConcurrencyExceeded => |OpenOf(s, r.parentTaskId)| >= r.budget.maxChildren
            case LineageForgery => !SpeaksForRoot(s, r)
            case DepthExceeded => r.lineage.chainDepth >= r.budget.maxDepth
            case Cycle => r.target in r.lineage.visited
            case BudgetExhausted => r.lineage.totalDelegations >= r.budget.maxTotal
            case GlobalBudgetExhausted => !RootHasRoom(s, r)
            case _ => false
  {
    OpenIsInFlight(s, r.parentTaskId);
    SpeaksMeansTrusted(s, r);
    assert Counts(s, r.lineage.originatingParent, LedgerOf(s, r.lineage.originatingParent));
  }

  // ---------------------------------------------------------------------------
  // Results, cancellations and sweeps
  // ---------------------------------------------------------------------------

  /** Every answer to a result names a fact about the record; only an honest result
      in time settles, only a late one makes the record stale. */
  lemma InjectMeaning(s: State, id: DelegationId, generation: int, result: Payload, hash: Digest<Payload>, now: real)
    requires id in s.records
    ensures var (t, reply) := InjectResult(s, id, generation, result, hash, now);
            var before := s.records[id];
            && t.ledgers == s.ledgers
            && match reply
               case Returned(after) =>
                 && t.records == s.records[id := after]
                 && generation == before.delegation.parentGeneration && after.state == Settled && after.resultHash == Some(hash)
                 && after == Record(before.delegation, Settled, after.result, after.resultHash, before.cancelReason)
                 && (before.state == Settled ==> after == before)
                 && (before.state != Settled ==>
                       before.state == Dispatched && now < before.delegation.expiresAt && hash.preimage == result
                       && after.result == Some(result))
               case Refused(Expired) =>
                 && before.state == Dispatched && now >= before.delegation.expiresAt
                 && t.records == s.records[id := Record(before.delegation, Stale, before.result, before.resultHash, before.cancelReason)]
               case Refused(reason) =>
                 && t == s
                 && (reason == GenerationMismatch <==> generation != before.delegation.parentGeneration)
                 && (reason == AlreadySettled ==> before.state == Settled && before.resultHash != Some(hash))
                 && (reason == Terminal ==> before.state in {Cancelled, Stale})
                 && (reason == NotDispatched ==> before.state == Checkpointed)
                 && (reason == HashMismatch ==> before.state == Dispatched && hash.preimage != result)
                 && reason in {GenerationMismatch, AlreadySettled, Terminal, NotDispatched, HashMismatch}
               case _ => false
  {
    var (t, reply) := InjectResult(s, id, generation, result, hash, now);
    if reply.Returned? && s.records[id].state.Settled? {
      assert s.records[id := s.records[id]] == s.records;
    }
  }

  /** Dispatch moves a checkpointed record on, a cancellation closes an open one;
      every other record is left alone. */
  lemma DispatchAndCancelMeaning(s: State, id: DelegationId, reason: string)
    ensures id !in s.records ==>
              && MarkDispatched(s, id) == (s, Refused(UnknownDelegation))
              && Cancel(s, id, reason) == (s, Refused(UnknownDelegation))
    ensures id in s.records ==>
              var b := s.records[id];
              && MarkDispatched(s, id).0 == State(
                   s.records[id := if b.state == Checkpointed
                                   then Record(b.delegation, Dispatched, b.result, b.resultHash, b.cancelReason) else b],
                   s.ledgers)
              && Cancel(s, id, reason).0 == State(
                   s.records[id := if b.state in {Checkpointed, Dispatched}
                                   then Record(b.delegation, Cancelled, b.result, b.resultHash, Some(reason)) else b],
                   s.ledgers)
  {
    if id in s.records {
      assert s.records[id := s.records[id]] == s.records;
    }
  }

  /** A sweep makes stale exactly the open records it visits whose deadline has
      come. */
  lemma SweepMeaning(s: State, moment: real, done: set<DelegationId>)
    ensures var t := Swept(s, moment, done);
            && t.ledgers == s.ledgers && t.records.Keys == s.records.Keys
            && forall id :: id in s.records ==>
                 var b := s.records[id];
                 t.records[id] == if id in done && b.state in {Checkpointed, Dispatched} && b.delegation.expiresAt <= moment
                                  then Record(b.delegation, Stale, b.result, b.resultHash, b.cancelReason) else b
  {
  }

  // ---------------------------------------------------------------------------
  // The deadline over runs
  // ---------------------------------------------------------------------------

  /** The action leaves the record of `id` open: it is no cancellation of it, no
      sweep that visits it after the deadline, and no result for it. */
  predicate Spares(a: Action, id: DelegationId, deadline: real)
  {
    match a
    case DoCancel(other, _) => other != id
    case DoSweep(moment, done) => id in done ==> moment < deadline
    case DoInject(other, _, _, _, _) => other != id
    case _ => true
  }

  /** The record of `id` is the stored one, in one of these states. */
  ghost predicate StandsAs(s: State, id: DelegationId, stored: Record, states: set<CheckpointState>)
  {
    id in s.records && s.records[id].state in states && s.records[id] == stored.(state := s.records[id].state)
  }

  lemma StaysOpen(s: State, a: Action, id: DelegationId, stored: Record)
    requires StandsAs(s, id, stored, {Checkpointed, Dispatched}) && Spares(a, id, stored.delegation.expiresAt)
    ensures StandsAs(Step(s, a), id, stored, {Checkpointed, Dispatched})
    ensures s.records[id].state == Dispatched || a == DoDispatch(id) ==> Step(s, a).records[id].state == Dispatched
  {
  }

  lemma {:induction false} OpenUntil(s: State, actions: seq<Action>, c: nat, d: nat, i: nat, id: DelegationId, stored: Record)
    requires c < i <= |actions| && StandsAs(Run(s, actions[..c + 1]), id, stored, {Checkpointed, Dispatched})
    requires forall j :: c < j < i ==> Spares(actions[j], id, stored.delegation.expiresAt)
    requires c < d < |actions| && actions[d] == DoDispatch(id)
    ensures StandsAs(Run(s, actions[..i]), id, stored, {Checkpointed, Dispatched})
    ensures d < i ==> StandsAs(Run(s, actions[..i]), id, stored, {Dispatched})
  {
    if i > c + 1 {
      OpenUntil(s, actions, c, d, i - 1, id, stored);
      assert actions[..i][..i - 1] == actions[..i - 1];
      StaysOpen(Run(s, actions[..i - 1]), actions[i - 1], id, stored);
    }
  }

  /** A delegation admitted at `now` and dispatched, neither cancelled nor swept
      late nor answered in between: an honest result settles it if and only if it
      comes before `now` and the seconds asked for have passed; a late one makes
      it stale. */
  lemma SettlesBeforeDeadline(s: State, actions: seq<Action>, c: nat, d: nat, k: nat, id: DelegationId, seconds: real)
    requires c < d < k < |actions|
    requires actions[c].DoCheckpoint? && !actions[c].crash && AsksFor(actions[c].request, seconds) && Names(id, actions[c].request)
    requires MayDelegate(Run(s, actions[..c]), actions[c].request)
    requires actions[d] == DoDispatch(id)
    requires forall j :: c < j < k ==> Spares(actions[j], id, actions[c].now + seconds)
    requires actions[k].DoInject? && actions[k].id == id && actions[k].resultHash.preimage == actions[k].result
    requires actions[k].generation == actions[c].request.parentGeneration
    ensures var after := Run(s, actions[..k + 1]);
            && id in after.records
            && (after.records[id].state == Settled <==> actions[k].now < actions[c].now + seconds)
            && (after.records[id].state == Settled ==> after.records[id].result == Some(actions[k].result))
            && (after.records[id].state != Settled ==> after.records[id].state == Stale)
  {
    var r, now := actions[c].request, actions[c].now;
    var before := Run(s, actions[..c]);
    assert actions[..c + 1][..c] == actions[..c];
    CheckpointMeaning(before, r, now);
    var stored := Checkpoint(before, r, now, false).1.record;
    assert stored.delegation.id == id && stored.delegation.expiresAt == now + seconds;
    OpenUntil(s, actions, c, d, k, id, stored);
    assert actions[..k + 1][..k] == actions[..k];
    var a := actions[k];
    InjectMeaning(Run(s, actions[..k]), id, a.generation, a.result, a.resultHash, a.now);
  }
}
