/** `CoordinationStore` as an object over checkpoint files and root ledgers. Each
    method runs under the store lock and is proved to take the specified step. */
module CoordinationStore {
  import opened Collections
  import opened Values
  import opened DelegationLineages
  import opened Delegations
  import opened DelegationInvariants

  class CoordinationStore {
    var records: map<DelegationId, Record>
    var ledgers: map<string, int>

    constructor ()
      ensures Files() == EMPTY
    {
      records, ledgers := map[], map[];
    }

    function Files(): State
      reads this
    {
      State(records, ledgers)
    }

    method CountInFlight(parentTaskId: string) returns (count: nat)
      ensures count == |InFlight(Files(), parentTaskId)|
    {
      count := 0;
      ghost var counted: set<DelegationId> := {};
      var pending := records.Keys;
      while pending != {}
        invariant pending <= records.Keys && count == |counted|
        invariant forall id :: id in counted <==> id in InFlight(Files(), parentTaskId) && id !in pending
        decreases pending
      {
        var id :| id in pending;
        pending := pending - {id};
        if !IsTerminal(records[id].state) && records[id].delegation.parentTaskId == parentTaskId {
          counted := counted + {id};
          count := count + 1;
        }
      }
      assert counted == InFlight(Files(), parentTaskId);
    }

    method LineagePreviouslyAdmitted(l: Lineage) returns (admitted: bool)
      ensures admitted <==> PreviouslyAdmitted(Files(), l)
    {
      var pending := records.Keys;
      while pending != {}
        invariant pending <= records.Keys
        invariant forall id :: id in records && id !in pending ==> records[id].delegation.lineageHash != Sha256(l)
        decreases pending
      {
        var id :| id in pending;
        if records[id].delegation.lineageHash == Sha256(l) {
          return true;
        }
        pending := pending - {id};
      }
      admitted := false;
    }

    /** A root-level lineage must name the acting task; a continuation must be
        one this store advanced and persisted. */
    method TrustedRootIdentity(l: Lineage, parentTaskId: string) returns (root: Option<string>)
      ensures root == if (if l.chainDepth == 0 then l.originatingParent == parentTaskId else PreviouslyAdmitted(Files(), l))
                      then Some(l.originatingParent) else None
    {
      if l.chainDepth == 0 {
        return if l.originatingParent != parentTaskId then None else Some(parentTaskId);
      }
      var admitted := LineagePreviouslyAdmitted(l);
      root := if admitted then Some(l.originatingParent) else None;
    }

    /** Validates everything before any write, then writes the ledger and, unless
        the process dies in between, the record. */
    method CheckpointDelegation(r: Request, now: real, crash: bool) returns (reply: Reply)
      modifies this
      ensures (Files(), reply) == Checkpoint(old(Files()), r, now, crash)
    {
      var ttl := ValidatedTtl(r.ttl);
      if r.parentGeneration <= 0 || ttl.None? {
        return Refused(InvalidArgument);
      }
      var id := IdOf(r);
      if id in records {
        return Returned(records[id]);
      }
      var inFlight := CountInFlight(r.parentTaskId);
      if inFlight >= r.budget.maxChildren {
        return Refused(ConcurrencyExceeded);
      }
      var root := TrustedRootIdentity(r.lineage, r.parentTaskId);
      if root.None? {
        return Refused(LineageForgery);
      }
      var advanced := AdvanceBy(r.lineage, r.target, r.budget);
      if advanced.Denied? {
        return Refused(advanced.reason);
      }
      var total := LedgerOf(Files(), root.value) + 1;
      if total > r.budget.maxTotal {
        return Refused(GlobalBudgetExhausted);
      }
      var record := NewRecord(r, advanced.lineage, ttl.value, now, total);
      ledgers := ledgers[root.value := total];
      if crash {
        return Crashed;
      }
      records := records[id := record];
      reply := Admitted(record);
    }

    method Dispatch(id: DelegationId) returns (reply: Reply)
      modifies this`records
      ensures (Files(), reply) == MarkDispatched(old(Files()), id)
    {
      if id !in records {
        return Refused(UnknownDelegation);
      }
      var record := records[id];
      if !record.state.Checkpointed? {
        return Returned(record);
      }
      record := record.(state := Dispatched);
      records := records[id := record];
      reply := Returned(record);
    }

    /** Fences stale, duplicate, late and forged returns. */
    method Inject(id: DelegationId, generation: int, result: Payload, resultHash: Digest<Payload>, now: real)
      returns (reply: Reply)
      modifies this`records
      ensures (Files(), reply) == InjectResult(old(Files()), id, generation, result, resultHash, now)
    {
      if id !in records {
        return Refused(UnknownDelegation);
      }
      var record := records[id];
      if record.delegation.parentGeneration != generation {
        return Refused(GenerationMismatch);
      }
      if record.state.Settled? {
        if record.resultHash == Some(resultHash) {
          return Returned(record);
        }
        return Refused(AlreadySettled);
      }
      if IsTerminal(record.state) {
        return Refused(Terminal);
      }
      if !record.state.Dispatched? {
        return Refused(NotDispatched);
      }
      if now >= record.delegation.expiresAt {
        records := records[id := record.(state := Stale)];
        return Refused(Expired);
      }
      if Sha256(result) != resultHash {
        return Refused(HashMismatch);
      }
      record := record.(state := Settled, result := Some(result), resultHash := Some(resultHash));
      records := records[id := record];
      reply := Returned(record);
    }

    method CancelDelegation(id: DelegationId, reason: string) returns (reply: Reply)
      modifies this`records
      ensures (Files(), reply) == Cancel(old(Files()), id, reason)
    {
      if id !in records {
        return Refused(UnknownDelegation);
      }
      var record := records[id];
      if IsTerminal(record.state) {
        return Returned(record);
      }
      record := record.(state := Cancelled, cancelReason := Some(reason));
      records := records[id := record];
      reply := Returned(record);
    }

    /** Marks expired checkpoints stale one file at a time; a crash leaves the
        rest for the next sweep. */
    method SweepExpired(now: real, crashAfter: nat) returns (expired: seq<DelegationId>, ghost done: set<DelegationId>)
      modifies this`records
      ensures Files() == Swept(old(Files()), now, done)
      ensures done <= old(records.Keys) && (|old(records)| <= crashAfter ==> done == old(records.Keys))
      ensures forall id :: id in expired <==> id in done && ExpiredAt(old(records)[id], now)
    {
      expired, done := [], {};
      ghost var before := Files();
      SweptNothing(before, now);
      var pending := records.Keys;
      var swept := 0;
      while pending != {} && swept < crashAfter
        invariant done !! pending && done + pending == before.records.Keys && swept == |done|
        invariant Files() == Swept(before, now, done)
        invariant forall id :: id in expired <==> id in done && ExpiredAt(before.records[id], now)
        decreases pending
      {
        var id :| id in pending;
        SweptOneMore(before, now, done, id);
        if ExpiredAt(records[id], now) {
          records := records[id := records[id].(state := Stale)];
          expired := expired + [id];
        }
        pending, swept := pending - {id}, swept + 1;
        done := done + {id};
      }
      assert |before.records| == |before.records.Keys|;
      if pending != {} {
        ProperSubsetIsSmaller(done, before.records.Keys);
      }
    }
  }

  lemma SweptNothing(s: State, now: real)
    ensures Swept(s, now, {}) == s
  {
  }

  lemma SweptOneMore(s: State, now: real, done: set<DelegationId>, id: DelegationId)
    requires id in s.records && id !in done
    ensures Swept(s, now, done).records[id] == s.records[id]
    ensures Swept(s, now, done + {id})
            == if ExpiredAt(s.records[id], now)
               then State(Swept(s, now, done).records[id := s.records[id].(state := Stale)], s.ledgers)
               else Swept(s, now, done)
  {
  }
}
