/** What every interleaving of the delegation store's methods keeps, crashes
    included. */
module DelegationInvariants {
  import opened Collections
  import opened Values
  import opened DelegationLineages
  import opened Delegations

  const EMPTY: State := State(map[], map[])

  ghost function RootRecords(s: State, root: string): set<DelegationId>
  {
    set id | id in s.records && s.records[id].delegation.lineage.originatingParent == root
  }

  /** `q` carries the lineage that `r` extends by one new specialist. */
  ghost predicate Extends(r: Delegation, q: Delegation)
  {
    r.target !in q.lineage.visited && r.lineage == Extend(q.lineage, r.target)
  }

  /** A record at depth one belongs to the task that is the root; a deeper one
      extends a stored record. */
  ghost predicate HasProvenance(s: State, r: Delegation)
  {
    if r.lineage.chainDepth == 1 then r.parentTaskId == r.lineage.originatingParent
    else exists q :: q in s.records && Extends(r, s.records[q].delegation)
  }

  ghost predicate RecordSound(s: State, cap: Budget, id: DelegationId)
    requires id in s.records
  {
    var r, d := s.records[id], s.records[id].delegation;
    && d.id == id
    && d.lineageHash == Sha256(d.lineage)
    && 1 <= d.lineage.chainDepth <= cap.maxDepth
    && HasProvenance(s, d)
    && (r.state.Settled? ==> r.result.Some? && r.resultHash == Some(Sha256(r.result.value)))
  }

  ghost predicate Invariant(s: State, cap: Budget)
  {
    && (forall id :: id in s.records ==> RecordSound(s, cap, id))
    && (forall root :: |RootRecords(s, root)| <= LedgerOf(s, root))
    && (forall root :: root in s.ledgers ==> s.ledgers[root] <= cap.maxTotal)
    && (forall p :: InFlight(s, p) != {} ==> |InFlight(s, p)| <= cap.maxChildren)
  }

  /** Every checkpoint is asked for within the cap. */
  predicate WithinCap(a: Action, cap: Budget)
  {
    a.DoCheckpoint? ==>
      a.request.budget.maxDepth <= cap.maxDepth && a.request.budget.maxChildren <= cap.maxChildren
      && a.request.budget.maxTotal <= cap.maxTotal
  }

  // ---------------------------------------------------------------------------
  // Steps that only rewrite the progress of existing records
  // ---------------------------------------------------------------------------

  /** Records keep their delegation, terminal ones do not change at all, and
      what becomes settled carries the hash of its result. */
  ghost predicate Progresses(s: State, t: State)
  {
    && t.ledgers == s.ledgers && t.records.Keys == s.records.Keys
    && forall id :: id in s.records ==>
         && t.records[id].delegation == s.records[id].delegation
         && (IsTerminal(s.records[id].state) ==> t.records[id] == s.records[id])
         && (t.records[id].state.Settled? ==>
               t.records[id] == s.records[id]
               || (t.records[id].result.Some? && t.records[id].resultHash == Some(Sha256(t.records[id].result.value))))
  }

  lemma OtherMethodsKeepDelegations(s: State, a: Action)
    requires !a.DoCheckpoint?
    ensures var t := Step(s, a);
            t.ledgers == s.ledgers && t.records.Keys == s.records.Keys
            && forall id :: id in s.records ==> t.records[id].delegation == s.records[id].delegation
  {
  }

  lemma OtherMethodsProgress(s: State, a: Action)
    requires !a.DoCheckpoint?
    ensures Progresses(s, Step(s, a))
  {
    OtherMethodsKeepDelegations(s, a);
  }

  lemma KeepsProvenance(s: State, t: State, d: Delegation)
    requires HasProvenance(s, d)
    requires forall id :: id in s.records ==> id in t.records && t.records[id].delegation == s.records[id].delegation
    ensures HasProvenance(t, d)
  {
    if d.lineage.chainDepth != 1 {
      var q :| q in s.records && Extends(d, s.records[q].delegation);
      assert Extends(d, t.records[q].delegation);
    }
  }

  lemma ProgressKeepsInvariant(s: State, t: State, cap: Budget)
    requires Invariant(s, cap) && Progresses(s, t)
    ensures Invariant(t, cap)
  {
    forall id | id in t.records ensures RecordSound(t, cap, id) {
      assert RecordSound(s, cap, id);
      KeepsProvenance(s, t, s.records[id].delegation);
    }
    forall root ensures |RootRecords(t, root)| <= LedgerOf(t, root) {
      assert RootRecords(t, root) == RootRecords(s, root);
    }
    forall p | InFlight(t, p) != {} ensures |InFlight(t, p)| <= cap.maxChildren {
      assert InFlight(t, p) <= InFlight(s, p);
      SubsetIsSmaller(InFlight(t, p), InFlight(s, p));
      assert InFlight(s, p) != {};
    }
  }

  // ---------------------------------------------------------------------------
  // Checkpoints
  // ---------------------------------------------------------------------------

  /** The ledger reservation alone: what a crash leaves behind. */
  ghost function Reserved(s: State, r: Request): State
  {
    var root := r.lineage.originatingParent;
    s.(ledgers := s.ledgers[root := LedgerOf(s, root) + 1])
  }

  ghost predicate Admissible(s: State, r: Request)
  {
    WellFormedRequest(r) && IdOf(r) !in s.records && CheckpointDenial(s, r).None?
  }

  /** A checkpoint that is not admissible changes nothing; an admissible one
      reserves first and then stores. */
  lemma CheckpointCases(s: State, r: Request, now: real, crash: bool)
    ensures !Admissible(s, r) ==>
              Checkpoint(s, r, now, crash).0 == s && (Checkpoint(s, r, now, crash).1.Returned? || Checkpoint(s, r, now, crash).1.Refused?)
    ensures Admissible(s, r) && crash ==> Checkpoint(s, r, now, crash) == (Reserved(s, r), Crashed)
    ensures Admissible(s, r) && !crash ==>
              var record := Checkpoint(s, r, now, crash).1.record;
              && Checkpoint(s, r, now, crash) == (Reserved(s, r).(records := s.records[IdOf(r) := record]), Admitted(record))
              && IsNewDelegation(r, record.delegation) && record.state.Checkpointed?
  {
  }

  lemma ReserveKeepsInvariant(s: State, r: Request, cap: Budget)
    requires Invariant(s, cap) && Admissible(s, r) && r.budget.maxTotal <= cap.maxTotal
    ensures Invariant(Reserved(s, r), cap)
    ensures |RootRecords(s, r.lineage.originatingParent)| < LedgerOf(Reserved(s, r), r.lineage.originatingParent)
  {
    var t := Reserved(s, r);
    forall id | id in t.records ensures RecordSound(t, cap, id) {
      assert RecordSound(s, cap, id);
    }
    forall root ensures RootRecords(t, root) == RootRecords(s, root) {
    }
    forall p ensures InFlight(t, p) == InFlight(s, p) {
    }
  }

  /** The delegation a checkpoint creates. */
  ghost predicate IsNewDelegation(r: Request, d: Delegation)
  {
    && d.id == IdOf(r) && d.lineage == Extend(r.lineage, r.target) && d.lineageHash == Sha256(d.lineage)
    && d.target == r.target && d.parentTaskId == r.parentTaskId
  }

  /** A root-level record belongs to its root; a continuation extends the record
      whose lineage hash it presented. */
  lemma NewDelegationHasProvenance(s: State, r: Request, d: Delegation, cap: Budget)
    requires Invariant(s, cap) && Admissible(s, r) && IsNewDelegation(r, d)
    ensures 1 <= d.lineage.chainDepth <= r.budget.maxDepth
    ensures HasProvenance(s, d)
  {
    if r.lineage.chainDepth != 0 {
      var q :| q in s.records && s.records[q].delegation.lineageHash == Sha256(r.lineage);
      assert RecordSound(s, cap, q);
      assert Extends(d, s.records[q].delegation);
    }
  }

  lemma StoredRecordsAreSound(s: State, t: State, r: Request, record: Record, cap: Budget)
    requires Invariant(s, cap) && Admissible(s, r) && r.budget.maxDepth <= cap.maxDepth
    requires IsNewDelegation(r, record.delegation) && record.state.Checkpointed?
    requires t.records == s.records[IdOf(r) := record]
    ensures forall id :: id in t.records ==> RecordSound(t, cap, id)
  {
    NewDelegationHasProvenance(s, r, record.delegation, cap);
    forall id | id in t.records ensures RecordSound(t, cap, id) {
      if id == IdOf(r) {
        KeepsProvenance(s, t, record.delegation);
      } else {
        assert RecordSound(s, cap, id);
        KeepsProvenance(s, t, s.records[id].delegation);
      }
    }
  }

  /** One more record under its root and in flight for its parent. */
  lemma StoredCounts(s: State, t: State, r: Request, record: Record)
    requires IdOf(r) !in s.records && t.records == s.records[IdOf(r) := record]
    requires IsNewDelegation(r, record.delegation) && record.state.Checkpointed?
    ensures forall root :: RootRecords(t, root) ==
              if root == r.lineage.originatingParent then RootRecords(s, root) + {IdOf(r)} else RootRecords(s, root)
    ensures forall p :: InFlight(t, p) == if p == r.parentTaskId then InFlight(s, p) + {IdOf(r)} else InFlight(s, p)
    ensures forall root :: IdOf(r) !in RootRecords(s, root)
  {
    forall root ensures RootRecords(t, root) ==
        if root == r.lineage.originatingParent then RootRecords(s, root) + {IdOf(r)} else RootRecords(s, root) {
    }
    forall p ensures InFlight(t, p) == if p == r.parentTaskId then InFlight(s, p) + {IdOf(r)} else InFlight(s, p) {
    }
  }

  lemma StoreKeepsInvariant(s: State, r: Request, record: Record, cap: Budget)
    requires Invariant(s, cap) && Admissible(s, r) && WithinCap(DoCheckpoint(r, 0.0, false), cap)
    requires IsNewDelegation(r, record.delegation) && record.state.Checkpointed?
    ensures Invariant(Reserved(s, r).(records := s.records[IdOf(r) := record]), cap)
  {
    var reserved := Reserved(s, r);
    var t := reserved.(records := s.records[IdOf(r) := record]);
    ReserveKeepsInvariant(s, r, cap);
    StoredRecordsAreSound(s, t, r, record, cap);
    CountsAfterStore(s, reserved, t, r, record, cap);
  }

  lemma CountsAfterStore(s: State, reserved: State, t: State, r: Request, record: Record, cap: Budget)
    requires IdOf(r) !in s.records && reserved.records == s.records && t.ledgers == reserved.ledgers
    requires t.records == s.records[IdOf(r) := record] && IsNewDelegation(r, record.delegation) && record.state.Checkpointed?
    requires forall root :: |RootRecords(reserved, root)| <= LedgerOf(reserved, root)
    requires |RootRecords(s, r.lineage.originatingParent)| < LedgerOf(reserved, r.lineage.originatingParent)
    requires forall p :: InFlight(s, p) != {} ==> |InFlight(s, p)| <= cap.maxChildren
    requires |InFlight(s, r.parentTaskId)| < cap.maxChildren
    ensures forall root :: |RootRecords(t, root)| <= LedgerOf(t, root)
    ensures forall p :: InFlight(t, p) != {} ==> |InFlight(t, p)| <= cap.maxChildren
  {
    StoredCounts(s, t, r, record);
    forall root ensures |RootRecords(t, root)| <= LedgerOf(t, root) {
      assert |RootRecords(reserved, root)| <= LedgerOf(reserved, root);
      assert RootRecords(reserved, root) == RootRecords(s, root);
    }
    forall p | InFlight(t, p) != {} ensures |InFlight(t, p)| <= cap.maxChildren {
      assert p != r.parentTaskId ==> InFlight(s, p) != {};
    }
  }

  /** Each step keeps the invariant, whether or not it crashes half-way. */
  lemma StepKeepsInvariant(s: State, a: Action, cap: Budget)
    requires Invariant(s, cap) && WithinCap(a, cap)
    ensures Invariant(Step(s, a), cap)
  {
    if a.DoCheckpoint? {
      CheckpointKeepsInvariant(s, a.request, a.now, a.crash, cap);
    } else {
      OtherMethodsProgress(s, a);
      ProgressKeepsInvariant(s, Step(s, a), cap);
    }
  }

  lemma CheckpointKeepsInvariant(s: State, r: Request, now: real, crash: bool, cap: Budget)
    requires Invariant(s, cap) && WithinCap(DoCheckpoint(r, now, crash), cap)
    ensures Invariant(Checkpoint(s, r, now, crash).0, cap)
  {
    CheckpointCases(s, r, now, crash);
    if Admissible(s, r) {
      if crash {
        ReserveKeepsInvariant(s, r, cap);
      } else {
        StoreKeepsInvariant(s, r, Checkpoint(s, r, now, crash).1.record, cap);
      }
    }
  }

  /** Over every run of store methods with budgets within the cap: the stored
      records of a root never exceed its ledger, the ledger never exceeds the
      total cap, an acting parent never has more delegations in flight than the
      concurrency cap, and every record has its provenance. */
  lemma {:induction false} RunKeepsInvariant(actions: seq<Action>, cap: Budget)
    requires forall a :: a in actions ==> WithinCap(a, cap)
    ensures Invariant(Run(EMPTY, actions), cap)
  {
    if |actions| > 0 {
      var n := |actions| - 1;
      assert forall a :: a in actions[..n] ==> a in actions;
      RunKeepsInvariant(actions[..n], cap);
      StepKeepsInvariant(Run(EMPTY, actions[..n]), actions[n], cap);
    } else {
      forall root ensures RootRecords(EMPTY, root) == {} {
      }
    }
  }

  /** The global cap in one line: no interleaving stores more delegations under
      one root than the total cap. */
  lemma GlobalDelegationCap(actions: seq<Action>, cap: Budget, root: string)
    requires forall a :: a in actions ==> WithinCap(a, cap)
    requires cap.maxTotal >= 0
    ensures var s := Run(EMPTY, actions);
            |RootRecords(s, root)| <= LedgerOf(s, root) <= cap.maxTotal
  {
    RunKeepsInvariant(actions, cap);
  }

  // ---------------------------------------------------------------------------
  // Exact ledger accounting
  // ---------------------------------------------------------------------------

  /** How many checkpoints of this root crashed between the two writes. */
  ghost function CrashCount(s: State, actions: seq<Action>, root: string): nat
  {
    if |actions| == 0 then 0
    else
      var front, last := actions[..|actions| - 1], actions[|actions| - 1];
      CrashCount(s, front, root)
      + if last.DoCheckpoint? && last.request.lineage.originatingParent == root
           && Checkpoint(Run(s, front), last.request, last.now, last.crash).1.Crashed? then 1 else 0
  }

  /** The ledger counts exactly the stored records plus the crashed attempts: a
      crash can only make the budget stricter. */
  lemma {:induction false} LedgerIsExact(actions: seq<Action>, root: string)
    ensures var s := Run(EMPTY, actions);
            LedgerOf(s, root) == |RootRecords(s, root)| + CrashCount(EMPTY, actions, root)
  {
    if |actions| == 0 {
      assert RootRecords(EMPTY, root) == {};
    } else {
      var n := |actions| - 1;
      LedgerIsExact(actions[..n], root);
      LedgerStep(Run(EMPTY, actions[..n]), actions[n], root);
    }
  }

  lemma LedgerStep(s: State, a: Action, root: string)
    ensures var t := Step(s, a);
            LedgerOf(t, root) - |RootRecords(t, root)| ==
              LedgerOf(s, root) - |RootRecords(s, root)|
              + if a.DoCheckpoint? && a.request.lineage.originatingParent == root
                   && Checkpoint(s, a.request, a.now, a.crash).1.Crashed? then 1 else 0
  {
    var t := Step(s, a);
    if a.DoCheckpoint? {
      CheckpointCases(s, a.request, a.now, a.crash);
      if Admissible(s, a.request) && !a.crash {
        StoredCounts(s, t, a.request, t.records[IdOf(a.request)]);
      } else {
        assert RootRecords(t, root) == RootRecords(s, root);
      }
    } else {
      OtherMethodsKeepDelegations(s, a);
      assert RootRecords(t, root) == RootRecords(s, root);
    }
  }

  // ---------------------------------------------------------------------------
  // Provenance unrolled
  // ---------------------------------------------------------------------------

  /** Stored records from a depth-one record up to `r`, each extending the one
      before by one specialist not yet visited. */
  ghost predicate IsUnrolling(s: State, chain: seq<DelegationId>)
  {
    && |chain| > 0
    && (forall i :: 0 <= i < |chain| ==>
          chain[i] in s.records && s.records[chain[i]].delegation.lineage.chainDepth == i + 1)
    && (forall i :: 0 <= i < |chain| - 1 ==> Extends(s.records[chain[i + 1]].delegation, s.records[chain[i]].delegation))
    && s.records[chain[0]].delegation.parentTaskId == s.records[chain[0]].delegation.lineage.originatingParent
  }

  lemma ExtendUnrolling(s: State, chain: seq<DelegationId>, id: DelegationId)
    requires IsUnrolling(s, chain) && id in s.records
    requires Extends(s.records[id].delegation, s.records[chain[|chain| - 1]].delegation)
    ensures IsUnrolling(s, chain + [id])
  {
    var longer := chain + [id];
    forall i | 0 <= i < |longer| - 1 ensures Extends(s.records[longer[i + 1]].delegation, s.records[longer[i]].delegation) {
      if i + 1 < |chain| {
        assert longer[i + 1] == chain[i + 1];
      }
    }
  }

  /** Every stored record unrolls to a depth-one record of the task that is the
      root of its lineage. */
  lemma {:induction false} ProvenanceUnrolls(s: State, cap: Budget, id: DelegationId) returns (chain: seq<DelegationId>)
    requires Invariant(s, cap) && id in s.records
    ensures IsUnrolling(s, chain) && chain[|chain| - 1] == id
    ensures |chain| == s.records[id].delegation.lineage.chainDepth <= cap.maxDepth
    ensures s.records[chain[0]].delegation.lineage.originatingParent == s.records[id].delegation.lineage.originatingParent
    decreases s.records[id].delegation.lineage.chainDepth
  {
    var r := s.records[id].delegation;
    assert RecordSound(s, cap, id);
    if r.lineage.chainDepth == 1 {
      chain := [id];
    } else {
      var q :| q in s.records && Extends(r, s.records[q].delegation);
      assert RecordSound(s, cap, q);
      var front := ProvenanceUnrolls(s, cap, q);
      ExtendUnrolling(s, front, id);
      chain := front + [id];
    }
  }

  // ---------------------------------------------------------------------------
  // Finality and idempotence
  // ---------------------------------------------------------------------------

  /** One step keeps every delegation, and terminal records as they are. */
  ghost predicate Keeps(s: State, t: State)
  {
    forall id :: id in s.records ==>
      && id in t.records && t.records[id].delegation == s.records[id].delegation
      && (IsTerminal(s.records[id].state) ==> t.records[id] == s.records[id])
  }

  lemma StepKeeps(s: State, a: Action)
    ensures Keeps(s, Step(s, a))
  {
    if !a.DoCheckpoint? {
      OtherMethodsProgress(s, a);
    }
  }

  /** Nothing rewrites a terminal record or the delegation of any record, and no
      record disappears. */
  lemma {:induction false} TerminalIsFinal(s: State, actions: seq<Action>)
    ensures Keeps(s, Run(s, actions))
  {
    if |actions| == 0 {
    } else {
      var n := |actions| - 1;
      TerminalIsFinal(s, actions[..n]);
      StepKeeps(Run(s, actions[..n]), actions[n]);
    }
  }

  /** Repeating an admitted checkpoint, after any further steps, returns the
      stored record and changes nothing. */
  lemma CheckpointIsIdempotent(s: State, r: Request, now: real, actions: seq<Action>, again: real, crash: bool)
    requires Checkpoint(s, r, now, false).1.Admitted?
    ensures var t := Run(Checkpoint(s, r, now, false).0, actions);
            && IdOf(r) in t.records
            && Checkpoint(t, r, again, crash) == (t, Returned(t.records[IdOf(r)]))
            && t.records[IdOf(r)].delegation == Checkpoint(s, r, now, false).1.record.delegation
  {
    TerminalIsFinal(Checkpoint(s, r, now, false).0, actions);
  }
}
