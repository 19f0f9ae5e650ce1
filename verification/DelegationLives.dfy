/** The life of a delegation record over whole runs of the store: what a settled
    record went through. */
module DelegationLives {
  import opened Values
  import opened Delegations
  import opened DelegationInvariants

  /** A result settles a record exactly when the record is dispatched, not
      expired, of the same generation, and the claimed hash is the real one. */
  lemma SettlesIff(s: State, id: DelegationId, generation: int, result: Payload, hash: Digest<Payload>, now: real)
    requires id in s.records && !s.records[id].state.Settled?
    ensures var t := InjectResult(s, id, generation, result, hash, now).0;
            t.records[id].state.Settled? <==>
              && s.records[id].state.Dispatched? && now < s.records[id].delegation.expiresAt
              && s.records[id].delegation.parentGeneration == generation && hash == Sha256(result)
  {
  }

  /** A settled record went through dispatch: a checkpointed record is never
      settled by one step. */
  lemma SettlesOnlyFromDispatched(s: State, a: Action, id: DelegationId)
    requires id in s.records && !s.records[id].state.Settled? && Step(s, a).records[id].state.Settled?
    ensures s.records[id].state.Dispatched? && a.DoInject? && a.id == id
    ensures Step(s, a).records[id].result == Some(a.result) && Step(s, a).records[id].resultHash == Some(Sha256(a.result))
    ensures a.now < s.records[id].delegation.expiresAt
  {
  }

  /** The state of a record after the first `i` actions of a run. */
  ghost function StatusAt(actions: seq<Action>, i: nat, id: DelegationId): Option<CheckpointState>
    requires i <= |actions|
  {
    var s := Run(EMPTY, actions[..i]);
    if id in s.records then Some(s.records[id].state) else None
  }

  /** The `i`-th action settles the record: an honest result for a dispatched
      delegation, of its generation and in time. */
  ghost predicate SettlesAt(actions: seq<Action>, i: nat, id: DelegationId)
    requires i < |actions|
  {
    var s, a := Run(EMPTY, actions[..i]), actions[i];
    && a.DoInject? && a.id == id && StatusAt(actions, i, id) == Some(Dispatched)
    && a.generation == s.records[id].delegation.parentGeneration && a.now < s.records[id].delegation.expiresAt
    && a.resultHash == Sha256(a.result)
  }

  /** Absent up to `c`, checkpointed up to `d`, dispatched up to `k`, settled from
      then on. */
  function Planned(c: nat, d: nat, k: nat, i: nat): Option<CheckpointState>
  {
    if i <= c then None else if i <= d then Some(Checkpointed) else if i <= k then Some(Dispatched) else Some(Settled)
  }

  ghost predicate Lived(actions: seq<Action>, id: DelegationId, c: nat, d: nat, k: nat)
  {
    forall i: nat :: i <= |actions| ==> StatusAt(actions, i, id) == Planned(c, d, k, i)
  }

  lemma LivedOneMore(actions: seq<Action>, id: DelegationId, c: nat, d: nat, k: nat)
    requires |actions| > 0 && Lived(actions[..|actions| - 1], id, c, d, k)
    requires StatusAt(actions, |actions|, id) == Planned(c, d, k, |actions|)
    ensures Lived(actions, id, c, d, k)
  {
    var front := actions[..|actions| - 1];
    forall i: nat | i <= |front| ensures StatusAt(actions, i, id) == StatusAt(front, i, id) {
      assert front[..i] == actions[..i];
    }
  }

  /** The state before the last action and after it. */
  lemma LastStatus(actions: seq<Action>, id: DelegationId)
    requires |actions| > 0
    ensures var n := |actions| - 1;
            && Run(EMPTY, actions) == Step(Run(EMPTY, actions[..n]), actions[n])
            && StatusAt(actions, |actions|, id) ==
               (var s := Run(EMPTY, actions); if id in s.records then Some(s.records[id].state) else None)
            && StatusAt(actions[..n], n, id) == StatusAt(actions, n, id)
  {
    assert actions[..|actions|] == actions;
    assert actions[..|actions| - 1][..|actions| - 1] == actions[..|actions| - 1];
  }

  lemma {:induction false} AbsentSoFar(actions: seq<Action>, id: DelegationId, c: nat, d: nat, k: nat)
    requires StatusAt(actions, |actions|, id) == None && |actions| <= c
    ensures Lived(actions, id, c, d, k)
  {
    if |actions| == 0 {
    } else {
      var n := |actions| - 1;
      LastStatus(actions, id);
      StepKeeps(Run(EMPTY, actions[..n]), actions[n]);
      AbsentSoFar(actions[..n], id, c, d, k);
      LivedOneMore(actions, id, c, d, k);
    }
  }

  lemma {:induction false} CheckpointedOnce(actions: seq<Action>, id: DelegationId, d: nat, k: nat) returns (c: nat)
    requires StatusAt(actions, |actions|, id) == Some(Checkpointed) && |actions| <= d
    ensures c < |actions| && Lived(actions, id, c, d, k)
    ensures actions[c].DoCheckpoint? && IdOf(actions[c].request) == id && !actions[c].crash
  {
    LastStatus(actions, id);
    var n := |actions| - 1;
    StepKeeps(Run(EMPTY, actions[..n]), actions[n]);
    if StatusAt(actions, n, id) == None {
      c := n;
      AbsentSoFar(actions[..n], id, c, d, k);
    } else {
      CheckpointedBefore(Run(EMPTY, actions[..n]), actions[n], id);
      c := CheckpointedOnce(actions[..n], id, d, k);
    }
    LivedOneMore(actions, id, c, d, k);
  }

  lemma CheckpointedBefore(s: State, a: Action, id: DelegationId)
    requires id in s.records && Step(s, a).records[id].state.Checkpointed?
    ensures s.records[id].state.Checkpointed?
  {
  }

  lemma DispatchedBefore(s: State, a: Action, id: DelegationId)
    requires id in Step(s, a).records && Step(s, a).records[id].state.Dispatched?
    ensures id in s.records
    ensures s.records[id].state.Dispatched? || (s.records[id].state.Checkpointed? && a == DoDispatch(id))
  {
  }

  lemma {:induction false} DispatchedOnce(actions: seq<Action>, id: DelegationId, k: nat) returns (c: nat, d: nat)
    requires StatusAt(actions, |actions|, id) == Some(Dispatched) && |actions| <= k
    ensures c < d < |actions| && Lived(actions, id, c, d, k)
    ensures actions[c].DoCheckpoint? && IdOf(actions[c].request) == id && !actions[c].crash
    ensures actions[d] == DoDispatch(id)
  {
    LastStatus(actions, id);
    var n := |actions| - 1;
    DispatchedBefore(Run(EMPTY, actions[..n]), actions[n], id);
    if StatusAt(actions, n, id) == Some(Checkpointed) {
      d := n;
      c := CheckpointedOnce(actions[..n], id, d, k);
    } else {
      c, d := DispatchedOnce(actions[..n], id, k);
    }
    LivedOneMore(actions, id, c, d, k);
  }

  /** Every settled record was checkpointed once, dispatched once and settled by
      exactly one action, in this order, and carries the result of that action. */
  lemma SettledLife(actions: seq<Action>, id: DelegationId) returns (c: nat, d: nat, k: nat)
    requires StatusAt(actions, |actions|, id) == Some(Settled)
    ensures c < d < k < |actions| && Lived(actions, id, c, d, k)
    ensures actions[c].DoCheckpoint? && IdOf(actions[c].request) == id && !actions[c].crash
    ensures actions[d] == DoDispatch(id) && SettlesAt(actions, k, id)
    ensures CarriesResult(Run(EMPTY, actions), actions[k], id)
    ensures forall j: nat :: j < |actions| && SettlesAt(actions, j, id) ==> j == k
  {
    c, d, k := SettledOnce(actions, id);
    forall j: nat | j < |actions| && SettlesAt(actions, j, id) ensures j == k {
      SettlingSettles(actions, j, id);
      assert StatusAt(actions, j + 1, id) == Planned(c, d, k, j + 1);
    }
  }

  ghost predicate CarriesResult(s: State, a: Action, id: DelegationId)
  {
    && a.DoInject? && id in s.records
    && s.records[id].result == Some(a.result) && s.records[id].resultHash == Some(a.resultHash)
  }

  lemma {:induction false} SettledOnce(actions: seq<Action>, id: DelegationId) returns (c: nat, d: nat, k: nat)
    requires StatusAt(actions, |actions|, id) == Some(Settled)
    ensures c < d < k < |actions| && Lived(actions, id, c, d, k)
    ensures actions[c].DoCheckpoint? && IdOf(actions[c].request) == id && !actions[c].crash
    ensures actions[d] == DoDispatch(id) && SettlesAt(actions, k, id)
    ensures CarriesResult(Run(EMPTY, actions), actions[k], id)
  {
    LastStatus(actions, id);
    var n := |actions| - 1;
    var s := Run(EMPTY, actions[..n]);
    StepKeeps(s, actions[n]);
    NoneIsBornSettled(s, actions[n], id);
    if s.records[id].state.Settled? {
      c, d, k := SettledOnce(actions[..n], id);
      assert actions[..n][..k] == actions[..k];
    } else {
      k := n;
      LastSettles(actions, id);
      c, d := DispatchedOnce(actions[..n], id, k);
    }
    LivedOneMore(actions, id, c, d, k);
  }

  lemma LastSettles(actions: seq<Action>, id: DelegationId)
    requires |actions| > 0
    requires var s := Run(EMPTY, actions[..|actions| - 1]); id in s.records && !s.records[id].state.Settled?
    requires StatusAt(actions, |actions|, id) == Some(Settled)
    ensures SettlesAt(actions, |actions| - 1, id) && CarriesResult(Run(EMPTY, actions), actions[|actions| - 1], id)
  {
    LastStatus(actions, id);
    var n := |actions| - 1;
    var s, a := Run(EMPTY, actions[..n]), actions[n];
    SettlesOnlyFromDispatched(s, a, id);
    SettlesIff(s, id, a.generation, a.result, a.resultHash, a.now);
  }

  lemma NoneIsBornSettled(s: State, a: Action, id: DelegationId)
    requires id in Step(s, a).records && !Step(s, a).records[id].state.Checkpointed?
    ensures id in s.records
  {
  }

  lemma SettlingSettles(actions: seq<Action>, j: nat, id: DelegationId)
    requires j < |actions| && SettlesAt(actions, j, id)
    ensures StatusAt(actions, j + 1, id) == Some(Settled)
  {
    var front := actions[..j + 1];
    assert front[..j] == actions[..j] && front[j] == actions[j];
  }

  /** Over every run with any interleaving, crashes and sweeps: a record ends
      settled if and only if some action was an honest result, of its generation
      and in time, for the record while it was dispatched. */
  lemma SettledIffHonestResult(actions: seq<Action>, id: DelegationId)
    ensures StatusAt(actions, |actions|, id) == Some(Settled) <==>
            exists k: nat :: k < |actions| && SettlesAt(actions, k, id)
  {
    if StatusAt(actions, |actions|, id) == Some(Settled) {
      var c, d, k := SettledLife(actions, id);
    }
    if k: nat :| k < |actions| && SettlesAt(actions, k, id) {
      SettlingSettles(actions, k, id);
      StaysSettled(actions, k + 1, |actions|, id);
    }
  }

  lemma {:induction false} StaysSettled(actions: seq<Action>, i: nat, j: nat, id: DelegationId)
    requires i <= j <= |actions| && StatusAt(actions, i, id) == Some(Settled)
    ensures StatusAt(actions, j, id) == Some(Settled)
  {
    if i < j {
      StaysSettled(actions, i, j - 1, id);
      assert actions[..j][..j - 1] == actions[..j - 1];
      StepKeeps(Run(EMPTY, actions[..j - 1]), actions[j - 1]);
    }
  }
}
