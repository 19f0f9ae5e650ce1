/** The rename-based store lock (`_store_lock` and `_teardown_lock_dir`) as a
    transition system: every file-system operation is one step, contenders are
    threads of processes, and any step order is possible. */
module RenameLock {

  /** A directory as the lock protocol sees it: its owner file, if written. */
  datatype Directory = Empty | Owned(pid: int)

  datatype Entry = Missing | Present(directory: Directory)

  datatype Phase =
    | Idle              // about to make a staging directory
    | StagingMade       // private staging directory exists, owner not written
    | Staged            // owner written, about to rename onto the lock path
    | Lost              // the rename failed, staging not yet discarded
    | Inspecting        // about to read the owner of the lock directory
    | Waiting           // the owner looked alive or could not be read
    | Diagnosed         // the owner looked dead, about to tear down
    | GaveUp            // timed out
    | Critical          // inside the critical section
    | Leaving           // about to check the owner before releasing
    | Releasing         // owner confirmed, about to rename the lock away
    | Buried(again: bool)    // lock renamed to a private path, owner still in it
    | Unlinked(again: bool)  // owner file deleted, directory not yet removed
    | Finished
    | Dead

  datatype State = State(
    lock: Entry,
    phase: map<int, Phase>,
    pid: map<int, int>,
    alive: set<int>)

  datatype Action =
    | MakeStaging(c: int)
    | WriteOwner(c: int)
    | RenameOntoLock(c: int)
    | DiscardStaging(c: int)
    | ReadOwner(c: int)
    | Retry(c: int)
    | TimeOut(c: int)
    | TearDown(c: int)
    | Leave(c: int)
    | CheckOwner(c: int)
    | RenameAway(c: int)
    | UnlinkOwner(c: int)
    | RemoveGraveyard(c: int)
    | Die(process: int)

  predicate WellFormed(s: State)
  {
    s.phase.Keys == s.pid.Keys
  }

  predicate InPhase(s: State, c: int, p: Phase)
  {
    c in s.phase && c in s.pid && s.phase[c] == p
  }

  predicate Enabled(s: State, a: Action)
  {
    match a
    case MakeStaging(c) => InPhase(s, c, Idle)
    case WriteOwner(c) => InPhase(s, c, StagingMade)
    case RenameOntoLock(c) => InPhase(s, c, Staged)
    case DiscardStaging(c) => InPhase(s, c, Lost)
    case ReadOwner(c) => InPhase(s, c, Inspecting)
    case Retry(c) => InPhase(s, c, Waiting)
    case TimeOut(c) => InPhase(s, c, Waiting)
    case TearDown(c) => InPhase(s, c, Diagnosed)
    case Leave(c) => InPhase(s, c, Critical)
    case CheckOwner(c) => InPhase(s, c, Leaving)
    case RenameAway(c) => InPhase(s, c, Releasing)
    case UnlinkOwner(c) => c in s.phase && s.phase[c].Buried?
    case RemoveGraveyard(c) => c in s.phase && s.phase[c].Unlinked?
    case Die(process) => process in s.alive
  }

  function Move(s: State, c: int, p: Phase): State
  {
    s.(phase := s.phase[c := p])
  }

  /** `rename` of a directory onto a missing or empty directory succeeds, onto a
      directory with contents it fails. */
  function Step(s: State, a: Action): State
    requires Enabled(s, a)
  {
    match a
    case MakeStaging(c) => Move(s, c, StagingMade)
    case WriteOwner(c) => Move(s, c, Staged)
    case RenameOntoLock(c) =>
      if s.lock == Missing || s.lock == Present(Empty) then
        Move(s, c, Critical).(lock := Present(Owned(s.pid[c])))
      else Move(s, c, Lost)
    case DiscardStaging(c) => Move(s, c, Inspecting)
    case ReadOwner(c) =>
      if s.lock.Present? && s.lock.directory.Owned? && s.lock.directory.pid !in s.alive then Move(s, c, Diagnosed)
      else Move(s, c, Waiting)
    case Retry(c) => Move(s, c, Idle)
    case TimeOut(c) => Move(s, c, GaveUp)
    case TearDown(c) =>
      if s.lock.Present? then Move(s, c, Buried(true)).(lock := Missing) else Move(s, c, Idle)
    case Leave(c) => Move(s, c, Leaving)
    case CheckOwner(c) =>
      if s.lock == Present(Owned(s.pid[c])) then Move(s, c, Releasing) else Move(s, c, Finished)
    case RenameAway(c) =>
      if s.lock.Present? then Move(s, c, Buried(false)).(lock := Missing) else Move(s, c, Finished)
    case UnlinkOwner(c) => Move(s, c, Unlinked(s.phase[c].again))
    case RemoveGraveyard(c) => Move(s, c, if s.phase[c].again then Idle else Finished)
    case Die(process) =>
      s.(alive := s.alive - {process},
         phase := map c | c in s.phase :: if c in s.pid && s.pid[c] == process then Dead else s.phase[c])
  }

  /** From a successful rename until the lock directory is renamed away. */
  predicate Holds(s: State, c: int)
  {
    c in s.phase && (s.phase[c].Critical? || s.phase[c].Leaving? || s.phase[c].Releasing?)
  }

  /** This death takes a lock holder with it. */
  predicate KillsHolder(s: State, a: Action)
  {
    a.Die? && exists c :: c in s.phase && Holds(s, c) && c in s.pid && s.pid[c] == a.process
  }

  predicate Initial(s: State)
  {
    && WellFormed(s) && s.lock == Missing
    && (forall c :: c in s.phase ==> s.phase[c].Idle?)
    && (forall c :: c in s.pid ==> s.pid[c] in s.alive)
  }

  predicate MutualExclusion(s: State)
  {
    forall c, d :: c in s.phase && d in s.phase && Holds(s, c) && Holds(s, d) ==> c == d
  }

  /** The lock directory exists exactly while someone holds it, and then names
      the living holder's process. */
  ghost predicate LockMatchesHolder(s: State)
  {
    && (forall c :: c in s.phase && Holds(s, c) ==> c in s.pid && s.lock == Present(Owned(s.pid[c])) && s.pid[c] in s.alive)
    && (s.lock.Present? ==> exists c :: c in s.phase && Holds(s, c))
  }

  ghost predicate Invariant(s: State)
  {
    && WellFormed(s) && MutualExclusion(s) && LockMatchesHolder(s)
    && (forall c :: c in s.phase ==> !s.phase[c].Diagnosed?)
    && (forall c :: c in s.phase && !s.phase[c].Dead? ==> s.pid[c] in s.alive)
  }

  /** Deaths of non-holders leave the lock alone. */
  lemma DeathKeepsInvariant(s: State, process: int)
    requires Invariant(s) && process in s.alive && !KillsHolder(s, Die(process))
    ensures Invariant(Step(s, Die(process)))
  {
    var t := Step(s, Die(process));
    forall c | c in s.phase ensures Holds(t, c) == Holds(s, c) {
    }
    if s.lock.Present? {
      var h :| h in s.phase && Holds(s, h);
      assert h in t.phase && Holds(t, h);
    }
  }

  predicate HoldingPhase(p: Phase)
  {
    p.Critical? || p.Leaving? || p.Releasing?
  }

  /** A step that leaves the lock path alone and does not change who holds. */
  lemma QuietMove(s: State, c: int, p: Phase)
    requires Invariant(s) && c in s.phase && !s.phase[c].Dead? && !p.Diagnosed?
    requires HoldingPhase(p) <==> Holds(s, c)
    ensures Invariant(Move(s, c, p))
  {
    var t := Move(s, c, p);
    assert forall d :: d in s.phase ==> (Holds(t, d) <==> Holds(s, d));
    if s.lock.Present? {
      var h :| h in s.phase && Holds(s, h);
      assert h in t.phase && Holds(t, h);
    }
  }

  /** The lock path is taken when nobody holds. */
  lemma AcquiringMove(s: State, c: int)
    requires Invariant(s) && c in s.phase && !s.phase[c].Dead? && s.lock == Missing
    ensures Invariant(Move(s, c, Critical).(lock := Present(Owned(s.pid[c]))))
  {
    var t := Move(s, c, Critical).(lock := Present(Owned(s.pid[c])));
    assert forall d :: d in s.phase ==> !Holds(s, d);
    assert forall d :: d in t.phase ==> (Holds(t, d) <==> d == c);
    assert c in t.phase && Holds(t, c);
  }

  /** The holder renames the lock away in one step. */
  lemma ReleasingMove(s: State, c: int)
    requires Invariant(s) && c in s.phase && Holds(s, c)
    ensures Invariant(Move(s, c, Buried(false)).(lock := Missing))
  {
    var t := Move(s, c, Buried(false)).(lock := Missing);
    assert forall d :: d in t.phase ==> !Holds(t, d);
  }

  /** Acquiring and renaming away are the only steps that change the holder. */
  lemma StepKeepsInvariant(s: State, a: Action)
    requires Invariant(s) && Enabled(s, a) && !KillsHolder(s, a)
    ensures Invariant(Step(s, a))
  {
    match a {
      case MakeStaging(c) => QuietMove(s, c, StagingMade);
      case WriteOwner(c) => QuietMove(s, c, Staged);
      case RenameOntoLock(c) =>
        if s.lock == Missing {
          AcquiringMove(s, c);
        } else {
          QuietMove(s, c, Lost);
        }
      case DiscardStaging(c) => QuietMove(s, c, Inspecting);
      case ReadOwner(c) => QuietMove(s, c, Waiting);
      case Retry(c) => QuietMove(s, c, Idle);
      case TimeOut(c) => QuietMove(s, c, GaveUp);
      case TearDown(c) =>
      case Leave(c) => QuietMove(s, c, Leaving);
      case CheckOwner(c) => QuietMove(s, c, Releasing);
      case RenameAway(c) => ReleasingMove(s, c);
      case UnlinkOwner(c) => QuietMove(s, c, Unlinked(s.phase[c].again));
      case RemoveGraveyard(c) => QuietMove(s, c, if s.phase[c].again then Idle else Finished);
      case Die(process) => DeathKeepsInvariant(s, process);
    }
  }

  /** A run of enabled actions. */
  ghost predicate IsRun(s: State, actions: seq<Action>)
  {
    |actions| == 0 || (IsRun(s, actions[..|actions| - 1]) && Enabled(After(s, actions[..|actions| - 1]), actions[|actions| - 1]))
  }

  ghost function After(s: State, actions: seq<Action>): State
  {
    if |actions| == 0 then s
    else
      var before := After(s, actions[..|actions| - 1]);
      if Enabled(before, actions[|actions| - 1]) then Step(before, actions[|actions| - 1]) else before
  }

  ghost predicate NoHolderDies(s: State, actions: seq<Action>)
  {
    forall k :: 0 <= k < |actions| ==> !KillsHolder(After(s, actions[..k]), actions[k])
  }

  /** With any number of contenders, processes, timeouts and releases, in runs
      where no lock holder dies: at most one contender holds the lock, and the
      lock directory is never visible without its owner file. */
  lemma {:induction false} LockIsExclusive(s: State, actions: seq<Action>)
    requires Initial(s) && NoHolderDies(s, actions)
    ensures var t := After(s, actions);
            && Invariant(t) && MutualExclusion(t) && t.lock != Present(Empty)
            && (t.lock == Missing <==> forall c :: c in t.phase ==> !Holds(t, c))
  {
    if |actions| == 0 {
    } else {
      var front, last := actions[..|actions| - 1], actions[|actions| - 1];
      assert forall k :: 0 <= k < |front| ==> front[..k] == actions[..k];
      LockIsExclusive(s, front);
      var before := After(s, front);
      if Enabled(before, last) {
        StepKeepsInvariant(before, last);
      }
    }
  }

  // ---------------------------------------------------------------------------
  // Why the hypothesis is needed
  // ---------------------------------------------------------------------------

  /** A contender acquires when nobody holds the lock. */
  lemma Acquires(s: State, c: int) returns (t: State)
    requires WellFormed(s) && InPhase(s, c, Idle) && s.lock == Missing
    ensures t == Move(s, c, Critical).(lock := Present(Owned(s.pid[c])))
    ensures ReachedBy(s, [MakeStaging(c), WriteOwner(c), RenameOntoLock(c)], t)
  {
    t := Move(s, c, Critical).(lock := Present(Owned(s.pid[c])));
    var s1 := Step(s, MakeStaging(c));
    var s2 := Step(s1, WriteOwner(c));
    assert s2.phase[c := Critical] == s.phase[c := Critical];
    assert Step(s2, RenameOntoLock(c)) == t;
    ThreeSteps(s, s1, s2, t, MakeStaging(c), WriteOwner(c), RenameOntoLock(c));
  }

  /** Finding a dead owner's lock, a contender diagnoses it. */
  lemma Diagnoses(s: State, c: int) returns (t: State)
    requires WellFormed(s) && InPhase(s, c, Idle)
    requires s.lock.Present? && s.lock.directory.Owned? && s.lock.directory.pid !in s.alive
    ensures t == Move(s, c, Diagnosed)
    ensures ReachedBy(s, [MakeStaging(c), WriteOwner(c), RenameOntoLock(c)] + [DiscardStaging(c), ReadOwner(c)], t)
  {
    t := Move(s, c, Diagnosed);
    var s1 := Step(s, MakeStaging(c));
    var s2 := Step(s1, WriteOwner(c));
    var s3 := Step(s2, RenameOntoLock(c));
    var s4 := Step(s3, DiscardStaging(c));
    assert Step(s4, ReadOwner(c)) == t by {
      assert s4.phase[c := Diagnosed] == s.phase[c := Diagnosed];
    }
    ThreeSteps(s, s1, s2, s3, MakeStaging(c), WriteOwner(c), RenameOntoLock(c));
    TwoSteps(s3, s4, t, DiscardStaging(c), ReadOwner(c));
    ReachedTransitively(s, [MakeStaging(c), WriteOwner(c), RenameOntoLock(c)], s3, [DiscardStaging(c), ReadOwner(c)], t);
  }

  /** Having diagnosed, it removes whatever directory is there by then. */
  lemma TearsDown(s: State, c: int) returns (t: State)
    requires WellFormed(s) && InPhase(s, c, Diagnosed) && s.lock.Present?
    ensures t == Move(s, c, Idle).(lock := Missing)
    ensures ReachedBy(s, [TearDown(c), UnlinkOwner(c), RemoveGraveyard(c)], t)
  {
    t := Move(s, c, Idle).(lock := Missing);
    var s1 := Step(s, TearDown(c));
    var s2 := Step(s1, UnlinkOwner(c));
    assert s2.phase[c := Idle] == s.phase[c := Idle];
    ThreeSteps(s, s1, s2, t, TearDown(c), UnlinkOwner(c), RemoveGraveyard(c));
  }

  /** A sequence of enabled actions leads from `s` to `t`. */
  ghost predicate ReachedBy(s: State, actions: seq<Action>, t: State)
  {
    IsRun(s, actions) && After(s, actions) == t
  }

  lemma OneStep(s: State, t: State, a: Action)
    requires Enabled(s, a) && Step(s, a) == t
    ensures ReachedBy(s, [a], t)
  {
    var one := [a];
    assert |one[..0]| == 0;
    assert IsRun(s, one[..0]) && After(s, one[..0]) == s;
  }

  lemma {:induction false} ReachedTransitively(s: State, front: seq<Action>, t: State, back: seq<Action>, u: State)
    requires ReachedBy(s, front, t) && ReachedBy(t, back, u)
    ensures ReachedBy(s, front + back, u)
  {
    if |back| == 0 {
      assert front + back == front;
    } else {
      var n := |back| - 1;
      var whole := front + back;
      assert whole[..|whole| - 1] == front + back[..n] && whole[|whole| - 1] == back[n];
      ReachedTransitively(s, front, t, back[..n], After(t, back[..n]));
    }
  }

  lemma TwoSteps(s: State, s1: State, t: State, a: Action, b: Action)
    requires Enabled(s, a) && Step(s, a) == s1 && Enabled(s1, b) && Step(s1, b) == t
    ensures ReachedBy(s, [a, b], t)
  {
    OneStep(s, s1, a);
    OneStep(s1, t, b);
    ReachedTransitively(s, [a], s1, [b], t);
    assert [a] + [b] == [a, b];
  }

  lemma ThreeSteps(s: State, s1: State, s2: State, t: State, a: Action, b: Action, c: Action)
    requires Enabled(s, a) && Step(s, a) == s1 && Enabled(s1, b) && Step(s1, b) == s2 && Enabled(s2, c) && Step(s2, c) == t
    ensures ReachedBy(s, [a, b, c], t)
  {
    TwoSteps(s, s1, s2, a, b);
    OneStep(s2, t, c);
    ReachedTransitively(s, [a, b], s2, [c], t);
    assert [a, b] + [c] == [a, b, c];
  }

  /** A holder dies; two contenders of other processes find its lock. */
  lemma BothDiagnose(s: State, c: int, d: int, e: int) returns (actions: seq<Action>, t: State)
    requires Initial(s) && Rivals(s, c, d, e)
    ensures ReachedBy(s, actions, t)
    ensures WellFormed(t) && t.lock.Present? && InPhase(t, d, Diagnosed) && InPhase(t, e, Diagnosed)
  {
    var held := Acquires(s, c);
    var dead := Step(held, Die(s.pid[c]));
    OneStep(held, dead, Die(s.pid[c]));
    actions := Extended(s, [MakeStaging(c), WriteOwner(c), RenameOntoLock(c)], held, [Die(s.pid[c])], dead);
    var found := Diagnoses(dead, d);
    actions := Extended(
      s, actions, dead, [MakeStaging(d), WriteOwner(d), RenameOntoLock(d)] + [DiscardStaging(d), ReadOwner(d)], found);
    t := Diagnoses(found, e);
    actions := Extended(
      s, actions, found, [MakeStaging(e), WriteOwner(e), RenameOntoLock(e)] + [DiscardStaging(e), ReadOwner(e)], t);
  }

  /** One contender tears the found lock down and acquires; so can the other,
      later. */
  lemma Reclaims(s: State, c: int, start: State, front: seq<Action>) returns (actions: seq<Action>, t: State)
    requires ReachedBy(start, front, s)
    requires WellFormed(s) && InPhase(s, c, Diagnosed) && s.lock.Present?
    ensures ReachedBy(start, actions, t)
    ensures t == Move(s, c, Critical).(lock := Present(Owned(s.pid[c])))
  {
    var s1 := TearsDown(s, c);
    actions := Extended(start, front, s, [TearDown(c), UnlinkOwner(c), RemoveGraveyard(c)], s1);
    t := Acquires(s1, c);
    actions := Extended(start, actions, s1, [MakeStaging(c), WriteOwner(c), RenameOntoLock(c)], t);
    assert s1.phase[c := Critical] == s.phase[c := Critical];
  }

  /** If a holder does die, reclaiming its lock is not safe: two contenders that
      both diagnosed the dead owner end up in the critical section together,
      because the second tears down the lock the first has acquired since. */
  lemma DeadHolderBreaksExclusion(s: State, c: int, d: int, e: int) returns (actions: seq<Action>, t: State)
    requires Initial(s) && Rivals(s, c, d, e)
    ensures ReachedBy(s, actions, t)
    ensures InPhase(t, d, Critical) && InPhase(t, e, Critical) && !MutualExclusion(t)
  {
    var found;
    actions, found := BothDiagnose(s, c, d, e);
    var reclaimed;
    actions, reclaimed := Reclaims(found, d, s, actions);
    actions, t := Reclaims(reclaimed, e, s, actions);
    assert Holds(t, d) && Holds(t, e);
  }

  lemma Extended(s: State, front: seq<Action>, t: State, back: seq<Action>, u: State) returns (whole: seq<Action>)
    requires ReachedBy(s, front, t) && ReachedBy(t, back, u)
    ensures whole == front + back && ReachedBy(s, whole, u)
  {
    whole := front + back;
    ReachedTransitively(s, front, t, back, u);
  }

  // ---------------------------------------------------------------------------
  // Exactly when exclusion can fail
  // ---------------------------------------------------------------------------

  /** Two contenders outside the process of a third. */
  predicate Rivals(s: State, c: int, d: int, e: int)
  {
    && c in s.phase && d in s.phase && e in s.phase && c in s.pid && d in s.pid && e in s.pid
    && d != e && s.pid[c] != s.pid[d] && s.pid[c] != s.pid[e]
  }

  /** At most one contender is left. */
  predicate Alone(s: State)
  {
    forall c, d :: c in s.phase && d in s.phase && !s.phase[c].Dead? && !s.phase[d].Dead? ==> c == d
  }

  lemma StepKeepsProcesses(s: State, a: Action)
    requires Enabled(s, a) && WellFormed(s)
    ensures WellFormed(Step(s, a)) && Step(s, a).pid == s.pid
    ensures forall c :: c in s.phase && s.phase[c].Dead? ==> Step(s, a).phase[c].Dead?
  {
  }

  /** Without rivals the death of a holder leaves at most one contender. */
  lemma DeathLeavesOneAlone(s: State, process: int)
    requires Invariant(s) && process in s.alive && KillsHolder(s, Die(process))
    requires forall c, d, e :: !Rivals(s, c, d, e)
    ensures Alone(Step(s, Die(process)))
  {
    var t := Step(s, Die(process));
    var h :| h in s.phase && Holds(s, h) && h in s.pid && s.pid[h] == process;
    forall c, d | c in t.phase && d in t.phase && !t.phase[c].Dead? && !t.phase[d].Dead? ensures c == d {
      assert !Rivals(s, h, c, d);
    }
  }

  lemma {:induction false} ExclusiveWithoutRivals(s: State, actions: seq<Action>)
    requires Initial(s) && forall c, d, e :: !Rivals(s, c, d, e)
    ensures var t := After(s, actions); WellFormed(t) && t.pid == s.pid && (Invariant(t) || Alone(t))
  {
    if |actions| == 0 {
      assert Invariant(s);
    } else {
      var front, last := actions[..|actions| - 1], actions[|actions| - 1];
      ExclusiveWithoutRivals(s, front);
      var before := After(s, front);
      if Enabled(before, last) {
        StepKeepsProcesses(before, last);
        if Invariant(before) {
          if KillsHolder(before, last) {
            assert forall c, d, e :: Rivals(before, c, d, e) ==> Rivals(s, c, d, e);
            DeathLeavesOneAlone(before, last.process);
          } else {
            StepKeepsInvariant(before, last);
          }
        }
      }
    }
  }

  /** From a fresh start exclusion holds over every run, deaths included, if and
      only if no process has two contenders outside it. */
  lemma ExclusionIffNoRivals(s: State)
    requires Initial(s)
    ensures (forall actions :: MutualExclusion(After(s, actions))) <==> forall c, d, e :: !Rivals(s, c, d, e)
  {
    if c, d, e :| Rivals(s, c, d, e) {
      var actions, t := DeadHolderBreaksExclusion(s, c, d, e);
      assert !MutualExclusion(After(s, actions));
    } else {
      forall actions ensures MutualExclusion(After(s, actions)) {
        ExclusiveWithoutRivals(s, actions);
      }
    }
  }
}
