/** Freezing and terminating an attributable process tree
    (`scripts/python/board_process_truth.py`). */
module Teardown {
  import opened Values
  import opened ProcessTree

  datatype Fault = IdentityChanged(pid: int) | SystemError(pid: int)

  datatype Outcome = Done | NotLeader | NotFrozen | Survived(pids: set<int>) | CensusFailed | SignalFailed(fault: Fault)

  datatype Reply = Delivered | Gone | Mismatch | Failed

  const FREEZE_PASSES: nat := 8
  const KILL_PASSES: nat := 64
  const KILL_SECONDS: real := 1.0

  /** One teardown run. `tick` counts the questions put to the system; `events`
      and `origins` record what was sent and why a process counts as a member. */
  class Run {
    const host: Host
    const expected: Identity
    var tick: nat
    var members: seq<Identity>
    var changed: set<int>
    var groupOpen: bool
    var signalError: Option<Fault>
    var censusError: bool
    ghost var events: seq<Event>
    ghost var origins: seq<Origin>
    ghost var askedFrom: nat

    constructor (host: Host, expected: Identity)
      requires Consistent(host)
      ensures this.host == host && this.expected == expected && Fresh() && events == [] && tick == 0 && !censusError
    {
      this.host := host;
      this.expected := expected;
      tick, members, changed, groupOpen, signalError, censusError := 0, [], {}, true, None, false;
      events, origins, askedFrom := [], [], 0;
    }

    ghost predicate Valid()
      reads this
    {
      Consistent(host) && Safe() && Membership()
    }

    /** What was sent reached captured incarnations, and nothing follows a
        change. */
    ghost predicate Safe()
      reads this
    {
      && SafeEvents(host, expected, events) && NeverAfterChange(events)
      && (forall i :: 0 <= i < |events| && events[i].Changed? ==> events[i].pid in changed)
    }

    ghost predicate Membership()
      reads this
    {
      && DistinctPids(members) && changed <= MemberPids(members)
      && (forall m :: m in members ==> CapturedBefore(host, m, tick))
      && AllJustified(host, expected, members, origins)
      && (signalError.None? ==> changed == {})
    }

    /** Observes, then signals in the same step unless the process is gone or
        replaced. */
    method SignalIdentity(identity: Identity, signal: Signal) returns (reply: Reply)
      requires Consistent(host) && Safe() && identity.pid !in changed
      requires identity == expected || CapturedBefore(host, identity, tick)
      modifies this`tick, this`events
      ensures tick == old(tick) + 1 && Safe()
      ensures reply.Gone? || reply.Delivered? || reply.Failed? ==>
                !host.observe(old(tick), identity.pid).Some? || SeenAs(host, old(tick), identity)
      ensures reply.Mismatch? <==>
                host.observe(old(tick), identity.pid).Some? && !SeenAs(host, old(tick), identity)
      ensures reply.Delivered? <==>
                SeenAs(host, old(tick), identity) && host.kill(old(tick), identity.pid, signal).Delivered?
      ensures events == old(events) + if reply.Delivered? then [Sent(old(tick), identity, signal)] else []
      ensures Tried(host, events, identity, signal, old(tick))
    {
      var t := tick;
      var observed := host.observe(t, identity.pid);
      tick := tick + 1;
      if observed.None? {
        return Gone;
      }
      if !SameProcess(identity, observed.value) {
        return Mismatch;
      }
      match host.kill(t, identity.pid, signal)
      case NoSuchProcess => return Gone;
      case Refused => return Failed;
      case Delivered =>
        events := events + [Sent(t, identity, signal)];
        assert SafeEvent(host, expected, Sent(t, identity, signal));
        return Reply.Delivered;
    }

    // -------------------------------------------------------------------------
    // Signalling members
    // -------------------------------------------------------------------------

    method SignalMember(k: nat, signal: Signal)
      requires Valid() && k < |members|
      modifies this`tick, this`events, this`changed, this`signalError
      ensures Valid() && tick >= old(tick) && old(events) <= events && old(changed) <= changed
      ensures old(signalError).Some? ==> signalError.Some?
      ensures members[k].pid !in changed ==> TriedWithin(host, events, members[k], signal, old(tick), tick)
    {
      var identity := members[k];
      if identity.pid in changed {
        return;
      }
      var before := tick;
      var reply := SignalIdentity(identity, signal);
      assert Tried(host, events, identity, signal, before);
      if reply.Mismatch? {
        CapturedLater(before);
        NoteChange(identity);
        assert Tried(host, events, identity, signal, before);
      } else if reply.Failed? && signalError.None? {
        signalError := Some(SystemError(identity.pid));
      }
      CapturedLater(before);
    }

    /** Captured members stay captured as time goes on. */
    lemma CapturedLater(before: nat)
      requires before <= tick && forall m :: m in members ==> CapturedBefore(host, m, before)
      ensures forall m :: m in members ==> CapturedBefore(host, m, tick)
    {
      forall m | m in members ensures CapturedBefore(host, m, tick) {
        CapturedGrows(host, m, before, tick);
      }
    }

    /** Signals the members listed by position, last first. */
    method SignalAll(targets: seq<nat>, signal: Signal)
      requires Valid() && forall i :: 0 <= i < |targets| ==> targets[i] < |members|
      modifies this`tick, this`events, this`changed, this`signalError
      ensures Valid() && tick >= old(tick) && old(events) <= events && old(changed) <= changed
      ensures old(signalError).Some? ==> signalError.Some?
      ensures forall i :: 0 <= i < |targets| && members[targets[i]].pid !in changed ==>
                TriedWithin(host, events, members[targets[i]], signal, old(tick), tick)
    {
      var i := |targets|;
      while i > 0
        invariant 0 <= i <= |targets|
        invariant Valid() && tick >= old(tick) && old(events) <= events && old(changed) <= changed
        invariant old(signalError).Some? ==> signalError.Some?
        invariant forall j :: i <= j < |targets| && members[targets[j]].pid !in changed ==>
                    TriedWithin(host, events, members[targets[j]], signal, old(tick), tick)
      {
        i := i - 1;
        ghost var events0, tick0 := events, tick;
        SignalMember(targets[i], signal);
        forall j | i <= j < |targets| && members[targets[j]].pid !in changed
          ensures TriedWithin(host, events, members[targets[j]], signal, old(tick), tick)
        {
          if j == i {
            var t: nat :| tick0 <= t < tick && Tried(host, events, members[targets[j]], signal, t);
          } else {
            TriedGrows(host, events0, events, members[targets[j]], signal, old(tick), tick0, tick);
          }
        }
      }
    }

    // -------------------------------------------------------------------------
    // The census
    // -------------------------------------------------------------------------

    ghost predicate AccountedTo(n: nat, matching: seq<nat>, live: set<int>, first: nat)
      requires n <= |members|
      reads this
    {
      AccountedFor(host, members[..n], changed, matching, live, first, tick)
    }

    ghost predicate Accounted(matching: seq<nat>, live: set<int>, first: nat)
      reads this
    {
      AccountedFor(host, members, changed, matching, live, first, tick)
    }

    ghost predicate OnlyChangesSince(before: seq<Event>)
      reads this
    {
      before <= events && forall i :: |before| <= i < |events| ==> events[i].Changed?
    }

    /** Looks at one member, after those before it. */
    method ObserveMember(k: nat, before: seq<nat>, known: set<int>, ghost first: nat)
      returns (matching: seq<nat>, live: set<int>)
      requires Valid() && k < |members| && AccountedTo(k, before, known, first) && first <= tick
      modifies this`tick, this`changed, this`signalError, this`events
      ensures Valid() && tick == old(tick) + 1 && OnlyChangesSince(old(events)) && old(changed) <= changed
      ensures old(signalError).Some? ==> signalError.Some?
      ensures AccountedTo(k + 1, matching, live, first)
    {
      matching, live := before, known;
      var m := members[k];
      var t := tick;
      var observed := host.observe(t, m.pid);
      tick := tick + 1;
      CapturedLater(t);
      forall j: nat | j < k && members[j].pid !in live ensures GoneWithin(host, members[j].pid, first, tick) {
        GoneGrows(host, members[j].pid, first, t, tick);
      }
      assert members[..k + 1] == members[..k] + [m];
      assert m.pid !in live;
      if observed.None? {
        assert SeenGone(host, t, m.pid);
        return;
      }
      live := live + {m.pid};
      if SameProcess(m, observed.value) {
        if m.pid !in changed {
          matching := matching + [k];
        }
      } else {
        NoteChange(m);
      }
    }

    method NoteChange(m: Identity)
      requires Valid() && m in members
      modifies this`changed, this`signalError, this`events
      ensures Valid() && events == old(events) + [Changed(m.pid)] && changed == old(changed) + {m.pid}
      ensures signalError.Some?
    {
      changed := changed + {m.pid};
      events := events + [Changed(m.pid)];
      if signalError.None? {
        signalError := Some(IdentityChanged(m.pid));
      }
    }

    /** Looks at every member once. */
    method ObserveMembers() returns (matching: seq<nat>, live: set<int>)
      requires Valid()
      modifies this`tick, this`changed, this`signalError, this`events
      ensures Valid() && tick >= old(tick) && OnlyChangesSince(old(events)) && old(changed) <= changed
      ensures old(signalError).Some? ==> signalError.Some?
      ensures Accounted(matching, live, old(tick))
    {
      matching, live := [], {};
      for k := 0 to |members|
        invariant Valid() && tick >= old(tick) && OnlyChangesSince(old(events)) && old(changed) <= changed
        invariant old(signalError).Some? ==> signalError.Some?
        invariant AccountedTo(k, matching, live, old(tick))
      {
        matching, live := ObserveMember(k, matching, live, old(tick));
      }
      assert members[..|members|] == members;
    }

    ghost predicate SettledNow(matching: seq<nat>, row: Row, first: nat)
      reads this
    {
      Settled(host, expected.pgid, groupOpen, members, matching, row, first, tick)
    }

    /** The position of the matching member with this pid. */
    method FindMatching(matching: seq<nat>, pid: int) returns (found: Option<nat>)
      requires forall k :: k in matching ==> k < |members|
      ensures found.Some? ==> found.value in matching && members[found.value].pid == pid
      ensures found.None? ==> forall k :: k in matching ==> members[k].pid != pid
    {
      for i := 0 to |matching|
        invariant forall j :: 0 <= j < i ==> matching[j] < |members| && members[matching[j]].pid != pid
      {
        assert matching[i] in matching;
        if members[matching[i]].pid == pid {
          return Some(matching[i]);
        }
      }
      return None;
    }

    method Adopt(m: Identity, ghost origin: Origin, known: seq<nat>, seen: set<int>, ghost first: nat)
      returns (matching: seq<nat>, live: set<int>)
      requires Valid() && Accounted(known, seen, first) && m.pid !in MemberPids(members)
      requires CapturedBefore(host, m, tick) && Justified(host, expected, members + [m], |members|, origin)
      requires !origin.Frozen?
      modifies this`members, this`origins
      ensures Valid() && members == old(members) + [m] && Accounted(matching, live, first)
      ensures OnlyAdopted(old(origins), origins)
    {
      JustifiedGrows(host, expected, members, origins, m, origin);
      AccountedGrows(host, members, changed, known, seen, first, tick, m);
      MembersGrow(members, m);
      matching, live := known + [|members|], seen + {m.pid};
      members := members + [m];
      origins := origins + [origin];
    }

    /** One census row: adopted when it is still in the open group, or its parent
        is a matching member seen alive after it. */
    method AdoptRow(row: Row, ghost census: nat, known: seq<nat>, seen: set<int>, ghost first: nat)
      returns (matching: seq<nat>, live: set<int>, added: bool)
      requires Valid() && Accounted(known, seen, first) && first <= census < tick
      requires RowAt(host, census, row.pid, row.parent, row.group)
      modifies this`tick, this`members, this`origins
      ensures Valid() && tick >= old(tick) && Accounted(matching, live, first)
      ensures OnlyAdopted(old(origins), origins)
      ensures added ==> |members| == |old(members)| + 1 && old(members) <= members
      ensures added ==> row.pid !in MemberPids(old(members)) && members[|old(members)|].pid == row.pid
      ensures !added ==> members == old(members) && matching == known && live == seen
      ensures !added ==> SettledNow(matching, row, first)
    {
      matching, live, added := known, seen, false;
      if row.pid in MemberPids(members) {
        return;
      }
      var inGroup := groupOpen && row.group == expected.pgid;
      var parent := FindMatching(matching, row.parent);
      if !inGroup && parent.None? {
        return;
      }
      ghost var before := tick;
      var t := tick;
      var observed := host.observe(t, row.pid);
      tick := tick + 1;
      LaterAccounted(before, matching, live, first);
      if observed.None? {
        assert SeenGone(host, t, row.pid);
        return;
      }
      var m := observed.value;
      if inGroup && m.pgid == expected.pgid {
        assert RowAt(host, census, m.pid, row.parent, expected.pgid);
        matching, live := Adopt(m, InGroup(census, t), matching, live, first);
        return matching, live, true;
      }
      assert inGroup ==> RegroupedWithin(host, row.pid, expected.pgid, first, tick);
      if parent.Some? {
        matching, live, added := AdoptChild(row, m, parent.value, census, t, matching, live, first);
      }
    }

    /** A process seen at `t` whose row named a matching member as its parent. */
    method AdoptChild(
      row: Row, m: Identity, parent: nat, ghost census: nat, ghost t: nat, known: seq<nat>, seen: set<int>,
      ghost first: nat)
      returns (matching: seq<nat>, live: set<int>, added: bool)
      requires Valid() && Accounted(known, seen, first) && first <= census < t < tick && parent in known
      requires m.pid == row.pid && m.pid !in MemberPids(members) && host.observe(t, m.pid) == Some(m)
      requires members[parent].pid == row.parent && RowAt(host, census, row.pid, row.parent, row.group)
      requires groupOpen && row.group == expected.pgid ==> RegroupedWithin(host, row.pid, expected.pgid, first, tick)
      modifies this`tick, this`members, this`origins
      ensures Valid() && tick >= old(tick) && Accounted(matching, live, first)
      ensures OnlyAdopted(old(origins), origins)
      ensures added ==> members == old(members) + [m]
      ensures !added ==> members == old(members) && matching == known && live == seen
      ensures !added ==> SettledNow(matching, row, first)
    {
      matching, live, added := known, seen, false;
      ghost var before := tick;
      var checked := tick;
      var again := host.observe(checked, row.parent);
      tick := tick + 1;
      LaterAccounted(before, matching, live, first);
      if again.None? || !SameProcess(members[parent], again.value) {
        RegroupedGrows(row.pid, first, before);
        OneParent(parent, checked, row, matching, first);
        return;
      }
      ChildJustified(host, expected, members, m, parent, census, t, checked, row.group);
      matching, live := Adopt(m, ChildOf(parent, census, t, checked), matching, live, first);
      added := true;
    }

    lemma RegroupedGrows(pid: int, first: nat, before: nat)
      requires before <= tick
      ensures RegroupedWithin(host, pid, expected.pgid, first, before) ==>
                RegroupedWithin(host, pid, expected.pgid, first, tick)
    {
      if RegroupedWithin(host, pid, expected.pgid, first, before) {
        var t: nat :| first <= t < before && host.observe(t, pid).Some? && host.observe(t, pid).value.pgid != expected.pgid;
      }
    }

    lemma OneParent(parent: nat, checked: nat, row: Row, matching: seq<nat>, first: nat)
      requires parent in matching && parent < |members| && members[parent].pid == row.parent && DistinctPids(members)
      requires first <= checked < tick && !SeenAs(host, checked, members[parent])
      requires groupOpen && row.group == expected.pgid ==> RegroupedWithin(host, row.pid, expected.pgid, first, tick)
      ensures SettledNow(matching, row, first)
    {
      assert ReplacedWithin(host, members[parent], first, tick);
    }

    /** Facts about the past stay true as time goes on. */
    lemma LaterAccounted(before: nat, matching: seq<nat>, live: set<int>, first: nat)
      requires before <= tick && forall m :: m in members ==> CapturedBefore(host, m, before)
      requires forall k: nat :: k < |members| && members[k].pid !in live ==> GoneWithin(host, members[k].pid, first, before)
      ensures forall m :: m in members ==> CapturedBefore(host, m, tick)
      ensures forall k: nat :: k < |members| && members[k].pid !in live ==> GoneWithin(host, members[k].pid, first, tick)
    {
      CapturedLater(before);
      forall k: nat | k < |members| && members[k].pid !in live ensures GoneWithin(host, members[k].pid, first, tick) {
        GoneGrows(host, members[k].pid, first, before, tick);
      }
    }

    ghost predicate RowsSettled(rows: seq<Row>, matching: seq<nat>, first: nat)
      reads this
    {
      AllSettled(host, expected.pgid, groupOpen, members, matching, rows, first, tick)
    }

    /** One pass over the census rows. */
    method AdoptPass(rows: seq<Row>, ghost census: nat, known: seq<nat>, seen: set<int>, ghost first: nat)
      returns (matching: seq<nat>, live: set<int>, added: bool)
      requires Valid() && Accounted(known, seen, first) && first <= census < tick && host.census(census) == Some(rows)
      modifies this`tick, this`members, this`origins
      ensures Valid() && tick >= old(tick) && Accounted(matching, live, first) && old(members) <= members
      ensures OnlyAdopted(old(origins), origins)
      ensures added ==> Unadopted(rows, members) < Unadopted(rows, old(members))
      ensures !added ==> members == old(members) && matching == known && live == seen && RowsSettled(rows, matching, first)
    {
      matching, live, added := known, seen, false;
      for i := 0 to |rows|
        invariant Valid() && tick >= old(tick) && Accounted(matching, live, first) && old(members) <= members
        invariant OnlyAdopted(old(origins), origins)
        invariant added ==> Unadopted(rows, members) < Unadopted(rows, old(members))
        invariant !added ==> members == old(members) && matching == known && live == seen
        invariant !added ==> RowsSettled(rows[..i], matching, first)
      {
        var adopted: bool;
        matching, live, adopted := AdoptRowAt(rows, i, census, matching, live, first);
        added := added || adopted;
      }
      assert rows[..|rows|] == rows;
    }

    method AdoptRowAt(rows: seq<Row>, i: nat, ghost census: nat, known: seq<nat>, seen: set<int>, ghost first: nat)
      returns (matching: seq<nat>, live: set<int>, added: bool)
      requires Valid() && Accounted(known, seen, first) && first <= census < tick && host.census(census) == Some(rows)
      requires i < |rows|
      modifies this`tick, this`members, this`origins
      ensures !added && old(RowsSettled(rows[..i], known, first)) ==> RowsSettled(rows[..i + 1], matching, first)
      ensures Valid() && tick >= old(tick) && Accounted(matching, live, first) && old(members) <= members
      ensures OnlyAdopted(old(origins), origins)
      ensures added ==> Unadopted(rows, members) < Unadopted(rows, old(members))
      ensures !added ==> members == old(members) && matching == known && live == seen
    {
      ghost var before, tick0 := members, tick;
      assert rows[i] in rows && Row(rows[i].pid, rows[i].parent, rows[i].group) == rows[i];
      matching, live, added := AdoptRow(rows[i], census, known, seen, first);
      if added {
        assert members == before + [members[|before|]];
        AdoptionShrinks(rows, i, before, members[|before|]);
      } else if old(RowsSettled(rows[..i], known, first)) {
        OneMoreSettled(host, expected.pgid, groupOpen, members, matching, rows, i, first, tick0, tick);
      }
    }

    /** Members of the group in the census. */
    predicate GroupSeen(rows: seq<Row>)
    {
      exists r :: r in rows && r.group == expected.pgid
    }

    /** One census: every member and every adoptable row is accounted for. A
        failed census is recorded and counts as empty. */
    method Remaining() returns (matching: seq<nat>, live: set<int>)
      requires Valid()
      modifies this`tick, this`members, this`changed, this`groupOpen, this`signalError, this`censusError, this`events,
               this`origins
      ensures Valid() && tick > old(tick) && OnlyChangesSince(old(events)) && old(changed) <= changed
      ensures old(members) <= members && OnlyAdopted(old(origins), origins) && Accounted(matching, live, old(tick))
      ensures old(signalError).Some? ==> signalError.Some?
      ensures censusError <==> old(censusError) || host.census(old(tick)).None?
      ensures groupOpen <==> old(groupOpen) && expected.pid !in changed && host.census(old(tick)).Some?
                             && GroupSeen(host.census(old(tick)).value)
      ensures host.census(old(tick)).Some? ==> RowsSettled(host.census(old(tick)).value, matching, old(tick))
    {
      ghost var first := tick;
      var answer := host.census(tick);
      tick := tick + 1;
      CapturedLater(first);
      var rows: seq<Row> := [];
      if answer.None? {
        censusError := true;
      } else {
        rows := answer.value;
      }
      matching, live := ObserveFrom(first);
      if expected.pid in changed || !GroupSeen(rows) {
        groupOpen := false;
      }
      if answer.Some? {
        matching, live := AdoptRows(rows, first, matching, live, first);
      }
    }

    method ObserveFrom(ghost first: nat) returns (matching: seq<nat>, live: set<int>)
      requires Valid() && first <= tick
      modifies this`tick, this`changed, this`signalError, this`events
      ensures Valid() && tick >= old(tick) && OnlyChangesSince(old(events)) && old(changed) <= changed
      ensures old(signalError).Some? ==> signalError.Some?
      ensures Accounted(matching, live, first)
    {
      matching, live := ObserveMembers();
      ghost var from := old(tick);
      forall k: nat | k < |members| && members[k].pid !in live ensures GoneWithin(host, members[k].pid, first, tick) {
        var t: nat :| from <= t < tick && SeenGone(host, t, members[k].pid);
      }
    }

    /** Passes until one adds nothing: a child adopted in one pass can bring its
        own children in the next. */
    method AdoptRows(rows: seq<Row>, ghost census: nat, known: seq<nat>, seen: set<int>, ghost first: nat)
      returns (matching: seq<nat>, live: set<int>)
      requires Valid() && Accounted(known, seen, first) && first <= census < tick && host.census(census) == Some(rows)
      modifies this`tick, this`members, this`origins
      ensures Valid() && tick >= old(tick) && Accounted(matching, live, first) && old(members) <= members
      ensures OnlyAdopted(old(origins), origins)
      ensures RowsSettled(rows, matching, first)
    {
      matching, live := known, seen;
      var added := true;
      while added
        invariant Valid() && tick >= old(tick) && Accounted(matching, live, first) && old(members) <= members
        invariant OnlyAdopted(old(origins), origins)
        invariant !added ==> RowsSettled(rows, matching, first)
        decreases Unadopted(rows, members), if added then 1 else 0
      {
        matching, live, added := AdoptPass(rows, census, matching, live, first);
      }
    }

    // -------------------------------------------------------------------------
    // Freezing
    // -------------------------------------------------------------------------

    ghost predicate Fresh()
      reads this
    {
      Valid() && members == [] && changed == {} && signalError.None?
    }

    /** Stops the session leader, looks at it again, and stops its group. */
    method StopRoot() returns (ok: bool)
      requires Fresh()
      modifies this`tick, this`events
      ensures Fresh() && tick > old(tick)
      ensures ok ==> events == old(events) + [Sent(old(tick), expected, Stop), SentGroup(old(tick) + 2, expected.pgid, Stop)]
      ensures ok <==> LeaderStopped(host, expected, old(tick)) && !LeaderStranded(host, expected, old(tick))
      ensures ok ==> tick == old(tick) + 3
      ensures !ok ==>
                events == old(events)
                          + if LeaderStranded(host, expected, old(tick)) then [Sent(old(tick), expected, Stop)] else []
    {
      ghost var events0 := events;
      ghost var first := tick;
      var reply := SignalIdentity(expected, Stop);
      if !reply.Delivered? {
        return false;
      }
      assert events == events0 + [Sent(first, expected, Stop)];
      var observed := host.observe(tick, expected.pid);
      tick := tick + 1;
      if observed != Some(expected) {
        return false;
      }
      ok := host.killGroup(tick, expected.pgid, Stop);
      if ok {
        assert SafeEvent(host, expected, SentGroup(tick, expected.pgid, Stop));
        events := events + [SentGroup(tick, expected.pgid, Stop)];
        assert events == events0 + [Sent(first, expected, Stop), SentGroup(tick, expected.pgid, Stop)];
      }
      tick := tick + 1;
    }

    /** `stopped` lists whom the events stopped one by one since `from`. */
    ghost predicate StopsRecorded(stopped: seq<Identity>, from: nat)
      reads this
    {
      && (forall m :: m in stopped ==> CapturedBefore(host, m, tick) && StoppedIn(events, m))
      && (forall i :: from <= i < |events| ==> !events[i].SentGroup? && !events[i].RollBackBegan?)
      && forall i :: from <= i < |events| && events[i].Sent? && events[i].member != expected ==>
                       events[i].member in stopped
    }

    lemma StoppedLater(before: nat, earlier: seq<Event>, stopped: seq<Identity>)
      requires before <= tick && earlier <= events
      requires forall m :: m in stopped ==> CapturedBefore(host, m, before) && StoppedIn(earlier, m)
      ensures forall m :: m in stopped ==> CapturedBefore(host, m, tick) && StoppedIn(events, m)
    {
      forall m | m in stopped ensures CapturedBefore(host, m, tick) && StoppedIn(events, m) {
        CapturedGrows(host, m, before, tick);
        var t :| Sent(t, m, Stop) in earlier;
        assert Sent(t, m, Stop) in events;
      }
    }

    /** Stops one process outside the group, if it is still there. */
    method StopPending(row: Row, already: seq<Identity>, ghost from: nat) returns (ok: bool, stopped: seq<Identity>)
      requires Fresh() && StopsRecorded(already, from) && from <= |events|
      modifies this`tick, this`events
      ensures Fresh() && tick > old(tick) && old(events) <= events && StopsRecorded(stopped, from)
      ensures already <= stopped
    {
      stopped, ok := already, true;
      ghost var before, earlier := tick, events;
      var t := tick;
      var observed := host.observe(t, row.pid);
      tick := tick + 1;
      if observed.Some? {
        var m := observed.value;
        assert CapturedBefore(host, m, tick);
        var reply := SignalIdentity(m, Stop);
        if reply.Delivered? {
          assert events[|events| - 1] == Sent(tick - 1, m, Stop);
          assert CapturedBefore(host, m, tick) && StoppedIn(events, m);
          stopped := stopped + [m];
        }
        ok := !reply.Mismatch? && !reply.Failed?;
      }
      StoppedLater(before, earlier, already);
    }

    method StopAllPending(rows: seq<Row>, already: seq<Identity>, ghost from: nat) returns (ok: bool, stopped: seq<Identity>)
      requires Fresh() && StopsRecorded(already, from) && from <= |events|
      modifies this`tick, this`events
      ensures Fresh() && tick >= old(tick) && old(events) <= events && StopsRecorded(stopped, from)
    {
      stopped, ok := already, true;
      for i := 0 to |rows|
        invariant Fresh() && tick >= old(tick) && old(events) <= events && StopsRecorded(stopped, from)
      {
        ok, stopped := StopPending(rows[i], stopped, from);
        if !ok {
          return;
        }
      }
    }

    method ObserveScoped(scoped: seq<Row>) returns (all: bool, identities: seq<Identity>)
      requires Fresh()
      modifies this`tick
      ensures Fresh() && tick >= old(tick)
      ensures all ==> |identities| == |scoped|
      ensures all ==> forall i :: 0 <= i < |scoped| ==>
                identities[i].pid == scoped[i].pid && CapturedWithin(host, identities[i], old(tick), tick)
    {
      all, identities := true, [];
      for i := 0 to |scoped|
        invariant Fresh() && tick >= old(tick)
        invariant all ==> |identities| == i
        invariant all ==> forall j :: 0 <= j < i ==>
                    identities[j].pid == scoped[j].pid && CapturedWithin(host, identities[j], old(tick), tick)
      {
        ghost var before := tick;
        var t := tick;
        var observed := host.observe(t, scoped[i].pid);
        tick := tick + 1;
        if all {
          forall j | 0 <= j < i ensures CapturedWithin(host, identities[j], old(tick), tick) {
            CapturedWithinGrows(host, identities[j], old(tick), before, tick);
          }
        }
        if observed.None? {
          all := false;
        } else if all {
          identities := identities + [observed.value];
          assert CapturedWithin(host, observed.value, old(tick), tick);
        }
      }
    }

    /** One census of the stopped group: the tree it shows is captured, unless
        some process outside the group had to be stopped first or went away. */
    method FreezePass(already: seq<Identity>, ghost from: nat)
      returns (verdict: Verdict, stopped: seq<Identity>, ghost census: nat)
      requires Fresh() && StopsRecorded(already, from) && from <= |events|
      modifies this`tick, this`events
      ensures Fresh() && tick > old(tick) && old(events) <= events && StopsRecorded(stopped, from)
      ensures verdict.Frozen? ==>
                Captured(host, expected, census, verdict.identities) && OutsidersStopped(host, expected, census, events)
      ensures verdict.Frozen? ==> forall m :: m in verdict.identities ==> CapturedWithin(host, m, old(tick), tick)
    {
      census := tick;
      stopped := already;
      ghost var before, earlier := tick, events;
      var answer := host.census(tick);
      tick := tick + 1;
      StoppedLater(before, earlier, already);
      if answer.None? {
        return Broken, stopped, census;
      }
      var rows := answer.value;
      var tree := Descendants(rows, GroupMembers(rows, expected.pid, expected.pgid));
      var scoped := Scoped(rows, tree);
      var pending := Pending(scoped, expected.pgid, MemberPids(stopped));
      assert |pending| == 0 ==>
          forall r :: r in scoped && r.group != expected.pgid ==> r.pid in MemberPids(stopped) by {
        forall r | r in scoped && r.group != expected.pgid && r.pid !in MemberPids(stopped) ensures r in pending {
        }
      }
      if |pending| > 0 {
        var ok;
        ok, stopped := StopAllPending(pending, stopped, from);
        return if ok then Again else Broken, stopped, census;
      }
      ghost var looked := tick;
      verdict := CaptureTree(rows, tree, census, stopped, from);
      if verdict.Frozen? {
        forall m | m in verdict.identities ensures CapturedWithin(host, m, old(tick), tick) {
          var c: nat :| looked <= c < tick && host.observe(c, m.pid) == Some(m);
        }
      }
    }

    /** Looks at every process of a tree whose outsiders are all stopped. */
    method CaptureTree(rows: seq<Row>, tree: set<int>, ghost census: nat, stopped: seq<Identity>, ghost from: nat)
      returns (verdict: Verdict)
      requires Fresh() && StopsRecorded(stopped, from) && host.census(census) == Some(rows)
      requires IsTree(rows, GroupMembers(rows, expected.pid, expected.pgid), tree)
      requires forall r :: r in Scoped(rows, tree) && r.group != expected.pgid ==> r.pid in MemberPids(stopped)
      modifies this`tick
      ensures Fresh() && tick >= old(tick) && StopsRecorded(stopped, from) && !verdict.Broken?
      ensures verdict.Frozen? ==>
                Captured(host, expected, census, verdict.identities) && OutsidersStopped(host, expected, census, events)
      ensures verdict.Frozen? ==> forall m :: m in verdict.identities ==> CapturedWithin(host, m, old(tick), tick)
    {
      ghost var before := tick;
      var scoped := Scoped(rows, tree);
      var all, identities := ObserveScoped(scoped);
      StoppedLater(before, events, stopped);
      if !all || expected !in identities {
        return Again;
      }
      assert DistinctRows(rows);
      FrozenIsCaptured(census, tree, scoped, identities);
      OutsidersAreStopped(census, tree, scoped, stopped);
      return Verdict.Frozen(identities);
    }

    lemma FrozenIsCaptured(census: nat, tree: set<int>, scoped: seq<Row>, identities: seq<Identity>)
      requires host.census(census).Some? && DistinctRows(host.census(census).value) && expected in identities
      requires var rows := host.census(census).value;
               IsTree(rows, GroupMembers(rows, expected.pid, expected.pgid), tree) && scoped == Scoped(rows, tree)
      requires |identities| == |scoped| && forall i :: 0 <= i < |scoped| ==> identities[i].pid == scoped[i].pid
      ensures Captured(host, expected, census, identities)
    {
      var rows := host.census(census).value;
      ScopedDistinct(rows, tree);
      forall m | m in identities ensures InFrozenTree(host, expected, census, m.pid) {
        var i :| 0 <= i < |identities| && identities[i] == m;
        assert scoped[i] in scoped;
        TreeIsFrozenTree(host, expected, census, tree, m.pid);
      }
      forall r | r in rows && InFrozenTree(host, expected, census, r.pid) ensures r.pid in MemberPids(identities) {
        TreeIsFrozenTree(host, expected, census, tree, r.pid);
        assert r in scoped;
        var i :| 0 <= i < |scoped| && scoped[i] == r;
        assert identities[i] in identities;
      }
    }

    lemma OutsidersAreStopped(census: nat, tree: set<int>, scoped: seq<Row>, stopped: seq<Identity>)
      requires host.census(census).Some?
      requires var rows := host.census(census).value;
               IsTree(rows, GroupMembers(rows, expected.pid, expected.pgid), tree) && scoped == Scoped(rows, tree)
      requires forall r :: r in scoped && r.group != expected.pgid ==> r.pid in MemberPids(stopped)
      requires forall m :: m in stopped ==> StoppedIn(events, m)
      ensures OutsidersStopped(host, expected, census, events)
    {
      var rows := host.census(census).value;
      forall r | r in rows && r.group != expected.pgid && InFrozenTree(host, expected, census, r.pid)
        ensures exists m: Identity :: m.pid == r.pid && StoppedIn(events, m)
      {
        TreeIsFrozenTree(host, expected, census, tree, r.pid);
        assert r in scoped;
        var m :| m in stopped && m.pid == r.pid;
        assert StoppedIn(events, m);
      }
    }

    /** What the events hold before a rollback begins: stops only, of the leader,
        its group and the listed processes. */
    ghost predicate OnlyStops(stopped: seq<Identity>)
      reads this
    {
      && (forall i :: 0 <= i < |events| && events[i].Sent? ==> events[i].member == expected || events[i].member in stopped)
      && (forall i :: 0 <= i < |events| ==> !events[i].RollBackBegan?)
      && (forall i :: 0 <= i < |events| && events[i].SentGroup? ==> events[i].signal.Stop?)
    }

    /** Continues whatever was stopped; failures are ignored. */
    method RollBack(stopped: seq<Identity>)
      requires Fresh() && OnlyStops(stopped) && forall m :: m in stopped ==> CapturedBefore(host, m, tick)
      requires exists i :: 0 <= i < |events| && IsStop(events[i])
      modifies this`tick, this`events
      ensures Fresh() && tick >= old(tick) && old(events) + [RollBackBegan(old(tick), stopped)] <= events
      ensures StopsUndone(host, expected, events) <==> RollbackHeard(host, expected, old(tick), stopped)
      ensures RollbacksHeard(host, expected, events) <==> RollbackHeard(host, expected, old(tick), stopped)
    {
      ghost var began, earlier := tick, events;
      events := events + [RollBackBegan(began, stopped)];
      for k := 0 to |stopped|
        invariant Fresh() && tick == began + k && earlier + [RollBackBegan(began, stopped)] <= events
        invariant forall m :: m in stopped ==> CapturedBefore(host, m, tick)
        invariant forall j :: |earlier| < j < |events| ==> events[j].Sent? && events[j].signal.Continue?
        invariant forall j: nat :: j < k ==> Tried(host, events, stopped[j], Continue, began + j)
      {
        ghost var before := tick;
        assert stopped[k] in stopped;
        var reply := SignalIdentity(stopped[k], Continue);
        forall n | n in stopped ensures CapturedBefore(host, n, tick) {
          CapturedGrows(host, n, before, tick);
        }
      }
      ghost var continued := events;
      ContinueGroup();
      RollbackMeans(earlier, continued, began, stopped);
    }

    method ContinueGroup()
      requires Fresh()
      modifies this`tick, this`events
      ensures Fresh() && tick >= old(tick)
      ensures events == old(events) + if LeaderHeard(host, expected, old(tick))
                        then [SentGroup(old(tick) + 1, expected.pgid, Continue)] else []
    {
      var t := tick;
      var observed := host.observe(t, expected.pid);
      tick := tick + 2;
      if observed == Some(expected) && host.killGroup(t + 1, expected.pgid, Continue) {
        assert SafeEvent(host, expected, SentGroup(t + 1, expected.pgid, Continue));
        events := events + [SentGroup(t + 1, expected.pgid, Continue)];
      }
    }

    /** The events of a rollback say exactly whether it was let through. */
    lemma RollbackMeans(earlier: seq<Event>, continued: seq<Event>, began: nat, stopped: seq<Identity>)
      requires Fresh() && earlier + [RollBackBegan(began, stopped)] <= continued
      requires exists i :: 0 <= i < |earlier| && IsStop(earlier[i])
      requires forall i :: 0 <= i < |earlier| && earlier[i].Sent? ==>
                 earlier[i].member == expected || earlier[i].member in stopped
      requires forall i :: 0 <= i < |earlier| ==> !earlier[i].RollBackBegan?
      requires forall i :: 0 <= i < |earlier| && earlier[i].SentGroup? ==> earlier[i].signal.Stop?
      requires forall j :: |earlier| < j < |continued| ==> continued[j].Sent? && continued[j].signal.Continue?
      requires forall k: nat :: k < |stopped| ==> Tried(host, continued, stopped[k], Continue, began + k)
      requires events == continued + if LeaderHeard(host, expected, began + |stopped|)
                           then [SentGroup(began + |stopped| + 1, expected.pgid, Continue)] else []
      ensures StopsUndone(host, expected, events) <==> RollbackHeard(host, expected, began, stopped)
      ensures RollbacksHeard(host, expected, events) <==> RollbackHeard(host, expected, began, stopped)
    {
      var n := |earlier|;
      assert events[n] == RollBackBegan(began, stopped);
      forall i | 0 <= i < |events| ensures events[i].RollBackBegan? <==> i == n {
        if i < n {
          assert events[i] == earlier[i];
        }
      }
      forall k: nat | k < |stopped|
        ensures ReleasedAt(host, events, stopped[k], began + k) <==>
                (SeenAs(host, began + k, stopped[k]) ==> !host.kill(began + k, stopped[k].pid, Continue).Refused?)
      {
        assert Tried(host, events, stopped[k], Continue, began + k);
        ReleasedIff(host, expected, events, stopped[k], began + k);
      }
      GroupContinuedIff(earlier, continued, began, stopped);
      var i :| 0 <= i < n && IsStop(earlier[i]);
      assert events[i] == earlier[i];
      assert UndoneFrom(host, expected, events, n) <==> RollbackHeard(host, expected, began, stopped) by {
        assert forall j :: 0 <= j < n ==> events[j] == earlier[j];
      }
    }

    lemma GroupContinuedIff(earlier: seq<Event>, continued: seq<Event>, began: nat, stopped: seq<Identity>)
      requires earlier + [RollBackBegan(began, stopped)] <= continued
      requires forall i :: 0 <= i < |earlier| && earlier[i].SentGroup? ==> earlier[i].signal.Stop?
      requires forall j :: |earlier| < j < |continued| ==> continued[j].Sent? && continued[j].signal.Continue?
      requires events == continued + if LeaderHeard(host, expected, began + |stopped|)
                           then [SentGroup(began + |stopped| + 1, expected.pgid, Continue)] else []
      ensures GroupContinued(events, expected.pgid) <==> LeaderHeard(host, expected, began + |stopped|)
    {
      if LeaderHeard(host, expected, began + |stopped|) {
        assert SentGroup(began + |stopped| + 1, expected.pgid, Continue) in events;
      }
      assert continued[|earlier|] == RollBackBegan(began, stopped);
      forall i | 0 <= i < |continued| ensures continued[i].SentGroup? ==> continued[i].signal.Stop? {
        if i < |earlier| {
          assert continued[i] == earlier[i];
        }
      }
    }

    /** Freezes the tree, or fails. A failed freeze has undone its stops if and
        only if the leader was not stranded before the rollback is armed and the
        system let the rollback through: a group whose leader is gone or changed
        by then stays stopped. */
    method FreezeTree() returns (frozen: Option<seq<Identity>>, ghost census: nat)
      requires Fresh() && events == []
      modifies this`tick, this`events
      ensures Fresh() && tick >= old(tick)
      ensures frozen.Some? ==>
                Captured(host, expected, census, frozen.value) && OutsidersStopped(host, expected, census, events)
      ensures frozen.Some? ==> forall m :: m in frozen.value ==> CapturedWithin(host, m, old(tick) + 3, tick)
      ensures frozen.Some? ==> LeaderStopped(host, expected, old(tick)) && !LeaderStranded(host, expected, old(tick))
      ensures frozen.None? ==>
                (StopsUndone(host, expected, events) <==>
                 !LeaderStranded(host, expected, old(tick)) && RollbacksHeard(host, expected, events))
      ensures frozen.None? && LeaderStopped(host, expected, old(tick)) && !LeaderStranded(host, expected, old(tick)) ==>
                exists began, stopped :: began >= old(tick) + 3 && RollBackBegan(began, stopped) in events
      ensures LeaderStranded(host, expected, old(tick)) ==> events == [Sent(old(tick), expected, Stop)]
    {
      census := 0;
      var ok := StopRoot();
      if ok {
        assert events[0] == Sent(old(tick), expected, Stop) && events[1] == SentGroup(old(tick) + 2, expected.pgid, Stop);
        frozen, census := FreezeStopped();
      } else {
        frozen := None;
        NothingBegan(host, expected, events);
      }
    }

    /** From the stopped leader and group: the passes, and on failure the rollback. */
    method FreezeStopped() returns (frozen: Option<seq<Identity>>, ghost census: nat)
      requires Fresh() && OnlyStops([]) && |events| > 0 && IsStop(events[0])
      modifies this`tick, this`events
      ensures Fresh() && tick >= old(tick)
      ensures frozen.Some? ==>
                Captured(host, expected, census, frozen.value) && OutsidersStopped(host, expected, census, events)
      ensures frozen.Some? ==> forall m :: m in frozen.value ==> CapturedWithin(host, m, old(tick), tick)
      ensures frozen.None? ==> (StopsUndone(host, expected, events) <==> RollbacksHeard(host, expected, events))
      ensures frozen.None? ==> exists began, stopped :: began >= old(tick) && RollBackBegan(began, stopped) in events
    {
      ghost var stops := events;
      var stopped;
      frozen, stopped, census := FreezePasses(|events|);
      assert events[0] == stops[0];
      if frozen.None? {
        ghost var began, before := tick, events;
        RollBack(stopped);
        assert events[|before|] == RollBackBegan(began, stopped);
      }
    }

    /** Up to eight passes; without a capture the listed processes are stopped. */
    method FreezePasses(ghost from: nat) returns (frozen: Option<seq<Identity>>, stopped: seq<Identity>, ghost census: nat)
      requires Fresh() && from == |events| && OnlyStops([])
      modifies this`tick, this`events
      ensures Fresh() && tick >= old(tick) && old(events) <= events
      ensures frozen.Some? ==>
                Captured(host, expected, census, frozen.value) && OutsidersStopped(host, expected, census, events)
      ensures frozen.Some? ==> forall m :: m in frozen.value ==> CapturedWithin(host, m, old(tick), tick)
      ensures frozen.None? ==> OnlyStops(stopped) && forall m :: m in stopped ==> CapturedBefore(host, m, tick)
    {
      stopped, census := [], 0;
      ghost var start, first := events, tick;
      for pass := 0 to FREEZE_PASSES
        invariant Fresh() && tick >= first && StopsRecorded(stopped, from) && start <= events
      {
        var verdict: Verdict;
        ghost var before := tick;
        verdict, stopped, census := FreezePass(stopped, from);
        match verdict
        case Frozen(identities) =>
          forall m | m in identities ensures CapturedWithin(host, m, first, tick) {
            var c: nat :| before <= c < tick && host.observe(c, m.pid) == Some(m);
          }
          return Some(identities), stopped, census;
        case Broken => break;
        case Again =>
      }
      frozen := None;
      assert forall i :: 0 <= i < from ==> events[i] == start[i];
    }

    // -------------------------------------------------------------------------
    // Termination
    // -------------------------------------------------------------------------

    ghost predicate Asked()
      reads this
    {
      AskedToStop(host, members, origins, changed, events, askedFrom, tick)
    }

    /** The frozen members become the first members, then each is told to
        terminate and to continue. */
    method AskMembers(frozen: seq<Identity>, ghost census: nat)
      requires Fresh() && Captured(host, expected, census, frozen)
      requires forall m :: m in frozen ==> CapturedBefore(host, m, tick)
      modifies this`tick, this`members, this`changed, this`signalError, this`events, this`origins, this`askedFrom
      ensures Valid() && Asked() && tick >= old(tick) == askedFrom && members == frozen && old(events) <= events
    {
      members, askedFrom := frozen, tick;
      origins := seq(|frozen|, i requires 0 <= i < |frozen| => Origin.Frozen(census));
      forall k: nat | k < |members| ensures Justified(host, expected, members, k, origins[k]) {
        assert members[k] in frozen;
      }
      var everyone := seq(|frozen|, i requires 0 <= i < |frozen| => i as nat);
      SignalAll(everyone, Terminate);
      ghost var tick0, events0 := tick, events;
      SignalAll(everyone, Continue);
      forall k: nat | k < |members| && members[k].pid !in changed
        ensures TriedWithin(host, events, members[k], Terminate, askedFrom, tick)
        ensures TriedWithin(host, events, members[k], Continue, askedFrom, tick)
      {
        assert everyone[k] == k;
        WidenTried(members[k], Terminate, events0, old(tick), tick0);
        WidenTried(members[k], Continue, events, tick0, tick);
      }
    }

    lemma WidenTried(m: Identity, signal: Signal, earlier: seq<Event>, first: nat, end: nat)
      requires TriedWithin(host, earlier, m, signal, first, end) && earlier <= events && askedFrom <= first && end <= tick
      ensures TriedWithin(host, events, m, signal, askedFrom, tick)
    {
      var t: nat :| first <= t < end && Tried(host, earlier, m, signal, t);
      assert Tried(host, events, m, signal, t);
    }

    /** Everything a later step may add to: the record of a run only grows. */
    twostate predicate Grows()
      reads this
    {
      && old(members) <= members && OnlyAdopted(old(origins), origins) && old(changed) <= changed
      && old(events) <= events && old(tick) <= tick && askedFrom == old(askedFrom)
      && (old(censusError) ==> censusError) && (old(signalError).Some? ==> signalError.Some?)
    }

    twostate lemma StillAsked()
      requires old(Valid()) && old(Asked()) && Grows()
      ensures Asked()
    {
      AskedGrows(
        host, old(members), old(origins), old(changed), old(events), askedFrom, old(tick), members, origins, changed, events, tick);
    }

    /** Waits, sending no signal, until the time is up or every member is seen
        gone. */
    method Wait(grace: real)
      requires Valid() && Asked() && ClockAdvances(host)
      modifies this`tick, this`members, this`changed, this`groupOpen, this`signalError, this`censusError, this`events,
               this`origins
      ensures Valid() && Asked() && Grows() && OnlyChangesSince(old(events))
      ensures host.now(tick) >= host.now(old(tick)) + grace
              || forall m :: m in members ==> GoneWithin(host, m.pid, old(tick), tick)
    {
      var deadline := host.now(tick) + grace;
      tick := tick + 1;
      CapturedLater(old(tick));
      StillAsked();
      assert EventuallyPast(host, deadline);
      ghost var bound: nat :| PastFrom(host, deadline, bound);
      while host.now(tick) < deadline
        invariant Valid() && Asked() && Grows() && OnlyChangesSince(old(events))
        decreases bound - tick
      {
        ghost var first := tick;
        label Pass:
        var matching, live := Remaining();
        StillAsked@Pass();
        if live == {} {
          NoneIsLive(matching, first, old(tick));
          break;
        }
      }
    }

    lemma NoneIsLive(matching: seq<nat>, first: nat, from: nat)
      requires Accounted(matching, {}, first) && from <= first
      ensures forall m :: m in members ==> GoneWithin(host, m.pid, from, tick)
    {
      forall m | m in members ensures GoneWithin(host, m.pid, from, tick) {
        var k: nat :| k < |members| && members[k] == m;
        var t: nat :| first <= t < tick && SeenGone(host, t, m.pid);
      }
    }

    /** Kills what each new census shows, at most sixty-four times or for a
        second, but at least once: every member was seen gone, found changed, or
        had a kill tried on it. */
    method KillRounds()
      requires Valid() && Asked()
      modifies this`tick, this`members, this`changed, this`groupOpen, this`signalError, this`censusError, this`events,
               this`origins
      ensures Valid() && Asked() && Grows()
      ensures KilledOrGone(host, members, changed, events, old(tick), tick)
    {
      ghost var from := tick;
      var deadline := host.now(tick) + KILL_SECONDS;
      tick := tick + 1;
      CapturedLater(old(tick));
      StillAsked();
      for pass := 0 to KILL_PASSES
        invariant Valid() && Asked() && Grows() && from < tick
        invariant pass > 0 ==> KilledOrGone(host, members, changed, events, from, tick)
      {
        ghost var first := tick;
        var empty := KillRound();
        KilledGrows(host, members, changed, changed, events, events, from, first, tick, tick);
        if empty || host.now(tick) >= deadline {
          break;
        }
      }
    }

    /** One census; every live member whose identity still matches is killed. With
        nobody live there is nobody to signal. */
    method KillRound() returns (empty: bool)
      requires Valid() && Asked()
      modifies this`tick, this`members, this`changed, this`groupOpen, this`signalError, this`censusError, this`events,
               this`origins
      ensures Valid() && Asked() && Grows()
      ensures KilledOrGone(host, members, changed, events, old(tick), tick)
    {
      ghost var first := tick;
      label Census:
      var matching, live := Remaining();
      StillAsked@Census();
      empty := live == {};
      ghost var before, from := changed, tick;
      KillMatching(matching, live, first);
      RoundCovers(host, members, before, changed, events, matching, live, first, from, tick);
    }

    method KillMatching(matching: seq<nat>, ghost live: set<int>, ghost first: nat)
      requires Valid() && Asked() && Accounted(matching, live, first)
      modifies this`tick, this`changed, this`signalError, this`events
      ensures Valid() && Asked() && Grows()
      ensures KilledFrom(host, members, changed, events, matching, old(tick), tick)
    {
      MatchingInRange(matching, live, first);
      SignalAll(matching, Kill);
      StillAsked();
      assert KilledFrom(host, members, changed, events, matching, old(tick), tick) by {
        forall k | k in matching && members[k].pid !in changed
          ensures TriedWithin(host, events, members[k], Kill, old(tick), tick)
        {
          var i :| 0 <= i < |matching| && matching[i] == k;
        }
      }
    }

    lemma MatchingInRange(matching: seq<nat>, live: set<int>, first: nat)
      requires Accounted(matching, live, first)
      ensures forall i :: 0 <= i < |matching| ==> matching[i] < |members|
    {
      forall i | 0 <= i < |matching| ensures matching[i] < |members| {
        assert matching[i] in matching;
      }
    }

    /** `terminate_attributable_tree`. Whatever happens, signals reach captured
        incarnations only and never a pid that changed. Once the tree is frozen
        every frozen member is told to terminate, and every member known before
        the last census is seen gone, found changed, or has a kill tried on it. A
        normal return means that no identity ever changed, every census succeeded,
        and the last one left nobody. */
    method TerminateTree(grace: real) returns (outcome: Outcome, ghost lastCensus: nat, ghost known: nat)
      requires Fresh() && events == [] && !censusError && ClockAdvances(host)
      modifies this`tick, this`members, this`changed, this`groupOpen, this`signalError, this`censusError, this`events,
               this`origins, this`askedFrom
      ensures Valid() && lastCensus <= tick
      ensures outcome.NotLeader? ==> events == []
      ensures outcome.NotFrozen? ==>
                && members == []
                && (StopsUndone(host, expected, events) <==>
                    !LeaderStranded(host, expected, old(tick) + 1) && RollbacksHeard(host, expected, events))
      ensures outcome.Survived? ==> outcome.pids != {} && outcome.pids <= MemberPids(members)
      ensures outcome.SignalFailed? ==> signalError == Some(outcome.fault)
      ensures !outcome.NotLeader? && !outcome.NotFrozen? ==>
                && expected in members && Asked() && known <= |members|
                && KilledOrGone(host, members[..known], changed, events, askedFrom, tick)
                && forall k :: known <= k < |members| ==> !origins[k].Frozen?
      ensures outcome.Done? ==>
                && changed == {} && signalError.None? && !censusError
                && NobodyLeft(host, expected, groupOpen, members, lastCensus, tick)
    {
      lastCensus, known := 0, 0;
      if expected.pid != expected.pgid {
        return NotLeader, 0, 0;
      }
      var session := host.session(tick, expected.pid);
      tick := tick + 1;
      CapturedLater(old(tick));
      if session != Some(expected.pid) {
        return NotLeader, 0, 0;
      }
      ghost var census;
      var frozen;
      ghost var froze := tick;
      frozen, census := FreezeTree();
      if frozen.None? {
        return NotFrozen, 0, 0;
      }
      forall m | m in frozen.value ensures CapturedBefore(host, m, tick) {
        CapturedWithinGrows(host, m, froze + 3, tick, tick);
      }
      AskMembers(frozen.value, census);
      assert expected in members;
      outcome, lastCensus, known := Finish(grace);
    }

    method Finish(grace: real) returns (outcome: Outcome, ghost lastCensus: nat, ghost known: nat)
      requires Valid() && Asked() && ClockAdvances(host)
      modifies this`tick, this`members, this`changed, this`groupOpen, this`signalError, this`censusError, this`events,
               this`origins
      ensures Valid() && Asked() && Grows() && lastCensus <= tick
      ensures known <= |members| && KilledOrGone(host, members[..known], changed, events, old(tick), tick)
      ensures forall k :: known <= k < |members| ==> !origins[k].Frozen?
      ensures !outcome.NotLeader? && !outcome.NotFrozen?
      ensures outcome.Survived? ==> outcome.pids != {} && outcome.pids <= MemberPids(members)
      ensures outcome.SignalFailed? ==> signalError == Some(outcome.fault)
      ensures outcome.Done? ==>
                && changed == {} && signalError.None? && !censusError
                && NobodyLeft(host, expected, groupOpen, members, lastCensus, tick)
    {
      Wait(grace);
      ghost var from := tick;
      KillRounds();
      lastCensus, known := tick, |members|;
      ghost var before, earlier, killed := changed, events, members;
      label Last:
      var matching, live := Remaining();
      StillAsked@Last();
      assert members[..known] == killed;
      KilledGrows(host, killed, before, changed, earlier, events, old(tick), from, lastCensus, tick);
      if live != {} {
        return Survived(live), lastCensus, known;
      }
      if censusError {
        return CensusFailed, lastCensus, known;
      }
      if signalError.Some? {
        return SignalFailed(signalError.value), lastCensus, known;
      }
      EmptyCensus(host, expected, groupOpen, members, changed, matching, lastCensus, tick);
      return Done, lastCensus, known;
    }
  }

  /** A freeze whose leader is killed once its group is stopped fails and leaves
      the group stopped. */
  method FreezeOfVanishingLeader(expected: Identity) returns (run: Run, frozen: Option<seq<Identity>>)
    ensures run.host == VanishingHost(expected, 0) && run.expected == expected
    ensures frozen.None?
    ensures !LeaderStranded(run.host, expected, 0) && !StopsUndone(run.host, expected, run.events)
  {
    LeaderCanVanish(expected, 0, 2, []);
    run := new Run(VanishingHost(expected, 0), expected);
    ghost var census;
    frozen, census := run.FreezeTree();
    ghost var began, stopped :| began >= 3 && RollBackBegan(began, stopped) in run.events;
    LeaderCanVanish(expected, 0, began, stopped);
  }

  datatype Verdict = Broken | Again | Frozen(identities: seq<Identity>)
}
