/** Processes as the board observes and signals them
    (`scripts/python/board_process_truth.py`). */
module ProcessTree {
  import opened Values

  /** What one observation of a live process shows. */
  datatype Identity = Identity(pid: int, pgid: int, startToken: string, argvHash: string)

  /** A census row: pid, parent pid, process group. */
  datatype Row = Row(pid: int, parent: int, group: int)

  datatype Signal = Stop | Continue | Terminate | Kill

  datatype KillResult = Delivered | NoSuchProcess | Refused

  /** Everything the operating system answers, at the tick it is asked: other
      processes may fork, exit, regroup or reuse pids between any two ticks. */
  datatype Host = Host(
    observe: (nat, int) -> Option<Identity>,
    census: nat -> Option<seq<Row>>,
    kill: (nat, int, Signal) -> KillResult,
    killGroup: (nat, int, Signal) -> bool,
    session: (nat, int) -> Option<int>,
    now: nat -> real)

  ghost predicate Consistent(host: Host)
  {
    && (forall t, pid :: host.observe(t, pid).Some? ==> host.observe(t, pid).value.pid == pid)
    && (forall t, i, j :: host.census(t).Some? && 0 <= i < j < |host.census(t).value| ==>
          host.census(t).value[i].pid != host.census(t).value[j].pid)
  }

  /** The clock passes every deadline. */
  ghost predicate ClockAdvances(host: Host)
  {
    forall deadline: real :: EventuallyPast(host, deadline)
  }

  ghost predicate EventuallyPast(host: Host, deadline: real)
  {
    exists b: nat :: PastFrom(host, deadline, b)
  }

  ghost predicate PastFrom(host: Host, deadline: real, b: nat)
  {
    forall t: nat :: t >= b ==> host.now(t) >= deadline
  }

  /** The same incarnation; the group is routing information only. */
  predicate SameProcess(a: Identity, b: Identity)
  {
    a.pid == b.pid && a.startToken == b.startToken && a.argvHash == b.argvHash
  }

  predicate SeenAs(host: Host, t: nat, m: Identity)
  {
    host.observe(t, m.pid).Some? && SameProcess(m, host.observe(t, m.pid).value)
  }

  predicate SeenGone(host: Host, t: nat, pid: int)
  {
    host.observe(t, pid).None?
  }

  // ---------------------------------------------------------------------------
  // Descendants
  // ---------------------------------------------------------------------------

  predicate ClosedUnder(rows: seq<Row>, pids: set<int>)
  {
    forall i :: 0 <= i < |rows| && rows[i].parent in pids ==> rows[i].pid in pids
  }

  /** The least set that holds the seeds and every child of a member. */
  ghost predicate IsTree(rows: seq<Row>, seeds: set<int>, tree: set<int>)
  {
    && seeds <= tree && ClosedUnder(rows, tree)
    && forall pids: set<int> :: seeds <= pids && ClosedUnder(rows, pids) ==> tree <= pids
  }

  function PidsOf(rows: seq<Row>): set<int>
  {
    set r | r in rows :: r.pid
  }

  function GroupMembers(rows: seq<Row>, root: int, pgid: int): set<int>
  {
    {root} + set r | r in rows && r.group == pgid :: r.pid
  }

  function ChildrenOf(rows: seq<Row>, pids: set<int>): set<int>
  {
    set r | r in rows && r.parent in pids :: r.pid
  }

  method Descendants(rows: seq<Row>, seeds: set<int>) returns (tree: set<int>)
    ensures IsTree(rows, seeds, tree)
  {
    tree := seeds;
    while true
      invariant seeds <= tree <= seeds + PidsOf(rows)
      invariant forall pids: set<int> :: seeds <= pids && ClosedUnder(rows, pids) ==> tree <= pids
      decreases |(seeds + PidsOf(rows)) - tree|
    {
      var found := tree + ChildrenOf(rows, tree);
      if found == tree {
        ChildrenInside(rows, tree);
        return;
      }
      GrowthIsForced(rows, seeds, tree, found);
      Shrinks(seeds + PidsOf(rows), tree, found);
      tree := found;
    }
  }

  lemma ChildrenInside(rows: seq<Row>, tree: set<int>)
    requires ChildrenOf(rows, tree) <= tree
    ensures ClosedUnder(rows, tree)
  {
    forall i | 0 <= i < |rows| && rows[i].parent in tree ensures rows[i].pid in tree {
      assert rows[i] in rows;
      assert rows[i].pid in ChildrenOf(rows, tree);
    }
  }

  lemma GrowthIsForced(rows: seq<Row>, seeds: set<int>, tree: set<int>, found: set<int>)
    requires found == tree + ChildrenOf(rows, tree)
    requires forall pids: set<int> :: seeds <= pids && ClosedUnder(rows, pids) ==> tree <= pids
    ensures forall pids: set<int> :: seeds <= pids && ClosedUnder(rows, pids) ==> found <= pids
  {
    forall pids: set<int> | seeds <= pids && ClosedUnder(rows, pids) ensures found <= pids {
      forall p | p in ChildrenOf(rows, tree) ensures p in pids {
        var r :| r in rows && r.parent in tree && r.pid == p;
        var i :| 0 <= i < |rows| && rows[i] == r;
      }
    }
  }

  lemma Shrinks(all: set<int>, before: set<int>, after: set<int>)
    requires before < after <= all
    ensures |all - after| < |all - before|
  {
    var added := after - before;
    assert after == before + added;
    assert |added| != 0;
    assert all - before == (all - after) + added && (all - after) !! added;
  }

  // ---------------------------------------------------------------------------
  // What a teardown did
  // ---------------------------------------------------------------------------

  datatype Event =
    | Sent(tick: nat, member: Identity, signal: Signal)
    | SentGroup(tick: nat, group: int, signal: Signal)
    | Changed(pid: int)
    | RollBackBegan(tick: nat, stopped: seq<Identity>)

  /** Seen as exactly this before `t`. */
  ghost predicate CapturedBefore(host: Host, m: Identity, t: nat)
  {
    exists c: nat :: c < t && host.observe(c, m.pid) == Some(m)
  }

  lemma CapturedGrows(host: Host, m: Identity, before: nat, later: nat)
    requires CapturedBefore(host, m, before) && before <= later
    ensures CapturedBefore(host, m, later)
  {
    var c: nat :| c < before && host.observe(c, m.pid) == Some(m);
  }

  /** Seen as exactly this between `first` and `end`. */
  ghost predicate CapturedWithin(host: Host, m: Identity, first: nat, end: nat)
  {
    exists c: nat :: first <= c < end && host.observe(c, m.pid) == Some(m)
  }

  lemma CapturedWithinGrows(host: Host, m: Identity, first: nat, before: nat, later: nat)
    requires CapturedWithin(host, m, first, before) && before <= later
    ensures CapturedWithin(host, m, first, later) && CapturedBefore(host, m, later)
  {
    var c: nat :| first <= c < before && host.observe(c, m.pid) == Some(m);
  }

  /** A signal to one process was delivered to the captured incarnation, seen
      alive at the moment of sending; a group signal was delivered on the very
      next tick after the group's leader was seen exactly as expected. */
  ghost predicate SafeEvent(host: Host, expected: Identity, e: Event)
  {
    match e
    case Sent(t, m, signal) =>
      && SeenAs(host, t, m) && host.kill(t, m.pid, signal).Delivered?
      && (m == expected || CapturedBefore(host, m, t))
    case SentGroup(t, group, signal) =>
      && group == expected.pgid && host.killGroup(t, group, signal)
      && t > 0 && host.observe(t - 1, expected.pid) == Some(expected)
    case _ => true
  }

  ghost predicate SafeEvents(host: Host, expected: Identity, events: seq<Event>)
  {
    forall i :: 0 <= i < |events| ==> SafeEvent(host, expected, events[i])
  }

  /** Once a pid is marked changed, nothing is sent to it any more. */
  predicate NeverAfterChange(events: seq<Event>)
  {
    forall i, j :: 0 <= i < j < |events| && events[i].Changed? && events[j].Sent? ==>
      events[j].member.pid != events[i].pid
  }

  /** A signal to `m` was tried at `t`: sent unless the process was gone, replaced
      or the system refused. */
  ghost predicate Tried(host: Host, events: seq<Event>, m: Identity, signal: Signal, t: nat)
  {
    SeenAs(host, t, m) && host.kill(t, m.pid, signal).Delivered? ==> Sent(t, m, signal) in events
  }

  ghost predicate TriedWithin(host: Host, events: seq<Event>, m: Identity, signal: Signal, first: nat, end: nat)
  {
    exists t: nat :: first <= t < end && Tried(host, events, m, signal, t)
  }

  lemma TriedGrows(host: Host, events: seq<Event>, more: seq<Event>, m: Identity, signal: Signal, first: nat, end: nat, later: nat)
    requires TriedWithin(host, events, m, signal, first, end) && events <= more && end <= later
    ensures TriedWithin(host, more, m, signal, first, later)
  {
    var t: nat :| first <= t < end && Tried(host, events, m, signal, t);
    assert Tried(host, more, m, signal, t);
  }

  ghost predicate GoneWithin(host: Host, pid: int, first: nat, end: nat)
  {
    exists t: nat :: first <= t < end && SeenGone(host, t, pid)
  }

  lemma GoneGrows(host: Host, pid: int, first: nat, end: nat, later: nat)
    requires GoneWithin(host, pid, first, end) && end <= later
    ensures GoneWithin(host, pid, first, later)
  {
    var t: nat :| first <= t < end && SeenGone(host, t, pid);
  }

  // ---------------------------------------------------------------------------
  // Why a process counts as a member
  // ---------------------------------------------------------------------------

  /** How a member was attributed: in the frozen tree at a census, in the open
      group at a census and when seen, or child of an earlier member seen alive
      after it. */
  datatype Origin =
    | Frozen(census: nat)
    | InGroup(census: nat, seen: nat)
    | ChildOf(parent: nat, census: nat, seen: nat, checked: nat)

  ghost predicate RowAt(host: Host, t: nat, pid: int, parent: int, group: int)
  {
    host.census(t).Some? && Row(pid, parent, group) in host.census(t).value
  }

  ghost predicate InFrozenTree(host: Host, expected: Identity, t: nat, pid: int)
  {
    && host.census(t).Some?
    && forall tree :: IsTree(host.census(t).value, GroupMembers(host.census(t).value, expected.pid, expected.pgid), tree)
                      ==> pid in tree
  }

  ghost predicate Justified(host: Host, expected: Identity, members: seq<Identity>, k: nat, origin: Origin)
    requires k < |members|
  {
    var m := members[k];
    match origin
    case Frozen(t) => InFrozenTree(host, expected, t, m.pid)
    case InGroup(t, seen) =>
      && t < seen && (exists parent :: RowAt(host, t, m.pid, parent, expected.pgid))
      && host.observe(seen, m.pid) == Some(m) && m.pgid == expected.pgid
    case ChildOf(parent, t, seen, checked) =>
      && parent < k && t < seen < checked && (exists group :: RowAt(host, t, m.pid, members[parent].pid, group))
      && host.observe(seen, m.pid) == Some(m) && SeenAs(host, checked, members[parent])
  }

  ghost predicate AllJustified(host: Host, expected: Identity, members: seq<Identity>, origins: seq<Origin>)
  {
    |origins| == |members| && forall k: nat :: k < |members| ==> Justified(host, expected, members, k, origins[k])
  }

  /** Adding a justified member keeps the others justified. */
  lemma JustifiedGrows(
    host: Host, expected: Identity, members: seq<Identity>, origins: seq<Origin>, m: Identity, origin: Origin)
    requires AllJustified(host, expected, members, origins)
    requires Justified(host, expected, members + [m], |members|, origin)
    ensures AllJustified(host, expected, members + [m], origins + [origin])
  {
    var more, all := members + [m], origins + [origin];
    forall k: nat | k < |more| ensures Justified(host, expected, more, k, all[k]) {
      if k < |members| {
        assert Justified(host, expected, members, k, origins[k]);
      }
    }
  }

  lemma ChildJustified(
    host: Host, expected: Identity, members: seq<Identity>, m: Identity, parent: nat, census: nat, seen: nat, checked: nat,
    group: int)
    requires parent < |members| && census < seen < checked && RowAt(host, census, m.pid, members[parent].pid, group)
    requires host.observe(seen, m.pid) == Some(m) && SeenAs(host, checked, members[parent])
    ensures Justified(host, expected, members + [m], |members|, ChildOf(parent, census, seen, checked))
  {
    assert (members + [m])[parent] == members[parent];
  }

  ghost predicate RegroupedWithin(host: Host, pid: int, pgid: int, first: nat, end: nat)
  {
    exists t: nat :: first <= t < end && host.observe(t, pid).Some? && host.observe(t, pid).value.pgid != pgid
  }

  ghost predicate ReplacedWithin(host: Host, m: Identity, first: nat, end: nat)
  {
    exists t: nat :: first <= t < end && !SeenAs(host, t, m)
  }

  function MemberPids(members: seq<Identity>): set<int>
  {
    set m | m in members :: m.pid
  }

  predicate DistinctPids(members: seq<Identity>)
  {
    forall i, j :: 0 <= i < j < |members| ==> members[i].pid != members[j].pid
  }

  /** Why a census row needs no adopting: it is a member, was seen gone, or is
      neither in the open group nor a child of a matching member when looked at
      again. */
  ghost predicate Settled(
    host: Host, pgid: int, groupOpen: bool, members: seq<Identity>, matching: seq<nat>, row: Row, first: nat, end: nat)
  {
    || row.pid in MemberPids(members)
    || GoneWithin(host, row.pid, first, end)
    || ( && (groupOpen && row.group == pgid ==> RegroupedWithin(host, row.pid, pgid, first, end))
         && forall k :: k in matching && k < |members| && members[k].pid == row.parent ==>
              ReplacedWithin(host, members[k], first, end))
  }

  lemma SettledGrows(
    host: Host, pgid: int, groupOpen: bool, members: seq<Identity>, matching: seq<nat>, row: Row, first: nat, end: nat,
    later: nat)
    requires Settled(host, pgid, groupOpen, members, matching, row, first, end) && end <= later
    ensures Settled(host, pgid, groupOpen, members, matching, row, first, later)
  {
    if GoneWithin(host, row.pid, first, end) {
      GoneGrows(host, row.pid, first, end, later);
    }
    forall k | k in matching && k < |members| && ReplacedWithin(host, members[k], first, end)
      ensures ReplacedWithin(host, members[k], first, later)
    {
      var t: nat :| first <= t < end && !SeenAs(host, t, members[k]);
    }
    if RegroupedWithin(host, row.pid, pgid, first, end) {
      var t: nat :| first <= t < end && host.observe(t, row.pid).Some? && host.observe(t, row.pid).value.pgid != pgid;
    }
  }

  ghost predicate AllSettled(
    host: Host, pgid: int, groupOpen: bool, members: seq<Identity>, matching: seq<nat>, rows: seq<Row>, first: nat, end: nat)
  {
    forall r :: r in rows ==> Settled(host, pgid, groupOpen, members, matching, r, first, end)
  }

  lemma OneMoreSettled(
    host: Host, pgid: int, groupOpen: bool, members: seq<Identity>, matching: seq<nat>, rows: seq<Row>, i: nat, first: nat,
    end: nat, later: nat)
    requires i < |rows| && end <= later
    requires AllSettled(host, pgid, groupOpen, members, matching, rows[..i], first, end)
    requires Settled(host, pgid, groupOpen, members, matching, rows[i], first, later)
    ensures AllSettled(host, pgid, groupOpen, members, matching, rows[..i + 1], first, later)
  {
    forall r | r in rows[..i] ensures Settled(host, pgid, groupOpen, members, matching, r, first, later) {
      SettledGrows(host, pgid, groupOpen, members, matching, r, first, end, later);
    }
    assert rows[..i + 1] == rows[..i] + [rows[i]];
  }

  /** Each member is live or was seen gone; `matching` lists the positions of the
      live, unchanged ones. */
  ghost predicate AccountedFor(
    host: Host, members: seq<Identity>, changed: set<int>, matching: seq<nat>, live: set<int>, first: nat, end: nat)
  {
    && (forall k :: k in matching ==> k < |members|)
    && live <= MemberPids(members)
    && (forall k: nat :: k < |members| ==> (k in matching <==> members[k].pid in live && members[k].pid !in changed))
    && (forall k: nat :: k < |members| && members[k].pid !in live ==> GoneWithin(host, members[k].pid, first, end))
  }

  /** One more live, unchanged member. */
  lemma AccountedGrows(
    host: Host, members: seq<Identity>, changed: set<int>, matching: seq<nat>, live: set<int>, first: nat, end: nat,
    m: Identity)
    requires AccountedFor(host, members, changed, matching, live, first, end)
    requires m.pid !in MemberPids(members) && m.pid !in changed
    ensures AccountedFor(host, members + [m], changed, matching + [|members|], live + {m.pid}, first, end)
  {
    var more := members + [m];
    MembersGrow(members, m);
    forall k: nat | k < |members| ensures more[k] in members && more[k].pid != m.pid {
    }
  }

  lemma MembersGrow(members: seq<Identity>, m: Identity)
    ensures MemberPids(members + [m]) == MemberPids(members) + {m.pid}
    ensures DistinctPids(members) && m.pid !in MemberPids(members) ==> DistinctPids(members + [m])
  {
    assert forall x :: x in members + [m] <==> x in members || x == m;
    assert forall i :: 0 <= i < |members| ==> members[i] in members;
  }

  /** How many census rows are no members yet. */
  function Unadopted(rows: seq<Row>, members: seq<Identity>): nat
  {
    if |rows| == 0 then 0
    else Unadopted(rows[1..], members) + if rows[0].pid in MemberPids(members) then 0 else 1
  }

  lemma {:induction false} AdoptionShrinks(rows: seq<Row>, i: nat, members: seq<Identity>, m: Identity)
    requires i <= |rows| && (i < |rows| ==> rows[i].pid == m.pid && m.pid !in MemberPids(members))
    ensures Unadopted(rows, members + [m]) <= Unadopted(rows, members) - if i < |rows| then 1 else 0
  {
    MembersGrow(members, m);
    if |rows| > 0 {
      var more := rows[1..];
      AdoptionShrinks(more, if i > 0 then i - 1 else |more|, members, m);
    }
  }

  /** Members added after the freeze are never recorded as frozen. */
  ghost predicate OnlyAdopted(before: seq<Origin>, after: seq<Origin>)
  {
    before <= after && forall k :: |before| <= k < |after| ==> !after[k].Frozen?
  }

  /** Every frozen member, unless it changed, was told from `first` on to terminate
      and to continue. */
  ghost predicate AskedToStop(
    host: Host, members: seq<Identity>, origins: seq<Origin>, changed: set<int>, events: seq<Event>, first: nat, end: nat)
  {
    forall k: nat :: k < |members| && k < |origins| && origins[k].Frozen? && members[k].pid !in changed ==>
      TriedWithin(host, events, members[k], Terminate, first, end) && TriedWithin(host, events, members[k], Continue, first, end)
  }

  lemma AskedGrows(
    host: Host, members: seq<Identity>, origins: seq<Origin>, changed: set<int>, events: seq<Event>, first: nat, end: nat,
    members1: seq<Identity>, origins1: seq<Origin>, changed1: set<int>, events1: seq<Event>, end1: nat)
    requires AskedToStop(host, members, origins, changed, events, first, end)
    requires members <= members1 && OnlyAdopted(origins, origins1) && changed <= changed1 && events <= events1
    requires end <= end1 && |members| == |origins|
    ensures AskedToStop(host, members1, origins1, changed1, events1, first, end1)
  {
    forall k: nat | k < |members1| && k < |origins1| && origins1[k].Frozen? && members1[k].pid !in changed1
      ensures TriedWithin(host, events1, members1[k], Terminate, first, end1)
      ensures TriedWithin(host, events1, members1[k], Continue, first, end1)
    {
      TriedGrows(host, events, events1, members[k], Terminate, first, end, end1);
      TriedGrows(host, events, events1, members[k], Continue, first, end, end1);
    }
  }

  /** Between `first` and `end` every member was seen gone, found changed, or had
      a kill tried on it. */
  ghost predicate KilledOrGone(
    host: Host, members: seq<Identity>, changed: set<int>, events: seq<Event>, first: nat, end: nat)
  {
    forall m :: m in members ==>
      m.pid in changed || GoneWithin(host, m.pid, first, end) || TriedWithin(host, events, m, Kill, first, end)
  }

  /** A later view of the same round: more may have changed and happened since. */
  lemma KilledGrows(
    host: Host, members: seq<Identity>, before: set<int>, changed: set<int>, earlier: seq<Event>, events: seq<Event>,
    from: nat, first: nat, end: nat, later: nat)
    requires KilledOrGone(host, members, before, earlier, first, end)
    requires before <= changed && earlier <= events && from <= first && end <= later
    ensures KilledOrGone(host, members, changed, events, from, later)
  {
    forall m | m in members && m.pid !in changed
      ensures GoneWithin(host, m.pid, from, later) || TriedWithin(host, events, m, Kill, from, later)
    {
      if t: nat :| first <= t < end && Tried(host, earlier, m, Kill, t) {
        assert Tried(host, events, m, Kill, t);
      }
    }
  }

  ghost predicate KilledFrom(
    host: Host, members: seq<Identity>, changed: set<int>, events: seq<Event>, matching: seq<nat>, from: nat, end: nat)
  {
    forall k :: k in matching && k < |members| && members[k].pid !in changed ==>
      TriedWithin(host, events, members[k], Kill, from, end)
  }

  lemma RoundCovers(
    host: Host, members: seq<Identity>, before: set<int>, changed: set<int>, events: seq<Event>, matching: seq<nat>,
    live: set<int>, first: nat, from: nat, end: nat)
    requires AccountedFor(host, members, before, matching, live, first, from) && before <= changed
    requires KilledFrom(host, members, changed, events, matching, from, end) && first <= from <= end
    ensures KilledOrGone(host, members, changed, events, first, end)
  {
    forall m | m in members && m.pid !in changed
      ensures GoneWithin(host, m.pid, first, end) || TriedWithin(host, events, m, Kill, first, end)
    {
      var k: nat :| k < |members| && members[k] == m;
      if m.pid in live {
        assert k in matching;
        var t: nat :| from <= t < end && Tried(host, events, m, Kill, t);
      } else {
        GoneGrows(host, m.pid, first, from, end);
      }
    }
  }

  /** Nobody is left: at a census taken at `t`, every member was seen gone, and
      every process shown in the still open group was seen gone or outside it. */
  ghost predicate NobodyLeft(
    host: Host, expected: Identity, groupOpen: bool, members: seq<Identity>, t: nat, end: nat)
  {
    && (forall m :: m in members ==> GoneWithin(host, m.pid, t, end))
    && host.census(t).Some?
    && forall r :: r in host.census(t).value && groupOpen && r.group == expected.pgid ==>
         GoneWithin(host, r.pid, t, end) || RegroupedWithin(host, r.pid, expected.pgid, t, end)
  }

  lemma EmptyCensus(
    host: Host, expected: Identity, groupOpen: bool, members: seq<Identity>, changed: set<int>, matching: seq<nat>, t: nat,
    end: nat)
    requires AccountedFor(host, members, changed, matching, {}, t, end) && host.census(t).Some?
    requires AllSettled(host, expected.pgid, groupOpen, members, matching, host.census(t).value, t, end)
    ensures NobodyLeft(host, expected, groupOpen, members, t, end)
  {
    forall m | m in members ensures GoneWithin(host, m.pid, t, end) {
      var k: nat :| k < |members| && members[k] == m;
    }
    forall r | r in host.census(t).value && groupOpen && r.group == expected.pgid
      ensures GoneWithin(host, r.pid, t, end) || RegroupedWithin(host, r.pid, expected.pgid, t, end)
    {
      assert Settled(host, expected.pgid, groupOpen, members, matching, r, t, end);
      if r.pid in MemberPids(members) {
        var m :| m in members && m.pid == r.pid;
      }
    }
  }

  // ---------------------------------------------------------------------------
  // Freezing
  // ---------------------------------------------------------------------------

  function Scoped(rows: seq<Row>, tree: set<int>): (r: seq<Row>)
    ensures forall x :: x in r <==> x in rows && x.pid in tree
  {
    if |rows| == 0 then [] else (if rows[0].pid in tree then [rows[0]] else []) + Scoped(rows[1..], tree)
  }

  predicate DistinctRows(rows: seq<Row>)
  {
    forall i, j :: 0 <= i < j < |rows| ==> rows[i].pid != rows[j].pid
  }

  lemma {:induction false} ScopedDistinct(rows: seq<Row>, tree: set<int>)
    requires DistinctRows(rows)
    ensures DistinctRows(Scoped(rows, tree))
  {
    if |rows| == 0 {
    } else {
      ScopedDistinct(rows[1..], tree);
      forall x | x in Scoped(rows[1..], tree) ensures x.pid != rows[0].pid {
        assert x in rows[1..];
      }
    }
  }

  /** The census rows outside the group that were not stopped one by one yet. */
  function Pending(scoped: seq<Row>, pgid: int, stopped: set<int>): (r: seq<Row>)
    ensures forall x :: x in r <==> x in scoped && x.group != pgid && x.pid !in stopped
  {
    if |scoped| == 0 then []
    else (if scoped[0].group != pgid && scoped[0].pid !in stopped then [scoped[0]] else [])
         + Pending(scoped[1..], pgid, stopped)
  }

  /** A complete capture: one identity per live process of the tree at the census,
      the expected root among them. */
  ghost predicate Captured(host: Host, expected: Identity, census: nat, frozen: seq<Identity>)
  {
    && host.census(census).Some? && expected in frozen && DistinctPids(frozen)
    && (forall m :: m in frozen ==> InFrozenTree(host, expected, census, m.pid))
    && forall r :: r in host.census(census).value && InFrozenTree(host, expected, census, r.pid) ==>
         r.pid in MemberPids(frozen)
  }

  lemma TreeIsFrozenTree(host: Host, expected: Identity, census: nat, tree: set<int>, pid: int)
    requires host.census(census).Some?
    requires IsTree(host.census(census).value, GroupMembers(host.census(census).value, expected.pid, expected.pgid), tree)
    ensures InFrozenTree(host, expected, census, pid) <==> pid in tree
  {
    var rows := host.census(census).value;
    var seeds := GroupMembers(rows, expected.pid, expected.pgid);
    forall other | IsTree(rows, seeds, other) ensures tree <= other {
      assert seeds <= other && ClosedUnder(rows, other);
    }
  }

  ghost predicate StoppedIn(events: seq<Event>, m: Identity)
  {
    exists t :: Sent(t, m, Stop) in events
  }

  /** Everyone in the captured tree but outside the group was stopped alone. */
  ghost predicate OutsidersStopped(host: Host, expected: Identity, census: nat, events: seq<Event>)
  {
    && host.census(census).Some?
    && forall r :: r in host.census(census).value && r.group != expected.pgid && InFrozenTree(host, expected, census, r.pid)
                   ==> exists m: Identity :: m.pid == r.pid && StoppedIn(events, m)
  }

  predicate IsStop(e: Event)
  {
    (e.Sent? || e.SentGroup?) && e.signal.Stop?
  }

  /** At `t` the process was told to continue, or was no longer there. */
  ghost predicate ReleasedAt(host: Host, events: seq<Event>, m: Identity, t: nat)
  {
    !SeenAs(host, t, m) || host.kill(t, m.pid, Continue).NoSuchProcess? || Sent(t, m, Continue) in events
  }

  ghost predicate GroupContinued(events: seq<Event>, pgid: int)
  {
    exists t :: SentGroup(t, pgid, Continue) in events
  }

  /** What a failed freeze owes: nothing was stopped, or from some point on every
      process stopped one by one was released and the group was continued. */
  ghost predicate StopsUndone(host: Host, expected: Identity, events: seq<Event>)
  {
    || (forall i :: 0 <= i < |events| ==> !IsStop(events[i]))
    || exists i: nat :: i < |events| && UndoneFrom(host, expected, events, i)
  }

  /** The rollback looks at its processes one tick after the other, in the order
      of its list. */
  ghost predicate UndoneFrom(host: Host, expected: Identity, events: seq<Event>, i: nat)
    requires i < |events|
  {
    && events[i].RollBackBegan?
    && (forall j :: i <= j < |events| ==> !IsStop(events[j]))
    && (forall j :: 0 <= j < i && events[j].Sent? && events[j].member != expected ==> events[j].member in events[i].stopped)
    && (forall k: nat :: k < |events[i].stopped| ==> ReleasedAt(host, events, events[i].stopped[k], events[i].tick + k))
    && GroupContinued(events, expected.pgid)
  }

  /** The system lets a rollback that begins at `began` through: no process still
      there refuses to continue, and the leader looks as expected when its turn
      comes and its group can be continued. */
  ghost predicate RollbackHeard(host: Host, expected: Identity, began: nat, stopped: seq<Identity>)
  {
    && (forall k: nat :: k < |stopped| && SeenAs(host, began + k, stopped[k]) ==>
          !host.kill(began + k, stopped[k].pid, Continue).Refused?)
    && LeaderHeard(host, expected, began + |stopped|)
  }

  ghost predicate LeaderHeard(host: Host, expected: Identity, look: nat)
  {
    host.observe(look, expected.pid) == Some(expected) && host.killGroup(look + 1, expected.pgid, Continue)
  }

  /** Every rollback of these events was let through. */
  ghost predicate RollbacksHeard(host: Host, expected: Identity, events: seq<Event>)
  {
    forall i :: 0 <= i < |events| && events[i].RollBackBegan? ==>
      RollbackHeard(host, expected, events[i].tick, events[i].stopped)
  }

  lemma NothingBegan(host: Host, expected: Identity, events: seq<Event>)
    requires |events| <= 1 && forall e :: e in events ==> IsStop(e)
    ensures RollbacksHeard(host, expected, events) && (StopsUndone(host, expected, events) <==> events == [])
  {
    assert |events| > 0 ==> events[0] in events && IsStop(events[0]) && !events[0].RollBackBegan?;
  }

  /** Being tried and released are the same unless the process refuses. */
  lemma ReleasedIff(host: Host, expected: Identity, events: seq<Event>, m: Identity, t: nat)
    requires SafeEvents(host, expected, events) && Tried(host, events, m, Continue, t)
    ensures ReleasedAt(host, events, m, t) <==> (SeenAs(host, t, m) ==> !host.kill(t, m.pid, Continue).Refused?)
  {
    if Sent(t, m, Continue) in events {
      var i :| 0 <= i < |events| && events[i] == Sent(t, m, Continue);
      assert SafeEvent(host, expected, events[i]);
    }
  }

  /** The leader is stopped at `t`. */
  predicate LeaderStopped(host: Host, expected: Identity, t: nat)
  {
    SeenAs(host, t, expected) && host.kill(t, expected.pid, Stop).Delivered?
  }

  /** The leader is stopped at `t`, and then does not look as expected, or its
      group cannot be stopped. */
  predicate LeaderStranded(host: Host, expected: Identity, t: nat)
  {
    && LeaderStopped(host, expected, t)
    && !(host.observe(t + 1, expected.pid) == Some(expected) && host.killGroup(t + 2, expected.pgid, Stop))
  }

  /** A leader that executes another program right after it is stopped. */
  function ExecutingHost(expected: Identity, t: nat): Host
  {
    Host(
      (u, pid) => if pid != expected.pid then None else if u <= t then Some(expected)
                  else Some(expected.(argvHash := expected.argvHash + "'")),
      u => Some([Row(expected.pid, 1, expected.pgid)]), (u, pid, signal) => Delivered, (u, group, signal) => true,
      (u, pid) => Some(pid), u => u as real)
  }

  /** Any leader can be stranded, at any time. */
  lemma LeaderCanBeStranded(expected: Identity, t: nat)
    ensures var host := ExecutingHost(expected, t);
            Consistent(host) && ClockAdvances(host) && LeaderStranded(host, expected, t)
  {
    var host := ExecutingHost(expected, t);
    assert host.observe(t + 1, expected.pid).value.argvHash != expected.argvHash;
    ClockOfTicks(host);
  }

  /** A leader that is killed once its group is stopped. */
  function VanishingHost(expected: Identity, t: nat): Host
  {
    Host(
      (u, pid) => if pid == expected.pid && u <= t + 1 then Some(expected) else None,
      u => Some([Row(expected.pid, 1, expected.pgid)]), (u, pid, signal) => Delivered, (u, group, signal) => true,
      (u, pid) => Some(pid), u => u as real)
  }

  /** Then the leader is not stranded, but no rollback is let through. */
  lemma LeaderCanVanish(expected: Identity, t: nat, began: nat, stopped: seq<Identity>)
    requires began > t + 1
    ensures var host := VanishingHost(expected, t);
            && Consistent(host) && ClockAdvances(host)
            && LeaderStopped(host, expected, t) && !LeaderStranded(host, expected, t)
            && !RollbackHeard(host, expected, began, stopped)
  {
    ClockOfTicks(VanishingHost(expected, t));
  }

  lemma ClockOfTicks(host: Host)
    requires forall u: nat :: host.now(u) == u as real
    ensures ClockAdvances(host)
  {
    forall deadline: real ensures EventuallyPast(host, deadline) {
      var b: nat := if deadline < 0.0 then 0 else deadline.Floor + 1;
      assert PastFrom(host, deadline, b);
    }
  }

  /** A chain of members, each the recorded parent of the one before, ending in
      one that needs no parent. */
  ghost predicate Grounded(origins: seq<Origin>, chain: seq<nat>)
  {
    && |chain| > 0 && chain[0] < |origins|
    && if |chain| == 1 then !origins[chain[0]].ChildOf?
       else origins[chain[0]].ChildOf? && origins[chain[0]].parent == chain[1] && chain[1] < chain[0]
            && Grounded(origins, chain[1..])
  }

  /** Every member unrolls through earlier members to the frozen tree or the
      group: the parent of a late child is itself justified. */
  lemma {:induction false} AttributionIsGrounded(
    host: Host, expected: Identity, members: seq<Identity>, origins: seq<Origin>, k: nat) returns (chain: seq<nat>)
    requires AllJustified(host, expected, members, origins) && k < |members|
    ensures Grounded(origins, chain) && chain[0] == k
  {
    if origins[k].ChildOf? {
      assert Justified(host, expected, members, k, origins[k]);
      var rest := AttributionIsGrounded(host, expected, members, origins, origins[k].parent);
      chain := [k] + rest;
      assert chain[1..] == rest;
    } else {
      chain := [k];
    }
  }
}
