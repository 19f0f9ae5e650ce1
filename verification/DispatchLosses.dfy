/** Which appended rows a rewrite loses when registrations do not count the rows
    of their task. */
module DispatchLosses {
  import opened Collections
  import opened Values
  import opened DispatchLog
  import opened DispatchProtocol

  /** The appends, by position, whose rows the log holds: settled ones, and those
      made since the updater read the file it is about to replace. */
  datatype Progress = Progress(settled: seq<nat>, exposed: seq<nat>, holding: bool)

  function Track(events: seq<Event>, n: nat): (p: Progress)
    requires n <= |events|
    ensures forall k :: k in p.settled || k in p.exposed ==> k < n && events[k].Append?
    ensures !p.holding ==> p.exposed == []
  {
    if n == 0 then Progress([], [], false)
    else
      var p := Track(events, n - 1);
      match events[n - 1]
      case Append(_, _) => if p.holding then p.(exposed := p.exposed + [n - 1]) else p.(settled := p.settled + [n - 1])
      case Load => p.(holding := true)
      case Replace(_, _) => Progress(p.settled, [], false)
      case Release => Progress(p.settled + p.exposed, [], false)
      case _ => p
  }

  /** The appends whose rows are in the log after the first `n` events. */
  function Survivors(events: seq<Event>, n: nat): seq<nat>
    requires n <= |events|
  {
    Track(events, n).settled + Track(events, n).exposed
  }

  function RowsAt(codec: Codec, events: seq<Event>, places: seq<nat>): seq<Row>
    requires forall k :: k in places ==> k < |events|
  {
    if |places| == 0 then []
    else
      var front := places[..|places| - 1];
      assert places[|places| - 1] in places && forall k :: k in front ==> k in places;
      RowsAt(codec, events, front) + AddedBy(codec, events[places[|places| - 1]])
  }

  lemma RowsAtOneMore(codec: Codec, events: seq<Event>, places: seq<nat>, k: nat)
    requires k < |events| && forall j :: j in places ==> j < |events|
    ensures RowsAt(codec, events, places + [k]) == RowsAt(codec, events, places) + AddedBy(codec, events[k])
  {
    assert (places + [k])[..|places|] == places;
  }

  // ---------------------------------------------------------------------------
  // The log holds exactly the surviving rows
  // ---------------------------------------------------------------------------

  ghost predicate HoldsRows(codec: Codec, log: string, start: seq<Row>, events: seq<Event>, places: seq<nat>)
  {
    && (forall k :: k in places ==> k < |events|)
    && CleanLog(codec, log) && Erased(LogRows(codec, log)) == Erased(start + RowsAt(codec, events, places))
  }

  /** What the bookkeeping says of a world. */
  ghost predicate Describes(codec: Codec, w: World, start: seq<Row>, events: seq<Event>, p: Progress)
  {
    && HoldsRows(codec, w.log, start, events, p.settled + p.exposed)
    && (w.updater.Holding? <==> p.holding) && (!p.holding ==> p.exposed == [])
    && (p.holding ==> HoldsRows(codec, w.updater.before, start, events, p.settled))
  }

  lemma AppendHolds(
    codec: Codec, log: string, start: seq<Row>, events: seq<Event>, places: seq<nat>, k: nat)
    requires HoldsRows(codec, log, start, events, places) && k < |events| && events[k].Append?
    requires RowText(codec, events[k].task, events[k].text)
    ensures HoldsRows(codec, log + (events[k].text + "\n"), start, events, places + [k])
  {
    var row := RowOf(codec, events[k].text + "\n").row;
    AppendedLog(codec, log, events[k].task, events[k].text);
    RowsAtOneMore(codec, events, places, k);
    ErasedAppend(LogRows(codec, log), row);
    ErasedAppend(start + RowsAt(codec, events, places), row);
    assert start + (RowsAt(codec, events, places) + [row]) == start + RowsAt(codec, events, places) + [row];
  }

  lemma ReplaceHolds(
    codec: Codec, before: string, start: seq<Row>, events: seq<Event>, places: seq<nat>, task: string, skills: int)
    requires Faithful(codec) && HoldsRows(codec, before, start, events, places)
    requires Rendered(codec, before, task, skills).Some?
    ensures HoldsRows(codec, Rendered(codec, before, task, skills).value, start, events, places)
  {
    ReplacedLog(codec, before, task, skills);
    UpdatingErased(LogRows(codec, before), task, skills);
  }

  lemma StepDescribed(codec: Codec, w: World, v: World, start: seq<Row>, events: seq<Event>, n: nat)
    requires Faithful(codec) && n < |events| && Next(codec, w, events[n], v)
    requires Describes(codec, w, start, events, Track(events, n))
    ensures Describes(codec, v, start, events, Track(events, n + 1))
  {
    var p, q := Track(events, n), Track(events, n + 1);
    match events[n]
    case Append(task, text) =>
      AppendHolds(codec, w.log, start, events, p.settled + p.exposed, n);
      Associates(p.settled, p.exposed, [n]);
      assert !p.holding ==> p.settled + p.exposed == p.settled && q.settled + q.exposed == q.settled;
    case Load => assert p.settled + p.exposed == p.settled;
    case Replace(task, skills) =>
      ReplaceHolds(codec, w.updater.before, start, events, p.settled, task, skills);
      assert q.settled + q.exposed == p.settled;
    case Release => assert q.settled + q.exposed == p.settled + p.exposed;
    case _ =>
  }

  lemma {:induction false} Described(codec: Codec, worlds: seq<World>, events: seq<Event>, n: nat)
    requires Faithful(codec) && Path(codec, worlds, events) && n <= |events|
    requires CleanLog(codec, worlds[0].log) && !worlds[0].updater.Holding?
    ensures Describes(codec, worlds[n], LogRows(codec, worlds[0].log), events, Track(events, n))
  {
    if n == 0 {
      assert LogRows(codec, worlds[0].log) + [] == LogRows(codec, worlds[0].log);
    } else {
      Described(codec, worlds, events, n - 1);
      StepDescribed(codec, worlds[n - 1], worlds[n], LogRows(codec, worlds[0].log), events, n - 1);
    }
  }

  /** Whatever the registrations, the log holds the rows it started with and
      exactly the surviving ones, in order, up to skills counts. */
  lemma SurvivorsExactly(codec: Codec, worlds: seq<World>, events: seq<Event>)
    requires Faithful(codec) && Path(codec, worlds, events)
    requires CleanLog(codec, worlds[0].log) && !worlds[0].updater.Holding?
    ensures Erased(LogRows(codec, worlds[|events|].log)) ==
            Erased(LogRows(codec, worlds[0].log) + RowsAt(codec, events, Survivors(events, |events|)))
  {
    Described(codec, worlds, events, |events|);
  }

  // ---------------------------------------------------------------------------
  // Which rows are lost
  // ---------------------------------------------------------------------------

  predicate EndsHold(e: Event)
  {
    e.Replace? || e.Release?
  }

  /** Appended after the updater read the file, and the updater still holds what
      it read. */
  ghost predicate Exposed(worlds: seq<World>, events: seq<Event>, j: nat, n: nat)
    requires j < n <= |events| < |worlds|
  {
    worlds[j].updater.Holding? && forall m :: j < m < n ==> !EndsHold(events[m])
  }

  /** A replacement by what was read before the append. */
  ghost predicate Overtaken(worlds: seq<World>, events: seq<Event>, j: nat, n: nat)
    requires j < n <= |events| < |worlds|
  {
    exists r :: j < r < n && events[r].Replace? && Exposed(worlds, events, j, r)
  }

  lemma {:induction false} LostWhenOvertaken(worlds: seq<World>, events: seq<Event>, j: nat, n: nat)
    requires j < n <= |events| < |worlds| && events[j].Append?
    requires worlds[j].updater.Holding? <==> Track(events, j).holding
    ensures j !in Survivors(events, n) <==> Overtaken(worlds, events, j, n)
    ensures j in Track(events, n).exposed <==> Exposed(worlds, events, j, n)
  {
    if n == j + 1 {
      TrackAppend(events, j);
    } else {
      LostWhenOvertaken(worlds, events, j, n - 1);
      LostOneMore(worlds, events, j, n);
    }
  }

  lemma LostOneMore(worlds: seq<World>, events: seq<Event>, j: nat, n: nat)
    requires j + 1 < n <= |events| < |worlds|
    requires j !in Survivors(events, n - 1) <==> Overtaken(worlds, events, j, n - 1)
    requires j in Track(events, n - 1).exposed <==> Exposed(worlds, events, j, n - 1)
    ensures j !in Survivors(events, n) <==> Overtaken(worlds, events, j, n)
    ensures j in Track(events, n).exposed <==> Exposed(worlds, events, j, n)
  {
    OvertakenOneMore(worlds, events, j, n);
    ExposedOrSettled(events, j, n - 1);
    ExposedOneMore(worlds, events, j, n);
    TrackOneMore(events, j, n);
  }

  /** A row is lost exactly when it was appended between a read and the
      replacement that followed it. */
  lemma LostIffOvertaken(codec: Codec, worlds: seq<World>, events: seq<Event>, j: nat)
    requires Faithful(codec) && Path(codec, worlds, events) && j < |events| && events[j].Append?
    requires CleanLog(codec, worlds[0].log) && !worlds[0].updater.Holding?
    ensures j !in Survivors(events, |events|) <==> Overtaken(worlds, events, j, |events|)
  {
    Described(codec, worlds, events, j);
    LostWhenOvertaken(worlds, events, j, |events|);
  }

  lemma TrackAppend(events: seq<Event>, j: nat)
    requires j < |events| && events[j].Append?
    ensures j in Survivors(events, j + 1)
    ensures j in Track(events, j + 1).exposed <==> Track(events, j).holding
  {
    assert j !in Track(events, j).settled && j !in Track(events, j).exposed;
  }

  /** What one more event does to an earlier append. */
  lemma TrackOneMore(events: seq<Event>, j: nat, n: nat)
    requires j + 1 < n <= |events|
    requires !(j in Track(events, n - 1).settled && j in Track(events, n - 1).exposed)
    ensures j in Track(events, n).exposed <==> j in Track(events, n - 1).exposed && !EndsHold(events[n - 1])
    ensures j !in Survivors(events, n) <==>
            j !in Survivors(events, n - 1) || (events[n - 1].Replace? && j in Track(events, n - 1).exposed)
  {
  }

  lemma ExposedOneMore(worlds: seq<World>, events: seq<Event>, j: nat, n: nat)
    requires j + 1 < n <= |events| < |worlds|
    ensures Exposed(worlds, events, j, n) <==> Exposed(worlds, events, j, n - 1) && !EndsHold(events[n - 1])
  {
  }

  lemma OvertakenOneMore(worlds: seq<World>, events: seq<Event>, j: nat, n: nat)
    requires j + 1 < n <= |events| < |worlds|
    ensures Overtaken(worlds, events, j, n) <==>
            Overtaken(worlds, events, j, n - 1) || (events[n - 1].Replace? && Exposed(worlds, events, j, n - 1))
  {
    if Overtaken(worlds, events, j, n - 1) {
      var r :| j < r < n - 1 && events[r].Replace? && Exposed(worlds, events, j, r);
      assert j < r < n;
    }
  }

  lemma {:induction false} ExposedOrSettled(events: seq<Event>, j: nat, n: nat)
    requires n <= |events|
    ensures !(j in Track(events, n).settled && j in Track(events, n).exposed)
  {
    if n == 0 {
    } else {
      ExposedOrSettled(events, j, n - 1);
    }
  }

  // ---------------------------------------------------------------------------
  // A counting registration is never overtaken
  // ---------------------------------------------------------------------------

  /** The `i`-th event registers a task, and the `j`-th is the append of that
      registration. */
  ghost predicate OwnAppend(events: seq<Event>, i: nat, j: nat)
    requires i < j < |events|
  {
    && events[i].Register? && events[j].Append? && events[j].task == events[i].task
    && forall m :: i < m < j ==> !((events[m].Append? || events[m].Finish?) && events[m].task == events[i].task)
  }

  /** The task waits to append, is not drained past, and keeps the updater from
      reading. */
  ghost predicate HoldsOff(codec: Codec, w: World, task: string, generation: nat)
  {
    && task in w.queued && w.queued[task] == Sender(generation, false)
    && CleanLog(codec, w.log) && Count(LogRows(codec, w.log), task) < generation
    && (w.updater.Idle? || w.updater.Draining?)
  }

  lemma StillHoldsOff(codec: Codec, w: World, e: Event, v: World, task: string, generation: nat)
    requires HoldsOff(codec, w, task, generation) && Next(codec, w, e, v)
    requires !((e.Append? || e.Finish?) && e.task == task)
    ensures HoldsOff(codec, v, task, generation)
  {
    if e.Append? {
      AppendedLog(codec, w.log, e.task, e.text);
      AppendingCounts(LogRows(codec, w.log), RowOf(codec, e.text + "\n").row, task);
    }
  }

  lemma {:induction false} CountingHoldsOff(codec: Codec, worlds: seq<World>, events: seq<Event>, i: nat, j: nat)
    requires Faithful(codec) && Path(codec, worlds, events) && i < j < |events| && OwnAppend(events, i, j)
    requires CleanLog(codec, worlds[i].log) && Counting(codec, worlds[i], events[i])
    ensures forall k :: i < k <= j ==> HoldsOff(codec, worlds[k], events[i].task, events[i].generation)
  {
    assert Next(codec, worlds[i], events[i], worlds[i + 1]);
    var k := i + 1;
    while k < j
      invariant i < k <= j
      invariant forall m :: i < m <= k ==> HoldsOff(codec, worlds[m], events[i].task, events[i].generation)
    {
      assert Next(codec, worlds[k], events[k], worlds[k + 1]);
      StillHoldsOff(codec, worlds[k], events[k], worlds[k + 1], events[i].task, events[i].generation);
      k := k + 1;
    }
  }

  /** The row of a counting registration survives every run, whatever other
      registrations do. */
  lemma CountingRowSurvives(codec: Codec, worlds: seq<World>, events: seq<Event>, i: nat, j: nat)
    requires Faithful(codec) && Path(codec, worlds, events) && i < j < |events| && OwnAppend(events, i, j)
    requires CleanLog(codec, worlds[0].log) && !worlds[0].updater.Holding?
    requires Counting(codec, worlds[i], events[i])
    ensures j in Survivors(events, |events|)
  {
    Described(codec, worlds, events, i);
    CountingHoldsOff(codec, worlds, events, i, j);
    LostIffOvertaken(codec, worlds, events, j);
  }

  // ---------------------------------------------------------------------------
  // Any other registration can be
  // ---------------------------------------------------------------------------

  lemma PathExtends(codec: Codec, worlds: seq<World>, events: seq<Event>, last: World, e: Event, v: World)
    requires Path(codec, worlds, events) && last == worlds[|events|] && Next(codec, last, e, v)
    ensures Path(codec, worlds + [v], events + [e])
  {
    var more, all := worlds + [v], events + [e];
    forall i | 0 <= i < |all| ensures Next(codec, more[i], all[i], more[i + 1]) {
      assert i < |events| ==> Next(codec, worlds[i], events[i], worlds[i + 1]);
    }
  }

  lemma {:induction false} CountedHasTarget(codec: Codec, lines: seq<string>, task: string)
    requires Count(Rows(codec, lines), task) > 0
    ensures Target(codec, lines, task).Some?
  {
    if forall i :: 0 <= i < |lines| ==> !Matches(codec, lines[i], task) {
      UnmatchedRows(codec, lines, task);
      UncountedRows(Rows(codec, lines), task);
      assert false;
    }
  }

  lemma {:induction false} UncountedRows(rows: seq<Row>, task: string)
    requires forall i :: 0 <= i < |rows| ==> rows[i].task != Some(task)
    ensures Count(rows, task) == 0
  {
    if |rows| == 0 {
    } else {
      UncountedRows(rows[..|rows| - 1], task);
    }
  }

  lemma PathJoins(
    codec: Codec, worlds: seq<World>, events: seq<Event>, more: seq<World>, later: seq<Event>)
    requires Path(codec, worlds, events) && Path(codec, more, later) && worlds[|events|] == more[0]
    ensures Path(codec, worlds + more[1..], events + later)
  {
    var all, whole := worlds + more[1..], events + later;
    forall i | 0 <= i < |whole| ensures Next(codec, all[i], whole[i], all[i + 1]) {
      if i >= |events| {
        assert whole[i] == later[i - |events|] && all[i + 1] == more[i - |events| + 1];
        assert all[i] == more[i - |events|];
      } else {
        assert whole[i] == events[i] && all[i] == worlds[i] && all[i + 1] == worlds[i + 1];
      }
    }
  }

  /** Every other sender can finish first. */
  lemma {:induction false} OthersFinish(codec: Codec, w: World, task: string)
    returns (worlds: seq<World>, events: seq<Event>)
    requires w.updater.Idle? && task in w.queued
    ensures Path(codec, worlds, events) && worlds[0] == w
    ensures worlds[|events|] == w.(queued := map[task := w.queued[task]])
    ensures forall e :: e in events ==> e.Finish? && e.task != task
    decreases |w.queued|
  {
    var others := w.queued.Keys - {task};
    if others == {} {
      assert w.queued.Keys == {task};
      assert w.queued == map[task := w.queued[task]];
      worlds, events := [w], [];
    } else {
      var other := Pick(others);
      var v := w.(queued := w.queued - {other});
      assert |v.queued.Keys| < |w.queued.Keys| by {
        ProperSubsetIsSmaller(v.queued.Keys, w.queued.Keys);
      }
      var rest, later := OthersFinish(codec, v, task);
      assert Path(codec, [w, v], [Finish(other)]);
      PathJoins(codec, [w, v], [Finish(other)], rest, later);
      worlds, events := [w, v] + rest[1..], [Finish(other)] + later;
    }
  }

  /** From a registered sender alone in the queue: lock, drain, read, the append,
      and the replacement of what was read. */
  lemma OvertakesAlone(codec: Codec, w: World, task: string, text: string, skills: int)
    returns (worlds: seq<World>, events: seq<Event>)
    requires CleanLog(codec, w.log) && w.updater.Idle? && RowText(codec, task, text)
    requires task in w.queued && w.queued == map[task := Sender(w.queued[task].generation, false)]
    requires 1 <= w.queued[task].generation <= Count(LogRows(codec, w.log), task)
    ensures events == [Lock, Poll, Load, Append(task, text), Replace(task, skills)]
    ensures Path(codec, worlds, events) && worlds[0] == w && worlds[3].updater.Holding?
  {
    CountedHasTarget(codec, SplitLines(w.log), task);
    var w1, w2, w3 := w.(updater := Draining), w.(updater := Drained), w.(updater := Holding(w.log));
    var queued := w.queued[task := Sender(w.queued[task].generation, true)];
    var w4 := World(w.log + (text + "\n"), queued, w3.updater);
    var w5 := World(Rendered(codec, w.log, task, skills).value, queued, Idle);
    PathExtends(codec, [w], [], w, Lock, w1);
    PathExtends(codec, [w, w1], [Lock], w1, Poll, w2);
    PathExtends(codec, [w, w1, w2], [Lock, Poll], w2, Load, w3);
    PathExtends(codec, [w, w1, w2, w3], [Lock, Poll, Load], w3, Append(task, text), w4);
    PathExtends(codec, [w, w1, w2, w3, w4], [Lock, Poll, Load, Append(task, text)], w4, Replace(task, skills), w5);
    worlds, events := [w, w1, w2, w3, w4] + [w5], [Lock, Poll, Load, Append(task, text)] + [Replace(task, skills)];
  }

  lemma OwnAfterFinishes(finishes: seq<Event>, task: string, generation: nat, text: string, skills: int)
    requires forall e :: e in finishes ==> e.Finish? && e.task != task
    ensures var events :=
              [Register(task, generation)] + finishes + [Lock, Poll, Load, Append(task, text), Replace(task, skills)];
            OwnAppend(events, 0, |finishes| + 4)
  {
    var last := [Lock, Poll, Load, Append(task, text), Replace(task, skills)];
    var events := [Register(task, generation)] + finishes + last;
    forall m | 0 < m < |finishes| + 4 ensures !events[m].Append? && (events[m].Finish? ==> events[m].task != task) {
      if m <= |finishes| {
        assert events[m] == finishes[m - 1] && finishes[m - 1] in finishes;
      } else {
        assert events[m] == last[m - 1 - |finishes|];
      }
    }
  }

  /** A run from `w` that starts with this registration and loses its row, at the
      `j`-th event. */
  ghost predicate LosesOwn(
    codec: Codec, w: World, task: string, generation: nat, worlds: seq<World>, events: seq<Event>, j: nat)
  {
    && Path(codec, worlds, events) && worlds[0] == w && 0 < j < |events|
    && events[0] == Register(task, generation) && OwnAppend(events, 0, j) && j !in Survivors(events, |events|)
  }

  lemma RowCanBeLost(codec: Codec, w: World, task: string, generation: nat, text: string, skills: int)
    returns (worlds: seq<World>, events: seq<Event>, j: nat)
    requires Faithful(codec) && CleanLog(codec, w.log) && w.updater.Idle? && task !in w.queued
    requires RowText(codec, task, text) && 1 <= generation <= Count(LogRows(codec, w.log), task)
    ensures LosesOwn(codec, w, task, generation, worlds, events, j)
  {
    var registered := w.(queued := w.queued[task := Sender(generation, false)]);
    var alone := registered.(queued := map[task := Sender(generation, false)]);
    var first, finishes := OthersFinish(codec, registered, task);
    var then_, overtakes := OvertakesAlone(codec, alone, task, text, skills);
    var start := [Register(task, generation)];
    assert Path(codec, [w, registered], start);
    PathJoins(codec, [w, registered], start, first, finishes);
    PathJoins(codec, [w, registered] + first[1..], start + finishes, then_, overtakes);
    worlds, events := [w, registered] + first[1..] + then_[1..], start + finishes + overtakes;
    j := |start + finishes| + 3;
    assert events[j] == overtakes[3] && events[j + 1] == overtakes[4] && worlds[j] == then_[3];
    OwnAfterFinishes(finishes, task, generation, text, skills);
    assert Exposed(worlds, events, j, j + 1);
    assert Overtaken(worlds, events, j, |events|);
    LostIffOvertaken(codec, worlds, events, j);
  }

  /** From a log at rest, over every schedule of all senders and updaters: the row
      of a new registration can be lost if and only if its generation does not
      exceed the rows the task already has. */
  lemma AppendCanBeLostIff(codec: Codec, w: World, task: string, generation: nat, text: string)
    requires Faithful(codec) && CleanLog(codec, w.log) && w.updater.Idle? && task !in w.queued
    requires generation >= 1 && RowText(codec, task, text)
    ensures (exists worlds: seq<World>, events: seq<Event>, j: nat :: LosesOwn(codec, w, task, generation, worlds, events, j))
            <==> generation <= Count(LogRows(codec, w.log), task)
  {
    if generation <= Count(LogRows(codec, w.log), task) {
      var worlds, events, j := RowCanBeLost(codec, w, task, generation, text, 0);
    } else {
      forall worlds: seq<World>, events: seq<Event>, j: nat ensures !LosesOwn(codec, w, task, generation, worlds, events, j) {
        if LosesOwn(codec, w, task, generation, worlds, events, j) {
          CountingRowSurvives(codec, worlds, events, 0, j);
        }
      }
    }
  }
}
