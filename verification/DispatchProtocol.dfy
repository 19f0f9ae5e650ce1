/** The append-versus-replace protocol of the dispatch log: senders append rows
    while telemetry updaters replace the whole file
    (`scripts/python/dispatch_log.py`, draining and updating; senders as in
    `bin/send-task.sh`). */
module DispatchProtocol {
  import opened Values
  import opened DispatchLog

  // ---------------------------------------------------------------------------
  // The file
  // ---------------------------------------------------------------------------

  datatype Outcome = Unchanged | Replaced | Refused

  /** The log file as the updater sees it while it holds both locks. */
  class LogFile {
    var data: string

    constructor (initial: string)
      ensures data == initial
    {
      data := initial;
    }

    method Update(codec: Codec, task: string, skills: int) returns (outcome: Outcome)
      modifies this
      ensures outcome.Refused? <==> Rendered(codec, old(data), task, skills).None?
      ensures outcome.Refused? ==> data == old(data)
      ensures !outcome.Refused? ==> Some(data) == Rendered(codec, old(data), task, skills)
      ensures outcome.Replaced? <==> data != old(data)
    {
      var before := data;
      var after := RenderUpdate(codec, before, task, skills);
      match after
      case None => return Refused;
      case Some(text) =>
        if text == before {
          return Unchanged;
        }
        data := text;
        return Replaced;
    }
  }

  // ---------------------------------------------------------------------------
  // The protocol
  // ---------------------------------------------------------------------------

  /** A delivery that registered as queued, and whether its row is appended. */
  datatype Sender = Sender(generation: nat, appended: bool)

  /** The holder of the registry lock: none, waiting for registered rows, done
      waiting, or about to replace what it read. */
  datatype Updater = Idle | Draining | Drained | Holding(before: string)

  datatype World = World(log: string, queued: map<string, Sender>, updater: Updater)

  datatype Event =
    | Register(task: string, generation: nat)
    | Append(task: string, text: string)
    | Finish(task: string)
    | Lock
    | Poll
    | Load
    | Replace(task: string, skills: int)
    | Release

  function LogRows(codec: Codec, log: string): seq<Row>
  {
    Rows(codec, SplitLines(log))
  }

  /** A row a sender appends: one line naming its task. */
  predicate RowText(codec: Codec, task: string, text: string)
  {
    |text| > 0 && NoBreaks(text) && Matches(codec, text + "\n", task)
  }

  predicate Quiet(codec: Codec, w: World)
  {
    && Readable(codec, SplitLines(w.log))
    && forall task :: task in w.queued ==> w.queued[task].generation <= Count(LogRows(codec, w.log), task)
  }

  /** One atomic step. Registering and finishing need the registry lock, so they
      wait for the updater; appending does not. */
  ghost predicate Next(codec: Codec, w: World, e: Event, v: World)
  {
    match e
    case Register(task, generation) =>
      w.updater.Idle? && task !in w.queued && generation >= 1 &&
      v == w.(queued := w.queued[task := Sender(generation, false)])
    case Append(task, text) =>
      task in w.queued && !w.queued[task].appended && RowText(codec, task, text) &&
      v == w.(log := w.log + (text + "\n"), queued := w.queued[task := Sender(w.queued[task].generation, true)])
    case Finish(task) => w.updater.Idle? && task in w.queued && v == w.(queued := w.queued - {task})
    case Lock => w.updater.Idle? && v == w.(updater := Draining)
    case Poll => w.updater.Draining? && Quiet(codec, w) && v == w.(updater := Drained)
    case Load => w.updater.Drained? && v == w.(updater := Holding(w.log))
    case Replace(task, skills) =>
      w.updater.Holding? && Rendered(codec, w.updater.before, task, skills).Some? &&
      v == w.(log := Rendered(codec, w.updater.before, task, skills).value, updater := Idle)
    case Release => !w.updater.Idle? && v == w.(updater := Idle)
  }

  /** A new registration counts past the rows its task already has. */
  predicate Counting(codec: Codec, w: World, e: Event)
  {
    e.Register? ==> Count(LogRows(codec, w.log), e.task) < e.generation
  }

  ghost predicate Path(codec: Codec, worlds: seq<World>, events: seq<Event>)
  {
    && |worlds| == |events| + 1
    && forall i :: 0 <= i < |events| ==> Next(codec, worlds[i], events[i], worlds[i + 1])
  }

  ghost predicate Run(codec: Codec, worlds: seq<World>, events: seq<Event>)
  {
    Path(codec, worlds, events) && forall i :: 0 <= i < |events| ==> Counting(codec, worlds[i], events[i])
  }

  /** What each step means to a log that has no races: the reference. */
  function Effect(codec: Codec, rows: seq<Row>, e: Event): seq<Row>
  {
    match e
    case Append(task, text) =>
      (match RowOf(codec, text + "\n") case Object(row) => rows + [row] case _ => rows)
    case Replace(task, skills) => UpdateNewest(rows, task, skills)
    case _ => rows
  }

  function Replayed(codec: Codec, rows: seq<Row>, events: seq<Event>): seq<Row>
  {
    if |events| == 0 then rows
    else Effect(codec, Replayed(codec, rows, events[..|events| - 1]), events[|events| - 1])
  }

  // ---------------------------------------------------------------------------
  // The invariant
  // ---------------------------------------------------------------------------

  /** Whole lines only, each of them readable. */
  predicate CleanLog(codec: Codec, log: string)
  {
    var lines := SplitLines(log);
    Readable(codec, lines) && forall i :: 0 <= i < |lines| ==> EndsWith(lines[i], '\n')
  }

  ghost predicate Pending(w: World, task: string)
  {
    task in w.queued && !w.queued[task].appended
  }

  ghost predicate Invariant(codec: Codec, w: World)
  {
    && CleanLog(codec, w.log)
    && (forall task :: Pending(w, task) ==> Count(LogRows(codec, w.log), task) < w.queued[task].generation)
    && (w.updater.Drained? || w.updater.Holding? ==> forall task :: !Pending(w, task))
    && (w.updater.Holding? ==> w.updater.before == w.log)
  }

  lemma AppendedLog(codec: Codec, log: string, task: string, text: string)
    requires CleanLog(codec, log) && RowText(codec, task, text)
    ensures CleanLog(codec, log + (text + "\n"))
    ensures LogRows(codec, log + (text + "\n")) == LogRows(codec, log) + [RowOf(codec, text + "\n").row]
  {
    var lines, line := SplitLines(log), text + "\n";
    SolidIsOneLine(text, "\n");
    AppendSplits(log, line);
    RowsOfConcat(codec, lines, [line]);
    RowsOfOne(codec, line);
  }

  /** A line appended to whole lines is one more line. */
  lemma AppendSplits(log: string, line: string)
    requires IsLine(line) && forall i :: 0 <= i < |SplitLines(log)| ==> EndsWith(SplitLines(log)[i], '\n')
    ensures SplitLines(log + line) == SplitLines(log) + [line]
  {
    var lines := SplitLines(log);
    var after := lines + [line];
    SplitIsChained(log);
    forall i | 0 < i < |after| ensures Follows(after[i - 1], after[i]) {
      assert EndsWith(lines[i - 1], '\n');
    }
    JoinedConcat(lines, [line]);
    assert [line][1..] == [];
    assert Joined([line]) == line + "" == line;
    SplitJoin(after);
  }

  lemma ReplacedLog(codec: Codec, log: string, task: string, skills: int)
    requires Faithful(codec) && CleanLog(codec, log) && Rendered(codec, log, task, skills).Some?
    ensures CleanLog(codec, Rendered(codec, log, task, skills).value)
    ensures LogRows(codec, Rendered(codec, log, task, skills).value) == UpdateNewest(LogRows(codec, log), task, skills)
  {
    var lines := SplitLines(log);
    var t := Target(codec, lines, task).value;
    OnlyTheNewestLineChangesIff(codec, log, task, skills);
    RewriteReadsBackIff(codec, log, task, skills);
    EndingKept(codec, lines[t], skills);
  }

  lemma EndingKept(codec: Codec, line: string, skills: int)
    requires RowOf(codec, line).Object? && EndsWith(line, '\n')
    ensures EndsWith(NewLine(codec, line, skills), '\n')
  {
  }

  lemma AppendingCounts(rows: seq<Row>, row: Row, counted: string)
    ensures Count(rows + [row], counted) == Count(rows, counted) + if row.task == Some(counted) then 1 else 0
  {
    assert (rows + [row])[..|rows|] == rows;
  }

  /** Every step keeps the invariant and does to the rows what the reference
      does. */
  lemma StepKeepsInvariant(codec: Codec, w: World, e: Event, v: World)
    requires Faithful(codec) && Invariant(codec, w) && Next(codec, w, e, v) && Counting(codec, w, e)
    ensures Invariant(codec, v)
    ensures LogRows(codec, v.log) == Effect(codec, LogRows(codec, w.log), e)
  {
    match e
    case Append(task, text) =>
      AppendedLog(codec, w.log, task, text);
      forall other | Pending(v, other) ensures Count(LogRows(codec, v.log), other) < v.queued[other].generation {
        assert Pending(w, other);
        AppendingCounts(LogRows(codec, w.log), RowOf(codec, text + "\n").row, other);
      }
      assert Pending(w, task);
      forall other ensures Pending(v, other) ==> Pending(w, other) {
      }
    case Replace(task, skills) =>
      ReplacedLog(codec, w.log, task, skills);
      forall other ensures Pending(v, other) ==> Pending(w, other) {
      }
    case Register(task, generation) =>
      forall other | Pending(v, other) ensures Count(LogRows(codec, v.log), other) < v.queued[other].generation {
        assert other != task ==> Pending(w, other);
      }
    case _ =>
      forall other ensures Pending(v, other) ==> Pending(w, other) {
      }
  }

  /** Over every interleaving of any senders and updaters, the log holds what
      its appends and rewrites would give one after the other. */
  lemma {:induction false} RunIsSequential(codec: Codec, worlds: seq<World>, events: seq<Event>)
    requires Faithful(codec) && Run(codec, worlds, events) && Invariant(codec, worlds[0])
    ensures Invariant(codec, worlds[|events|])
    ensures LogRows(codec, worlds[|events|].log) == Replayed(codec, LogRows(codec, worlds[0].log), events)
  {
    var n := |events|;
    if n > 0 {
      RunIsSequential(codec, worlds[..n], events[..n - 1]);
      assert worlds[..n][n - 1] == worlds[n - 1] && worlds[..n][0] == worlds[0];
      StepKeepsInvariant(codec, worlds[n - 1], events[n - 1], worlds[n]);
    }
  }

  // ---------------------------------------------------------------------------
  // Nothing is lost
  // ---------------------------------------------------------------------------

  /** Everything but the skills counts. */
  function Erased(rows: seq<Row>): (r: seq<Row>)
    ensures |r| == |rows|
  {
    if |rows| == 0 then [] else Erased(rows[..|rows| - 1]) + [rows[|rows| - 1].(skills := None)]
  }

  function AddedBy(codec: Codec, e: Event): seq<Row>
  {
    if e.Append? && RowOf(codec, e.text + "\n").Object? then [RowOf(codec, e.text + "\n").row] else []
  }

  /** The rows the events append, in order. */
  function AppendedRows(codec: Codec, events: seq<Event>): seq<Row>
  {
    if |events| == 0 then []
    else AppendedRows(codec, events[..|events| - 1]) + AddedBy(codec, events[|events| - 1])
  }

  lemma ErasedAppend(rows: seq<Row>, row: Row)
    ensures Erased(rows + [row]) == Erased(rows) + [row.(skills := None)]
  {
    assert (rows + [row])[..|rows|] == rows;
  }

  lemma {:induction false} UpdatingErased(rows: seq<Row>, task: string, skills: int)
    ensures Erased(UpdateNewest(rows, task, skills)) == Erased(rows)
  {
    if |rows| == 0 {
    } else {
      var front, last := rows[..|rows| - 1], rows[|rows| - 1];
      UpdatingErased(front, task, skills);
      ErasedAppend(front, last.(skills := Some(skills)));
      ErasedAppend(UpdateNewest(front, task, skills), last);
    }
  }

  lemma EffectErased(codec: Codec, rows: seq<Row>, kept: seq<Row>, e: Event)
    requires Erased(rows) == Erased(kept)
    ensures Erased(Effect(codec, rows, e)) == Erased(kept + AddedBy(codec, e))
  {
    assert kept + [] == kept;
    match e
    case Append(task, text) =>
      if RowOf(codec, text + "\n").Object? {
        var row := RowOf(codec, text + "\n").row;
        ErasedAppend(rows, row);
        ErasedAppend(kept, row);
      }
    case Replace(task, skills) => UpdatingErased(rows, task, skills);
    case _ =>
  }

  lemma {:induction false} ReplayedErased(codec: Codec, rows: seq<Row>, events: seq<Event>)
    ensures Erased(Replayed(codec, rows, events)) == Erased(rows + AppendedRows(codec, events))
  {
    if |events| == 0 {
      assert rows + [] == rows;
    } else {
      var earlier, last := events[..|events| - 1], events[|events| - 1];
      ReplayedErased(codec, rows, earlier);
      var kept := rows + AppendedRows(codec, earlier);
      EffectErased(codec, Replayed(codec, rows, earlier), kept, last);
      assert rows + AppendedRows(codec, events) == kept + AddedBy(codec, last);
    }
  }

  /** Every appended row survives every interleaving, in order and unchanged but
      for its skills count. */
  lemma EveryAppendSurvives(codec: Codec, worlds: seq<World>, events: seq<Event>)
    requires Faithful(codec) && Run(codec, worlds, events) && Invariant(codec, worlds[0])
    ensures Erased(LogRows(codec, worlds[|events|].log)) ==
            Erased(LogRows(codec, worlds[0].log) + AppendedRows(codec, events))
  {
    RunIsSequential(codec, worlds, events);
    ReplayedErased(codec, LogRows(codec, worlds[0].log), events);
  }
}
