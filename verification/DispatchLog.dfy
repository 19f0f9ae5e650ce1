/** Rewriting one row of the dispatch log (`scripts/python/dispatch_log.py`,
    rendering and counting). */
module DispatchLog {
  import opened Whitespace
  import opened Collections
  import opened Values

  /** A log row: its task id when that is a string, its skills count, and its
      other fields as one value. */
  datatype Row = Row(task: Option<string>, skills: Option<int>, others: string)

  /** JSON objects in and out of one stripped line of bytes. */
  datatype Codec = Codec(parse: string -> Option<Row>, print_: Row -> string)

  predicate IsBreak(c: char)
  {
    c == '\n' || c == '\r'
  }

  predicate NoBreaks(s: string)
  {
    forall i :: 0 <= i < |s| ==> !IsBreak(s[i])
  }

  /** What printing an object gives: one line, no space at either end. */
  predicate Solid(s: string)
  {
    |s| > 0 && NoBreaks(s) && !IsByteSpace(s[0]) && !IsByteSpace(s[|s| - 1])
  }

  /** A printed object reads back, and is complete: nothing but space may follow
      it. */
  ghost predicate Faithful(codec: Codec)
  {
    && (forall row :: codec.parse(codec.print_(row)) == Some(row) && Solid(codec.print_(row)))
    && (forall row, more :: |more| > 0 && !IsByteSpace(more[|more| - 1]) ==> codec.parse(codec.print_(row) + more) == None)
  }

  // ---------------------------------------------------------------------------
  // Lines
  // ---------------------------------------------------------------------------

  /** Length of the first line with its ending: LF, CR LF or a bare CR. */
  function LineEnd(s: string): (n: nat)
    ensures n <= |s| && (|s| > 0 ==> n > 0)
  {
    if |s| == 0 then 0
    else if s[0] == '\n' then 1
    else if s[0] == '\r' then if |s| > 1 && s[1] == '\n' then 2 else 1
    else 1 + LineEnd(s[1..])
  }

  function SplitLines(s: string): seq<string>
    decreases |s|
  {
    if |s| == 0 then [] else [s[..LineEnd(s)]] + SplitLines(s[LineEnd(s)..])
  }

  function Joined(lines: seq<string>): string
  {
    if |lines| == 0 then "" else lines[0] + Joined(lines[1..])
  }

  predicate EndsWith(s: string, c: char)
  {
    |s| > 0 && s[|s| - 1] == c
  }

  predicate IsLine(s: string)
  {
    |s| > 0 && LineEnd(s) == |s|
  }

  /** `next` may follow `line` without changing where the lines break. */
  predicate Follows(line: string, next: string)
  {
    EndsWith(line, '\n') || (EndsWith(line, '\r') && |next| > 0 && next[0] != '\n')
  }

  predicate Chained(lines: seq<string>)
  {
    && (forall i :: 0 <= i < |lines| ==> IsLine(lines[i]))
    && forall i :: 0 < i < |lines| ==> Follows(lines[i - 1], lines[i])
  }

  lemma {:induction false} FirstLineStands(line: string, rest: string)
    requires IsLine(line) && (rest == "" || Follows(line, rest))
    ensures LineEnd(line + rest) == |line|
  {
    var s := line + rest;
    if |line| > 1 && !IsBreak(line[0]) {
      FirstLineStands(line[1..], rest);
      assert s[1..] == line[1..] + rest;
    } else if rest == "" {
      assert s == line;
    }
  }

  lemma {:induction false} FirstLineIsLine(s: string)
    requires |s| > 0
    ensures var n := LineEnd(s); IsLine(s[..n]) && (n < |s| ==> Follows(s[..n], s[n..]))
  {
    var n := LineEnd(s);
    if !IsBreak(s[0]) && |s| > 1 {
      FirstLineIsLine(s[1..]);
      assert s[..n][1..] == s[1..][..n - 1];
    }
  }

  lemma {:induction false} SplitIsChained(s: string)
    ensures Chained(SplitLines(s)) && Joined(SplitLines(s)) == s
    ensures |s| > 0 ==> |SplitLines(s)| > 0 && SplitLines(s)[0][0] == s[0]
    decreases |s|
  {
    if |s| == 0 {
    } else {
      var n := LineEnd(s);
      FirstLineIsLine(s);
      SplitIsChained(s[n..]);
      assert s == s[..n] + s[n..];
      var lines := SplitLines(s);
      assert lines[1..] == SplitLines(s[n..]);
      forall i | 0 < i < |lines| ensures Follows(lines[i - 1], lines[i]) {
        if i > 1 {
          assert lines[i] == lines[1..][i - 1] && lines[i - 1] == lines[1..][i - 2];
        }
      }
    }
  }

  /** Lines survive joining and splitting exactly when no ending is missing or
      swallowed. */
  lemma {:induction false} SplitJoinIff(lines: seq<string>)
    ensures SplitLines(Joined(lines)) == lines <==> Chained(lines)
  {
    SplitIsChained(Joined(lines));
    if Chained(lines) {
      SplitJoin(lines);
    }
  }

  lemma {:induction false} SplitJoin(lines: seq<string>)
    requires Chained(lines)
    ensures SplitLines(Joined(lines)) == lines
    ensures |lines| > 0 ==> |Joined(lines)| > 0 && Joined(lines)[0] == lines[0][0]
  {
    if |lines| == 0 {
    } else {
      var rest := lines[1..];
      SplitJoin(rest);
      assert |rest| > 0 ==> rest[0] == lines[1];
      FirstLineStands(lines[0], Joined(rest));
      assert Joined(lines)[|lines[0]|..] == Joined(rest);
    }
  }

  // ---------------------------------------------------------------------------
  // Rows
  // ---------------------------------------------------------------------------

  function LeftStripped(s: string): string
  {
    if |s| > 0 && IsByteSpace(s[0]) then LeftStripped(s[1..]) else s
  }

  function RightStripped(s: string): string
  {
    if |s| > 0 && IsByteSpace(s[|s| - 1]) then RightStripped(s[..|s| - 1]) else s
  }

  function Stripped(s: string): string
  {
    RightStripped(LeftStripped(s))
  }

  datatype LineRow = Blank | Malformed | Object(row: Row)

  function RowOf(codec: Codec, line: string): LineRow
  {
    var stripped := Stripped(line);
    if stripped == "" then Blank
    else match codec.parse(stripped) case None => Malformed case Some(row) => Object(row)
  }

  predicate Readable(codec: Codec, lines: seq<string>)
  {
    forall i :: 0 <= i < |lines| ==> !RowOf(codec, lines[i]).Malformed?
  }

  function Rows(codec: Codec, lines: seq<string>): seq<Row>
  {
    Collect(RowReader(codec), lines)
  }

  function RowReader(codec: Codec): string -> seq<Row>
  {
    line => RowsIn(codec, line)
  }

  function RowsIn(codec: Codec, line: string): seq<Row>
  {
    match RowOf(codec, line) case Object(row) => [row] case _ => []
  }

  predicate Matches(codec: Codec, line: string, task: string)
  {
    RowOf(codec, line).Object? && RowOf(codec, line).row.task == Some(task)
  }

  /** The last line whose row names the task. */
  function Target(codec: Codec, lines: seq<string>, task: string): (r: Option<nat>)
    ensures r.Some? ==> r.value < |lines| && Matches(codec, lines[r.value], task)
    ensures forall i :: 0 <= i < |lines| && Matches(codec, lines[i], task) ==> r.Some? && i <= r.value
  {
    if |lines| == 0 then None
    else if Matches(codec, lines[|lines| - 1], task) then Some(|lines| - 1)
    else Target(codec, lines[..|lines| - 1], task)
  }

  function Ending(line: string): string
  {
    if |line| >= 2 && line[|line| - 2..] == "\r\n" then "\r\n" else if EndsWith(line, '\n') then "\n" else ""
  }

  function NewLine(codec: Codec, line: string, skills: int): string
    requires RowOf(codec, line).Object?
  {
    codec.print_(RowOf(codec, line).row.(skills := Some(skills))) + Ending(line)
  }

  /** None stands for the refusals: a malformed line or no row for the task. */
  function Rendered(codec: Codec, data: string, task: string, skills: int): Option<string>
  {
    var lines := SplitLines(data);
    if !Readable(codec, lines) then None
    else match Target(codec, lines, task)
      case None => None
      case Some(t) => Some(Joined(lines[t := NewLine(codec, lines[t], skills)]))
  }

  method RenderUpdate(codec: Codec, data: string, task: string, skills: int) returns (r: Option<string>)
    ensures r == Rendered(codec, data, task, skills)
  {
    var lines := SplitLines(data);
    var target: Option<nat> := None;
    for index := 0 to |lines|
      invariant Readable(codec, lines[..index])
      invariant target == Target(codec, lines[..index], task)
    {
      assert lines[..index + 1][..index] == lines[..index];
      match RowOf(codec, lines[index])
      case Blank =>
      case Malformed => return None;
      case Object(row) =>
        if row.task == Some(task) {
          target := Some(index);
        }
    }
    assert lines[..|lines|] == lines;
    if target.None? {
      return None;
    }
    var t := target.value;
    lines := lines[t := NewLine(codec, lines[t], skills)];
    return Some(Joined(lines));
  }

  function Count(rows: seq<Row>, task: string): nat
  {
    if |rows| == 0 then 0 else Count(rows[..|rows| - 1], task) + if rows[|rows| - 1].task == Some(task) then 1 else 0
  }

  /** The reader's tally of rows per task id; None when a line is malformed. */
  method TaskCounts(codec: Codec, data: string) returns (counts: Option<map<string, nat>>)
    ensures counts.Some? <==> Readable(codec, SplitLines(data))
    ensures counts.Some? ==> forall task ::
                Count(Rows(codec, SplitLines(data)), task) == if task in counts.value then counts.value[task] else 0
  {
    var lines := SplitLines(data);
    var tally: map<string, nat> := map[];
    for index := 0 to |lines|
      invariant Readable(codec, lines[..index])
      invariant forall task :: Count(Rows(codec, lines[..index]), task) == if task in tally then tally[task] else 0
    {
      RowsOfConcat(codec, lines[..index], [lines[index]]);
      RowsOfOne(codec, lines[index]);
      assert lines[..index + 1] == lines[..index] + [lines[index]];
      var before := Rows(codec, lines[..index]);
      match RowOf(codec, lines[index])
      case Blank => assert before + [] == before;
      case Malformed => return None;
      case Object(row) =>
        assert (before + [row])[..|before|] == before;
        match row.task {
          case None =>
          case Some(task) => tally := tally[task := 1 + if task in tally then tally[task] else 0];
        }
    }
    assert lines[..|lines|] == lines;
    return Some(tally);
  }

  lemma RowsHead(codec: Codec, lines: seq<string>)
    requires |lines| > 0
    ensures Rows(codec, lines) == RowsIn(codec, lines[0]) + Rows(codec, lines[1..])
  {
  }

  lemma RowsOfOne(codec: Codec, line: string)
    ensures Rows(codec, [line]) == RowsIn(codec, line)
  {
    RowsHead(codec, [line]);
    assert RowsIn(codec, line) + [] == RowsIn(codec, line);
  }

  lemma RowsOfConcat(codec: Codec, a: seq<string>, b: seq<string>)
    ensures Rows(codec, a + b) == Rows(codec, a) + Rows(codec, b)
  {
    CollectConcat(RowReader(codec), a, b);
  }

  // ---------------------------------------------------------------------------
  // What one rewrite changes
  // ---------------------------------------------------------------------------

  /** Reference meaning on rows: the newest row of the task gets the count. */
  function UpdateNewest(rows: seq<Row>, task: string, skills: int): seq<Row>
  {
    if |rows| == 0 then []
    else
      var front, last := rows[..|rows| - 1], rows[|rows| - 1];
      if last.task == Some(task) then front + [last.(skills := Some(skills))]
      else UpdateNewest(front, task, skills) + [last]
  }

  lemma {:induction false} UpdateNewestAt(before: seq<Row>, row: Row, later: seq<Row>, task: string, skills: int)
    requires row.task == Some(task) && forall i :: 0 <= i < |later| ==> later[i].task != Some(task)
    ensures UpdateNewest(before + [row] + later, task, skills) == before + [row.(skills := Some(skills))] + later
  {
    var rows := before + [row] + later;
    if |later| == 0 {
      assert rows[..|rows| - 1] == before;
    } else {
      var shorter := later[..|later| - 1];
      UpdateNewestAt(before, row, shorter, task, skills);
      assert rows[..|rows| - 1] == before + [row] + shorter;
      assert later == shorter + [later[|later| - 1]];
    }
  }

  /** The line ending is kept: LF, CR LF, or a last line that has none. A bare CR
      on an earlier line is dropped. */
  predicate KeepsEnding(lines: seq<string>, t: nat)
    requires t < |lines|
  {
    t == |lines| - 1 || EndsWith(lines[t], '\n')
  }

  lemma {:induction false} SolidIsOneLine(s: string, ending: string)
    requires |s| > 0 && NoBreaks(s) && ending in {"", "\n", "\r\n"}
    ensures IsLine(s + ending)
  {
    if |s| > 1 {
      SolidIsOneLine(s[1..], ending);
      assert (s + ending)[1..] == s[1..] + ending;
    } else {
      assert (s + ending)[1..] == ending;
    }
  }

  /** All other lines keep their bytes and their boundaries exactly when the
      rewritten line keeps its ending. */
  lemma OnlyTheNewestLineChangesIff(codec: Codec, data: string, task: string, skills: int)
    requires Faithful(codec) && Rendered(codec, data, task, skills).Some?
    ensures var lines := SplitLines(data);
            var t := Target(codec, lines, task).value;
            SplitLines(Rendered(codec, data, task, skills).value) == lines[t := NewLine(codec, lines[t], skills)]
            <==> KeepsEnding(lines, t)
  {
    var lines := SplitLines(data);
    var t := Target(codec, lines, task).value;
    SplitIsChained(data);
    RewrittenIsChainedIff(codec, lines, t, skills);
    SplitJoinIff(lines[t := NewLine(codec, lines[t], skills)]);
  }

  lemma RewrittenIsChainedIff(codec: Codec, lines: seq<string>, t: nat, skills: int)
    requires Faithful(codec) && Chained(lines) && t < |lines| && RowOf(codec, lines[t]).Object?
    ensures Chained(lines[t := NewLine(codec, lines[t], skills)]) <==> KeepsEnding(lines, t)
  {
    var text := codec.print_(RowOf(codec, lines[t]).row.(skills := Some(skills)));
    var rewritten := NewLine(codec, lines[t], skills);
    var after := lines[t := rewritten];
    assert Solid(text);
    SolidIsOneLine(text, Ending(lines[t]));
    assert rewritten[0] == text[0] && EndsWith(rewritten, '\n') == EndsWith(lines[t], '\n');
    assert Ending(lines[t]) == "" ==> rewritten == text;
    if KeepsEnding(lines, t) {
      forall i | 0 < i < |after| ensures Follows(after[i - 1], after[i]) {
        assert Follows(lines[i - 1], lines[i]);
      }
    } else {
      assert !Follows(after[t], after[t + 1]);
    }
  }

  // ---------------------------------------------------------------------------
  // What a reader sees after one rewrite
  // ---------------------------------------------------------------------------

  predicate AllSpace(s: string)
  {
    forall i :: 0 <= i < |s| ==> IsByteSpace(s[i])
  }

  lemma {:induction false} RightStripFacts(s: string)
    ensures RightStripped(s) == "" <==> AllSpace(s)
    ensures RightStripped(s) != "" ==> !IsByteSpace(RightStripped(s)[|RightStripped(s)| - 1])
  {
    if |s| > 0 && IsByteSpace(s[|s| - 1]) {
      RightStripFacts(s[..|s| - 1]);
      assert s == s[..|s| - 1] + [s[|s| - 1]];
    }
  }

  lemma {:induction false} BlankIff(s: string)
    ensures Stripped(s) == "" <==> AllSpace(s)
  {
    RightStripFacts(s);
    if |s| > 0 && IsByteSpace(s[0]) {
      BlankIff(s[1..]);
      assert s == [s[0]] + s[1..];
    }
  }

  lemma {:induction false} RightStripStops(text: string, tail: string)
    requires |text| > 0 && !IsByteSpace(text[|text| - 1])
    ensures RightStripped(text + tail) == text + RightStripped(tail)
  {
    if |tail| == 0 {
      assert text + tail == text;
    } else {
      var front := tail[..|tail| - 1];
      var whole := text + tail;
      assert whole[..|whole| - 1] == text + front;
      RightStripStops(text, front);
    }
  }

  /** What a line starting with a printed row reads as. */
  lemma PrintedLineReads(codec: Codec, row: Row, tail: string)
    requires Faithful(codec)
    ensures RowOf(codec, codec.print_(row) + tail) == if AllSpace(tail) then Object(row) else Malformed
  {
    var text := codec.print_(row);
    var line := text + tail;
    assert Solid(text);
    assert line[0] == text[0];
    RightStripStops(text, tail);
    RightStripFacts(tail);
    assert text + "" == text;
  }

  lemma {:induction false} UnmatchedRows(codec: Codec, lines: seq<string>, task: string)
    requires forall i :: 0 <= i < |lines| ==> !Matches(codec, lines[i], task)
    ensures forall i :: 0 <= i < |Rows(codec, lines)| ==> Rows(codec, lines)[i].task != Some(task)
  {
    if |lines| == 0 {
    } else {
      UnmatchedRows(codec, lines[1..], task);
      RowsHead(codec, lines);
      assert !Matches(codec, lines[0], task);
    }
  }

  /** The rows around the rewritten line: the newest one of the task changes. */
  lemma RowsAround(codec: Codec, lines: seq<string>, task: string, skills: int, t: nat)
    requires Target(codec, lines, task) == Some(t)
    ensures var row := RowOf(codec, lines[t]).row;
            UpdateNewest(Rows(codec, lines), task, skills) ==
            Rows(codec, lines[..t]) + [row.(skills := Some(skills))] + Rows(codec, lines[t + 1..])
  {
    var before, later := lines[..t], lines[t + 1..];
    var row := RowOf(codec, lines[t]).row;
    forall i | 0 <= i < |later| ensures !Matches(codec, later[i], task) {
      assert later[i] == lines[t + 1 + i];
    }
    UnmatchedRows(codec, later, task);
    assert lines == before + [lines[t]] + later;
    RowsThreeWay(codec, before, lines[t], later);
    UpdateNewestAt(Rows(codec, before), row, Rows(codec, later), task, skills);
  }

  lemma {:induction false} JoinedConcat(a: seq<string>, b: seq<string>)
    ensures Joined(a + b) == Joined(a) + Joined(b)
  {
    if |a| == 0 {
      assert a + b == b;
    } else {
      var more := a[1..];
      JoinedConcat(more, b);
      assert (a + b)[1..] == more + b;
      Associates(a[0], Joined(more), Joined(b));
    }
  }

  lemma JoinedAround(before: seq<string>, middle: seq<string>, later: seq<string>)
    ensures Joined(before + middle + later) == Joined(before) + Joined(middle) + Joined(later)
  {
    JoinedConcat(before + middle, later);
    JoinedConcat(before, middle);
  }

  lemma MergeJoins(before: seq<string>, a: string, b: string, later: seq<string>)
    ensures Joined(before + [a, b] + later) == Joined(before + [a + b] + later)
  {
    JoinedAround(before, [a, b], later);
    JoinedAround(before, [a + b], later);
    assert [a, b][1..] == [b] && [b][1..] == [] && [a + b][1..] == [];
    assert Joined([b]) == b + "" == b && Joined([a + b]) == (a + b) + "" == a + b;
  }

  lemma RowsThreeWay(codec: Codec, before: seq<string>, line: string, later: seq<string>)
    requires RowOf(codec, line).Object?
    ensures Rows(codec, before + [line] + later) == Rows(codec, before) + [RowOf(codec, line).row] + Rows(codec, later)
  {
    RowsOfConcat(codec, before + [line], later);
    RowsOfConcat(codec, before, [line]);
    RowsOfOne(codec, line);
  }

  lemma {:induction false} PrefixedLine(text: string, line: string)
    requires NoBreaks(text) && IsLine(line)
    ensures IsLine(text + line)
  {
    if |text| == 0 {
      assert text + line == line;
    } else {
      PrefixedLine(text[1..], line);
      assert (text + line)[1..] == text[1..] + line;
    }
  }

  /** The lines with the rewritten one in place, or merged with the next one when
      its ending was a bare CR. */
  function AfterLines(codec: Codec, lines: seq<string>, t: nat, skills: int): seq<string>
    requires t < |lines| && RowOf(codec, lines[t]).Object?
  {
    var text := NewLine(codec, lines[t], skills);
    if KeepsEnding(lines, t) then lines[..t] + [text] + lines[t + 1..]
    else lines[..t] + [text + lines[t + 1]] + lines[t + 2..]
  }

  lemma ResultLines(codec: Codec, lines: seq<string>, t: nat, skills: int)
    requires Faithful(codec) && Chained(lines) && t < |lines| && RowOf(codec, lines[t]).Object?
    ensures SplitLines(Joined(lines[t := NewLine(codec, lines[t], skills)])) == AfterLines(codec, lines, t, skills)
  {
    if KeepsEnding(lines, t) {
      RewrittenIsChainedIff(codec, lines, t, skills);
      SplitJoinIff(lines[t := NewLine(codec, lines[t], skills)]);
      SamePlace(lines, t, NewLine(codec, lines[t], skills));
    } else {
      MergedIsChained(codec, lines, t, skills);
      MergedJoins(lines, t, NewLine(codec, lines[t], skills));
      SplitJoinIff(AfterLines(codec, lines, t, skills));
    }
  }

  lemma SamePlace(lines: seq<string>, t: nat, text: string)
    requires t < |lines|
    ensures lines[t := text] == lines[..t] + [text] + lines[t + 1..]
  {
  }

  lemma MergedJoins(lines: seq<string>, t: nat, text: string)
    requires t + 1 < |lines|
    ensures Joined(lines[t := text]) == Joined(lines[..t] + [text + lines[t + 1]] + lines[t + 2..])
  {
    MergeJoins(lines[..t], text, lines[t + 1], lines[t + 2..]);
    assert lines[t := text] == lines[..t] + [text, lines[t + 1]] + lines[t + 2..];
  }

  lemma MergedIsChained(codec: Codec, lines: seq<string>, t: nat, skills: int)
    requires Faithful(codec) && Chained(lines) && t < |lines| && RowOf(codec, lines[t]).Object? && !KeepsEnding(lines, t)
    ensures Chained(AfterLines(codec, lines, t, skills))
  {
    var row := RowOf(codec, lines[t]).row.(skills := Some(skills));
    var text := NewLine(codec, lines[t], skills);
    assert Solid(codec.print_(row));
    UnendedLine(codec, lines[t], skills);
    ChainMerged(lines, t, text);
  }

  lemma ChainMerged(lines: seq<string>, t: nat, text: string)
    requires Chained(lines) && t + 1 < |lines| && Solid(text)
    ensures Chained(lines[..t] + [text + lines[t + 1]] + lines[t + 2..])
  {
    var after := lines[..t] + [text + lines[t + 1]] + lines[t + 2..];
    PrefixedLine(text, lines[t + 1]);
    forall i | 0 < i < |after| ensures Follows(after[i - 1], after[i]) {
      if i <= t {
        assert Follows(lines[i - 1], lines[i]);
      } else {
        assert Follows(lines[i], lines[i + 1]);
      }
    }
  }

  /** The rewritten log can be read again exactly when the rewritten line kept
      its ending or only space follows it; then the rows are the old ones with
      the newest row of the task updated. */
  lemma RewriteReadsBackIff(codec: Codec, data: string, task: string, skills: int)
    requires Faithful(codec) && Rendered(codec, data, task, skills).Some?
    ensures var lines := SplitLines(data);
            var t := Target(codec, lines, task).value;
            var after := SplitLines(Rendered(codec, data, task, skills).value);
            && (Readable(codec, after) <==> KeepsEnding(lines, t) || AllSpace(lines[t + 1]))
            && (Readable(codec, after) ==> Rows(codec, after) == UpdateNewest(Rows(codec, lines), task, skills))
  {
    var lines := SplitLines(data);
    var t := Target(codec, lines, task).value;
    SplitIsChained(data);
    ResultLines(codec, lines, t, skills);
    AfterReadsIff(codec, lines, task, t, skills);
  }

  lemma AfterReadsIff(codec: Codec, lines: seq<string>, task: string, t: nat, skills: int)
    requires Faithful(codec) && Readable(codec, lines) && Target(codec, lines, task) == Some(t)
    ensures var after := AfterLines(codec, lines, t, skills);
            && (Readable(codec, after) <==> KeepsEnding(lines, t) || AllSpace(lines[t + 1]))
            && (Readable(codec, after) ==> Rows(codec, after) == UpdateNewest(Rows(codec, lines), task, skills))
  {
    RowsAround(codec, lines, task, skills, t);
    if KeepsEnding(lines, t) {
      KeptRowReads(codec, lines, t, skills);
    } else {
      MergedRowReadsIff(codec, lines, t, skills);
    }
  }

  /** Reading back lines in which the row at `t` was updated. */
  ghost predicate ReadsAsUpdated(codec: Codec, lines: seq<string>, t: nat, skills: int, after: seq<string>)
    requires t < |lines| && RowOf(codec, lines[t]).Object?
  {
    && Readable(codec, after)
    && Rows(codec, after) ==
       Rows(codec, lines[..t]) + [RowOf(codec, lines[t]).row.(skills := Some(skills))] + Rows(codec, lines[t + 1..])
  }

  lemma KeptRowReads(codec: Codec, lines: seq<string>, t: nat, skills: int)
    requires Faithful(codec) && Readable(codec, lines) && t < |lines| && RowOf(codec, lines[t]).Object?
    requires KeepsEnding(lines, t)
    ensures ReadsAsUpdated(codec, lines, t, skills, AfterLines(codec, lines, t, skills))
  {
    var row := RowOf(codec, lines[t]).row.(skills := Some(skills));
    PrintedLineReads(codec, row, Ending(lines[t]));
    OneRowAmong(codec, lines, t, NewLine(codec, lines[t], skills), row, t + 1);
  }

  lemma MergedRowReadsIff(codec: Codec, lines: seq<string>, t: nat, skills: int)
    requires Faithful(codec) && Readable(codec, lines) && t < |lines| && RowOf(codec, lines[t]).Object?
    requires !KeepsEnding(lines, t)
    ensures var after := AfterLines(codec, lines, t, skills);
            && (Readable(codec, after) <==> AllSpace(lines[t + 1]))
            && (AllSpace(lines[t + 1]) ==> ReadsAsUpdated(codec, lines, t, skills, after))
  {
    var row := RowOf(codec, lines[t]).row.(skills := Some(skills));
    UnendedLine(codec, lines[t], skills);
    PrintedLineReads(codec, row, lines[t + 1]);
    MergedReads(codec, lines, t, codec.print_(row) + lines[t + 1], row);
  }

  lemma UnendedLine(codec: Codec, line: string, skills: int)
    requires RowOf(codec, line).Object? && !EndsWith(line, '\n')
    ensures NewLine(codec, line, skills) == codec.print_(RowOf(codec, line).row.(skills := Some(skills)))
  {
    assert Ending(line) == "";
  }

  lemma MergedReads(codec: Codec, lines: seq<string>, t: nat, merged: string, row: Row)
    requires Readable(codec, lines) && t + 1 < |lines|
    requires RowOf(codec, merged) == if AllSpace(lines[t + 1]) then Object(row) else Malformed
    ensures var after := lines[..t] + [merged] + lines[t + 2..];
            && (Readable(codec, after) <==> AllSpace(lines[t + 1]))
            && (AllSpace(lines[t + 1]) ==>
                  Rows(codec, after) == Rows(codec, lines[..t]) + [row] + Rows(codec, lines[t + 1..]))
  {
    var after := lines[..t] + [merged] + lines[t + 2..];
    assert after[t] == merged;
    if AllSpace(lines[t + 1]) {
      MergedWithBlank(codec, lines, t, merged, row);
    }
  }

  lemma MergedWithBlank(codec: Codec, lines: seq<string>, t: nat, merged: string, row: Row)
    requires Readable(codec, lines) && t + 1 < |lines| && AllSpace(lines[t + 1]) && RowOf(codec, merged) == Object(row)
    ensures Readable(codec, lines[..t] + [merged] + lines[t + 2..])
    ensures Rows(codec, lines[..t] + [merged] + lines[t + 2..]) ==
            Rows(codec, lines[..t]) + [row] + Rows(codec, lines[t + 1..])
  {
    BlankRowSkipped(codec, lines[t + 1], lines[t + 2..]);
    assert lines[t + 1..] == [lines[t + 1]] + lines[t + 2..];
    OneRowAmong(codec, lines, t, merged, row, t + 2);
  }

  lemma BlankRowSkipped(codec: Codec, blank: string, later: seq<string>)
    requires AllSpace(blank)
    ensures Rows(codec, [blank] + later) == Rows(codec, later)
  {
    BlankIff(blank);
  }

  lemma OneRowAmong(codec: Codec, lines: seq<string>, t: nat, line: string, row: Row, next: nat)
    requires t < next <= |lines| && Readable(codec, lines) && RowOf(codec, line) == Object(row)
    ensures Readable(codec, lines[..t] + [line] + lines[next..])
    ensures Rows(codec, lines[..t] + [line] + lines[next..]) ==
            Rows(codec, lines[..t]) + [row] + Rows(codec, lines[next..])
  {
    RowsThreeWay(codec, lines[..t], line, lines[next..]);
  }

  /** Two lines, the first ending in a bare CR. */
  lemma ReturnSplits(first: string, second: string)
    requires Solid(first) && Solid(second)
    ensures SplitLines(first + "\r" + second) == [first + "\r", second]
  {
    var line := first + "\r";
    var lines := [line, second];
    assert second + "" == second;
    SolidIsOneLine(second, "");
    SolidWithReturn(first);
    assert EndsWith(line, '\r') && second[0] != '\n';
    SplitJoin(lines);
    assert lines[1..] == [second] && [second][1..] == [];
    assert Joined([second]) == second + "" == second;
  }

  /** Two rows, the first ending in a bare CR and newest for its task: the
      rewrite merges them into a line that cannot be read. */
  lemma CarriageReturnMerges(codec: Codec, first: Row, second: Row, task: string, skills: int)
    requires Faithful(codec) && first.task == Some(task) && second.task != Some(task)
    ensures var data := codec.print_(first) + "\r" + codec.print_(second);
            && Readable(codec, SplitLines(data)) && Rendered(codec, data, task, skills).Some?
            && !Readable(codec, SplitLines(Rendered(codec, data, task, skills).value))
  {
    var one, two := codec.print_(first), codec.print_(second);
    assert Solid(one) && Solid(two);
    ReturnSplits(one, two);
    PrintedLineReads(codec, first, "\r");
    PrintedLineReads(codec, second, "");
    assert two + "" == two;
    MergeIsUnreadable(codec, one + "\r" + two, [one + "\r", two], first, second, task, skills);
  }

  lemma MergeIsUnreadable(
    codec: Codec, data: string, lines: seq<string>, first: Row, second: Row, task: string, skills: int)
    requires Faithful(codec) && SplitLines(data) == lines && |lines| == 2 && first.task == Some(task) != second.task
    requires RowOf(codec, lines[0]) == Object(first) && RowOf(codec, lines[1]) == Object(second)
    requires !EndsWith(lines[0], '\n') && !AllSpace(lines[1])
    ensures Readable(codec, lines) && Rendered(codec, data, task, skills).Some?
    ensures !Readable(codec, SplitLines(Rendered(codec, data, task, skills).value))
  {
    TwoRows(codec, lines, first, second, task);
    RewriteReadsBackIff(codec, data, task, skills);
  }

  lemma TwoRows(codec: Codec, lines: seq<string>, first: Row, second: Row, task: string)
    requires |lines| == 2 && RowOf(codec, lines[0]) == Object(first) && RowOf(codec, lines[1]) == Object(second)
    requires first.task == Some(task) && second.task != Some(task)
    ensures Readable(codec, lines) && Target(codec, lines, task) == Some(0)
  {
    assert Matches(codec, lines[0], task) && !Matches(codec, lines[1], task);
  }

  lemma {:induction false} SolidWithReturn(s: string)
    requires |s| > 0 && NoBreaks(s)
    ensures IsLine(s + "\r")
  {
    if |s| == 1 {
      assert (s + "\r")[1..] == "\r";
    } else {
      SolidWithReturn(s[1..]);
      assert (s + "\r")[1..] == s[1..] + "\r";
    }
  }
}
