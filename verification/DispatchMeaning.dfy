/** What a rewrite of the dispatch log reads and writes, byte by byte. */
module DispatchMeaning {
  import opened Whitespace
  import opened Values
  import opened DispatchLog

  /** The text between the space at both ends of a line. */
  ghost predicate IsCore(line: string, a: nat, b: nat)
  {
    && a <= b <= |line|
    && (forall i :: (0 <= i < a || b <= i < |line|) ==> IsByteSpace(line[i]))
    && (a < b ==> !IsByteSpace(line[a]) && !IsByteSpace(line[b - 1]))
  }

  /** The line holds this row and else only space. */
  ghost predicate Says(codec: Codec, line: string, row: Row)
  {
    exists a: nat, b: nat :: a < b && IsCore(line, a, b) && codec.parse(line[a..b]) == Some(row)
  }

  /** More than space, but no row. */
  ghost predicate IsGarbage(codec: Codec, line: string)
  {
    exists a: nat, b: nat :: a < b && IsCore(line, a, b) && codec.parse(line[a..b]) == None
  }

  lemma {:induction false} LeftStripCuts(s: string) returns (a: nat)
    ensures a <= |s| && LeftStripped(s) == s[a..] && (forall i :: 0 <= i < a ==> IsByteSpace(s[i]))
    ensures a < |s| ==> !IsByteSpace(s[a])
  {
    if |s| > 0 && IsByteSpace(s[0]) {
      var rest := s[1..];
      var n := LeftStripCuts(rest);
      a := n + 1;
      assert rest[n..] == s[a..];
      assert forall i :: 0 < i < a ==> s[i] == rest[i - 1];
    } else {
      a := 0;
    }
  }

  lemma {:induction false} RightStripCuts(s: string) returns (b: nat)
    ensures b <= |s| && RightStripped(s) == s[..b] && (forall i :: b <= i < |s| ==> IsByteSpace(s[i]))
    ensures b > 0 ==> !IsByteSpace(s[b - 1])
  {
    if |s| > 0 && IsByteSpace(s[|s| - 1]) {
      b := RightStripCuts(s[..|s| - 1]);
      assert s[..|s| - 1][..b] == s[..b];
    } else {
      b := |s|;
    }
  }

  /** Stripping a line leaves its core. */
  lemma StripLeavesCore(line: string) returns (a: nat, b: nat)
    ensures IsCore(line, a, b) && Stripped(line) == line[a..b]
    ensures forall c: nat, d: nat :: c < d && IsCore(line, c, d) ==> c == a && d == b
  {
    a := LeftStripCuts(line);
    var rest := line[a..];
    var n := RightStripCuts(rest);
    b := a + n;
    assert forall i :: a <= i < |line| ==> line[i] == rest[i - a];
    assert n > 0 && a < |line| ==> rest[0] == line[a];
  }

  /** Every line is blank, a row, or garbage. */
  lemma LineIsRead(codec: Codec, line: string)
    ensures RowOf(codec, line) == Blank <==> forall i :: 0 <= i < |line| ==> IsByteSpace(line[i])
    ensures RowOf(codec, line) == Malformed <==> IsGarbage(codec, line)
    ensures forall row :: RowOf(codec, line) == Object(row) <==> Says(codec, line, row)
  {
    var a, b := StripLeavesCore(line);
    assert a < b ==> !IsByteSpace(line[a]);
  }

  predicate EndsIn(line: string, text: string)
  {
    |text| <= |line| && line[|line| - |text|..] == text
  }

  /** The ending a line has, as far as the rewrite keeps it: a bare CR is none. */
  predicate HasEnding(line: string, ending: string)
  {
    || (ending == "\r\n" && EndsIn(line, "\r\n"))
    || (ending == "\n" && EndsIn(line, "\n") && !EndsIn(line, "\r\n"))
    || (ending == "" && !EndsIn(line, "\n"))
  }

  lemma EndingIsKept(line: string)
    ensures HasEnding(line, Ending(line))
    ensures forall ending :: HasEnding(line, ending) ==> ending == Ending(line)
  {
    assert EndsIn(line, "\n") <==> EndsWith(line, '\n');
    assert EndsIn(line, "\r\n") ==> line[|line| - 1] == "\r\n"[1];
  }

  /** The text before and after the rewritten line. */
  ghost predicate Rewrites(codec: Codec, data: string, task: string, skills: int, written: string, t: nat, row: Row, ending: string)
  {
    var lines := SplitLines(data);
    && t < |lines| && Says(codec, lines[t], row) && row.task == Some(task)
    && (forall i, other :: t < i < |lines| && Says(codec, lines[i], other) ==> other.task != Some(task))
    && HasEnding(lines[t], ending)
    && written == Joined(lines[..t]) + codec.print_(Row(Some(task), Some(skills), row.others)) + ending + Joined(lines[t + 1..])
  }

  /** A rewrite succeeds exactly when no line is garbage and some line names the
      task; then the last such line alone is replaced, by its row with the new count
      and its own ending. */
  lemma RewriteMeaning(codec: Codec, data: string, task: string, skills: int)
    ensures Rendered(codec, data, task, skills).Some? <==>
            && (forall i :: 0 <= i < |SplitLines(data)| ==> !IsGarbage(codec, SplitLines(data)[i]))
            && exists i, row :: 0 <= i < |SplitLines(data)| && Says(codec, SplitLines(data)[i], row) && row.task == Some(task)
    ensures Rendered(codec, data, task, skills).Some? ==>
              exists t, row, ending :: Rewrites(codec, data, task, skills, Rendered(codec, data, task, skills).value, t, row, ending)
  {
    var lines := SplitLines(data);
    LinesAreRead(codec, lines, task);
    if Rendered(codec, data, task, skills).Some? {
      var t := Target(codec, lines, task).value;
      RewriteSplits(codec, data, task, skills, t);
    }
  }

  lemma LinesAreRead(codec: Codec, lines: seq<string>, task: string)
    ensures Readable(codec, lines) <==> forall i :: 0 <= i < |lines| ==> !IsGarbage(codec, lines[i])
    ensures forall i :: 0 <= i < |lines| ==>
              (Matches(codec, lines[i], task) <==> exists row :: Says(codec, lines[i], row) && row.task == Some(task))
    ensures Target(codec, lines, task).Some? <==>
            exists i, row :: 0 <= i < |lines| && Says(codec, lines[i], row) && row.task == Some(task)
  {
    forall i | 0 <= i < |lines|
      ensures RowOf(codec, lines[i]) == Malformed <==> IsGarbage(codec, lines[i])
      ensures Matches(codec, lines[i], task) <==> exists row :: Says(codec, lines[i], row) && row.task == Some(task)
    {
      LineIsRead(codec, lines[i]);
    }
  }

  lemma RewriteSplits(codec: Codec, data: string, task: string, skills: int, t: nat)
    requires Rendered(codec, data, task, skills).Some? && Target(codec, SplitLines(data), task) == Some(t)
    ensures exists row, ending ::
              Rewrites(codec, data, task, skills, Rendered(codec, data, task, skills).value, t, row, ending)
  {
    var lines := SplitLines(data);
    var row := RowOf(codec, lines[t]).row;
    forall i | 0 <= i < |lines| ensures forall other :: Says(codec, lines[i], other) <==> RowOf(codec, lines[i]) == Object(other) {
      LineIsRead(codec, lines[i]);
    }
    EndingIsKept(lines[t]);
    assert row.(skills := Some(skills)) == Row(Some(task), Some(skills), row.others);
    ReplacedParts(lines, t, codec.print_(row.(skills := Some(skills))), Ending(lines[t]));
    assert Rewrites(codec, data, task, skills, Rendered(codec, data, task, skills).value, t, row, Ending(lines[t]));
  }

  lemma ReplacedParts(lines: seq<string>, t: nat, text: string, ending: string)
    requires t < |lines|
    ensures Joined(lines[t := text + ending]) == Joined(lines[..t]) + text + ending + Joined(lines[t + 1..])
  {
    assert lines[t := text + ending] == lines[..t] + [text + ending] + lines[t + 1..];
    JoinedParts(lines[..t], text + ending, lines[t + 1..]);
  }

  lemma {:induction false} JoinedParts(before: seq<string>, line: string, rest: seq<string>)
    ensures Joined(before + [line] + rest) == Joined(before) + line + Joined(rest)
  {
    var all := before + [line] + rest;
    if |before| == 0 {
      assert all == [line] + rest;
    } else {
      assert all[1..] == before[1..] + [line] + rest;
      JoinedParts(before[1..], line, rest);
    }
  }

  /** A task is counted once for each of its rows. */
  lemma {:induction false} CountMeaning(rows: seq<Row>, task: string)
    ensures Count(rows, task) == |set i | 0 <= i < |rows| && rows[i].task == Some(task)|
  {
    if |rows| > 0 {
      var n := |rows| - 1;
      CountMeaning(rows[..n], task);
      var before, all := set i | 0 <= i < n && rows[..n][i].task == Some(task), set i | 0 <= i < |rows| && rows[i].task == Some(task);
      assert all == if rows[n].task == Some(task) then before + {n} else before;
    }
  }
}
