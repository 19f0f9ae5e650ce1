/** Reading a written note back (`_serialize` of `plugins/chrono-vault/notes.py`
    against `_parse_note` of `plugins/chrono-vault/index.py`). */
module NoteRoundTrip {
  import opened Values
  import opened FrontmatterJson
  import opened NoteText

  // ---------------------------------------------------------------------------
  // Breaks in printed values
  // ---------------------------------------------------------------------------

  predicate HasSoftBreak(s: string)
  {
    |s| > 0 && (IsSoftBreak(s[0]) || HasSoftBreak(s[1..]))
  }

  /** Some string of the value is spelled plainly and holds U+0085, U+2028 or
      U+2029. */
  predicate Broken(v: Json, plain: string -> bool)
  {
    match v
    case Text(s) => plain(s) && HasSoftBreak(s)
    case Texts(items) => BrokenItems(items, plain)
    case _ => false
  }

  predicate BrokenItems(items: seq<string>, plain: string -> bool)
  {
    exists s :: s in items && plain(s) && HasSoftBreak(s)
  }

  /** Printable ASCII. */
  predicate Printable(s: string)
  {
    forall i :: 0 <= i < |s| ==> 0x20 <= s[i] as int < 0x7F
  }

  predicate NoNewline(s: string)
  {
    forall i :: 0 <= i < |s| ==> s[i] != '\n'
  }

  lemma {:induction false} PrintableHasNoBreak(s: string)
    requires Printable(s)
    ensures !HasBreak(s)
  {
    if |s| == 0 {
    } else {
      PrintableHasNoBreak(s[1..]);
    }
  }

  lemma {:induction false} BreakConcat(a: string, b: string)
    ensures HasBreak(a + b) <==> HasBreak(a) || HasBreak(b)
    ensures Cut(a + b) == if HasBreak(a) then Cut(a) else a + Cut(b)
  {
    if |a| == 0 {
      assert a + b == b;
    } else {
      BreakConcat(a[1..], b);
      assert (a + b)[1..] == a[1..] + b;
    }
  }

  lemma HexIsPrintable(n: nat)
    requires n < 0x1_0000
    ensures Printable(UnicodeEscape(n))
  {
    var a, b, c, d := n / 4096, n / 256 % 16, n / 16 % 16, n % 16;
    DigitIsPrintable(a);
    DigitIsPrintable(b);
    DigitIsPrintable(c);
    DigitIsPrintable(d);
    assert Hex4(n) == [HexDigit(a), HexDigit(b), HexDigit(c), HexDigit(d)];
  }

  lemma DigitIsPrintable(n: nat)
    requires n < 16
    ensures 0x20 <= HexDigit(n) as int < 0x7F
  {
  }

  lemma CharBreaksIff(c: char, plain: bool)
    ensures HasBreak(CharText(c, plain)) <==> plain && IsSoftBreak(c)
    ensures NoNewline(CharText(c, plain)) && |CharText(c, plain)| > 0
    ensures plain && IsSoftBreak(c) ==> CharText(c, plain) == [c]
  {
    var n := c as int;
    if plain && (n == 8 || n == 9 || n == 10 || n == 12 || n == 13 || c == '"' || c == '\\') {
      PrintableHasNoBreak(CharText(c, plain));
    } else if plain && n >= 0x20 {
      assert CharText(c, plain) == [c];
    } else if n < 0x1_0000 {
      HexIsPrintable(n);
      PrintableHasNoBreak(UnicodeEscape(n));
    } else {
      HexIsPrintable(HighHalf(n));
      HexIsPrintable(LowHalf(n));
      PrintableHasNoBreak(EscapedChar(c));
    }
  }

  lemma {:induction false} BodyBreaksIff(s: string, plain: bool)
    ensures HasBreak(BodyText(s, plain)) <==> plain && HasSoftBreak(s)
    ensures NoNewline(BodyText(s, plain))
    ensures HasBreak(BodyText(s, plain)) ==> ReadBody(Cut(BodyText(s, plain))) == Fail
  {
    if |s| == 0 {
    } else {
      var c, more := s[0], BodyText(s[1..], plain);
      BodyBreaksIff(s[1..], plain);
      CharBreaksIff(c, plain);
      BreakConcat(CharText(c, plain), more);
      if !HasBreak(CharText(c, plain)) && HasBreak(more) {
        CharReads(c, plain, Cut(more));
      }
    }
  }

  lemma StringBreaksIff(s: string, plain: bool)
    ensures HasBreak(TextJson(s, plain)) <==> plain && HasSoftBreak(s)
    ensures NoNewline(TextJson(s, plain)) && !IsBreak(TextJson(s, plain)[|TextJson(s, plain)| - 1])
    ensures HasBreak(TextJson(s, plain)) ==> Cut(TextJson(s, plain)) == "\"" + Cut(BodyText(s, plain))
  {
    var quote, body := "\"", BodyText(s, plain);
    BodyBreaksIff(s, plain);
    BreakConcat(quote + body, quote);
    BreakConcat(quote, body);
    PrintableHasNoBreak(quote);
  }

  lemma QuoteFails(body: string)
    requires ReadBody(body) == Fail
    ensures ReadItems("\"" + body) == Fail && Decode("\"" + body) == None
  {
    var s := "\"" + body;
    assert s[1..] == body;
  }

  /** What printed items look like, and cut at their first break. */
  ghost predicate ItemsBreak(text: string, broken: bool)
  {
    (HasBreak(text) <==> broken) && NoNewline(text) && (broken ==> ReadItems(Cut(text)) == Fail)
  }

  lemma {:induction false} ItemsBreakIff(items: seq<string>, plain: string -> bool)
    ensures ItemsBreak(ItemsText(items, plain), BrokenItems(items, plain))
  {
    if |items| == 0 {
    } else {
      var head, more := items[0], items[1..];
      FirstItemBreaks(head, plain(head));
      assert forall s :: s in items <==> s == head || s in more;
      assert BrokenItems(items, plain) <==> (plain(head) && HasSoftBreak(head)) || BrokenItems(more, plain);
      if |items| > 1 {
        ItemsBreakIff(more, plain);
        MoreItemsBreak(head, more, plain);
      }
    }
  }

  lemma FirstItemBreaks(head: string, spelling: bool)
    ensures ItemsBreak(TextJson(head, spelling), spelling && HasSoftBreak(head))
  {
    StringBreaksIff(head, spelling);
    BodyBreaksIff(head, spelling);
    if HasBreak(TextJson(head, spelling)) {
      QuoteFails(Cut(BodyText(head, true)));
    }
  }

  lemma MoreItemsBreak(head: string, more: seq<string>, plain: string -> bool)
    requires |more| > 0 && ItemsBreak(ItemsText(more, plain), BrokenItems(more, plain))
    requires ItemsBreak(TextJson(head, plain(head)), plain(head) && HasSoftBreak(head))
    ensures ItemsBreak(
              TextJson(head, plain(head)) + ", " + ItemsText(more, plain),
              (plain(head) && HasSoftBreak(head)) || BrokenItems(more, plain))
  {
    var text, tail := TextJson(head, plain(head)), ItemsText(more, plain);
    LinkBreaks(text, tail);
    if !HasBreak(text) && HasBreak(tail) {
      ItemsStartUncut(more, plain);
      LinkSkipped(Cut(tail));
      ItemReads(head, plain(head), ", " + Cut(tail));
    }
  }

  lemma LinkBreaks(text: string, tail: string)
    ensures HasBreak(text + ", " + tail) <==> HasBreak(text) || HasBreak(tail)
    ensures Cut(text + ", " + tail) == if HasBreak(text) then Cut(text) else text + (", " + Cut(tail))
  {
    assert text + ", " + tail == text + (", " + tail);
    BreakConcat(text, ", " + tail);
    BreakConcat(", ", tail);
    PrintableHasNoBreak(", ");
  }

  lemma ItemsStartUncut(items: seq<string>, plain: string -> bool)
    requires |items| > 0
    ensures |Cut(ItemsText(items, plain))| > 0 && Cut(ItemsText(items, plain))[0] == '"'
  {
    assert ItemsText(items, plain)[0] == '"';
  }

  lemma {:induction false} NumberIsPrintable(n: nat)
    ensures Printable(NatText(n)) && |NatText(n)| > 0
  {
    if n >= 10 {
      NumberIsPrintable(n / 10);
    }
  }

  /** What one printed value looks like as a line, and cut at its first break. */
  lemma ValueBreaksIff(v: Json, plain: string -> bool)
    ensures HasBreak(Spelled(v, plain)) <==> Broken(v, plain)
    ensures NoNewline(Spelled(v, plain)) && |Spelled(v, plain)| > 0
    ensures !IsBreak(Spelled(v, plain)[|Spelled(v, plain)| - 1])
    ensures Broken(v, plain) ==> Decode(Cut(Spelled(v, plain))) == None
  {
    match v
    case Null => PrintableHasNoBreak("null");
    case Number(n) => NumberHasNoBreak(n, plain);
    case Text(s) => QuotedBreaksIff(s, plain(s));
    case Texts(items) => ListBreaksIff(items, plain);
  }

  lemma NumberHasNoBreak(n: int, plain: string -> bool)
    ensures var text := Spelled(Number(n), plain);
            !HasBreak(text) && NoNewline(text) && |text| > 0 && !IsBreak(text[|text| - 1])
  {
    NumberIsPrintable(if n < 0 then -n else n);
    PrintableHasNoBreak(Spelled(Number(n), plain));
  }

  lemma QuotedBreaksIff(s: string, spelling: bool)
    ensures var text := TextJson(s, spelling);
            && (HasBreak(text) <==> spelling && HasSoftBreak(s))
            && NoNewline(text) && |text| > 0 && !IsBreak(text[|text| - 1])
            && (HasBreak(text) ==> Decode(Cut(text)) == None)
  {
    StringBreaksIff(s, spelling);
    BodyBreaksIff(s, spelling);
    if HasBreak(TextJson(s, spelling)) {
      QuoteFails(Cut(BodyText(s, spelling)));
    }
  }

  lemma ListBreaksIff(items: seq<string>, plain: string -> bool)
    ensures var text := Spelled(Texts(items), plain);
            && (HasBreak(text) <==> BrokenItems(items, plain))
            && NoNewline(text) && text[|text| - 1] == ']'
            && (BrokenItems(items, plain) ==> Decode(Cut(text)) == None)
  {
    var inner := ItemsText(items, plain);
    ItemsBreakIff(items, plain);
    BracketsBreak(inner);
    if HasBreak(inner) {
      ItemsStartUncut(items, plain);
      ListFails("[" + Cut(inner), Cut(inner));
    }
  }

  lemma BracketsBreak(inner: string)
    ensures HasBreak("[" + inner + "]") <==> HasBreak(inner)
    ensures HasBreak(inner) ==> Cut("[" + inner + "]") == "[" + Cut(inner)
  {
    BreakConcat("[" + inner, "]");
    BreakConcat("[", inner);
    PrintableHasNoBreak("[");
    PrintableHasNoBreak("]");
  }

  lemma ListFails(s: string, inner: string)
    requires s == "[" + inner && |inner| > 0 && inner[0] == '"' && ReadItems(inner) == Fail
    ensures Decode(s) == None
  {
    assert s[0] == '[' && s[1..] == inner;
    assert SkipSpace(s) == s && SkipSpace(inner) == inner;
    assert ReadValue(s) == Fail;
  }

  // ---------------------------------------------------------------------------
  // One frontmatter line
  // ---------------------------------------------------------------------------

  predicate IsName(field: string)
  {
    forall i :: 0 <= i < |field| ==> 'a' <= field[i] <= 'z' || field[i] == '_'
  }

  predicate IsFieldName(field: string)
  {
    |field| > 0 && IsName(field)
  }

  lemma {:induction false} NameFacts(field: string)
    requires IsName(field)
    ensures !HasBreak(field) && NoNewline(field)
  {
    if |field| == 0 {
    } else {
      NameFacts(field[1..]);
    }
  }

  lemma {:induction false} LinePartitions(field: string, encoded: string)
    requires IsName(field)
    ensures Partition(LineText(field, encoded)) == Some((field, encoded))
  {
    var line := LineText(field, encoded);
    if |field| == 0 {
      assert line[2..] == encoded;
    } else {
      LinePartitions(field[1..], encoded);
      assert line[1..] == LineText(field[1..], encoded);
      assert [field[0]] + field[1..] == field;
    }
  }

  /** A line that splits nowhere reads as its field; one that splits begins with
      a fragment that does not read. */
  lemma LineReadsIff(field: string, v: Json, plain: string -> bool)
    requires IsFieldName(field)
    ensures var line := LineText(field, Spelled(v, plain));
            && (HasBreak(line) <==> Broken(v, plain))
            && ReadLine(Cut(line)) == if Broken(v, plain) then None else Some((field, v))
  {
    var encoded := Spelled(v, plain);
    ValueBreaksIff(v, plain);
    ValueRoundTrip(v, plain);
    EncodedLineReads(field, encoded, v, Broken(v, plain));
  }

  lemma EncodedLineReads(field: string, encoded: string, v: Json, broken: bool)
    requires IsName(field) && (HasBreak(encoded) <==> broken)
    requires Decode(encoded) == Some(v) && (broken ==> Decode(Cut(encoded)) == None)
    ensures var line := LineText(field, encoded);
            (HasBreak(line) <==> broken) && ReadLine(Cut(line)) == if broken then None else Some((field, v))
  {
    NameFacts(field);
    LinkBreaksColon(field, encoded);
    LinePartitions(field, Cut(encoded));
    assert !broken ==> Cut(encoded) == encoded;
  }

  lemma LineIsSolid(field: string, v: Json, plain: string -> bool)
    requires IsFieldName(field)
    ensures Solid(LineText(field, Spelled(v, plain)))
  {
    ValueBreaksIff(v, plain);
    NameFacts(field);
    LineShape(field, Spelled(v, plain));
  }

  lemma LineShape(field: string, encoded: string)
    requires |field| > 0 && |encoded| > 0 && NoNewline(field) && NoNewline(encoded) && field[0] != '-'
    requires !IsBreak(encoded[|encoded| - 1])
    ensures Solid(LineText(field, encoded))
  {
    var line := LineText(field, encoded);
    assert line[|line| - 1] == encoded[|encoded| - 1] && line[0] == field[0];
  }

  lemma LinkBreaksColon(field: string, encoded: string)
    requires !HasBreak(field)
    ensures HasBreak(LineText(field, encoded)) <==> HasBreak(encoded)
    ensures Cut(LineText(field, encoded)) == LineText(field, Cut(encoded))
  {
    assert LineText(field, encoded) == field + (": " + encoded);
    assert LineText(field, Cut(encoded)) == field + (": " + Cut(encoded));
    BreakConcat(field, ": " + encoded);
    BreakConcat(": ", encoded);
    PrintableHasNoBreak(": ");
  }

  // ---------------------------------------------------------------------------
  // All lines
  // ---------------------------------------------------------------------------

  function SpelledLines(note: Note, fields: seq<string>, plain: string -> bool): (r: seq<string>)
    requires forall f :: f in fields ==> f in note.fields
    ensures |r| == |fields|
  {
    if |fields| == 0 then []
    else SpelledLines(note, fields[..|fields| - 1], plain) + [SpelledLine(note, fields[|fields| - 1], plain)]
  }

  function SpelledLine(note: Note, field: string, plain: string -> bool): string
    requires field in note.fields
  {
    LineText(field, Spelled(note.fields[field], plain))
  }

  lemma {:induction false} SpelledLineAt(note: Note, fields: seq<string>, plain: string -> bool, i: nat)
    requires i < |fields| && forall f :: f in fields ==> f in note.fields
    ensures SpelledLines(note, fields, plain)[i] == SpelledLine(note, fields[i], plain)
  {
    if i < |fields| - 1 {
      SpelledLineAt(note, fields[..|fields| - 1], plain, i);
    }
  }

  lemma {:induction false} LinesAreSpelled(clean: string -> bool, note: Note, fields: seq<string>)
    requires forall f :: f in fields ==> f in note.fields
    ensures var lines := FieldLines(clean, note, fields);
            lines.Some? ==> lines.value == SpelledLines(note, fields, PlainIfClean(clean))
  {
    if |fields| == 0 {
    } else {
      LinesAreSpelled(clean, note, fields[..|fields| - 1]);
    }
  }

  /** A line that ends before a break starts no new one in the middle. */
  predicate Solid(line: string)
  {
    |line| > 0 && NoNewline(line) && !IsBreak(line[|line| - 1]) && line[0] != '-'
  }

  lemma {:induction false} SplitConcat(a: string, b: string)
    requires |a| > 0 && !IsBreak(a[|a| - 1])
    ensures SplitLines(a + ("\n" + b)) == SplitLines(a) + SplitLines(b)
    decreases |a|
  {
    var tail := "\n" + b;
    BreakConcat(a, tail);
    assert HasBreak(tail) && Cut(tail) == "";
    if !HasBreak(a) {
      SplitUnbroken(a, tail, b);
    } else {
      var n := |Cut(a)|;
      CutEndsAtBreak(a);
      var rest := AfterBreak(a[n..]);
      assert |rest| > 0 && rest[|rest| - 1] == a[|a| - 1];
      AfterBreakConcat(a, tail, n);
      SplitConcat(rest, b);
      SplitStep(a + tail, Cut(a), rest + tail);
    }
  }

  lemma SplitStep(s: string, first: string, rest: string)
    requires HasBreak(s) && Cut(s) == first && AfterBreak(s[|first|..]) == rest
    ensures SplitLines(s) == [first] + SplitLines(rest)
  {
  }

  lemma SplitUnbroken(a: string, tail: string, b: string)
    requires |a| > 0 && !HasBreak(a) && tail == "\n" + b && HasBreak(a + tail) && Cut(a + tail) == a + Cut(tail)
    ensures SplitLines(a + tail) == SplitLines(a) + SplitLines(b)
  {
    assert Cut(tail) == "" && a + "" == a;
    assert (a + tail)[|a|..] == tail && AfterBreak(tail) == b;
    SplitStep(a + tail, a, b);
    FirstPiece(a);
  }

  lemma AfterBreakConcat(a: string, tail: string, n: nat)
    requires n < |a| && IsBreak(a[n]) && !IsBreak(a[|a| - 1])
    ensures AfterBreak((a + tail)[n..]) == AfterBreak(a[n..]) + tail
  {
    assert (a + tail)[n..] == a[n..] + tail;
    assert |a[n..]| >= 2;
  }

  lemma {:induction false} CutEndsAtBreak(s: string)
    requires HasBreak(s)
    ensures IsBreak(s[|Cut(s)|])
  {
    if !IsBreak(s[0]) {
      CutEndsAtBreak(s[1..]);
    }
  }

  lemma FirstPiece(line: string)
    requires |line| > 0
    ensures |SplitLines(line)| > 0 && SplitLines(line)[0] == Cut(line)
    ensures !HasBreak(line) ==> SplitLines(line) == [line] && Cut(line) == line
  {
    if HasBreak(line) {
      SplitStep(line, Cut(line), AfterBreak(line[|Cut(line)|..]));
    }
  }

  lemma {:induction false} JoinedSplits(lines: seq<string>, i: nat)
    requires forall k :: 0 <= k < |lines| ==> Solid(lines[k])
    requires i < |lines|
    ensures Cut(lines[i]) in SplitLines(Joined(lines))
  {
    FirstPiece(lines[0]);
    if |lines| > 1 {
      var more := lines[1..];
      SplitJoinStep(lines[0], more, lines);
      if i > 0 {
        JoinedSplits(more, i - 1);
        assert lines[i] == more[i - 1];
      }
    }
  }

  lemma SplitJoinStep(first: string, more: seq<string>, lines: seq<string>)
    requires lines == [first] + more && |more| > 0 && Solid(first)
    ensures SplitLines(Joined(lines)) == SplitLines(first) + SplitLines(Joined(more))
  {
    assert lines[1..] == more;
    SplitConcat(first, Joined(more));
    assert first + "\n" + Joined(more) == first + ("\n" + Joined(more));
  }

  lemma {:induction false} UnbrokenSplits(lines: seq<string>)
    requires forall k :: 0 <= k < |lines| ==> Solid(lines[k]) && !HasBreak(lines[k])
    ensures SplitLines(Joined(lines)) == lines
  {
    if |lines| == 0 {
    } else {
      FirstPiece(lines[0]);
      if |lines| > 1 {
        var more := lines[1..];
        assert lines == [lines[0]] + more;
        SplitJoinStep(lines[0], more, lines);
        UnbrokenSplits(more);
      } else {
        assert lines == [lines[0]];
      }
    }
  }

  lemma {:induction false} BadLineRefused(lines: seq<string>, bad: string)
    requires bad in lines && ReadLine(bad).None?
    ensures ReadLines(lines).None?
  {
    var front, last := lines[..|lines| - 1], lines[|lines| - 1];
    if bad != last {
      assert lines == front + [last];
      BadLineRefused(front, bad);
    }
  }

  predicate Distinct(fields: seq<string>)
  {
    forall i, j :: 0 <= i < j < |fields| ==> fields[i] != fields[j]
  }

  ghost predicate Unbroken(note: Note, fields: seq<string>, plain: string -> bool)
  {
    forall f :: f in fields ==> f in note.fields && IsFieldName(f) && !Broken(note.fields[f], plain)
  }

  /** The fields read from unbroken lines. */
  lemma {:induction false} GoodLinesRead(note: Note, fields: seq<string>, plain: string -> bool)
    requires Unbroken(note, fields, plain) && Distinct(fields)
    ensures ReadLines(SpelledLines(note, fields, plain)) == Some(FieldMap(note, fields))
  {
    if |fields| == 0 {
      assert FieldMap(note, fields) == map[];
    } else {
      var front, field := fields[..|fields| - 1], fields[|fields| - 1];
      LastIsNew(fields, front, field);
      GoodLinesRead(note, front, plain);
      GoodLineReads(note, field, plain);
      LastLineReads(note, front, field, fields, plain);
    }
  }

  lemma LastIsNew(fields: seq<string>, front: seq<string>, field: string)
    requires Distinct(fields) && |fields| > 0 && front == fields[..|fields| - 1] && field == fields[|fields| - 1]
    ensures fields == front + [field] && Distinct(front) && field !in front && field in fields
    ensures forall f :: f in front ==> f in fields
  {
  }

  lemma LastLineReads(note: Note, front: seq<string>, field: string, fields: seq<string>, plain: string -> bool)
    requires fields == front + [field] && field !in front && forall f :: f in fields ==> f in note.fields
    requires ReadLines(SpelledLines(note, front, plain)) == Some(FieldMap(note, front))
    requires ReadLine(LineText(field, Spelled(note.fields[field], plain))) == Some((field, note.fields[field]))
    ensures ReadLines(SpelledLines(note, fields, plain)) == Some(FieldMap(note, fields))
  {
    var line := LineText(field, Spelled(note.fields[field], plain));
    assert fields[..|fields| - 1] == front;
    assert SpelledLines(note, fields, plain) == SpelledLines(note, front, plain) + [line];
    FieldsGrow(note, front, field, fields);
    ReadLinesStep(SpelledLines(note, front, plain), line, FieldMap(note, front), field, note.fields[field]);
  }

  function FieldMap(note: Note, fields: seq<string>): map<string, Json>
    requires forall f :: f in fields ==> f in note.fields
  {
    map f | f in fields :: note.fields[f]
  }

  lemma FieldsGrow(note: Note, front: seq<string>, field: string, fields: seq<string>)
    requires fields == front + [field] && forall f :: f in fields ==> f in note.fields
    ensures FieldMap(note, fields) == FieldMap(note, front)[field := note.fields[field]]
  {
  }

  lemma GoodLineReads(note: Note, field: string, plain: string -> bool)
    requires field in note.fields && IsFieldName(field) && !Broken(note.fields[field], plain)
    ensures ReadLine(LineText(field, Spelled(note.fields[field], plain))) == Some((field, note.fields[field]))
  {
    LineReadsIff(field, note.fields[field], plain);
    var line := LineText(field, Spelled(note.fields[field], plain));
    assert Cut(line) == line;
  }

  lemma ReadLinesStep(lines: seq<string>, line: string, fields: map<string, Json>, field: string, v: Json)
    requires ReadLines(lines) == Some(fields) && ReadLine(line) == Some((field, v)) && field !in fields
    ensures ReadLines(lines + [line]) == Some(fields[field := v])
  {
    assert (lines + [line])[..|lines|] == lines;
  }

  lemma {:induction false} ClosingAfter(line: string, rest: string)
    requires NoNewline(line) && |rest| >= 5
    ensures FindClosing(line + rest) ==
            match FindClosing(rest) case None => None case Some(n) => Some(|line| + n)
  {
    if |line| == 0 {
      assert line + rest == rest;
    } else {
      ClosingAfter(line[1..], rest);
      assert (line + rest)[1..] == line[1..] + rest;
      assert (line + rest)[..5][0] == line[0];
    }
  }

  /** The first closing marker is the one after the last line. */
  lemma {:induction false} ClosingFound(lines: seq<string>, body: string)
    requires forall i :: 0 <= i < |lines| ==> Solid(lines[i])
    ensures FindClosing(Joined(lines) + ("\n---\n" + body)) == Some(|Joined(lines)|)
  {
    var marker := "\n---\n" + body;
    assert marker[..5] == "\n---\n";
    if |lines| == 0 {
      assert Joined(lines) + marker == marker;
    } else if |lines| == 1 {
      ClosingAfter(lines[0], marker);
    } else {
      var more := Joined(lines[1..]);
      var next := more + marker;
      var rest := "\n" + next;
      ClosingFound(lines[1..], body);
      assert Joined(lines) + marker == lines[0] + rest;
      ClosingAfter(lines[0], rest);
      assert more[0] == lines[1][0];
      assert rest[..5][1] == more[0];
      assert rest[1..] == next;
    }
  }

  // ---------------------------------------------------------------------------
  // The round trip
  // ---------------------------------------------------------------------------

  ghost predicate BrokenNote(table: seq<string>, clean: string -> bool, note: Note)
    requires forall f :: f in table ==> f in note.fields
  {
    exists f :: f in table && Broken(note.fields[f], PlainIfClean(clean))
  }

  lemma ParsedParts(table: seq<string>, lines: seq<string>, body: string)
    requires forall i :: 0 <= i < |lines| ==> Solid(lines[i])
    ensures ParsedWith(table, NoteBytes(lines, body)) ==
            match ReadLines(SplitLines(Joined(lines)))
            case None => None
            case Some(fields) => if ExpectedFields(table, fields) then Some(Note(WithDefault(fields), body)) else None
  {
    var rest := Joined(lines) + ("\n---\n" + body);
    ClosingFound(lines, body);
    SlicedBack(Joined(lines), "\n---\n" + body);
    BodyAfter(Joined(lines), "\n---\n", body);
    ParsedOpen(table, rest, |Joined(lines)|);
  }

  lemma BodyAfter(front: string, marker: string, body: string)
    requires |marker| == 5
    ensures (front + (marker + body))[|front| + 5..] == body
  {
  }

  lemma ParsedOpen(table: seq<string>, rest: string, closing: nat)
    requires FindClosing(rest) == Some(closing)
    ensures ParsedWith(table, "---\n" + rest) ==
            match ReadLines(SplitLines(rest[..closing]))
            case None => None
            case Some(fields) =>
              if ExpectedFields(table, fields) then Some(Note(WithDefault(fields), rest[closing + 5..])) else None
  {
    SlicedBack("---\n", rest);
  }

  lemma SlicedBack(a: string, b: string)
    ensures (a + b)[..|a|] == a && (a + b)[|a|..] == b
  {
  }

  lemma LinesRead(note: Note, fields: seq<string>, plain: string -> bool)
    requires forall f :: f in fields ==> f in note.fields && IsFieldName(f)
    requires Distinct(fields)
    ensures var lines := SpelledLines(note, fields, plain);
            && (forall i :: 0 <= i < |lines| ==> Solid(lines[i]))
            && ReadLines(SplitLines(Joined(lines))) ==
               if exists f :: f in fields && Broken(note.fields[f], plain) then None
               else Some(FieldMap(note, fields))
  {
    var lines := SpelledLines(note, fields, plain);
    forall i | 0 <= i < |lines|
      ensures Solid(lines[i]) && (HasBreak(lines[i]) <==> Broken(note.fields[fields[i]], plain))
    {
      SpelledLineAt(note, fields, plain, i);
      LineReadsIff(fields[i], note.fields[fields[i]], plain);
      LineIsSolid(fields[i], note.fields[fields[i]], plain);
    }
    if f :| f in fields && Broken(note.fields[f], plain) {
      var i :| 0 <= i < |fields| && fields[i] == f;
      SpelledLineAt(note, fields, plain, i);
      LineReadsIff(f, note.fields[f], plain);
      JoinedSplits(lines, i);
      BadLineRefused(SplitLines(Joined(lines)), Cut(lines[i]));
    } else {
      UnbrokenSplits(lines);
      GoodLinesRead(note, fields, plain);
    }
  }

  /** The round trip for any table of distinct field names. */
  lemma TableRoundTrip(table: seq<string>, clean: string -> bool, note: Note)
    requires Distinct(table) && forall f :: f in table ==> IsFieldName(f)
    requires note.fields.Keys == (set f | f in table) && OPTIONAL_FIELD in table
    requires SerializedWith(table, clean, note).Some?
    ensures ParsedWith(table, SerializedWith(table, clean, note).value) ==
            if BrokenNote(table, clean, note) then None else Some(note)
  {
    var plain := PlainIfClean(clean);
    var lines := SpelledLines(note, table, plain);
    LinesAreSpelled(clean, note, table);
    LinesRead(note, table, plain);
    ParsedParts(table, lines, note.body);
    if !BrokenNote(table, clean, note) {
      assert FieldMap(note, table) == note.fields;
    }
  }

  // The frontmatter table: names of lower-case letters and underscores, told
  // apart by their length, first and last letter.

  /** The place in the table of the name with this length, first and last letter. */
  function Place(length: nat, first: char, last: char): int
  {
    match (length, first, last)
    case (14, 's', 'n') => 0 // schema_version
    case (2, 'i', 'd') => 1 // id
    case (5, 't', 'e') => 2 // title
    case (4, 't', 'e') => 3 // type
    case (6, 's', 's') => 4 // status
    case (6, 't', 't') => 5 // target
    case (7, 'p', 'm') => 6 // program
    case (9, 'c', 't') => 7 // component
    case (12, 'a', 's') => 8 // attack_class
    case (11, 's', 'y') => 9 // sensitivity
    case (11, 's', 'k') => 10 // source_task
    case (20, 's', 'h') => 11 // source_artifact_hash
    case (10, 'c', 't') => 12 // created_at
    case (10, 'u', 't') => 13 // updated_at
    case (11, 'v', 't') => 14 // verified_at
    case (10, 'v', 'm') => 15 // valid_from
    case (8, 'v', 'o') => 16 // valid_to
    case (10, 's', 's') => 17 // supersedes
    case (13, 's', 'y') => 18 // superseded_by
    case (7, 'a', 's') => 19 // aliases
    case (8, 'k', 's') => 20 // keywords
    case (13, 'e', 's') => 21 // evidence_refs
    case (8, 'r', 'n') => 22 // revision
    case _ => -1
  }

  predicate NamedAt(field: string, i: int)
  {
    IsFieldName(field) && Place(|field|, field[0], field[|field| - 1]) == i
  }

  lemma NamesFrom0()
    ensures NamedAt("schema_version", 0) && NamedAt("id", 1) && NamedAt("title", 2) && NamedAt("type", 3)
  {
  }

  lemma NamesFrom4()
    ensures NamedAt("status", 4) && NamedAt("target", 5) && NamedAt("program", 6) && NamedAt("component", 7)
  {
  }

  lemma NamesFrom8()
    ensures NamedAt("attack_class", 8) && NamedAt("sensitivity", 9) && NamedAt("source_task", 10)
    ensures NamedAt("source_artifact_hash", 11)
  {
  }

  lemma NamesFrom12()
    ensures NamedAt("created_at", 12) && NamedAt("updated_at", 13) && NamedAt("verified_at", 14) && NamedAt("valid_from", 15)
  {
  }

  lemma NamesFrom16()
    ensures NamedAt("valid_to", 16) && NamedAt("supersedes", 17) && NamedAt("superseded_by", 18) && NamedAt("aliases", 19)
  {
  }

  lemma NamesFrom20()
    ensures NamedAt("keywords", 20) && NamedAt("evidence_refs", 21) && NamedAt("revision", 22)
  {
  }

  lemma TableIsPlaced(i: nat)
    requires i < |FRONTMATTER_FIELDS|
    ensures NamedAt(FRONTMATTER_FIELDS[i], i)
  {
    NamesFrom0();
    NamesFrom4();
    NamesFrom8();
    NamesFrom12();
    NamesFrom16();
    NamesFrom20();
  }

  lemma FieldsAreNames()
    ensures Distinct(FRONTMATTER_FIELDS) && forall f :: f in FRONTMATTER_FIELDS ==> IsFieldName(f)
  {
    forall i | 0 <= i < |FRONTMATTER_FIELDS| ensures NamedAt(FRONTMATTER_FIELDS[i], i) {
      TableIsPlaced(i);
    }
  }

  /** Whatever the screening and the spellings, a written note reads back whole,
      unless a plainly spelled string holds one of the three line separators that
      JSON leaves alone; then it is refused, never misread. */
  lemma NoteRoundTripIff(clean: string -> bool, note: Note)
    requires Complete(note) && Serialized(clean, note).Some?
    ensures Parsed(Serialized(clean, note).value) ==
            if BrokenNote(FRONTMATTER_FIELDS, clean, note) then None else Some(note)
  {
    FieldsAreNames();
    TableRoundTrip(FRONTMATTER_FIELDS, clean, note);
  }

  lemma {:induction false} UnscreenedLines(note: Note, fields: seq<string>)
    requires forall f :: f in fields ==> f in note.fields
    ensures FieldLines(text => true, note, fields).Some?
  {
    if |fields| == 0 {
    } else {
      UnscreenedLines(note, fields[..|fields| - 1]);
      UnscreenedValue(note.fields[fields[|fields| - 1]]);
    }
  }

  lemma UnscreenedValue(v: Json)
    ensures FrontmatterValue(text => true, v).Some?
  {
    if v.Texts? {
      UnscreenedItems(v.items);
    }
  }

  lemma {:induction false} UnscreenedItems(items: seq<string>)
    ensures FrontmatterItems(text => true, items).Some?
  {
    if |items| == 0 {
    } else {
      UnscreenedItems(items[1..]);
    }
  }

  lemma BrokenTitleIsRefused(note: Note)
    requires Complete(note) && "title" in note.fields && note.fields["title"].Text?
    requires HasSoftBreak(note.fields["title"].text)
    ensures Serialized(text => true, note).Some? && Parsed(Serialized(text => true, note).value) == None
  {
    UnscreenedLines(note, FRONTMATTER_FIELDS);
    assert FRONTMATTER_FIELDS[2] == "title";
    assert Broken(note.fields["title"], PlainIfClean(text => true));
    NoteRoundTripIff(text => true, note);
  }

  function TitledNote(title: string): Note
  {
    Note(map f | f in FRONTMATTER_FIELDS :: if f == "title" then Text(title) else Null, "")
  }

  /** A note whose title is a single U+2028, with nothing screened, is written and
      cannot be read. */
  lemma SeparatorIsRefused()
    ensures var note := TitledNote("\U{2028}");
            && Complete(note) && Serialized(text => true, note).Some?
            && Parsed(Serialized(text => true, note).value) == None
  {
    var note := TitledNote("\U{2028}");
    TitledIsComplete("\U{2028}");
    assert IsSoftBreak("\U{2028}"[0]);
    BrokenTitleIsRefused(note);
  }

  lemma TitledIsComplete(title: string)
    ensures Complete(TitledNote(title)) && "title" in TitledNote(title).fields
    ensures TitledNote(title).fields["title"] == Text(title)
  {
    assert FRONTMATTER_FIELDS[2] == "title";
    assert "title" in FRONTMATTER_FIELDS;
  }
}
