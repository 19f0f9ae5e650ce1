/** The rows of the dispatch log can be printed as `DispatchLog.Faithful` asks:
    here as three JSON strings in the escaped spelling. */
module DispatchCodec {
  import opened Collections
  import opened Values
  import opened DispatchLog
  import Json = FrontmatterJson
  import Notes = NoteRoundTrip

  function TaskText(task: Option<string>): string
  {
    match task case None => "" case Some(id) => "=" + id
  }

  function Marks(n: nat): (r: string)
    ensures |r| == n
  {
    if n == 0 then "" else "x" + Marks(n - 1)
  }

  function SkillsText(skills: Option<int>): string
  {
    match skills
    case None => ""
    case Some(n) => if n < 0 then "-" + Marks(-n) else "+" + Marks(n)
  }

  function Quoted(text: string): string
  {
    Json.TextJson(text, false)
  }

  function Printed(row: Row): string
  {
    Quoted(TaskText(row.task)) + (Quoted(SkillsText(row.skills)) + Quoted(row.others))
  }

  lemma TaskTextTells(a: Option<string>, b: Option<string>)
    requires TaskText(a) == TaskText(b)
    ensures a == b
  {
    if a.Some? && b.Some? {
      assert TaskText(a)[1..] == a.value && TaskText(b)[1..] == b.value;
    }
  }

  lemma SkillsTextTells(a: Option<int>, b: Option<int>)
    requires SkillsText(a) == SkillsText(b)
    ensures a == b
  {
    if a.Some? && b.Some? {
      assert SkillsText(a)[0] == SkillsText(b)[0] && |SkillsText(a)| == |SkillsText(b)|;
    }
  }

  /** Equal texts that begin with a quoted string begin with the same one. */
  lemma SameHead(a: string, after: string, b: string, rest: string)
    requires Quoted(a) + after == Quoted(b) + rest
    ensures a == b && after == rest
  {
    Json.TextStart(a, false, after);
    Json.TextStart(b, false, rest);
  }

  /** No printed row continues another. */
  lemma NoRowContinuesAnother(a: Row, b: Row, more: string)
    requires Printed(b) == Printed(a) + more
    ensures a == b && more == ""
  {
    var skillsA, skillsB := SkillsText(a.skills), SkillsText(b.skills);
    Associates(Quoted(TaskText(a.task)), Quoted(skillsA) + Quoted(a.others), more);
    Associates(Quoted(skillsA), Quoted(a.others), more);
    assert Quoted(b.others) + "" == Quoted(b.others);
    SameHead(TaskText(a.task), Quoted(skillsA) + (Quoted(a.others) + more), TaskText(b.task), Quoted(skillsB) + Quoted(b.others));
    SameHead(skillsA, Quoted(a.others) + more, skillsB, Quoted(b.others));
    SameHead(a.others, more, b.others, "");
    TaskTextTells(a.task, b.task);
    SkillsTextTells(a.skills, b.skills);
  }

  lemma {:induction false} EscapedIsPrintable(text: string)
    ensures Notes.Printable(Json.BodyText(text, false))
  {
    if |text| == 0 {
    } else {
      EscapedIsPrintable(text[1..]);
      var n := text[0] as int;
      if n < 0x1_0000 {
        Notes.HexIsPrintable(n);
      } else {
        Notes.HexIsPrintable(Json.HighHalf(n));
        Notes.HexIsPrintable(Json.LowHalf(n));
      }
    }
  }

  lemma PrintedIsSolid(row: Row)
    ensures Solid(Printed(row))
  {
    EscapedIsPrintable(TaskText(row.task));
    EscapedIsPrintable(SkillsText(row.skills));
    EscapedIsPrintable(row.others);
    QuotedIsSolid(TaskText(row.task));
    QuotedIsSolid(SkillsText(row.skills));
    QuotedIsSolid(row.others);
  }

  lemma QuotedIsSolid(text: string)
    requires Notes.Printable(Json.BodyText(text, false))
    ensures Solid(Quoted(text))
  {
    assert Notes.Printable(Quoted(text));
  }

  ghost function ParsedRow(s: string): Option<Row>
  {
    if row :| Printed(row) == s then Some(row) else None
  }

  lemma FaithfulCodecExists()
    ensures exists codec :: Faithful(codec)
  {
    var codec := Codec(ParsedRow, Printed);
    forall row ensures codec.parse(codec.print_(row)) == Some(row) && Solid(codec.print_(row)) {
      PrintedIsSolid(row);
      var found :| Printed(found) == Printed(row) && ParsedRow(Printed(row)) == Some(found);
      assert Printed(found) == Printed(row) + "";
      NoRowContinuesAnother(row, found, "");
    }
    forall row, more | |more| > 0 ensures codec.parse(codec.print_(row) + more) == None {
      if found :| Printed(found) == Printed(row) + more {
        NoRowContinuesAnother(row, found, more);
      }
    }
    assert Faithful(codec);
  }
}
