/** Notes as text: writing frontmatter and body (`plugins/chrono-vault/notes.py`)
    and reading them back (`plugins/chrono-vault/index.py`). */
module NoteText {
  import opened Values
  import opened FrontmatterJson

  datatype Note = Note(fields: map<string, Json>, body: string)

  const FRONTMATTER_FIELDS: seq<string> := [
    "schema_version", "id", "title", "type", "status", "target", "program", "component", "attack_class", "sensitivity",
    "source_task", "source_artifact_hash", "created_at", "updated_at", "verified_at", "valid_from", "valid_to",
    "supersedes", "superseded_by", "aliases", "keywords", "evidence_refs", "revision"
  ]

  const OPTIONAL_FIELD := "verified_at"

  // ---------------------------------------------------------------------------
  // Lines as `str.splitlines` sees them
  // ---------------------------------------------------------------------------

  predicate IsBreak(c: char)
  {
    '\n' <= c <= '\r' || 0x1C <= c as int <= 0x1E || IsSoftBreak(c)
  }

  /** The breaks that JSON leaves unescaped. */
  predicate IsSoftBreak(c: char)
  {
    c as int == 0x85 || c as int == 0x2028 || c as int == 0x2029
  }

  predicate HasBreak(s: string)
  {
    |s| > 0 && (IsBreak(s[0]) || HasBreak(s[1..]))
  }

  /** The text before the first break. */
  function Cut(s: string): (r: string)
    ensures |r| <= |s| && r == s[..|r|]
    ensures |r| < |s| <==> HasBreak(s)
  {
    if |s| == 0 || IsBreak(s[0]) then "" else [s[0]] + Cut(s[1..])
  }

  function AfterBreak(s: string): (r: string)
    requires |s| > 0
    ensures |r| < |s|
  {
    if s[0] == '\r' && |s| > 1 && s[1] == '\n' then s[2..] else s[1..]
  }

  function SplitLines(s: string): seq<string>
    decreases |s|
  {
    if |s| == 0 then []
    else if !HasBreak(s) then [s]
    else [Cut(s)] + SplitLines(AfterBreak(s[|Cut(s)|..]))
  }

  function Joined(lines: seq<string>): string
  {
    if |lines| == 0 then "" else if |lines| == 1 then lines[0] else lines[0] + "\n" + Joined(lines[1..])
  }

  // ---------------------------------------------------------------------------
  // Writing
  // ---------------------------------------------------------------------------

  ghost predicate Complete(note: Note)
  {
    note.fields.Keys == set f | f in FRONTMATTER_FIELDS
  }

  function LineText(field: string, encoded: string): string
  {
    field + ": " + encoded
  }

  /** The lines of the first `n` fields; None when screening refuses a value. */
  function FieldLines(clean: string -> bool, note: Note, fields: seq<string>): Option<seq<string>>
    requires forall f :: f in fields ==> f in note.fields
  {
    if |fields| == 0 then Some([])
    else
      var field := fields[|fields| - 1];
      match (FieldLines(clean, note, fields[..|fields| - 1]), FrontmatterValue(clean, note.fields[field]))
      case (Some(lines), Some(encoded)) => Some(lines + [LineText(field, encoded)])
      case _ => None
  }

  function NoteBytes(lines: seq<string>, body: string): string
  {
    "---\n" + (Joined(lines) + ("\n---\n" + body))
  }

  function Serialized(clean: string -> bool, note: Note): Option<string>
    requires forall f :: f in FRONTMATTER_FIELDS ==> f in note.fields
  {
    SerializedWith(FRONTMATTER_FIELDS, clean, note)
  }

  function SerializedWith(table: seq<string>, clean: string -> bool, note: Note): Option<string>
    requires forall f :: f in table ==> f in note.fields
  {
    match FieldLines(clean, note, table)
    case None => None
    case Some(lines) => if clean(NoteBytes(lines, note.body)) then Some(NoteBytes(lines, note.body)) else None
  }

  method Serialize(clean: string -> bool, note: Note) returns (text: Option<string>)
    requires forall f :: f in FRONTMATTER_FIELDS ==> f in note.fields
    ensures text == Serialized(clean, note)
  {
    var lines := PrintFields(clean, note, FRONTMATTER_FIELDS);
    if lines.None? {
      return None;
    }
    var whole := NoteBytes(lines.value, note.body);
    return if clean(whole) then Some(whole) else None;
  }

  method PrintFields(clean: string -> bool, note: Note, fields: seq<string>) returns (printed: Option<seq<string>>)
    requires forall f :: f in fields ==> f in note.fields
    ensures printed == FieldLines(clean, note, fields)
  {
    var lines: seq<string> := [];
    for index := 0 to |fields|
      invariant FieldLines(clean, note, fields[..index]) == Some(lines)
    {
      assert fields[..index + 1][..index] == fields[..index];
      var value := FrontmatterValue(clean, note.fields[fields[index]]);
      if value.None? {
        RefusalStays(clean, note, fields, index + 1);
        return None;
      }
      lines := lines + [LineText(fields[index], value.value)];
    }
    assert fields[..|fields|] == fields;
    return Some(lines);
  }

  lemma {:induction false} RefusalStays(clean: string -> bool, note: Note, fields: seq<string>, n: nat)
    requires n <= |fields| && forall f :: f in fields ==> f in note.fields
    requires FieldLines(clean, note, fields[..n]).None?
    ensures FieldLines(clean, note, fields).None?
    decreases |fields|
  {
    if n == |fields| {
      assert fields[..n] == fields;
    } else {
      var front := fields[..|fields| - 1];
      assert front[..n] == fields[..n];
      RefusalStays(clean, note, front, n);
    }
  }

  // ---------------------------------------------------------------------------
  // Reading
  // ---------------------------------------------------------------------------

  /** Position of the first closing marker. */
  function FindClosing(s: string): (r: Option<nat>)
    ensures r.Some? ==> r.value + 5 <= |s|
  {
    if |s| < 5 then None
    else if s[..5] == "\n---\n" then Some(0)
    else match FindClosing(s[1..]) case None => None case Some(n) => Some(n + 1)
  }

  /** `line.partition(": ")`; None when the separator is absent. */
  function Partition(line: string): Option<(string, string)>
  {
    if |line| < 2 then None
    else if line[0] == ':' && line[1] == ' ' then Some(("", line[2..]))
    else match Partition(line[1..]) case None => None case Some(parts) => Some(([line[0]] + parts.0, parts.1))
  }

  /** A line's key and value; None when it has no separator or no JSON. */
  function ReadLine(line: string): Option<(string, Json)>
  {
    match Partition(line)
    case None => None
    case Some(parts) => match Decode(parts.1) case None => None case Some(v) => Some((parts.0, v))
  }

  /** Duplicate keys are refused. */
  function ReadLines(lines: seq<string>): Option<map<string, Json>>
  {
    if |lines| == 0 then Some(map[])
    else
      match (ReadLines(lines[..|lines| - 1]), ReadLine(lines[|lines| - 1]))
      case (Some(fields), Some(entry)) => if entry.0 in fields then None else Some(fields[entry.0 := entry.1])
      case _ => None
  }

  /** No field is unknown, and only the optional one may be missing. */
  predicate ExpectedFields(table: seq<string>, fields: map<string, Json>)
  {
    && (forall f :: f in fields ==> f in table)
    && (forall f :: f in table && f != OPTIONAL_FIELD ==> f in fields)
  }

  function WithDefault(fields: map<string, Json>): map<string, Json>
  {
    if OPTIONAL_FIELD in fields then fields else fields[OPTIONAL_FIELD := Null]
  }

  /** The reading half of `_parse_note`; None is a malformed note. */
  function Parsed(text: string): Option<Note>
  {
    ParsedWith(FRONTMATTER_FIELDS, text)
  }

  function ParsedWith(table: seq<string>, text: string): Option<Note>
  {
    if |text| < 4 || text[..4] != "---\n" then None
    else
      var rest := text[4..];
      match FindClosing(rest)
      case None => None
      case Some(closing) =>
        match ReadLines(SplitLines(rest[..closing]))
        case None => None
        case Some(fields) =>
          if ExpectedFields(table, fields) then Some(Note(WithDefault(fields), rest[closing + 5..])) else None
  }

  method CollectFields(lines: seq<string>) returns (fields: Option<map<string, Json>>)
    ensures fields == ReadLines(lines)
  {
    var frontmatter: map<string, Json> := map[];
    for index := 0 to |lines|
      invariant ReadLines(lines[..index]) == Some(frontmatter)
    {
      assert lines[..index + 1][..index] == lines[..index];
      var entry := ReadLine(lines[index]);
      if entry.None? || entry.value.0 in frontmatter {
        MalformedStays(lines, index + 1);
        return None;
      }
      frontmatter := frontmatter[entry.value.0 := entry.value.1];
    }
    assert lines[..|lines|] == lines;
    return Some(frontmatter);
  }

  method ParseNote(text: string) returns (note: Option<Note>)
    ensures note == Parsed(text)
  {
    if |text| < 4 || text[..4] != "---\n" {
      return None;
    }
    var rest := text[4..];
    var closing := FindClosing(rest);
    if closing.None? {
      return None;
    }
    var fields := CollectFields(SplitLines(rest[..closing.value]));
    if fields.None? || !ExpectedFields(FRONTMATTER_FIELDS, fields.value) {
      return None;
    }
    return Some(Note(WithDefault(fields.value), rest[closing.value + 5..]));
  }

  lemma {:induction false} MalformedStays(lines: seq<string>, n: nat)
    requires n <= |lines| && ReadLines(lines[..n]).None?
    ensures ReadLines(lines).None?
    decreases |lines|
  {
    if n == |lines| {
      assert lines[..n] == lines;
    } else {
      var front := lines[..|lines| - 1];
      assert front[..n] == lines[..n];
      MalformedStays(front, n);
    }
  }
}
