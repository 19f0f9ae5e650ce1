/** The disposable note index (`plugins/chrono-vault/index.py`): tables as maps
    from docid, incremental synchronisation and rebuild from scratch. */
module NoteIndex {
  import opened Values

  type Bytes = string

  /** `notes/<noteType>/<stem>.md` */
  datatype NotePath = NotePath(noteType: string, stem: string)

  datatype FtsText = FtsText(
    title: string, body: string, aliases: string, target: string,
    component: string, attackClass: string, keywords: string, evidenceSummary: string)

  /** What `_parse_note` reads out of a note's bytes. */
  datatype ParsedNote = ParsedNote(
    id: string, createdAtNs: int, status: string, sensitivity: string, noteType: string,
    verifiedAtNs: Option<int>, text: FtsText, storable: bool)

  /** `_parse_note` returns a note, raises `MalformedNote`, or raises something its
      callers do not catch: a number with too many digits, JSON nested too deep. A
      note is not storable when SQLite refuses its text, as for a lone surrogate. */
  datatype ParseOutcome = Note(note: ParsedNote) | Malformed(error: string) | Raises

  type Parser = (NotePath, Bytes) -> ParseOutcome

  /** The parser refuses a note whose id is not its filename stem. */
  ghost predicate ChecksStem(parse: Parser)
  {
    forall p, b :: parse(p, b).Note? ==> parse(p, b).note.id == p.stem
  }

  datatype SourceFile = SourceFile(path: NotePath, content: Bytes, mtimeNs: int)

  /** A row of `meta`. */
  datatype Row = Row(
    id: string, path: NotePath, size: int, mtimeNs: int, createdAtNs: int, contentHash: Digest<Bytes>,
    status: string, sensitivity: string, noteType: string, verifiedAtNs: Option<int>)

  function RowOf(path: NotePath, content: Bytes, mtimeNs: int, note: ParsedNote): Row
  {
    Row(note.id, path, |content|, mtimeNs, note.createdAtNs, Sha256(content),
        note.status, note.sensitivity, note.noteType, note.verifiedAtNs)
  }

  datatype QuarantineItem = QuarantineItem(contentHash: Digest<Bytes>, error: string)

  type Meta = map<int, Row>

  datatype Tables = Tables(meta: Meta, fts: map<int, FtsText>, quarantine: map<NotePath, QuarantineItem>, generation: int)

  const EMPTY_TABLES := Tables(map[], map[], map[], 0)

  /** The table constraints: unique ids and paths, and one text row per docid. */
  ghost predicate WellFormed(t: Tables)
  {
    && t.meta.Keys == t.fts.Keys
    && (forall d, e :: d in t.meta && e in t.meta && t.meta[d].id == t.meta[e].id ==> d == e)
    && (forall d, e :: d in t.meta && e in t.meta && t.meta[d].path == t.meta[e].path ==> d == e)
  }

  /** One row and its text are the projection of the content they hash. */
  ghost predicate FaithfulRow(parse: Parser, row: Row, text: FtsText)
  {
    var content := row.contentHash.preimage;
    var outcome := parse(row.path, content);
    && outcome.Note? && outcome.note.storable
    && row == RowOf(row.path, content, row.mtimeNs, outcome.note) && text == outcome.note.text
  }

  ghost predicate Faithful(parse: Parser, t: Tables)
  {
    WellFormed(t) && forall d :: d in t.meta ==> FaithfulRow(parse, t.meta[d], t.fts[d])
  }

  /** SQLite picks some unused row id. */
  ghost predicate PicksUnused(alloc: set<int> -> int)
  {
    forall used :: alloc(used) !in used
  }

  ghost predicate HasNoteId(meta: Meta, id: string)
  {
    exists d :: d in meta && meta[d].id == id
  }

  ghost predicate HasPath(meta: Meta, path: NotePath)
  {
    exists d :: d in meta && meta[d].path == path
  }

  ghost function DocOf(meta: Meta, id: string): int
    requires HasNoteId(meta, id)
  {
    var d :| d in meta && meta[d].id == id; d
  }

  ghost function DocAt(meta: Meta, path: NotePath): int
    requires HasPath(meta, path)
  {
    var d :| d in meta && meta[d].path == path; d
  }

  // ---------------------------------------------------------------------------
  // Upsert and delete
  // ---------------------------------------------------------------------------

  /** The path already belongs to another id: `_upsert_connection` raises. */
  ghost predicate PathTaken(meta: Meta, path: NotePath, id: string)
  {
    HasPath(meta, path) && meta[DocAt(meta, path)].id != id
  }

  ghost function Upserted(alloc: set<int> -> int, t: Tables, row: Row, text: FtsText): Tables
  {
    var d := if HasNoteId(t.meta, row.id) then DocOf(t.meta, row.id) else alloc(t.meta.Keys);
    t.(meta := t.meta[d := row], fts := t.fts[d := text], quarantine := t.quarantine - {row.path})
  }

  function Deleted(t: Tables, d: int): Tables
  {
    t.(meta := t.meta - {d}, fts := t.fts - {d})
  }

  function ItemFor(f: SourceFile, error: string): QuarantineItem
  {
    QuarantineItem(Sha256(f.content), error)
  }

  // ---------------------------------------------------------------------------
  // Synchronisation
  // ---------------------------------------------------------------------------

  /** Progress of one `sync_index` pass. */
  datatype Sync = Sync(tables: Tables, indexed: nat, kept: nat, removed: nat, quarantined: seq<NotePath>)

  datatype SyncOutcome = Synced(sync: Sync) | Refused

  ghost predicate SameSignature(row: Row, f: SourceFile)
  {
    row.size == |f.content| && row.mtimeNs == f.mtimeNs && row.contentHash == Sha256(f.content)
  }

  /** One scanned file, judged against the rows present when the pass began. */
  ghost function SyncFile(parse: Parser, alloc: set<int> -> int, existing: Meta, s: Sync, f: SourceFile): SyncOutcome
  {
    match parse(f.path, f.content)
    case Raises => Refused
    case Malformed(error) =>
      var t := if HasPath(existing, f.path) then Deleted(s.tables, DocAt(existing, f.path)) else s.tables;
      Synced(s.(
        tables := t.(quarantine := t.quarantine[f.path := ItemFor(f, error)]),
        removed := if HasPath(existing, f.path) then s.removed + 1 else s.removed,
        quarantined := s.quarantined + [f.path]))
    case Note(note) =>
      if HasPath(existing, f.path) && SameSignature(existing[DocAt(existing, f.path)], f) then
        Synced(s.(
          tables := s.tables.(quarantine := s.tables.quarantine - {f.path}),
          kept := s.kept + 1))
      else if PathTaken(s.tables.meta, f.path, note.id) || !note.storable then Refused
      else
        Synced(s.(
          tables := Upserted(alloc, s.tables, RowOf(f.path, f.content, f.mtimeNs, note), note.text),
          indexed := s.indexed + 1))
  }

  ghost function SyncFiles(parse: Parser, alloc: set<int> -> int, t: Tables, disk: seq<SourceFile>): SyncOutcome
  {
    if |disk| == 0 then Synced(Sync(t, 0, 0, 0, []))
    else
      match SyncFiles(parse, alloc, t, disk[..|disk| - 1])
      case Refused => Refused
      case Synced(s) => SyncFile(parse, alloc, t.meta, s, disk[|disk| - 1])
  }

  function PathsOf(disk: seq<SourceFile>): set<NotePath>
  {
    set f | f in disk :: f.path
  }

  /** Documents whose initially indexed path was not scanned any more. */
  ghost function Vanished(existing: Meta, current: Meta, scanned: set<NotePath>): set<int>
  {
    set d | d in current && HasPath(existing, current[d].path) && current[d].path !in scanned
  }

  ghost function Swept(existing: Meta, s: Sync, scanned: set<NotePath>): Sync
  {
    var gone := Vanished(existing, s.tables.meta, scanned);
    var removed := s.removed + |gone|;
    var generation := s.tables.generation
                      + if s.indexed > 0 || removed > 0 || |s.quarantined| > 0 then 1 else 0;
    var quarantine := map p | p in s.tables.quarantine && p in scanned :: s.tables.quarantine[p];
    s.(tables := Tables(s.tables.meta - gone, s.tables.fts - gone, quarantine, generation), removed := removed)
  }

  /** `sync_index`; a refusal rolls the transaction back. */
  ghost function Synchronised(parse: Parser, alloc: set<int> -> int, t: Tables, disk: seq<SourceFile>): SyncOutcome
  {
    match SyncFiles(parse, alloc, t, disk)
    case Refused => Refused
    case Synced(s) => Synced(Swept(t.meta, s, PathsOf(disk)))
  }

  // ---------------------------------------------------------------------------
  // Rebuild
  // ---------------------------------------------------------------------------

  ghost predicate Valid(parse: Parser, f: SourceFile)
  {
    parse(f.path, f.content).Note?
  }

  ghost function NoteOf(parse: Parser, f: SourceFile): ParsedNote
    requires Valid(parse, f)
  {
    parse(f.path, f.content).note
  }

  /** Another valid file carries the same id. */
  ghost predicate IsDuplicated(parse: Parser, disk: seq<SourceFile>, f: SourceFile)
    requires Valid(parse, f)
  {
    exists i, j :: 0 <= i < j < |disk| && Valid(parse, disk[i]) && Valid(parse, disk[j])
                   && NoteOf(parse, disk[i]).id == NoteOf(parse, disk[j]).id == NoteOf(parse, f).id
  }

  /** First pass: unreadable notes are quarantined. */
  function MalformedItems(parse: Parser, disk: seq<SourceFile>): map<NotePath, QuarantineItem>
  {
    if |disk| == 0 then map[]
    else
      var before, f := MalformedItems(parse, disk[..|disk| - 1]), disk[|disk| - 1];
      match parse(f.path, f.content)
      case Malformed(error) => before[f.path := ItemFor(f, error)]
      case _ => before
  }

  /** Second pass: duplicates are quarantined, other notes are inserted. */
  ghost function RebuildNote(parse: Parser, alloc: set<int> -> int, disk: seq<SourceFile>, t: Tables, f: SourceFile): Tables
  {
    if !Valid(parse, f) then t
    else if IsDuplicated(parse, disk, f) then
      t.(quarantine := t.quarantine[f.path := ItemFor(f, "duplicate note id")])
    else Upserted(alloc, t, RowOf(f.path, f.content, f.mtimeNs, NoteOf(parse, f)), NoteOf(parse, f).text)
  }

  ghost function RebuildNotes(parse: Parser, alloc: set<int> -> int, disk: seq<SourceFile>, n: nat): Tables
    requires n <= |disk|
  {
    if n == 0 then EMPTY_TABLES.(quarantine := MalformedItems(parse, disk))
    else RebuildNote(parse, alloc, disk, RebuildNotes(parse, alloc, disk, n - 1), disk[n - 1])
  }

  /** Parsing the file raises, or storing its note does. */
  predicate Breaks(parse: Parser, f: SourceFile)
  {
    match parse(f.path, f.content)
    case Raises => true
    case Note(note) => !note.storable
    case Malformed(_) => false
  }

  /** Some file breaks the rebuild: notes with a shared id are not stored. */
  ghost predicate RebuildRefuses(parse: Parser, disk: seq<SourceFile>)
  {
    exists f :: f in disk && RefusesRebuild(parse, disk, f)
  }

  ghost predicate RefusesRebuild(parse: Parser, disk: seq<SourceFile>, f: SourceFile)
  {
    Breaks(parse, f) && (Valid(parse, f) ==> !IsDuplicated(parse, disk, f))
  }

  /** `rebuild_index` starts from empty tables and bumps the old generation; a
      failed one publishes nothing. */
  ghost function Rebuilt(parse: Parser, alloc: set<int> -> int, previousGeneration: int, disk: seq<SourceFile>): Option<Tables>
  {
    if RebuildRefuses(parse, disk) then None
    else Some(RebuildNotes(parse, alloc, disk, |disk|).(generation := previousGeneration + 1))
  }
}
