/** What synchronisation and rebuild store, field by field, and what they count. */
module NoteIndexFields {
  import opened Values
  import opened NoteIndex
  import opened NoteIndexTheorems

  /** The row and the text say of the file what its note says. */
  predicate Describes(row: Row, text: FtsText, path: NotePath, content: Bytes, note: ParsedNote)
  {
    && row.path == path && row.size == |content| && row.contentHash.preimage == content
    && row.id == note.id && row.status == note.status && row.sensitivity == note.sensitivity && row.noteType == note.noteType
    && row.createdAtNs == note.createdAtNs && row.verifiedAtNs == note.verifiedAtNs
    && text == note.text
  }

  /** One document, and no other at that path, describes the file. */
  ghost predicate IsDescribed(parse: Parser, t: Tables, f: SourceFile)
  {
    parse(f.path, f.content).Note? && exists d :: DescribedBy(t, f, parse(f.path, f.content).note, d)
  }

  ghost predicate DescribedBy(t: Tables, f: SourceFile, note: ParsedNote, d: int)
  {
    && d in t.meta && d in t.fts && Describes(t.meta[d], t.fts[d], f.path, f.content, note) && t.meta[d].mtimeNs == f.mtimeNs
    && forall e :: e in t.meta && t.meta[e].path == f.path ==> e == d
  }

  lemma EntryDescribes(parse: Parser, t: Tables, f: SourceFile)
    requires WellFormed(t) && Valid(parse, f) && EntryOf(parse, f) in Entries(t)
    ensures IsDescribed(parse, t, f)
  {
    var d :| d in t.meta && d in t.fts && (t.meta[d], t.fts[d]) == EntryOf(parse, f);
    assert DescribedBy(t, f, NoteOf(parse, f), d);
  }

  lemma EntryIsDescribed(parse: Parser, disk: seq<SourceFile>, t: Tables, d: int)
    requires t.meta.Keys == t.fts.Keys && d in t.meta && Entries(t) <= ExpectedEntries(parse, disk)
    ensures exists f :: f in disk && parse(f.path, f.content).Note? && t.meta[d].mtimeNs == f.mtimeNs
                        && Describes(t.meta[d], t.fts[d], f.path, f.content, parse(f.path, f.content).note)
  {
    EntryIn(t, d);
    var f :| f in disk && Valid(parse, f) && EntryOf(parse, f) == (t.meta[d], t.fts[d]);
  }

  ghost predicate IsQuarantined(parse: Parser, t: Tables, f: SourceFile)
  {
    && parse(f.path, f.content).Malformed? && f.path in t.quarantine
    && t.quarantine[f.path].contentHash.preimage == f.content
    && t.quarantine[f.path].error == parse(f.path, f.content).error
  }

  /** After a pass over a clash-free listing every note has one row that says what
      it says, every malformed file its quarantine entry, and there is nothing
      else. */
  lemma SyncDescribes(parse: Parser, alloc: set<int> -> int, t0: Tables, disk: seq<SourceFile>)
    requires PicksUnused(alloc) && ClashFree(parse, t0, disk) && Synchronised(parse, alloc, t0, disk).Synced?
    ensures var t := Synchronised(parse, alloc, t0, disk).sync.tables;
            && (forall f :: f in disk ==> IsDescribed(parse, t, f) || IsQuarantined(parse, t, f))
            && (forall d :: d in t.meta ==> exists f :: f in disk && IsDescribed(parse, t, f) && f.path == t.meta[d].path)
            && (forall p :: p in t.quarantine ==> exists f :: f in disk && f.path == p && IsQuarantined(parse, t, f))
  {
    SyncReachesExpected(parse, alloc, t0, disk);
    var t := Synchronised(parse, alloc, t0, disk).sync.tables;
    forall f | f in disk ensures if Valid(parse, f) then IsDescribed(parse, t, f) else IsQuarantined(parse, t, f) {
      assert !Breaks(parse, f);
      var i :| 0 <= i < |disk| && disk[i] == f;
      if Valid(parse, f) {
        assert EntryOf(parse, f) in ExpectedEntries(parse, disk);
        EntryDescribes(parse, t, f);
      }
    }
    forall d | d in t.meta ensures exists f :: f in disk && IsDescribed(parse, t, f) && f.path == t.meta[d].path {
      EntryIsDescribed(parse, disk, t, d);
    }
    forall p | p in t.quarantine ensures exists f :: f in disk && f.path == p && IsQuarantined(parse, t, f) {
      var f :| f in disk && f.path == p;
      var i :| 0 <= i < |disk| && disk[i] == f;
    }
  }

  /** The quarantine entry of a note whose id is shared. */
  predicate IsSetAside(t: Tables, f: SourceFile)
  {
    && f.path in t.quarantine && t.quarantine[f.path].contentHash.preimage == f.content
    && t.quarantine[f.path].error == "duplicate note id"
  }

  lemma {:induction false} RebuildItems(parse: Parser, alloc: set<int> -> int, disk: seq<SourceFile>, n: nat, i: nat)
    requires DistinctPaths(disk) && NoneRaises(parse, disk) && n <= |disk| && i < |disk|
    ensures var t, f := RebuildNotes(parse, alloc, disk, n), disk[i];
            && (!Valid(parse, f) ==> IsQuarantined(parse, t, f))
            && (Valid(parse, f) && IsDuplicated(parse, disk, f) && i < n ==> IsSetAside(t, f))
  {
    if n == 0 {
      MalformedItemsAre(parse, disk);
      assert disk[i] in disk;
    } else {
      RebuildItems(parse, alloc, disk, n - 1, i);
      assert disk[n - 1].path == disk[i].path ==> n - 1 == i;
    }
  }

  /** After a rebuild every note with an unshared id has one row that says what it
      says, there is no other row, and every other file has its quarantine entry. */
  lemma RebuildDescribes(parse: Parser, alloc: set<int> -> int, generation: int, disk: seq<SourceFile>)
    requires PicksUnused(alloc) && DistinctPaths(disk) && Rebuilt(parse, alloc, generation, disk).Some?
    ensures var t := Rebuilt(parse, alloc, generation, disk).value;
            && t.generation == generation + 1
            && (forall f :: f in disk ==>
                  if Unshared(parse, disk, f) then IsDescribed(parse, t, f)
                  else if parse(f.path, f.content).Note? then IsSetAside(t, f)
                  else IsQuarantined(parse, t, f))
            && (forall d :: d in t.meta ==>
                  exists f :: f in disk && Unshared(parse, disk, f) && IsDescribed(parse, t, f) && f.path == t.meta[d].path)
  {
    RebuildIsExact(parse, alloc, generation, disk);
    var t := Rebuilt(parse, alloc, generation, disk).value;
    AcceptedNoneRaises(parse, disk);
    forall f | f in disk
      ensures if Unshared(parse, disk, f) then IsDescribed(parse, t, f)
              else if parse(f.path, f.content).Note? then IsSetAside(t, f)
              else IsQuarantined(parse, t, f)
    {
      UnsharedIsIndexable(parse, disk, f);
      if Indexable(parse, disk, f) {
        EntryDescribes(parse, t, f);
      } else {
        var i :| 0 <= i < |disk| && disk[i] == f;
        RebuildItems(parse, alloc, disk, |disk|, i);
      }
    }
    forall d | d in t.meta
      ensures exists f :: f in disk && Unshared(parse, disk, f) && IsDescribed(parse, t, f) && f.path == t.meta[d].path
    {
      EntryIn(t, d);
      var f :| f in disk && Indexable(parse, disk, f) && EntryOf(parse, f) == (t.meta[d], t.fts[d]);
      UnsharedIsIndexable(parse, disk, f);
    }
  }

  /** A note whose id no file at another path carries. */
  ghost predicate Unshared(parse: Parser, disk: seq<SourceFile>, f: SourceFile)
  {
    parse(f.path, f.content).Note?
    && forall g :: g in disk && g.path != f.path && parse(g.path, g.content).Note? ==>
         parse(g.path, g.content).note.id != parse(f.path, f.content).note.id
  }

  lemma UnsharedIsIndexable(parse: Parser, disk: seq<SourceFile>, f: SourceFile)
    requires DistinctPaths(disk) && f in disk
    ensures Unshared(parse, disk, f) <==> Indexable(parse, disk, f)
  {
    var i :| 0 <= i < |disk| && disk[i] == f;
    if Valid(parse, f) && !Unshared(parse, disk, f) {
      var g :| g in disk && g.path != f.path && Valid(parse, g) && NoteOf(parse, g).id == NoteOf(parse, f).id;
      var j :| 0 <= j < |disk| && disk[j] == g;
      assert IsDuplicated(parse, disk, f) by {
        if i < j {
          assert Valid(parse, disk[i]) && Valid(parse, disk[j]);
        } else {
          assert Valid(parse, disk[j]) && Valid(parse, disk[i]);
        }
      }
    }
    if Valid(parse, f) && IsDuplicated(parse, disk, f) {
      var a, b :| 0 <= a < b < |disk| && Valid(parse, disk[a]) && Valid(parse, disk[b])
                  && NoteOf(parse, disk[a]).id == NoteOf(parse, disk[b]).id == NoteOf(parse, f).id;
      var g := if a == i then disk[b] else disk[a];
      assert g in disk && g.path != f.path;
    }
  }

  /** A rebuild succeeds exactly when every file can be parsed or is malformed, and
      every note with an unshared id can be stored. */
  lemma RebuildSucceedsIff(parse: Parser, alloc: set<int> -> int, generation: int, disk: seq<SourceFile>)
    requires DistinctPaths(disk)
    ensures Rebuilt(parse, alloc, generation, disk).Some? <==>
            forall f :: f in disk ==>
              !parse(f.path, f.content).Raises? && (Unshared(parse, disk, f) ==> parse(f.path, f.content).note.storable)
  {
    forall f | f in disk
      ensures RefusesRebuild(parse, disk, f) <==>
              parse(f.path, f.content).Raises? || (Unshared(parse, disk, f) && !parse(f.path, f.content).note.storable)
    {
      UnsharedIsIndexable(parse, disk, f);
    }
  }

  // ---------------------------------------------------------------------------
  // Faithful indexes
  // ---------------------------------------------------------------------------

  /** Every row says what the note says whose content it hashes. */
  ghost predicate SaysWhatItHashes(parse: Parser, t: Tables)
  {
    forall d :: d in t.meta && d in t.fts ==>
      var content := t.meta[d].contentHash.preimage;
      parse(t.meta[d].path, content).Note?
      && Describes(t.meta[d], t.fts[d], t.meta[d].path, content, parse(t.meta[d].path, content).note)
  }

  lemma FaithfulSays(parse: Parser, t: Tables)
    requires Faithful(parse, t)
    ensures SaysWhatItHashes(parse, t)
  {
    forall d | d in t.meta && d in t.fts ensures FaithfulRow(parse, t.meta[d], t.fts[d]) {
    }
  }

  lemma FileKeepsFaithful(parse: Parser, alloc: set<int> -> int, existing: Meta, s: Sync, f: SourceFile)
    requires PicksUnused(alloc) && Faithful(parse, s.tables) && SyncFile(parse, alloc, existing, s, f).Synced?
    ensures Faithful(parse, SyncFile(parse, alloc, existing, s, f).sync.tables)
  {
    var t, u := s.tables, SyncFile(parse, alloc, existing, s, f).sync.tables;
    if Valid(parse, f) && u.meta != t.meta {
      var entry := EntryOf(parse, f);
      var own := UpsertWrites(alloc, t, entry.0, entry.1);
      forall d | d in u.meta ensures FaithfulRow(parse, u.meta[d], u.fts[d]) {
        if d != own {
          assert FaithfulRow(parse, t.meta[d], t.fts[d]);
        }
      }
    } else {
      forall d | d in u.meta ensures d in t.meta && u.meta[d] == t.meta[d] && FaithfulRow(parse, t.meta[d], t.fts[d]) {
      }
    }
  }

  lemma {:induction false} FilesKeepFaithful(parse: Parser, alloc: set<int> -> int, t0: Tables, disk: seq<SourceFile>)
    requires PicksUnused(alloc) && Faithful(parse, t0) && SyncFiles(parse, alloc, t0, disk).Synced?
    ensures Faithful(parse, SyncFiles(parse, alloc, t0, disk).sync.tables)
  {
    if |disk| > 0 {
      var n := |disk| - 1;
      FilesKeepFaithful(parse, alloc, t0, disk[..n]);
      FileKeepsFaithful(parse, alloc, t0.meta, SyncFiles(parse, alloc, t0, disk[..n]).sync, disk[n]);
    }
  }

  /** A pass over any listing, clashing or not, keeps an index faithful. */
  lemma SyncKeepsFaithful(parse: Parser, alloc: set<int> -> int, t0: Tables, disk: seq<SourceFile>)
    requires PicksUnused(alloc) && Faithful(parse, t0) && Synchronised(parse, alloc, t0, disk).Synced?
    ensures Faithful(parse, Synchronised(parse, alloc, t0, disk).sync.tables)
  {
    FilesKeepFaithful(parse, alloc, t0, disk);
    var s := SyncFiles(parse, alloc, t0, disk).sync;
    var u := Swept(t0.meta, s, PathsOf(disk)).tables;
    forall d | d in u.meta ensures FaithfulRow(parse, u.meta[d], u.fts[d]) {
      assert FaithfulRow(parse, s.tables.meta[d], s.tables.fts[d]);
    }
  }

  /** The index after passes over these listings; a refused pass changes nothing. */
  ghost function Passes(parse: Parser, alloc: set<int> -> int, listings: seq<seq<SourceFile>>): Tables
  {
    if |listings| == 0 then EMPTY_TABLES
    else
      var before := Passes(parse, alloc, listings[..|listings| - 1]);
      match Synchronised(parse, alloc, before, listings[|listings| - 1])
      case Refused => before
      case Synced(s) => s.tables
  }

  /** Over every run of passes from an empty index, each row says what the note says
      whose content it hashes. */
  lemma {:induction false} PassesSayWhatTheyHash(parse: Parser, alloc: set<int> -> int, listings: seq<seq<SourceFile>>)
    requires PicksUnused(alloc)
    ensures Faithful(parse, Passes(parse, alloc, listings)) && SaysWhatItHashes(parse, Passes(parse, alloc, listings))
  {
    if |listings| > 0 {
      var n := |listings| - 1;
      PassesSayWhatTheyHash(parse, alloc, listings[..n]);
      var before := Passes(parse, alloc, listings[..n]);
      if Synchronised(parse, alloc, before, listings[n]).Synced? {
        SyncKeepsFaithful(parse, alloc, before, listings[n]);
      }
    }
    FaithfulSays(parse, Passes(parse, alloc, listings));
  }

  // ---------------------------------------------------------------------------
  // Counters
  // ---------------------------------------------------------------------------

  /** The index already holds the file, byte for byte and to its time stamp. */
  ghost predicate IsUnchanged(t0: Tables, f: SourceFile)
  {
    exists d :: d in t0.meta && t0.meta[d].path == f.path && t0.meta[d].size == |f.content|
                && t0.meta[d].mtimeNs == f.mtimeNs && t0.meta[d].contentHash.preimage == f.content
  }

  ghost predicate WasIndexed(t0: Tables, f: SourceFile)
  {
    exists d :: d in t0.meta && t0.meta[d].path == f.path
  }

  /** How often each thing happens over the files. */
  ghost function Tally(parse: Parser, t0: Tables, disk: seq<SourceFile>): (nat, nat, nat, seq<NotePath>)
  {
    if |disk| == 0 then (0, 0, 0, [])
    else
      var f, (indexed, kept, removed, quarantined) := disk[|disk| - 1], Tally(parse, t0, disk[..|disk| - 1]);
      if !parse(f.path, f.content).Note? then
        (indexed, kept, if WasIndexed(t0, f) then removed + 1 else removed, quarantined + [f.path])
      else if IsUnchanged(t0, f) then (indexed, kept + 1, removed, quarantined)
      else (indexed + 1, kept, removed, quarantined)
  }

  lemma UnchangedIsSigned(t0: Tables, f: SourceFile)
    requires WellFormed(t0)
    ensures IsUnchanged(t0, f) <==> HasPath(t0.meta, f.path) && SameSignature(t0.meta[DocAt(t0.meta, f.path)], f)
    ensures WasIndexed(t0, f) <==> HasPath(t0.meta, f.path)
  {
    if d :| d in t0.meta && t0.meta[d].path == f.path {
      DocAtIs(t0.meta, d);
    }
  }

  /** The counters of a pass: unchanged notes are kept, other notes indexed, other
      files quarantined; removed are the rows of those and the vanished ones. The
      generation moves by one exactly when something was indexed, removed or
      quarantined. */
  lemma SyncCounts(parse: Parser, alloc: set<int> -> int, t0: Tables, disk: seq<SourceFile>)
    requires WellFormed(t0) && Synchronised(parse, alloc, t0, disk).Synced?
    ensures var s := Synchronised(parse, alloc, t0, disk).sync;
            var (indexed, kept, removed, quarantined) := Tally(parse, t0, disk);
            && s.indexed == indexed && s.kept == kept && s.quarantined == quarantined
            && s.removed == removed + |Vanished(t0.meta, SyncFiles(parse, alloc, t0, disk).sync.tables.meta, PathsOf(disk))|
            && s.tables.generation == t0.generation + if s.indexed + s.removed + |s.quarantined| > 0 then 1 else 0
  {
    FilesCount(parse, alloc, t0, disk);
  }

  lemma {:induction false} FilesCount(parse: Parser, alloc: set<int> -> int, t0: Tables, disk: seq<SourceFile>)
    requires WellFormed(t0) && SyncFiles(parse, alloc, t0, disk).Synced?
    ensures var s := SyncFiles(parse, alloc, t0, disk).sync;
            (s.indexed, s.kept, s.removed, s.quarantined) == Tally(parse, t0, disk) && s.tables.generation == t0.generation
  {
    if |disk| > 0 {
      FilesCount(parse, alloc, t0, disk[..|disk| - 1]);
      UnchangedIsSigned(t0, disk[|disk| - 1]);
    }
  }
}
