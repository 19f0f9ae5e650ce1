/** Incremental synchronisation agrees with a rebuild from scratch, and exactly
    when. */
module NoteIndexTheorems {
  import opened Values
  import opened NoteIndex

  /** Directory listings name each path once. */
  ghost predicate DistinctPaths(disk: seq<SourceFile>)
  {
    forall i, j :: 0 <= i < j < |disk| ==> disk[i].path != disk[j].path
  }

  /** The rows and texts of an index, whatever their docids. */
  ghost function Entries(t: Tables): set<(Row, FtsText)>
  {
    set d | d in t.meta && d in t.fts :: (t.meta[d], t.fts[d])
  }

  ghost function EntryOf(parse: Parser, f: SourceFile): (Row, FtsText)
    requires Valid(parse, f)
  {
    (RowOf(f.path, f.content, f.mtimeNs, NoteOf(parse, f)), NoteOf(parse, f).text)
  }

  /** What an index of these files should hold. */
  ghost function ExpectedEntries(parse: Parser, disk: seq<SourceFile>): set<(Row, FtsText)>
  {
    set f | f in disk && Valid(parse, f) :: EntryOf(parse, f)
  }

  ghost predicate SameIndex(a: Tables, b: Tables)
  {
    Entries(a) == Entries(b) && a.quarantine == b.quarantine
  }

  /** Scanning later type directories, no file shares its stem with a valid note
      already scanned. */
  ghost predicate NoClash(parse: Parser, disk: seq<SourceFile>)
  {
    forall i, j :: 0 <= i < j < |disk| && disk[i].path.stem == disk[j].path.stem ==> !Valid(parse, disk[i])
  }

  // ---------------------------------------------------------------------------
  // Table operations keep the table constraints
  // ---------------------------------------------------------------------------

  lemma DocAtIs(meta: Meta, d: int)
    requires d in meta
    requires forall e, g :: e in meta && g in meta && meta[e].path == meta[g].path ==> e == g
    ensures HasPath(meta, meta[d].path) && DocAt(meta, meta[d].path) == d
  {
    assert HasPath(meta, meta[d].path);
  }

  lemma DocOfIs(meta: Meta, d: int)
    requires d in meta
    requires forall e, g :: e in meta && g in meta && meta[e].id == meta[g].id ==> e == g
    ensures HasNoteId(meta, meta[d].id) && DocOf(meta, meta[d].id) == d
  {
    assert HasNoteId(meta, meta[d].id);
  }

  /** A free or own path: the upsert writes one docid, the one carrying that id
      if there is one, and keeps the table constraints. */
  lemma UpsertWrites(alloc: set<int> -> int, t: Tables, row: Row, text: FtsText) returns (d: int)
    requires PicksUnused(alloc) && WellFormed(t) && !PathTaken(t.meta, row.path, row.id)
    ensures Upserted(alloc, t, row, text)
            == t.(meta := t.meta[d := row], fts := t.fts[d := text], quarantine := t.quarantine - {row.path})
    ensures forall e :: e in t.meta ==> (t.meta[e].id == row.id <==> e == d)
    ensures forall e :: e in t.meta && t.meta[e].path == row.path ==> e == d
    ensures WellFormed(Upserted(alloc, t, row, text))
  {
    d := if HasNoteId(t.meta, row.id) then DocOf(t.meta, row.id) else alloc(t.meta.Keys);
    forall e | e in t.meta ensures t.meta[e].id == row.id <==> e == d {
      if t.meta[e].id == row.id {
        DocOfIs(t.meta, e);
      }
    }
    forall e | e in t.meta && t.meta[e].path == row.path ensures e == d {
      DocAtIs(t.meta, e);
    }
  }

  // ---------------------------------------------------------------------------
  // The pass over the scanned files
  // ---------------------------------------------------------------------------

  /** The document is as it was when the pass began. */
  ghost predicate IsOld(t0: Tables, t: Tables, d: int)
  {
    d in t0.meta && d in t0.fts && d in t.meta && d in t.fts && t.meta[d] == t0.meta[d] && t.fts[d] == t0.fts[d]
  }

  /** The document is the projection of one of the first `k` files. */
  ghost predicate IsNew(parse: Parser, disk: seq<SourceFile>, k: nat, t: Tables, d: int)
  {
    exists i :: 0 <= i < k && i < |disk| && Valid(parse, disk[i]) && d in t.meta && d in t.fts
                && (t.meta[d], t.fts[d]) == EntryOf(parse, disk[i])
  }

  ghost predicate Scanned(disk: seq<SourceFile>, k: nat, path: NotePath)
  {
    exists i :: 0 <= i < k && i < |disk| && disk[i].path == path
  }

  /** Every document stems from a scanned file or from an unscanned old row, and
      every old row not scanned yet is intact or taken over by its own id. */
  ghost predicate RowsProgress(parse: Parser, t0: Tables, disk: seq<SourceFile>, k: nat, t: Tables)
  {
    && (forall d :: d in t.meta ==>
          IsNew(parse, disk, k, t, d) || (IsOld(t0, t, d) && !Scanned(disk, k, t.meta[d].path)))
    && (forall d :: d in t0.meta && !Scanned(disk, k, t0.meta[d].path) ==>
          IsOld(t0, t, d) || (IsNew(parse, disk, k, t, d) && t.meta[d].id == t0.meta[d].id))
  }

  ghost predicate EntriesProgress(parse: Parser, disk: seq<SourceFile>, k: nat, t: Tables)
  {
    t.meta.Keys == t.fts.Keys
    && forall i :: 0 <= i < k && i < |disk| && Valid(parse, disk[i]) ==> EntryOf(parse, disk[i]) in Entries(t)
  }

  function ErrorOf(parse: Parser, f: SourceFile): string
  {
    match parse(f.path, f.content)
    case Malformed(error) => error
    case _ => ""
  }

  ghost predicate QuarantineProgress(parse: Parser, disk: seq<SourceFile>, k: nat, quarantine: map<NotePath, QuarantineItem>)
  {
    forall i :: 0 <= i < k && i < |disk| ==>
      if Valid(parse, disk[i]) then disk[i].path !in quarantine
      else disk[i].path in quarantine && quarantine[disk[i].path] == ItemFor(disk[i], ErrorOf(parse, disk[i]))
  }

  /** What holds after `k` files of a clash-free listing. */
  ghost predicate Progress(parse: Parser, t0: Tables, disk: seq<SourceFile>, k: nat, t: Tables)
  {
    && WellFormed(t)
    && EntriesProgress(parse, disk, k, t)
    && RowsProgress(parse, t0, disk, k, t)
    && QuarantineProgress(parse, disk, k, t.quarantine)
  }

  ghost predicate ClashFree(parse: Parser, t0: Tables, disk: seq<SourceFile>)
  {
    ChecksStem(parse) && Faithful(parse, t0) && DistinctPaths(disk) && NoClash(parse, disk)
  }

  ghost predicate NoneBreaks(parse: Parser, disk: seq<SourceFile>)
  {
    forall f :: f in disk ==> !Breaks(parse, f)
  }

  /** The premises shared by the steps. */
  ghost predicate Clean(parse: Parser, t0: Tables, disk: seq<SourceFile>)
  {
    ClashFree(parse, t0, disk) && NoneBreaks(parse, disk)
  }

  lemma EntryIn(t: Tables, d: int)
    requires t.meta.Keys == t.fts.Keys && d in t.meta
    ensures (t.meta[d], t.fts[d]) in Entries(t)
  {
  }

  lemma NextPathUnscanned(disk: seq<SourceFile>, k: nat)
    requires DistinctPaths(disk) && k < |disk|
    ensures !Scanned(disk, k, disk[k].path)
    ensures forall p :: Scanned(disk, k + 1, p) <==> Scanned(disk, k, p) || p == disk[k].path
  {
    forall p | Scanned(disk, k, p) ensures Scanned(disk, k + 1, p) {
      var i :| 0 <= i < k && i < |disk| && disk[i].path == p;
      assert 0 <= i < k + 1;
    }
    assert Scanned(disk, k + 1, disk[k].path);
  }

  /** A clash-free listing never finds the row of a file's path taken over by an
      earlier file. */
  lemma PriorIsUntouched(parse: Parser, t0: Tables, disk: seq<SourceFile>, k: nat, t: Tables, d: int)
    requires Clean(parse, t0, disk) && k < |disk| && Progress(parse, t0, disk, k, t)
    requires d in t0.meta && t0.meta[d].path == disk[k].path
    ensures IsOld(t0, t, d)
  {
    assert FaithfulRow(parse, t0.meta[d], t0.fts[d]);
    NextPathUnscanned(disk, k);
    assert forall i :: 0 <= i < k && Valid(parse, disk[i]) ==> EntryOf(parse, disk[i]).0.id == disk[i].path.stem;
  }

  /** A row at the path of the next file is the one that was there initially. */
  lemma RowAtNextPath(parse: Parser, t0: Tables, disk: seq<SourceFile>, k: nat, t: Tables, d: int)
    requires DistinctPaths(disk) && k < |disk| && RowsProgress(parse, t0, disk, k, t)
    requires d in t.meta && t.meta[d].path == disk[k].path
    ensures IsOld(t0, t, d)
  {
    assert forall i :: 0 <= i < k && Valid(parse, disk[i]) ==> EntryOf(parse, disk[i]).0.path == disk[i].path;
  }

  lemma NewStaysNew(parse: Parser, disk: seq<SourceFile>, k: nat, t: Tables, u: Tables)
    ensures forall d :: IsNew(parse, disk, k, t, d) && d in u.meta && d in u.fts && u.meta[d] == t.meta[d] && u.fts[d] == t.fts[d]
              ==> IsNew(parse, disk, k + 1, u, d)
  {
  }

  /** Documents that survive unchanged keep their entries and their origin. */
  lemma SurvivorsKeepProgress(parse: Parser, t0: Tables, disk: seq<SourceFile>, k: nat, t: Tables, u: Tables, path: NotePath)
    requires EntriesProgress(parse, disk, k, t) && u.meta.Keys == u.fts.Keys
    requires !Scanned(disk, k, path)
    requires forall d :: d in t.meta && t.meta[d].path != path ==> d in u.meta && u.meta[d] == t.meta[d] && u.fts[d] == t.fts[d]
    ensures EntriesProgress(parse, disk, k, u)
  {
    forall i | 0 <= i < k && i < |disk| && Valid(parse, disk[i]) ensures EntryOf(parse, disk[i]) in Entries(u) {
      var d :| d in t.meta && (t.meta[d], t.fts[d]) == EntryOf(parse, disk[i]);
      assert Scanned(disk, k, disk[i].path);
      assert t.meta[d].path == disk[i].path != path;
      EntryIn(u, d);
    }
  }

  /** A malformed file loses its row: the row found when the pass began is still
      the only one at that path. */
  lemma StepMalformed(parse: Parser, t0: Tables, disk: seq<SourceFile>, k: nat, t: Tables, u: Tables)
    requires Clean(parse, t0, disk) && k < |disk| && Progress(parse, t0, disk, k, t) && !Valid(parse, disk[k])
    requires u == if HasPath(t0.meta, disk[k].path) then Deleted(t, DocAt(t0.meta, disk[k].path)) else t
    ensures WellFormed(u) && EntriesProgress(parse, disk, k + 1, u) && RowsProgress(parse, t0, disk, k + 1, u)
  {
    var path := disk[k].path;
    NextPathUnscanned(disk, k);
    if HasPath(t0.meta, path) {
      PriorIsUntouched(parse, t0, disk, k, t, DocAt(t0.meta, path));
    }
    forall d | d in t.meta
      ensures d in u.meta <==> t.meta[d].path != path
      ensures d in u.meta ==> u.meta[d] == t.meta[d] && u.fts[d] == t.fts[d]
    {
      if t.meta[d].path == path {
        RowAtNextPath(parse, t0, disk, k, t, d);
      }
    }
    SurvivorsKeepProgress(parse, t0, disk, k, t, u, path);
    NewStaysNew(parse, disk, k, t, u);
  }

  /** An unchanged file's row already is its projection. */
  lemma StepKept(parse: Parser, t0: Tables, disk: seq<SourceFile>, k: nat, t: Tables)
    requires Clean(parse, t0, disk) && k < |disk| && Progress(parse, t0, disk, k, t) && Valid(parse, disk[k])
    requires HasPath(t0.meta, disk[k].path) && SameSignature(t0.meta[DocAt(t0.meta, disk[k].path)], disk[k])
    ensures EntriesProgress(parse, disk, k + 1, t) && RowsProgress(parse, t0, disk, k + 1, t)
  {
    var path := disk[k].path;
    NextPathUnscanned(disk, k);
    var own := DocAt(t0.meta, path);
    PriorIsUntouched(parse, t0, disk, k, t, own);
    assert FaithfulRow(parse, t0.meta[own], t0.fts[own]);
    assert (t.meta[own], t.fts[own]) == EntryOf(parse, disk[k]);
    EntryIn(t, own);
    NewStaysNew(parse, disk, k, t, t);
    forall d | d in t.meta && t.meta[d].path == path ensures d == own {
      RowAtNextPath(parse, t0, disk, k, t, d);
    }
  }

  lemma NextPathIsFree(parse: Parser, t0: Tables, disk: seq<SourceFile>, k: nat, t: Tables)
    requires Clean(parse, t0, disk) && k < |disk| && Progress(parse, t0, disk, k, t) && Valid(parse, disk[k])
    ensures !PathTaken(t.meta, disk[k].path, NoteOf(parse, disk[k]).id)
  {
    if HasPath(t.meta, disk[k].path) {
      var d := DocAt(t.meta, disk[k].path);
      RowAtNextPath(parse, t0, disk, k, t, d);
      assert FaithfulRow(parse, t0.meta[d], t0.fts[d]);
    }
  }

  /** A new or changed file takes over the row with its id. */
  lemma StepUpserted(parse: Parser, alloc: set<int> -> int, t0: Tables, disk: seq<SourceFile>, k: nat, t: Tables, u: Tables)
    requires PicksUnused(alloc)
    requires Clean(parse, t0, disk) && k < |disk| && Progress(parse, t0, disk, k, t) && Valid(parse, disk[k])
    requires u == Upserted(alloc, t, EntryOf(parse, disk[k]).0, EntryOf(parse, disk[k]).1)
    ensures WellFormed(u) && EntriesProgress(parse, disk, k + 1, u) && RowsProgress(parse, t0, disk, k + 1, u)
  {
    var path := disk[k].path;
    var entry := EntryOf(parse, disk[k]);
    NextPathUnscanned(disk, k);
    NextPathIsFree(parse, t0, disk, k, t);
    var own := UpsertWrites(alloc, t, entry.0, entry.1);
    assert (u.meta[own], u.fts[own]) == entry;
    EntryIn(u, own);
    assert IsNew(parse, disk, k + 1, u, own);
    NewStaysNew(parse, disk, k, t, u);
    forall i | 0 <= i < k && Valid(parse, disk[i]) ensures EntryOf(parse, disk[i]) in Entries(u) {
      var d :| d in t.meta && (t.meta[d], t.fts[d]) == EntryOf(parse, disk[i]);
      assert disk[i].path.stem != path.stem;
      assert d != own;
      EntryIn(u, d);
    }
    UpsertRows(parse, t0, disk, k, t, u, own);
  }

  lemma UpsertRows(parse: Parser, t0: Tables, disk: seq<SourceFile>, k: nat, t: Tables, u: Tables, own: int)
    requires ChecksStem(parse) && Faithful(parse, t0) && k < |disk| && RowsProgress(parse, t0, disk, k, t) && Valid(parse, disk[k])
    requires WellFormed(u) && WellFormed(t)
    requires u.meta == t.meta[own := EntryOf(parse, disk[k]).0] && u.fts == t.fts[own := EntryOf(parse, disk[k]).1]
    requires own in t.meta ==> t.meta[own].id == NoteOf(parse, disk[k]).id
    requires forall p :: Scanned(disk, k + 1, p) <==> Scanned(disk, k, p) || p == disk[k].path
    ensures RowsProgress(parse, t0, disk, k + 1, u)
  {
    assert (u.meta[own], u.fts[own]) == EntryOf(parse, disk[k]);
    assert IsNew(parse, disk, k + 1, u, own);
    NewStaysNew(parse, disk, k, t, u);
    forall d | d in u.meta && d != own ensures u.meta[d].path != disk[k].path {
    }
  }

  // ---------------------------------------------------------------------------
  // The whole pass
  // ---------------------------------------------------------------------------

  lemma FileStep(parse: Parser, alloc: set<int> -> int, t0: Tables, disk: seq<SourceFile>, k: nat, s: Sync)
    requires PicksUnused(alloc) && Clean(parse, t0, disk) && k < |disk| && Progress(parse, t0, disk, k, s.tables)
    ensures var next := SyncFile(parse, alloc, t0.meta, s, disk[k]);
            next.Synced? && Progress(parse, t0, disk, k + 1, next.sync.tables)
  {
    var f := disk[k];
    var next := SyncFile(parse, alloc, t0.meta, s, f);
    assert !Breaks(parse, f);
    if !Valid(parse, f) {
      var u := if HasPath(t0.meta, f.path) then Deleted(s.tables, DocAt(t0.meta, f.path)) else s.tables;
      StepMalformed(parse, t0, disk, k, s.tables, u);
      SameRows(parse, t0, disk, k + 1, u, next.sync.tables);
      QuarantineStep(parse, disk, k, s.tables.quarantine, next.sync.tables.quarantine);
    } else if HasPath(t0.meta, f.path) && SameSignature(t0.meta[DocAt(t0.meta, f.path)], f) {
      StepKept(parse, t0, disk, k, s.tables);
      SameRows(parse, t0, disk, k + 1, s.tables, next.sync.tables);
      QuarantineStep(parse, disk, k, s.tables.quarantine, next.sync.tables.quarantine);
    } else {
      NextPathIsFree(parse, t0, disk, k, s.tables);
      StepUpserted(parse, alloc, t0, disk, k, s.tables, next.sync.tables);
      QuarantineStep(parse, disk, k, s.tables.quarantine, next.sync.tables.quarantine);
    }
  }

  lemma SameRows(parse: Parser, t0: Tables, disk: seq<SourceFile>, k: nat, t: Tables, u: Tables)
    requires WellFormed(t) && EntriesProgress(parse, disk, k, t) && RowsProgress(parse, t0, disk, k, t)
    requires u.meta == t.meta && u.fts == t.fts
    ensures WellFormed(u) && EntriesProgress(parse, disk, k, u) && RowsProgress(parse, t0, disk, k, u)
  {
    assert Entries(u) == Entries(t);
    assert forall d :: IsNew(parse, disk, k, t, d) <==> IsNew(parse, disk, k, u, d);
  }

  lemma QuarantineStep(parse: Parser, disk: seq<SourceFile>, k: nat,
                       before: map<NotePath, QuarantineItem>, after: map<NotePath, QuarantineItem>)
    requires DistinctPaths(disk) && k < |disk| && QuarantineProgress(parse, disk, k, before)
    requires var f := disk[k];
             after == if Valid(parse, f) then before - {f.path}
                      else before[f.path := ItemFor(f, ErrorOf(parse, f))]
    ensures QuarantineProgress(parse, disk, k + 1, after)
  {
  }

  lemma {:induction false} PassProgress(parse: Parser, alloc: set<int> -> int, t0: Tables, disk: seq<SourceFile>, k: nat)
    requires PicksUnused(alloc) && Clean(parse, t0, disk) && k <= |disk|
    ensures SyncFiles(parse, alloc, t0, disk[..k]).Synced?
    ensures Progress(parse, t0, disk, k, SyncFiles(parse, alloc, t0, disk[..k]).sync.tables)
  {
    if k == 0 {
    } else {
      PassProgress(parse, alloc, t0, disk, k - 1);
      assert disk[..k][..k - 1] == disk[..k - 1];
      FileStep(parse, alloc, t0, disk, k - 1, SyncFiles(parse, alloc, t0, disk[..k - 1]).sync);
    }
  }

  ghost predicate ExpectedQuarantine(parse: Parser, disk: seq<SourceFile>, quarantine: map<NotePath, QuarantineItem>)
  {
    && QuarantineProgress(parse, disk, |disk|, quarantine)
    && (forall p :: p in quarantine ==> p in PathsOf(disk))
  }

  lemma SweepLeavesExpected(parse: Parser, t0: Tables, disk: seq<SourceFile>, s: Sync)
    requires Clean(parse, t0, disk) && Progress(parse, t0, disk, |disk|, s.tables)
    ensures var u := Swept(t0.meta, s, PathsOf(disk)).tables;
            && WellFormed(u) && Entries(u) == ExpectedEntries(parse, disk)
            && ExpectedQuarantine(parse, disk, u.quarantine)
  {
    var t := s.tables;
    var u := Swept(t0.meta, s, PathsOf(disk)).tables;
    var n := |disk|;
    assert forall p :: p in PathsOf(disk) <==> Scanned(disk, n, p);
    forall d | d in u.meta ensures (u.meta[d], u.fts[d]) in ExpectedEntries(parse, disk) {
      assert HasPath(t0.meta, t.meta[d].path) ==> t.meta[d].path in PathsOf(disk);
      assert IsNew(parse, disk, n, t, d);
    }
    forall f | f in disk && Valid(parse, f) ensures EntryOf(parse, f) in Entries(u) {
      var i :| 0 <= i < n && disk[i] == f;
      assert EntryOf(parse, disk[i]) in Entries(t);
      var d :| d in t.meta && (t.meta[d], t.fts[d]) == EntryOf(parse, f);
      assert t.meta[d].path in PathsOf(disk);
      assert d in u.meta;
    }
  }

  /** A refused file refuses the whole pass. */
  lemma {:induction false} RefusalIsFinal(parse: Parser, alloc: set<int> -> int, t: Tables, disk: seq<SourceFile>, k: nat)
    requires k <= |disk| && SyncFiles(parse, alloc, t, disk[..k]).Refused?
    ensures SyncFiles(parse, alloc, t, disk).Refused?
    decreases |disk| - k
  {
    if k < |disk| {
      assert disk[..k + 1][..k] == disk[..k];
      RefusalIsFinal(parse, alloc, t, disk, k + 1);
    } else {
      assert disk[..k] == disk;
    }
  }

  /** A file that breaks is never one the index already holds, so it refuses every
      pass. */
  lemma BreakRefuses(parse: Parser, alloc: set<int> -> int, t0: Tables, disk: seq<SourceFile>, k: nat)
    requires Faithful(parse, t0) && k < |disk| && Breaks(parse, disk[k])
    ensures Synchronised(parse, alloc, t0, disk).Refused?
  {
    var f := disk[k];
    assert disk[..k + 1][..k] == disk[..k];
    if HasPath(t0.meta, f.path) {
      assert FaithfulRow(parse, t0.meta[DocAt(t0.meta, f.path)], t0.fts[DocAt(t0.meta, f.path)]);
    }
    RefusalIsFinal(parse, alloc, t0, disk, k + 1);
  }

  /** Synchronising a faithful index over a clash-free listing succeeds if and only
      if no listed file breaks, and then leaves exactly the projections of the
      valid files. */
  lemma SyncReachesExpected(parse: Parser, alloc: set<int> -> int, t0: Tables, disk: seq<SourceFile>)
    requires PicksUnused(alloc) && ClashFree(parse, t0, disk)
    ensures Synchronised(parse, alloc, t0, disk).Synced? <==> NoneBreaks(parse, disk)
    ensures Synchronised(parse, alloc, t0, disk).Synced? ==>
              var u := Synchronised(parse, alloc, t0, disk).sync.tables;
              && WellFormed(u) && Entries(u) == ExpectedEntries(parse, disk)
              && ExpectedQuarantine(parse, disk, u.quarantine)
  {
    if NoneBreaks(parse, disk) {
      PassProgress(parse, alloc, t0, disk, |disk|);
      assert disk[..|disk|] == disk;
      SweepLeavesExpected(parse, t0, disk, SyncFiles(parse, alloc, t0, disk).sync);
    } else {
      var f :| f in disk && Breaks(parse, f);
      var k :| 0 <= k < |disk| && disk[k] == f;
      BreakRefuses(parse, alloc, t0, disk, k);
    }
  }

  // ---------------------------------------------------------------------------
  // Rebuild from scratch
  // ---------------------------------------------------------------------------

  /** A valid file whose id no other valid file carries. */
  ghost predicate Indexable(parse: Parser, disk: seq<SourceFile>, f: SourceFile)
  {
    Valid(parse, f) && !IsDuplicated(parse, disk, f)
  }

  /** The pair is the projection of one of the first `n` files. */
  ghost predicate FromIndexable(parse: Parser, disk: seq<SourceFile>, n: nat, row: Row, text: FtsText)
  {
    exists i :: 0 <= i < n && i < |disk| && Indexable(parse, disk, disk[i]) && (row, text) == EntryOf(parse, disk[i])
  }

  ghost predicate RebuildProgress(parse: Parser, disk: seq<SourceFile>, n: nat, t: Tables)
  {
    && WellFormed(t)
    && (forall d :: d in t.meta ==> FromIndexable(parse, disk, n, t.meta[d], t.fts[d]))
    && (forall i :: 0 <= i < n && i < |disk| && Indexable(parse, disk, disk[i]) ==> EntryOf(parse, disk[i]) in Entries(t))
  }

  /** An indexable file meets neither its path nor its id in the table. */
  lemma FreshForRebuild(parse: Parser, disk: seq<SourceFile>, n: nat, t: Tables)
    requires DistinctPaths(disk) && n < |disk| && RebuildProgress(parse, disk, n, t) && Indexable(parse, disk, disk[n])
    ensures forall d :: d in t.meta ==> t.meta[d].path != disk[n].path && t.meta[d].id != NoteOf(parse, disk[n]).id
  {
    forall d | d in t.meta ensures t.meta[d].path != disk[n].path && t.meta[d].id != NoteOf(parse, disk[n]).id {
      assert FromIndexable(parse, disk, n, t.meta[d], t.fts[d]);
      var i :| 0 <= i < n && i < |disk| && Indexable(parse, disk, disk[i]) && (t.meta[d], t.fts[d]) == EntryOf(parse, disk[i]);
    }
  }

  lemma FromIndexableGrows(parse: Parser, disk: seq<SourceFile>, n: nat)
    ensures forall row, text :: FromIndexable(parse, disk, n, row, text) ==> FromIndexable(parse, disk, n + 1, row, text)
  {
  }

  lemma RebuildStep(parse: Parser, alloc: set<int> -> int, disk: seq<SourceFile>, n: nat, t: Tables)
    requires PicksUnused(alloc) && DistinctPaths(disk) && n < |disk|
    requires RebuildProgress(parse, disk, n, t) && Indexable(parse, disk, disk[n])
    ensures RebuildProgress(parse, disk, n + 1, Upserted(alloc, t, EntryOf(parse, disk[n]).0, EntryOf(parse, disk[n]).1))
  {
    var entry := EntryOf(parse, disk[n]);
    var u := Upserted(alloc, t, entry.0, entry.1);
    FreshForRebuild(parse, disk, n, t);
    FromIndexableGrows(parse, disk, n);
    var own := UpsertWrites(alloc, t, entry.0, entry.1);
    EntryIn(u, own);
    assert FromIndexable(parse, disk, n + 1, entry.0, entry.1);
    forall e | e in Entries(t) ensures e in Entries(u) {
      var d :| d in t.meta && d in t.fts && (t.meta[d], t.fts[d]) == e;
      EntryIn(u, d);
    }
  }

  lemma RebuildSkip(parse: Parser, disk: seq<SourceFile>, n: nat, t: Tables, u: Tables)
    requires n < |disk| && RebuildProgress(parse, disk, n, t) && !Indexable(parse, disk, disk[n])
    requires u.meta == t.meta && u.fts == t.fts
    ensures RebuildProgress(parse, disk, n + 1, u)
  {
    FromIndexableGrows(parse, disk, n);
    assert Entries(u) == Entries(t);
  }

  lemma {:induction false} RebuildReaches(parse: Parser, alloc: set<int> -> int, disk: seq<SourceFile>, n: nat)
    requires PicksUnused(alloc) && DistinctPaths(disk) && n <= |disk|
    ensures RebuildProgress(parse, disk, n, RebuildNotes(parse, alloc, disk, n))
  {
    if n == 0 {
    } else {
      RebuildReaches(parse, alloc, disk, n - 1);
      var t := RebuildNotes(parse, alloc, disk, n - 1);
      if Indexable(parse, disk, disk[n - 1]) {
        RebuildStep(parse, alloc, disk, n - 1, t);
      } else {
        RebuildSkip(parse, disk, n - 1, t, RebuildNotes(parse, alloc, disk, n));
      }
    }
  }

  /** A rebuild holds exactly the projections of the files with an unshared id. */
  lemma RebuildIsExact(parse: Parser, alloc: set<int> -> int, generation: int, disk: seq<SourceFile>)
    requires PicksUnused(alloc) && DistinctPaths(disk)
    ensures Rebuilt(parse, alloc, generation, disk).Some? ==>
              var t := Rebuilt(parse, alloc, generation, disk).value;
              WellFormed(t) && Entries(t) == set f | f in disk && Indexable(parse, disk, f) :: EntryOf(parse, f)
  {
    RebuildReaches(parse, alloc, disk, |disk|);
    var t := RebuildNotes(parse, alloc, disk, |disk|);
    forall f | f in disk && Indexable(parse, disk, f) ensures EntryOf(parse, f) in Entries(t) {
      var i :| 0 <= i < |disk| && disk[i] == f;
    }
  }

  ghost predicate NoneRaises(parse: Parser, disk: seq<SourceFile>)
  {
    forall f :: f in disk ==> !parse(f.path, f.content).Raises?
  }

  lemma {:induction false} MalformedItemsAre(parse: Parser, disk: seq<SourceFile>)
    requires DistinctPaths(disk) && NoneRaises(parse, disk)
    ensures ExpectedQuarantine(parse, disk, MalformedItems(parse, disk))
    ensures forall p :: p in MalformedItems(parse, disk) ==> exists i :: 0 <= i < |disk| && disk[i].path == p && !Valid(parse, disk[i])
  {
    if |disk| == 0 {
    } else {
      var front := disk[..|disk| - 1];
      MalformedItemsAre(parse, front);
      forall i | 0 <= i < |front| ensures disk[i] == front[i] && disk[i].path != disk[|disk| - 1].path {
      }
    }
  }

  /** A valid file ends up quarantined by a rebuild exactly when its id is shared. */
  lemma {:induction false} RebuildQuarantinesDuplicates(parse: Parser, alloc: set<int> -> int, disk: seq<SourceFile>, n: nat, i: nat)
    requires DistinctPaths(disk) && NoneRaises(parse, disk) && i < |disk| && n <= |disk| && Valid(parse, disk[i])
    ensures disk[i].path in RebuildNotes(parse, alloc, disk, n).quarantine <==> i < n && IsDuplicated(parse, disk, disk[i])
  {
    if n == 0 {
      MalformedItemsAre(parse, disk);
    } else {
      RebuildQuarantinesDuplicates(parse, alloc, disk, n - 1, i);
      assert disk[n - 1].path == disk[i].path ==> n - 1 == i;
    }
  }

  lemma ValidIsNoItem(parse: Parser, disk: seq<SourceFile>, i: nat)
    requires DistinctPaths(disk) && NoneRaises(parse, disk) && i < |disk|
    ensures Valid(parse, disk[i]) ==> disk[i].path !in MalformedItems(parse, disk)
  {
    MalformedItemsAre(parse, disk);
  }

  lemma {:induction false} RebuildQuarantinesMalformed(parse: Parser, alloc: set<int> -> int, disk: seq<SourceFile>, n: nat)
    requires DistinctPaths(disk) && NoneRaises(parse, disk) && n <= |disk|
    requires forall f :: f in disk && Valid(parse, f) ==> !IsDuplicated(parse, disk, f)
    ensures RebuildNotes(parse, alloc, disk, n).quarantine == MalformedItems(parse, disk)
  {
    if n == 0 {
    } else {
      RebuildQuarantinesMalformed(parse, alloc, disk, n - 1);
      ValidIsNoItem(parse, disk, n - 1);
      assert disk[n - 1] in disk;
    }
  }

  lemma NoClashNoDuplicates(parse: Parser, disk: seq<SourceFile>)
    requires ChecksStem(parse) && NoClash(parse, disk)
    ensures forall f :: f in disk && Valid(parse, f) ==> !IsDuplicated(parse, disk, f)
  {
  }

  lemma ExpectedQuarantineIsUnique(parse: Parser, disk: seq<SourceFile>, q: map<NotePath, QuarantineItem>, r: map<NotePath, QuarantineItem>)
    requires ExpectedQuarantine(parse, disk, q) && ExpectedQuarantine(parse, disk, r)
    ensures q == r
  {
    forall p ensures p in q <==> p in r
      ensures p in q && p in r ==> q[p] == r[p]
    {
      if p in q || p in r {
        var f :| f in disk && f.path == p;
        var i :| 0 <= i < |disk| && disk[i] == f;
      }
    }
  }

  /** Synchronising and rebuilding both refuse, or both succeed and agree. */
  ghost predicate SyncAgrees(parse: Parser, alloc: set<int> -> int, t0: Tables, disk: seq<SourceFile>)
  {
    match Synchronised(parse, alloc, t0, disk)
    case Refused => Rebuilt(parse, alloc, t0.generation, disk).None?
    case Synced(s) =>
      && Rebuilt(parse, alloc, t0.generation, disk).Some?
      && SameIndex(s.tables, Rebuilt(parse, alloc, t0.generation, disk).value)
  }

  /** Without a clash, synchronising any faithful index gives what a rebuild
      gives: the same rows, texts and quarantine, or a refusal. */
  lemma SyncEqualsRebuild(parse: Parser, alloc: set<int> -> int, t0: Tables, disk: seq<SourceFile>)
    requires PicksUnused(alloc) && ClashFree(parse, t0, disk)
    ensures SyncAgrees(parse, alloc, t0, disk)
  {
    SyncReachesExpected(parse, alloc, t0, disk);
    NoClashNoDuplicates(parse, disk);
    if NoneBreaks(parse, disk) {
      RebuildIsExact(parse, alloc, t0.generation, disk);
      assert ExpectedEntries(parse, disk) == set f | f in disk && Indexable(parse, disk, f) :: EntryOf(parse, f);
      RebuildQuarantinesMalformed(parse, alloc, disk, |disk|);
      MalformedItemsAre(parse, disk);
      ExpectedQuarantineIsUnique(parse, disk, Synchronised(parse, alloc, t0, disk).sync.tables.quarantine,
                                 MalformedItems(parse, disk));
    } else {
      var f :| f in disk && Breaks(parse, f);
      assert RefusesRebuild(parse, disk, f);
    }
  }

  // ---------------------------------------------------------------------------
  // Where synchronisation and rebuild part
  // ---------------------------------------------------------------------------

  const NOTE_TYPES: set<string> := {"attempt", "finding", "learning"}

  /** Only the type directories are listed. */
  ghost predicate InTypeDirectories(disk: seq<SourceFile>)
  {
    forall f :: f in disk ==> f.path.noteType in NOTE_TYPES
  }

  ghost predicate Accepts(parse: Parser, path: NotePath)
  {
    exists content :: Stores(parse, path, content)
  }

  ghost predicate Stores(parse: Parser, path: NotePath, content: Bytes)
  {
    parse(path, content).Note? && parse(path, content).note.storable
  }

  /** A note accepted in one type directory can be rewritten to be accepted in
      any other. */
  ghost predicate Relocatable(parse: Parser)
  {
    forall p: NotePath, q: NotePath, b ::
      Stores(parse, p, b) && q.stem == p.stem && q.noteType in NOTE_TYPES ==> Accepts(parse, q)
  }

  /** Synchronising never leaves a valid file quarantined. */
  lemma {:induction false} SyncQuarantine(parse: Parser, alloc: set<int> -> int, t0: Tables, disk: seq<SourceFile>, k: nat)
    requires DistinctPaths(disk) && k <= |disk| && SyncFiles(parse, alloc, t0, disk[..k]).Synced?
    ensures QuarantineProgress(parse, disk, k, SyncFiles(parse, alloc, t0, disk[..k]).sync.tables.quarantine)
  {
    if k == 0 {
    } else {
      assert disk[..k][..k - 1] == disk[..k - 1];
      SyncQuarantine(parse, alloc, t0, disk, k - 1);
      var before := SyncFiles(parse, alloc, t0, disk[..k - 1]).sync;
      var f := disk[k - 1];
      var after := SyncFile(parse, alloc, t0.meta, before, f).sync.tables.quarantine;
      assert after == if Valid(parse, f) then before.tables.quarantine - {f.path}
                      else before.tables.quarantine[f.path := ItemFor(f, ErrorOf(parse, f))];
      QuarantineStep(parse, disk, k - 1, before.tables.quarantine, after);
    }
  }

  lemma EmptyIsFaithful(parse: Parser)
    ensures Faithful(parse, EMPTY_TABLES)
  {
  }

  lemma AcceptedNoneRaises(parse: Parser, disk: seq<SourceFile>)
    requires !RebuildRefuses(parse, disk)
    ensures NoneRaises(parse, disk)
  {
    forall f | f in disk ensures !parse(f.path, f.content).Raises? {
      assert !RefusesRebuild(parse, disk, f);
    }
  }

  /** Two valid notes with one stem: a rebuild quarantines both, a
      synchronisation neither. */
  lemma TwinsPart(parse: Parser, alloc: set<int> -> int, t0: Tables, disk: seq<SourceFile>, i: nat, j: nat)
    requires ChecksStem(parse) && DistinctPaths(disk) && i < j < |disk|
    requires disk[i].path.stem == disk[j].path.stem && Valid(parse, disk[i]) && Valid(parse, disk[j])
    requires !RebuildRefuses(parse, disk)
    ensures !SyncAgrees(parse, alloc, t0, disk)
  {
    AcceptedNoneRaises(parse, disk);
    assert IsDuplicated(parse, disk, disk[i]);
    RebuildQuarantinesDuplicates(parse, alloc, disk, |disk|, i);
    assert disk[..|disk|] == disk;
    if SyncFiles(parse, alloc, t0, disk).Synced? {
      SyncQuarantine(parse, alloc, t0, disk, |disk|);
    }
  }

  /** Rows carry the id of their path. */
  ghost predicate StemIds(t: Tables)
  {
    WellFormed(t) && forall d :: d in t.meta ==> t.meta[d].id == t.meta[d].path.stem
  }

  /** An index that remembers one note, at the path of file `j`. */
  ghost predicate RemembersOnly(t0: Tables, path: NotePath)
  {
    t0.meta.Keys == {0} && StemIds(t0) && t0.meta[0].path == path
  }

  ghost predicate Haunted(t: Tables, stem: string, done: bool)
  {
    && StemIds(t)
    && (if done then !HasNoteId(t.meta, stem) else 0 in t.meta && t.meta[0].id == stem)
  }

  /** A valid note followed by a malformed file with its stem: until the
      malformed file is scanned document 0 carries the stem, and then it is
      deleted although it now stands for the valid note. */
  lemma HauntedStep(parse: Parser, alloc: set<int> -> int, t0: Tables, disk: seq<SourceFile>, j: nat, k: nat, s: Sync)
    requires ChecksStem(parse) && PicksUnused(alloc) && DistinctPaths(disk) && j < |disk| && k < |disk|
    requires RemembersOnly(t0, disk[j].path) && !Valid(parse, disk[j]) && NoneBreaks(parse, disk)
    requires k > j && Valid(parse, disk[k]) ==> disk[k].path.stem != disk[j].path.stem
    requires Haunted(s.tables, disk[j].path.stem, k > j)
    ensures var next := SyncFile(parse, alloc, t0.meta, s, disk[k]);
            next.Synced? && Haunted(next.sync.tables, disk[j].path.stem, k + 1 > j)
  {
    var f, t := disk[k], s.tables;
    assert HasPath(t0.meta, f.path) <==> k == j by {
      assert t0.meta[0].path == disk[j].path;
    }
    assert !Breaks(parse, f);
    if Valid(parse, f) {
      var row := EntryOf(parse, f).0;
      assert !PathTaken(t.meta, f.path, row.id);
      var own := UpsertWrites(alloc, t, row, EntryOf(parse, f).1);
    } else if k == j {
      assert DocAt(t0.meta, f.path) == 0;
      assert forall d :: d in t.meta && t.meta[d].id == f.path.stem ==> d == 0;
    }
  }

  lemma {:induction false} HauntedPass(parse: Parser, alloc: set<int> -> int, t0: Tables, disk: seq<SourceFile>, j: nat, k: nat)
    requires ChecksStem(parse) && PicksUnused(alloc) && DistinctPaths(disk) && j < |disk| && k <= |disk|
    requires RemembersOnly(t0, disk[j].path) && !Valid(parse, disk[j]) && NoneBreaks(parse, disk)
    requires forall m :: j < m < |disk| && Valid(parse, disk[m]) ==> disk[m].path.stem != disk[j].path.stem
    ensures SyncFiles(parse, alloc, t0, disk[..k]).Synced?
    ensures Haunted(SyncFiles(parse, alloc, t0, disk[..k]).sync.tables, disk[j].path.stem, k > j)
  {
    if k == 0 {
    } else {
      assert disk[..k][..k - 1] == disk[..k - 1];
      HauntedPass(parse, alloc, t0, disk, j, k - 1);
      HauntedStep(parse, alloc, t0, disk, j, k - 1, SyncFiles(parse, alloc, t0, disk[..k - 1]).sync);
    }
  }

  lemma GhostParts(parse: Parser, alloc: set<int> -> int, t0: Tables, disk: seq<SourceFile>, i: nat, j: nat)
    requires ChecksStem(parse) && PicksUnused(alloc) && DistinctPaths(disk) && i < j < |disk|
    requires disk[i].path.stem == disk[j].path.stem && Indexable(parse, disk, disk[i]) && !Valid(parse, disk[j])
    requires RemembersOnly(t0, disk[j].path) && NoneBreaks(parse, disk)
    ensures !SyncAgrees(parse, alloc, t0, disk)
  {
    forall m | j < m < |disk| && Valid(parse, disk[m]) ensures disk[m].path.stem != disk[j].path.stem {
      if disk[m].path.stem == disk[i].path.stem {
        assert IsDuplicated(parse, disk, disk[i]);
      }
    }
    HauntedPass(parse, alloc, t0, disk, j, |disk|);
    assert disk[..|disk|] == disk;
    RebuildIsExact(parse, alloc, t0.generation, disk);
    assert EntryOf(parse, disk[i]) in Entries(Rebuilt(parse, alloc, t0.generation, disk).value) by {
      assert disk[i] in disk;
    }
    var u := Synchronised(parse, alloc, t0, disk).sync.tables;
    assert forall d :: d in u.meta ==> u.meta[d].id != disk[j].path.stem;
  }

  lemma OneRowIndex(parse: Parser, path: NotePath, content: Bytes) returns (t0: Tables)
    requires ChecksStem(parse) && Stores(parse, path, content)
    ensures Faithful(parse, t0) && RemembersOnly(t0, path)
  {
    var note := parse(path, content).note;
    t0 := Tables(map[0 := RowOf(path, content, 0, note)], map[0 := note.text], map[], 0);
    assert FaithfulRow(parse, t0.meta[0], t0.fts[0]);
  }

  /** Synchronising agrees with rebuilding from every faithful index if and only
      if no file scanned after a valid note shares its stem, or the rebuild fails. */
  lemma SyncEqualsRebuildIff(parse: Parser, alloc: set<int> -> int, disk: seq<SourceFile>)
    requires ChecksStem(parse) && Relocatable(parse) && PicksUnused(alloc)
    requires DistinctPaths(disk) && InTypeDirectories(disk)
    ensures NoClash(parse, disk) || RebuildRefuses(parse, disk) <==>
            forall t0 :: Faithful(parse, t0) ==> SyncAgrees(parse, alloc, t0, disk)
  {
    if NoClash(parse, disk) {
      forall t0 | Faithful(parse, t0) ensures SyncAgrees(parse, alloc, t0, disk) {
        SyncEqualsRebuild(parse, alloc, t0, disk);
      }
    } else if f :| f in disk && RefusesRebuild(parse, disk, f) {
      var k :| 0 <= k < |disk| && disk[k] == f;
      forall t0 | Faithful(parse, t0) ensures SyncAgrees(parse, alloc, t0, disk) {
        BreakRefuses(parse, alloc, t0, disk, k);
      }
    } else {
      var t0 := ClashParts(parse, alloc, disk);
    }
  }

  lemma ClashParts(parse: Parser, alloc: set<int> -> int, disk: seq<SourceFile>) returns (t0: Tables)
    requires ChecksStem(parse) && Relocatable(parse) && PicksUnused(alloc)
    requires DistinctPaths(disk) && InTypeDirectories(disk) && !NoClash(parse, disk) && !RebuildRefuses(parse, disk)
    ensures Faithful(parse, t0) && !SyncAgrees(parse, alloc, t0, disk)
  {
    if NoneBreaks(parse, disk) {
      t0 := ReadableClashParts(parse, alloc, disk);
    } else {
      t0 := EMPTY_TABLES;
      EmptyIsFaithful(parse);
      var f :| f in disk && Breaks(parse, f);
      var k :| 0 <= k < |disk| && disk[k] == f;
      BreakRefuses(parse, alloc, t0, disk, k);
    }
  }

  lemma ReadableClashParts(parse: Parser, alloc: set<int> -> int, disk: seq<SourceFile>) returns (t0: Tables)
    requires ChecksStem(parse) && Relocatable(parse) && PicksUnused(alloc) && NoneBreaks(parse, disk)
    requires DistinctPaths(disk) && InTypeDirectories(disk) && !NoClash(parse, disk) && !RebuildRefuses(parse, disk)
    ensures Faithful(parse, t0) && !SyncAgrees(parse, alloc, t0, disk)
  {
    var i, j :| 0 <= i < j < |disk| && disk[i].path.stem == disk[j].path.stem && Valid(parse, disk[i]);
    if Valid(parse, disk[j]) {
      t0 := EMPTY_TABLES;
      EmptyIsFaithful(parse);
      TwinsPart(parse, alloc, t0, disk, i, j);
    } else if IsDuplicated(parse, disk, disk[i]) {
      var a, b :| 0 <= a < b < |disk| && Valid(parse, disk[a]) && Valid(parse, disk[b])
                  && NoteOf(parse, disk[a]).id == NoteOf(parse, disk[b]).id == NoteOf(parse, disk[i]).id;
      t0 := EMPTY_TABLES;
      EmptyIsFaithful(parse);
      TwinsPart(parse, alloc, t0, disk, a, b);
    } else {
      var content := Relocated(parse, disk, i, j);
      t0 := OneRowIndex(parse, disk[j].path, content);
      GhostParts(parse, alloc, t0, disk, i, j);
    }
  }

  lemma Relocated(parse: Parser, disk: seq<SourceFile>, i: nat, j: nat) returns (content: Bytes)
    requires Relocatable(parse) && NoneBreaks(parse, disk) && InTypeDirectories(disk)
    requires i < |disk| && j < |disk| && disk[i].path.stem == disk[j].path.stem && Valid(parse, disk[i])
    ensures Stores(parse, disk[j].path, content)
  {
    assert disk[i] in disk && disk[j] in disk;
    assert !Breaks(parse, disk[i]);
    assert Stores(parse, disk[i].path, disk[i].content);
    assert Accepts(parse, disk[j].path);
    content :| Stores(parse, disk[j].path, content);
  }

  // ---------------------------------------------------------------------------
  // Repeated synchronisation and counters
  // ---------------------------------------------------------------------------

  lemma ExpectedIsFaithful(parse: Parser, disk: seq<SourceFile>, t: Tables)
    requires WellFormed(t) && Entries(t) == ExpectedEntries(parse, disk) && NoneBreaks(parse, disk)
    ensures Faithful(parse, t)
  {
    forall d | d in t.meta ensures FaithfulRow(parse, t.meta[d], t.fts[d]) {
      EntryIn(t, d);
      var f :| f in disk && Valid(parse, f) && EntryOf(parse, f) == (t.meta[d], t.fts[d]);
    }
  }

  /** Every scanned file is indexed, kept or quarantined. */
  lemma {:induction false} EveryFileIsCounted(parse: Parser, alloc: set<int> -> int, t0: Tables, disk: seq<SourceFile>)
    ensures var o := SyncFiles(parse, alloc, t0, disk);
            o.Synced? ==> o.sync.indexed + o.sync.kept + |o.sync.quarantined| == |disk|
  {
    if |disk| == 0 {
    } else {
      EveryFileIsCounted(parse, alloc, t0, disk[..|disk| - 1]);
    }
  }

  /** A second pass over the same files rewrites and removes nothing. */
  lemma {:induction false} SecondPassIsIdle(parse: Parser, alloc: set<int> -> int, t0: Tables, disk: seq<SourceFile>, k: nat)
    requires DistinctPaths(disk) && NoneBreaks(parse, disk) && k <= |disk|
    requires WellFormed(t0) && Entries(t0) == ExpectedEntries(parse, disk)
    ensures var o := SyncFiles(parse, alloc, t0, disk[..k]);
            o.Synced? && o.sync.indexed == 0 && o.sync.removed == 0
            && o.sync.tables.meta == t0.meta && o.sync.tables.fts == t0.fts
  {
    if k == 0 {
    } else {
      assert disk[..k][..k - 1] == disk[..k - 1];
      SecondPassIsIdle(parse, alloc, t0, disk, k - 1);
      OwnRow(parse, t0, disk, k - 1);
      assert !Breaks(parse, disk[k - 1]);
    }
  }

  lemma OwnRow(parse: Parser, t0: Tables, disk: seq<SourceFile>, k: nat)
    requires DistinctPaths(disk) && k < |disk|
    requires WellFormed(t0) && Entries(t0) == ExpectedEntries(parse, disk)
    ensures HasPath(t0.meta, disk[k].path) <==> Valid(parse, disk[k])
    ensures Valid(parse, disk[k]) ==> SameSignature(t0.meta[DocAt(t0.meta, disk[k].path)], disk[k])
  {
    if HasPath(t0.meta, disk[k].path) {
      var d := DocAt(t0.meta, disk[k].path);
      EntryIn(t0, d);
      var f :| f in disk && Valid(parse, f) && EntryOf(parse, f) == (t0.meta[d], t0.fts[d]);
      var i :| 0 <= i < |disk| && disk[i] == f;
      assert i == k;
    }
    if Valid(parse, disk[k]) {
      assert disk[k] in disk;
      assert EntryOf(parse, disk[k]) in ExpectedEntries(parse, disk);
      var d :| d in t0.meta && d in t0.fts && (t0.meta[d], t0.fts[d]) == EntryOf(parse, disk[k]);
      DocAtIs(t0.meta, d);
    }
  }

  /** Synchronisation is idempotent: run again on unchanged files it indexes and
      removes nothing and leaves the rows as they are. */
  lemma SyncIsIdempotent(parse: Parser, alloc: set<int> -> int, t0: Tables, disk: seq<SourceFile>)
    requires PicksUnused(alloc) && ClashFree(parse, t0, disk) && Synchronised(parse, alloc, t0, disk).Synced?
    ensures var t1 := Synchronised(parse, alloc, t0, disk).sync.tables;
            var o := Synchronised(parse, alloc, t1, disk);
            && o.Synced? && o.sync.indexed == 0 && o.sync.removed == 0
            && o.sync.tables.meta == t1.meta && o.sync.tables.fts == t1.fts && o.sync.tables.quarantine == t1.quarantine
  {
    SyncReachesExpected(parse, alloc, t0, disk);
    var t1 := Synchronised(parse, alloc, t0, disk).sync.tables;
    ExpectedIsFaithful(parse, disk, t1);
    SyncReachesExpected(parse, alloc, t1, disk);
    SecondPassIsIdle(parse, alloc, t1, disk, |disk|);
    assert disk[..|disk|] == disk;
    ExpectedQuarantineIsUnique(parse, disk, t1.quarantine, Synchronised(parse, alloc, t1, disk).sync.tables.quarantine);
    NothingVanished(parse, t1, disk);
  }

  lemma NothingVanished(parse: Parser, t: Tables, disk: seq<SourceFile>)
    requires WellFormed(t) && Entries(t) == ExpectedEntries(parse, disk)
    ensures Vanished(t.meta, t.meta, PathsOf(disk)) == {}
  {
    forall d | d in t.meta ensures t.meta[d].path in PathsOf(disk) {
      EntryIn(t, d);
    }
  }
}
