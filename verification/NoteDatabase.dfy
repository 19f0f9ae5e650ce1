/** The index database as an object: row updates, and the loops of `sync_index`
    and `rebuild_index` proved to compute their specifications. */
module NoteDatabase {
  import opened Values
  import opened NoteIndex
  import opened NoteIndexTheorems

  class Database {
    var meta: Meta
    var fts: map<int, FtsText>
    var quarantine: map<NotePath, QuarantineItem>
    var generation: int
    /** Row ids handed out for new documents. */
    const alloc: set<int> -> int

    constructor (alloc: set<int> -> int)
      ensures this.alloc == alloc && State() == EMPTY_TABLES
    {
      this.alloc := alloc;
      meta, fts, quarantine, generation := map[], map[], map[], 0;
    }

    function State(): Tables
      reads this
    {
      Tables(meta, fts, quarantine, generation)
    }

    ghost predicate Consistent()
      reads this
    {
      WellFormed(State()) && PicksUnused(alloc)
    }

    method DeleteDoc(d: int)
      modifies this
      ensures State() == Deleted(old(State()), d)
    {
      fts := fts - {d};
      meta := meta - {d};
    }

    method StoreQuarantine(path: NotePath, item: QuarantineItem)
      modifies this`quarantine
      ensures quarantine == old(quarantine)[path := item]
    {
      quarantine := quarantine[path := item];
    }

    /** Refuses a path that belongs to another id, and what cannot be stored;
        otherwise replaces the row with the note's id, or adds one, and lifts its
        quarantine. */
    method UpsertConnection(row: Row, text: FtsText, storable: bool) returns (ok: bool)
      requires Consistent()
      modifies this
      ensures Consistent()
      ensures ok == (storable && !PathTaken(old(meta), row.path, row.id))
      ensures State() == if ok then Upserted(alloc, old(State()), row, text) else old(State())
    {
      if exists d :: d in meta && meta[d].path == row.path && meta[d].id != row.id {
        ghost var d :| d in meta && meta[d].path == row.path && meta[d].id != row.id;
        DocAtIs(meta, d);
        return false;
      }
      if !storable {
        return false;
      }
      ghost var own := UpsertWrites(alloc, State(), row, text);
      var docid;
      if exists d :: d in meta && meta[d].id == row.id {
        docid :| docid in meta && meta[docid].id == row.id;
        DocOfIs(meta, docid);
      } else {
        docid := alloc(meta.Keys);
      }
      meta := meta[docid := row];
      fts := fts[docid := text];
      quarantine := quarantine - {row.path};
      ok := true;
    }

    /** One scanned file of `sync_index`. */
    method ScanFile(parse: Parser, existing: Meta, s: Sync, f: SourceFile) returns (outcome: SyncOutcome)
      requires Consistent() && s.tables == State()
      requires forall d, e :: d in existing && e in existing && existing[d].path == existing[e].path ==> d == e
      modifies this
      ensures Consistent()
      ensures outcome == SyncFile(parse, alloc, existing, s, f)
      ensures State() == if outcome.Synced? then outcome.sync.tables else old(State())
    {
      match parse(f.path, f.content) {
        case Raises => outcome := Refused;
        case Malformed(error) =>
          var removed := s.removed;
          if exists d :: d in existing && existing[d].path == f.path {
            var d :| d in existing && existing[d].path == f.path;
            DocAtIs(existing, d);
            DeleteDoc(d);
            removed := removed + 1;
          }
          StoreQuarantine(f.path, ItemFor(f, error));
          outcome := Synced(Sync(State(), s.indexed, s.kept, removed, s.quarantined + [f.path]));
        case Note(note) =>
          var same := exists d :: d in existing && existing[d].path == f.path && existing[d].size == |f.content|
                                  && existing[d].mtimeNs == f.mtimeNs && existing[d].contentHash == Sha256(f.content);
          SignatureLookup(existing, f, same);
          if same {
            quarantine := quarantine - {f.path};
            outcome := Synced(Sync(State(), s.indexed, s.kept + 1, s.removed, s.quarantined));
          } else {
            var ok := UpsertConnection(RowOf(f.path, f.content, f.mtimeNs, note), note.text, note.storable);
            outcome := if ok then Synced(Sync(State(), s.indexed + 1, s.kept, s.removed, s.quarantined)) else Refused;
          }
      }
    }

    /** One incremental pass inside a transaction. */
    method SyncIndex(parse: Parser, disk: seq<SourceFile>) returns (outcome: SyncOutcome)
      requires Consistent()
      modifies this
      ensures Consistent()
      ensures outcome == Synchronised(parse, alloc, old(State()), disk)
      ensures State() == if outcome.Synced? then outcome.sync.tables else old(State())
    {
      var before := State();
      var s := Sync(before, 0, 0, 0, []);
      for i := 0 to |disk|
        invariant Consistent() && s.tables == State()
        invariant SyncFiles(parse, alloc, before, disk[..i]) == Synced(s)
      {
        assert disk[..i + 1][..i] == disk[..i];
        var next := ScanFile(parse, before.meta, s, disk[i]);
        if next.Refused? {
          RefusalIsFinal(parse, alloc, before, disk, i + 1);
          meta, fts, quarantine, generation := before.meta, before.fts, before.quarantine, before.generation;
          return Refused;
        }
        s := next.sync;
      }
      assert disk[..|disk|] == disk;
      s := Sweep(before.meta, s, PathsOf(disk));
      outcome := Synced(s);
    }

    /** The end of a pass: vanished documents, stale quarantine, generation. */
    method Sweep(existing: Meta, s: Sync, scanned: set<NotePath>) returns (swept: Sync)
      requires Consistent() && s.tables == State()
      modifies this
      ensures Consistent()
      ensures swept == Swept(existing, s, scanned) && State() == swept.tables
    {
      var gone := RemoveVanished(existing, scanned);
      var removed := s.removed + |gone|;
      quarantine := map p | p in quarantine && p in scanned :: quarantine[p];
      if s.indexed > 0 || removed > 0 || |s.quarantined| > 0 {
        generation := generation + 1;
      }
      swept := Sync(State(), s.indexed, s.kept, removed, s.quarantined);
    }

    method DeleteAt(path: NotePath) returns (hit: set<int>)
      requires Consistent()
      modifies this`meta, this`fts
      ensures Consistent()
      ensures hit == AtPaths(old(meta), {path})
      ensures meta == old(meta) - hit && fts == old(fts) - hit
    {
      hit := {};
      if exists d :: d in meta && meta[d].path == path {
        var d :| d in meta && meta[d].path == path;
        hit := {d};
        assert forall e :: e in AtPaths(meta, {path}) <==> e == d;
        meta, fts := meta - {d}, fts - {d};
      }
    }

    /** Deletes documents whose indexed path was not scanned. */
    method RemoveVanished(existing: Meta, scanned: set<NotePath>) returns (gone: set<int>)
      requires Consistent()
      modifies this`meta, this`fts
      ensures Consistent()
      ensures gone == Vanished(existing, old(meta), scanned)
      ensures meta == old(meta) - gone && fts == old(fts) - gone
    {
      gone := {};
      var indexed: set<NotePath> := set d | d in existing :: existing[d].path;
      var pending := indexed - scanned;
      ghost var done: set<NotePath> := {};
      while pending != {}
        invariant Consistent() && done !! pending && done + pending == indexed - scanned
        invariant gone == AtPaths(old(meta), done)
        invariant meta == old(meta) - gone && fts == old(fts) - gone
        decreases pending
      {
        var path :| path in pending;
        AtPathsGrows(old(meta), done, path);
        assert AtPaths(meta, {path}) == AtPaths(old(meta), {path});
        var hit := DeleteAt(path);
        gone := gone + hit;
        pending, done := pending - {path}, done + {path};
      }
      VanishedAtPaths(existing, old(meta), indexed, scanned);
    }

    /** Second pass of a rebuild: fails on a note it would store but cannot. */
    method InsertNote(parse: Parser, disk: seq<SourceFile>, i: nat) returns (ok: bool)
      requires Consistent() && DistinctPaths(disk) && i < |disk| && RebuildProgress(parse, disk, i, State())
      requires !parse(disk[i].path, disk[i].content).Raises?
      modifies this
      ensures ok == !RefusesRebuild(parse, disk, disk[i])
      ensures ok ==> Consistent() && State() == RebuildNote(parse, alloc, disk, old(State()), disk[i])
    {
      var f := disk[i];
      ok := true;
      match parse(f.path, f.content) {
        case Note(note) =>
          var duplicated := exists a, b :: 0 <= a < b < |disk| && SharesId(parse, disk[a], note.id) && SharesId(parse, disk[b], note.id);
          assert duplicated == IsDuplicated(parse, disk, f);
          if duplicated {
            StoreQuarantine(f.path, ItemFor(f, "duplicate note id"));
          } else {
            FreshForRebuild(parse, disk, i, State());
            ok := UpsertConnection(RowOf(f.path, f.content, f.mtimeNs, note), note.text, note.storable);
          }
        case _ =>
      }
    }

    /** First pass of a rebuild: every file is parsed, malformed ones are
        quarantined. */
    method ParseAll(parse: Parser, disk: seq<SourceFile>) returns (ok: bool)
      requires Consistent() && State() == EMPTY_TABLES
      modifies this
      ensures ok == forall f :: f in disk ==> !parse(f.path, f.content).Raises?
      ensures ok ==> Consistent() && State() == EMPTY_TABLES.(quarantine := MalformedItems(parse, disk))
    {
      for i := 0 to |disk|
        invariant State() == EMPTY_TABLES.(quarantine := MalformedItems(parse, disk[..i]))
        invariant forall f :: f in disk[..i] ==> !parse(f.path, f.content).Raises?
      {
        assert disk[..i + 1][..i] == disk[..i];
        match parse(disk[i].path, disk[i].content) {
          case Raises => return false;
          case Malformed(error) => StoreQuarantine(disk[i].path, ItemFor(disk[i], error));
          case Note(_) =>
        }
      }
      assert disk[..|disk|] == disk;
      ok := true;
    }

    /** Everything is parsed and inserted into this fresh database, which is
        discarded on failure. */
    method RebuildIndex(parse: Parser, disk: seq<SourceFile>, previousGeneration: int) returns (ok: bool)
      requires Consistent() && State() == EMPTY_TABLES && DistinctPaths(disk)
      modifies this
      ensures ok == Rebuilt(parse, alloc, previousGeneration, disk).Some?
      ensures ok ==> State() == Rebuilt(parse, alloc, previousGeneration, disk).value
    {
      ok := ParseAll(parse, disk);
      if !ok {
        ghost var f :| f in disk && parse(f.path, f.content).Raises?;
        assert RefusesRebuild(parse, disk, f);
        return;
      }
      for i := 0 to |disk|
        invariant ok && State() == RebuildNotes(parse, alloc, disk, i) && Consistent()
        invariant forall j :: 0 <= j < i ==> !RefusesRebuild(parse, disk, disk[j])
      {
        RebuildReaches(parse, alloc, disk, i);
        ok := InsertNote(parse, disk, i);
        if !ok {
          assert RefusesRebuild(parse, disk, disk[i]);
          return;
        }
      }
      generation := previousGeneration + 1;
    }
  }

  /** The documents at these paths. */
  ghost function AtPaths(meta: Meta, paths: set<NotePath>): set<int>
  {
    set d | d in meta && meta[d].path in paths
  }

  lemma AtPathsGrows(meta: Meta, done: set<NotePath>, path: NotePath)
    ensures AtPaths(meta, done + {path}) == AtPaths(meta, done) + AtPaths(meta, {path})
  {
  }

  lemma VanishedAtPaths(existing: Meta, current: Meta, indexed: set<NotePath>, scanned: set<NotePath>)
    requires indexed == set d | d in existing :: existing[d].path
    ensures AtPaths(current, indexed - scanned) == Vanished(existing, current, scanned)
  {
    forall d ensures d in AtPaths(current, indexed - scanned) <==> d in Vanished(existing, current, scanned) {
      if d in current {
        assert current[d].path in indexed <==> HasPath(existing, current[d].path);
      }
    }
  }

  predicate SharesId(parse: Parser, f: SourceFile, id: string)
  {
    parse(f.path, f.content).Note? && parse(f.path, f.content).note.id == id
  }

  lemma SignatureLookup(existing: Meta, f: SourceFile, same: bool)
    requires forall d, e :: d in existing && e in existing && existing[d].path == existing[e].path ==> d == e
    requires same <==> exists d :: d in existing && existing[d].path == f.path && existing[d].size == |f.content|
                                   && existing[d].mtimeNs == f.mtimeNs && existing[d].contentHash == Sha256(f.content)
    ensures same <==> HasPath(existing, f.path) && SameSignature(existing[DocAt(existing, f.path)], f)
  {
    if HasPath(existing, f.path) {
      var d := DocAt(existing, f.path);
    }
  }
}
