/** `set_status` on the store: staged files are published one by one and indexed
    in one transaction, with a failure possible at every step. */
module LifecycleStore {
  import opened Values
  import opened Ordering
  import opened NoteLifecycle
  import opened SupersessionGraph

  /** The index row of a note. */
  datatype IndexRow = IndexRow(id: string, status: string, content: Digest<Note>, text: NoteText)

  type Index = map<string, IndexRow>

  function RowFor(n: Note): IndexRow
  {
    IndexRow(n.id, n.status, Sha256(n), n.text)
  }

  /** The points at which the file system or the database may fail. Writing a file
      and syncing its directory are two of them, forward and back. */
  datatype Step =
    | StageFile(id: string)
    | Connect
    | Begin
    | ReplaceFile(id: string)
    | SyncDirectory(id: string)
    | ReparseFile(id: string)
    | UpsertRow(id: string)
    | Commit
    | RollBackTransaction
    | RestoreFile(id: string)
    | SyncRestored(id: string)

  type Faults = Step -> bool

  /** `RollbackFailed` names notes; `RollbackRaised` is the error of the
      transaction's own rollback, after which nothing is restored. */
  datatype Outcome =
    | Done(updates: Updates)
    | Refused(error: LifecycleError)
    | Restored
    | RollbackFailed(ids: seq<string>)
    | RollbackRaised

  /** A staged note: its new content, what it replaces, and whether the
      replacement took place. */
  datatype Stage = Stage(id: string, content: Note, original: Source, published: bool)

  predicate UpdatesUsable(updates: Updates, files: Files)
  {
    forall id :: id in updates ==> id in files
  }

  ghost predicate DistinctStages(stages: seq<Stage>)
  {
    forall i, j :: 0 <= i < j < |stages| ==> stages[i].id != stages[j].id
  }

  /** Stages hold the original sources of distinct existing files. */
  ghost predicate StagedFrom(files: Files, stages: seq<Stage>)
  {
    DistinctStages(stages) && forall i :: 0 <= i < |stages| ==> stages[i].id in files && stages[i].original == files[stages[i].id]
  }

  /** The files are those of `before` with the published stages in place. */
  ghost predicate Holds(files: Files, before: Files, stages: seq<Stage>)
  {
    && files.Keys == before.Keys
    && (forall i :: 0 <= i < |stages| ==> stages[i].id in before)
    && (forall i :: 0 <= i < |stages| ==>
          files[stages[i].id] == if stages[i].published then Parsed(stages[i].content) else before[stages[i].id])
    && (forall id :: id in before && !StagedId(stages, |stages|, id) ==> files[id] == before[id])
  }

  ghost predicate StagedId(stages: seq<Stage>, n: nat, id: string)
  {
    exists i :: 0 <= i < n && i < |stages| && stages[i].id == id
  }

  ghost predicate StagesCarry(stages: seq<Stage>, updates: Updates)
  {
    forall i :: 0 <= i < |stages| ==>
      stages[i].id in updates && stages[i].content == updates[stages[i].id] && stages[i].content.id == stages[i].id
  }

  ghost function PublishedIds(stages: seq<Stage>): set<string>
  {
    set i | 0 <= i < |stages| && stages[i].published :: stages[i].id
  }

  /** The updates of these notes alone. */
  ghost function Part(updates: Updates, ids: set<string>): Updates
  {
    map id | id in updates && id in ids :: updates[id]
  }

  lemma HoldsMeans(files: Files, before: Files, stages: seq<Stage>, updates: Updates)
    requires Holds(files, before, stages) && StagesCarry(stages, updates) && DistinctStages(stages)
    ensures files == After(before, Part(updates, PublishedIds(stages)))
  {
    var part := Part(updates, PublishedIds(stages));
    forall id
      ensures id in files <==> id in After(before, part)
      ensures id in files ==> files[id] == After(before, part)[id]
    {
      if StagedId(stages, |stages|, id) {
        var i :| 0 <= i < |stages| && stages[i].id == id;
        assert id in PublishedIds(stages) <==> stages[i].published;
      } else {
        assert id !in PublishedIds(stages);
      }
    }
  }

  ghost function IndexAfter(index: Index, updates: Updates): Index
  {
    index + map id | id in updates :: RowFor(updates[id])
  }

  ghost function IndexWith(index: Index, stages: seq<Stage>, n: nat): Index
    requires n <= |stages|
  {
    if n == 0 then index else IndexWith(index, stages, n - 1)[stages[n - 1].content.id := RowFor(stages[n - 1].content)]
  }

  lemma {:induction false} IndexedAt(index: Index, stages: seq<Stage>, updates: Updates, n: nat, id: string)
    requires n <= |stages| && StagesCarry(stages, updates)
    ensures id in IndexWith(index, stages, n) <==> id in index || StagedId(stages, n, id)
    ensures StagedId(stages, n, id) ==> IndexWith(index, stages, n)[id] == RowFor(updates[id])
    ensures !StagedId(stages, n, id) && id in index ==> IndexWith(index, stages, n)[id] == index[id]
  {
    if n == 0 {
    } else {
      IndexedAt(index, stages, updates, n - 1, id);
      assert StagedId(stages, n, id) <==> StagedId(stages, n - 1, id) || stages[n - 1].id == id;
    }
  }

  lemma AllIndexed(index: Index, stages: seq<Stage>, updates: Updates)
    requires StagesCarry(stages, updates) && forall id :: id in updates <==> StagedId(stages, |stages|, id)
    ensures IndexWith(index, stages, |stages|) == IndexAfter(index, updates)
  {
    forall id
      ensures id in IndexWith(index, stages, |stages|) <==> id in IndexAfter(index, updates)
      ensures id in IndexAfter(index, updates) ==> IndexWith(index, stages, |stages|)[id] == IndexAfter(index, updates)[id]
    {
      IndexedAt(index, stages, updates, |stages|, id);
    }
  }

  /** No step after staging fails. */
  ghost predicate NoFaultAfterStaging(fails: Faults, updates: Updates)
  {
    && !fails(Commit)
    && forall id :: id in updates ==>
         !fails(ReplaceFile(id)) && !fails(SyncDirectory(id)) && !fails(ReparseFile(id)) && !fails(UpsertRow(id))
  }

  ghost predicate Staged(fails: Faults, updates: Updates)
  {
    forall id :: id in updates ==> !fails(StageFile(id))
  }

  /** No step of the forward path fails. */
  ghost predicate NoFault(fails: Faults, updates: Updates)
  {
    Staged(fails, updates) && !fails(Connect) && !fails(Begin) && NoFaultAfterStaging(fails, updates)
  }

  /** This file is replaced: so far nothing failed, neither before nor at any
      note that comes earlier in the order of ids. */
  ghost predicate Publishes(fails: Faults, updates: Updates, id: string)
  {
    && Staged(fails, updates) && !fails(Connect) && !fails(Begin) && !fails(ReplaceFile(id))
    && forall earlier :: earlier in updates && earlier != id && LexLeq(earlier, id) ==>
         !fails(ReplaceFile(earlier)) && !fails(SyncDirectory(earlier))
  }

  ghost function Published(fails: Faults, updates: Updates): set<string>
  {
    set id | id in updates && Publishes(fails, updates, id)
  }

  /** A failure is followed by the rollback of an open connection, unguarded. */
  ghost predicate RollbackRaises(fails: Faults, updates: Updates)
  {
    Staged(fails, updates) && !fails(Connect) && fails(RollBackTransaction)
  }

  /** The notes a failed transition leaves changed. */
  ghost function LeftChanged(fails: Faults, updates: Updates): set<string>
  {
    set id | id in Published(fails, updates) && (fails(RollBackTransaction) || fails(RestoreFile(id)))
  }

  /** Who is reported when restoring was tried: also a note whose content is back
      although its directory could not be synced. */
  ghost predicate Reported(fails: Faults, updates: Updates, id: string)
  {
    id in Published(fails, updates) && (fails(RestoreFile(id)) || fails(SyncRestored(id)))
  }

  /** The whole effect of applying a plan under any faults. */
  ghost predicate Applied(before: Files, updates: Updates, fails: Faults, outcome: Outcome, after: Files)
  {
    if NoFault(fails, updates) then outcome == Done(updates) && after == After(before, updates)
    else
      && after == After(before, Part(updates, LeftChanged(fails, updates)))
      && match outcome
         case Done(_) => false
         case Refused(_) => false
         case RollbackRaised => RollbackRaises(fails, updates)
         case Restored => !RollbackRaises(fails, updates) && forall id :: !Reported(fails, updates, id)
         case RollbackFailed(ids) =>
           !RollbackRaises(fails, updates) && ids != [] && forall id :: id in ids <==> Reported(fails, updates, id)
  }

  ghost predicate PublishSucceeds(fails: Faults, stages: seq<Stage>)
  {
    forall i :: 0 <= i < |stages| ==> !fails(ReplaceFile(stages[i].id)) && !fails(SyncDirectory(stages[i].id))
  }

  ghost predicate IndexSucceeds(fails: Faults, stages: seq<Stage>)
  {
    forall i :: 0 <= i < |stages| ==> !fails(ReparseFile(stages[i].id)) && !fails(UpsertRow(stages[i].id))
  }

  lemma FaultsByStage(fails: Faults, stages: seq<Stage>, updates: Updates)
    requires forall id :: id in updates <==> StagedId(stages, |stages|, id)
    ensures PublishSucceeds(fails, stages) && IndexSucceeds(fails, stages) && !fails(Commit) <==> NoFaultAfterStaging(fails, updates)
  {
    if PublishSucceeds(fails, stages) && IndexSucceeds(fails, stages) && !fails(Commit) {
      forall id | id in updates
        ensures !fails(ReplaceFile(id)) && !fails(SyncDirectory(id)) && !fails(ReparseFile(id)) && !fails(UpsertRow(id))
      {
        var i :| 0 <= i < |stages| && stages[i].id == id;
      }
    }
    if NoFaultAfterStaging(fails, updates) {
      forall i | 0 <= i < |stages| ensures stages[i].id in updates {
        assert StagedId(stages, |stages|, stages[i].id);
      }
    }
  }

  /** Stage `i` is published: no earlier one fails, nor its own replacement. */
  ghost predicate PublishesAt(fails: Faults, stages: seq<Stage>, i: nat)
    requires i < |stages|
  {
    && !fails(ReplaceFile(stages[i].id))
    && forall j :: 0 <= j < i ==> !fails(ReplaceFile(stages[j].id)) && !fails(SyncDirectory(stages[j].id))
  }

  /** In the order of ids, the published stages are the published notes. */
  lemma PublishedStages(fails: Faults, staged: seq<Stage>, updates: Updates, done: nat)
    requires Staged(fails, updates) && !fails(Connect) && !fails(Begin)
    requires DistinctStages(staged) && forall i, j :: 0 <= i < j < |staged| ==> LexLeq(staged[i].id, staged[j].id)
    requires forall id :: id in updates <==> StagedId(staged, |staged|, id)
    requires forall i :: 0 <= i < |staged| ==> (i < done <==> PublishesAt(fails, staged, i))
    ensures PublishedIds(Marked(staged, done)) == Published(fails, updates)
  {
    LexIsTotalPreorder();
    forall i | 0 <= i < |staged| ensures staged[i].id in updates {
      assert StagedId(staged, |staged|, staged[i].id);
    }
    forall i | 0 <= i < |staged| ensures PublishesAt(fails, staged, i) <==> Publishes(fails, updates, staged[i].id) {
      forall earlier | earlier in updates && earlier != staged[i].id && LexLeq(earlier, staged[i].id)
        ensures exists j :: 0 <= j < i && staged[j].id == earlier
      {
        var j :| 0 <= j < |staged| && staged[j].id == earlier;
      }
    }
    var marked := Marked(staged, done);
    forall id ensures id in PublishedIds(marked) <==> id in Published(fails, updates) {
      if id in updates {
        var i :| 0 <= i < |staged| && staged[i].id == id;
        assert marked[i].published <==> PublishesAt(fails, staged, i);
        assert marked[i].id == id;
      }
    }
  }

  /** The stages with the restored ones among those from `i` on no longer
      published: a restore fails, or it writes the original. */
  ghost function Settled(stages: seq<Stage>, i: nat, fails: Faults): seq<Stage>
  {
    seq(|stages|, j requires 0 <= j < |stages| =>
      stages[j].(published := stages[j].published && (j < i || fails(RestoreFile(stages[j].id)))))
  }

  ghost predicate ReportedAt(fails: Faults, stages: seq<Stage>, i: nat)
    requires i < |stages|
  {
    stages[i].published && (fails(RestoreFile(stages[i].id)) || fails(SyncRestored(stages[i].id)))
  }

  /** The outcome of a rollback names exactly the published stages not put back. */
  ghost predicate AnswersRestore(stages: seq<Stage>, fails: Faults, outcome: Outcome)
  {
    match outcome
    case RollbackRaised => true
    case Restored => forall i :: 0 <= i < |stages| ==> !ReportedAt(fails, stages, i)
    case RollbackFailed(ids) => ids != [] && NamesReported(stages, fails, ids)
    case _ => false
  }

  ghost predicate NamesReported(stages: seq<Stage>, fails: Faults, ids: seq<string>)
  {
    NamesFrom(stages, fails, 0, ids)
  }

  ghost predicate NamesFrom(stages: seq<Stage>, fails: Faults, from: nat, ids: seq<string>)
  {
    forall id :: id in ids <==> ReportedFrom(stages, fails, from, id)
  }

  ghost predicate ReportedFrom(stages: seq<Stage>, fails: Faults, from: nat, id: string)
  {
    exists j :: from <= j < |stages| && stages[j].id == id && ReportedAt(fails, stages, j)
  }

  lemma NamesOneMore(stages: seq<Stage>, fails: Faults, i: nat, ids: seq<string>)
    requires i < |stages| && NamesFrom(stages, fails, i + 1, ids)
    ensures NamesFrom(stages, fails, i, if ReportedAt(fails, stages, i) then ids + [stages[i].id] else ids)
  {
    forall id ensures ReportedFrom(stages, fails, i, id) <==>
                      ReportedFrom(stages, fails, i + 1, id) || (stages[i].id == id && ReportedAt(fails, stages, i)) {
    }
  }

  lemma NamesForgetOrder(stages: seq<Stage>, fails: Faults, a: seq<string>, b: seq<string>)
    requires NamesReported(stages, fails, a) && multiset(a) == multiset(b)
    ensures NamesReported(stages, fails, b)
  {
    MultisetMembers(a, b);
  }

  /** The effect of one call: refused, or the plan applied under the faults. */
  ghost predicate Takes(files: Files, t: Transition, now: string, fails: Faults, outcome: Outcome, after: Files)
  {
    match PlanOf(files, t, now)
    case Refuse(error) => outcome == Refused(error) && after == files
    case Proceed(updates) => Applied(files, updates, fails, outcome, after)
  }

  method SortedIds(updates: Updates) returns (ids: seq<string>)
    ensures forall id :: id in ids <==> id in updates
    ensures forall i, j :: 0 <= i < j < |ids| ==> ids[i] != ids[j] && LexLeq(ids[i], ids[j])
  {
    var list: seq<string> := [];
    var pending := updates.Keys;
    while pending != {}
      invariant pending <= updates.Keys
      invariant forall id :: id in list <==> id in updates && id !in pending
      invariant forall i, j :: 0 <= i < j < |list| ==> list[i] != list[j]
      decreases pending
    {
      var id :| id in pending;
      pending := pending - {id};
      list := list + [id];
    }
    ids := Sort(list, LexLeq);
    LexIsTotalPreorder();
    SortIsSorted(list, LexLeq);
    MultisetMembers(ids, list);
    DistinctAfterSort(list, ids);
  }

  lemma DistinctAfterSort(a: seq<string>, b: seq<string>)
    requires multiset(a) == multiset(b)
    requires forall i, j :: 0 <= i < j < |a| ==> a[i] != a[j]
    ensures forall i, j :: 0 <= i < j < |b| ==> b[i] != b[j]
  {
    MultisetMembers(a, b);
    forall i, j | 0 <= i < j < |b| ensures b[i] != b[j] {
      assert b == b[..i] + [b[i]] + b[i + 1..j] + [b[j]] + b[j + 1..];
      assert b[i] in a;
      var k :| 0 <= k < |a| && a[k] == b[i];
      assert a == a[..k] + [a[k]] + a[k + 1..];
      assert a[k] !in a[..k] && a[k] !in a[k + 1..];
      assert multiset(a)[a[k]] == 1;
    }
  }

  /** The stages with exactly the first `n` published. */
  function Marked(stages: seq<Stage>, n: nat): seq<Stage>
  {
    seq(|stages|, i requires 0 <= i < |stages| => stages[i].(published := i < n))
  }

  class Store {
    var files: Files
    var index: Index
    var generation: int

    constructor (files: Files, index: Index)
      ensures this.files == files && this.index == index && generation == 0
    {
      this.files, this.index, generation := files, index, 0;
    }

    /** Writes a temporary file per note; on failure nothing is visible. */
    method StageAll(ids: seq<string>, updates: Updates, fails: Faults) returns (ok: bool, stages: seq<Stage>)
      requires forall id :: id in ids <==> id in updates
      requires forall i, j :: 0 <= i < j < |ids| ==> ids[i] != ids[j]
      requires UpdatesUsable(updates, files)
      ensures ok <==> forall id :: id in updates ==> !fails(StageFile(id))
      ensures StagedFrom(files, stages)
      ensures forall i :: 0 <= i < |stages| ==>
                !stages[i].published && stages[i].id in updates && stages[i].content == updates[stages[i].id]
      ensures ok ==> |stages| == |ids| && forall i :: 0 <= i < |ids| ==> stages[i].id == ids[i]
    {
      stages := [];
      for i := 0 to |ids|
        invariant |stages| == i && StagedFrom(files, stages)
        invariant forall j :: 0 <= j < i ==>
                    stages[j].id == ids[j] && !stages[j].published && ids[j] in updates && stages[j].content == updates[ids[j]]
        invariant forall j :: 0 <= j < i ==> !fails(StageFile(ids[j]))
      {
        assert ids[i] in updates;
        if fails(StageFile(ids[i])) {
          return false, stages;
        }
        stages := stages + [Stage(ids[i], updates[ids[i]], files[ids[i]], false)];
      }
      ok := true;
    }

    /** Replaces one file and syncs its directory. */
    method PublishStage(stage: Stage, fails: Faults) returns (replaced: bool, synced: bool)
      modifies this`files
      ensures replaced == !fails(ReplaceFile(stage.id)) && synced == (replaced && !fails(SyncDirectory(stage.id)))
      ensures files == if replaced then old(files)[stage.id := Parsed(stage.content)] else old(files)
    {
      if fails(ReplaceFile(stage.id)) {
        return false, false;
      }
      files := files[stage.id := Parsed(stage.content)];
      replaced, synced := true, !fails(SyncDirectory(stage.id));
    }

    /** Replaces the files in turn; stops at the first failure, which may come
        just after a replacement. The first `done` stages are published. */
    method PublishAll(staged: seq<Stage>, fails: Faults, ghost before: Files) returns (ok: bool, stages: seq<Stage>, ghost done: nat)
      requires files == before && StagedFrom(before, staged) && forall i :: 0 <= i < |staged| ==> !staged[i].published
      modifies this`files
      ensures done <= |staged| && stages == Marked(staged, done)
      ensures Holds(files, before, stages)
      ensures forall i :: 0 <= i < |staged| ==> (i < done <==> PublishesAt(fails, staged, i))
      ensures ok <==> PublishSucceeds(fails, staged)
    {
      stages := Marked(staged, 0);
      for i := 0 to |staged|
        invariant stages == Marked(staged, i) && Holds(files, before, stages)
        invariant forall j :: 0 <= j < i ==> !fails(ReplaceFile(staged[j].id)) && !fails(SyncDirectory(staged[j].id))
      {
        MarkOne(files, before, staged, i);
        var replaced, synced := PublishStage(staged[i], fails);
        if !replaced {
          return false, stages, i;
        }
        stages := stages[i := stages[i].(published := true)];
        if !synced {
          return false, stages, i + 1;
        }
      }
      ok, done := true, |staged|;
    }

    /** Reparses what was published and writes its rows into the transaction. */
    method IndexStages(stages: seq<Stage>, fails: Faults) returns (ok: bool, rows: Index)
      ensures ok ==> rows == IndexWith(index, stages, |stages|)
      ensures ok <==> IndexSucceeds(fails, stages)
    {
      rows := index;
      for i := 0 to |stages|
        invariant forall j :: 0 <= j < i ==> !fails(ReparseFile(stages[j].id))
      {
        if fails(ReparseFile(stages[i].id)) {
          return false, rows;
        }
      }
      for i := 0 to |stages|
        invariant rows == IndexWith(index, stages, i)
        invariant forall j :: 0 <= j < i ==> !fails(UpsertRow(stages[j].id))
      {
        if fails(UpsertRow(stages[i].id)) {
          return false, rows;
        }
        rows := rows[stages[i].content.id := RowFor(stages[i].content)];
      }
      ok := true;
    }

    /** Puts one original back and syncs its directory. */
    method WriteAtomic(id: string, original: Source, fails: Faults) returns (ok: bool)
      modifies this`files
      ensures files == if fails(RestoreFile(id)) then old(files) else old(files)[id := original]
      ensures ok <==> !fails(RestoreFile(id)) && !fails(SyncRestored(id))
    {
      if fails(RestoreFile(id)) {
        return false;
      }
      files := files[id := original];
      ok := !fails(SyncRestored(id));
    }

    method RestoreStage(stages: seq<Stage>, i: nat, fails: Faults, ghost before: Files) returns (ok: bool)
      requires i < |stages| && StagedFrom(before, stages) && Holds(files, before, Settled(stages, i + 1, fails))
      modifies this`files
      ensures Holds(files, before, Settled(stages, i, fails)) && ok == !ReportedAt(fails, stages, i)
    {
      SettleOne(files, before, stages, i, fails);
      ok := true;
      if stages[i].published {
        ok := WriteAtomic(stages[i].id, stages[i].original, fails);
      }
    }

    /** Puts the original contents back in reverse order, carrying on after a
        failed restore. Reported are exactly the published notes whose restore
        fails; those not even replaced keep the new content, all other files are
        as before. */
    method RestorePublished(stages: seq<Stage>, fails: Faults, ghost before: Files) returns (failures: seq<string>)
      requires StagedFrom(before, stages) && Holds(files, before, stages)
      modifies this`files
      ensures NamesReported(stages, fails, failures)
      ensures Holds(files, before, Settled(stages, 0, fails))
    {
      failures := [];
      NothingSettled(stages, fails);
      for i := |stages| downto 0
        invariant Holds(files, before, Settled(stages, i, fails))
        invariant NamesFrom(stages, fails, i, failures)
      {
        NamesOneMore(stages, fails, i, failures);
        var ok := RestoreStage(stages, i, fails, before);
        if !ok {
          failures := failures + [stages[i].id];
        }
      }
      NamesForgetOrder(stages, fails, failures, Sort(failures, LexLeq));
      failures := Sort(failures, LexLeq);
    }

    /** After a failure: the open transaction is rolled back, then the published
        notes are restored. If the first raises, nothing is restored. */
    method RollBack(stages: seq<Stage>, connected: bool, fails: Faults, ghost before: Files) returns (outcome: Outcome)
      requires StagedFrom(before, stages) && Holds(files, before, stages)
      modifies this`files
      ensures outcome == RollbackRaised <==> connected && fails(RollBackTransaction)
      ensures outcome == RollbackRaised ==> files == old(files)
      ensures outcome != RollbackRaised ==> Holds(files, before, Settled(stages, 0, fails))
      ensures AnswersRestore(stages, fails, outcome)
    {
      if connected && fails(RollBackTransaction) {
        return RollbackRaised;
      }
      var failures := RestorePublished(stages, fails, before);
      forall i | 0 <= i < |stages| ensures ReportedAt(fails, stages, i) ==> stages[i].id in failures {
        assert ReportedAt(fails, stages, i) ==> ReportedFrom(stages, fails, 0, stages[i].id);
      }
      outcome := if failures == [] then Restored else RollbackFailed(failures);
    }

    /** Stages, publishes, indexes and commits a set of updates, or rolls back. */
    method Apply(updates: Updates, fails: Faults) returns (outcome: Outcome)
      requires UpdatesUsable(updates, files) && forall id :: id in updates ==> updates[id].id == id
      modifies this
      ensures Applied(old(files), updates, fails, outcome, files)
      ensures index == if outcome.Done? then IndexAfter(old(index), updates) else old(index)
      ensures generation == old(generation) + if outcome.Done? then 1 else 0
    {
      var ids := SortedIds(updates);
      var ok, staged := StageAll(ids, updates, fails);
      if !ok || fails(Connect) || fails(Begin) {
        ghost var before := files;
        outcome := RollBack(staged, ok && !fails(Connect), fails, before);
        NothingPublished(files, before, staged, fails);
        assert Published(fails, updates) == {};
        assert Part(updates, {}) == map[];
        return;
      }
      CoversUpdates(ids, staged, updates);
      outcome := PublishAndCommit(updates, staged, fails);
    }

    /** From complete staging: publish, index and commit, or roll back. */
    method PublishAndCommit(updates: Updates, staged: seq<Stage>, fails: Faults) returns (outcome: Outcome)
      requires StagedFrom(files, staged) && StagesCarry(staged, updates)
      requires forall id :: id in updates <==> StagedId(staged, |staged|, id)
      requires forall i :: 0 <= i < |staged| ==> !staged[i].published
      requires forall i, j :: 0 <= i < j < |staged| ==> LexLeq(staged[i].id, staged[j].id)
      requires Staged(fails, updates) && !fails(Connect) && !fails(Begin)
      modifies this
      ensures Applied(old(files), updates, fails, outcome, files)
      ensures index == if outcome.Done? then IndexAfter(old(index), updates) else old(index)
      ensures generation == old(generation) + if outcome.Done? then 1 else 0
    {
      ghost var before := files;
      var ok, stages;
      ghost var done;
      ok, stages, done := PublishAll(staged, fails, before);
      MarkedStages(before, staged, updates, done);
      FaultsByStage(fails, staged, updates);
      PublishedStages(fails, staged, updates, done);
      HoldsMeans(files, before, stages, updates);
      if ok {
        ok := IndexAndCommit(updates, stages, fails);
      }
      if ok {
        EveryNotePublishes(fails, updates);
        outcome := Done(updates);
      } else {
        outcome := RollBack(stages, true, fails, before);
        SettledMeans(files, before, stages, updates, fails, outcome);
      }
    }

    /** One transaction writes all rows and the generation. */
    method IndexAndCommit(updates: Updates, stages: seq<Stage>, fails: Faults) returns (ok: bool)
      requires StagesCarry(stages, updates) && forall id :: id in updates <==> StagedId(stages, |stages|, id)
      modifies this`index, this`generation
      ensures ok <==> IndexSucceeds(fails, stages) && !fails(Commit)
      ensures index == if ok then IndexAfter(old(index), updates) else old(index)
      ensures generation == old(generation) + if ok then 1 else 0
    {
      var rows;
      ok, rows := IndexStages(stages, fails);
      ok := ok && !fails(Commit);
      if ok {
        AllIndexed(index, stages, updates);
        index := rows;
        generation := generation + 1;
      }
    }

    /** Compare-and-swap of one status: a refused one changes nothing, a planned one
        has the effect of `Applied`, and the index and the generation move only
        with a commit. */
    method SetStatus(t: Transition, now: string, fails: Faults) returns (outcome: Outcome)
      requires NamesMatch(files)
      modifies this
      ensures Takes(old(files), t, now, fails, outcome, files)
      ensures outcome.Done? ==>
                t.id in old(files) && old(files)[t.id].Parsed? && old(files)[t.id].note.revision == t.expectedRevision
      ensures index == if outcome.Done? then IndexAfter(old(index), outcome.updates) else old(index)
      ensures generation == old(generation) + if outcome.Done? then 1 else 0
      ensures WellFormedGraph(old(files)) && AllOrNothing(old(files), t, now, outcome, files) ==> WellFormedGraph(files)
    {
      var plan := UpdatedNotes(files, t, now);
      if plan.Refuse? {
        return Refused(plan.error);
      }
      UpdatesNameThemselves(files, t, now);
      if WellFormedGraph(files) {
        TransitionKeepsGraph(files, t, now);
      }
      outcome := Apply(plan.updates, fails);
    }
  }

  /** The parser refuses a note whose id is not its file name. */
  ghost predicate NamesMatch(files: Files)
  {
    forall id :: Usable(files, id) ==> NoteAt(files, id).id == id
  }

  lemma UpdatesNameThemselves(files: Files, t: Transition, now: string)
    requires NamesMatch(files) && PlanOf(files, t, now).Proceed?
    ensures var updates := PlanOf(files, t, now).updates;
            UpdatesUsable(updates, files) && forall id :: id in updates ==> updates[id].id == id
  {
    var updates := PlanOf(files, t, now).updates;
    forall id | id in updates ensures id in files && updates[id].id == id {
      assert Usable(files, id);
    }
  }

  lemma MarkedStages(files: Files, staged: seq<Stage>, updates: Updates, n: nat)
    requires StagedFrom(files, staged) && StagesCarry(staged, updates)
    ensures StagedFrom(files, Marked(staged, n)) && StagesCarry(Marked(staged, n), updates)
    ensures forall id :: StagedId(Marked(staged, n), |staged|, id) <==> StagedId(staged, |staged|, id)
    ensures forall fails :: IndexSucceeds(fails, Marked(staged, n)) <==> IndexSucceeds(fails, staged)
  {
    var marked := Marked(staged, n);
    forall id ensures StagedId(marked, |staged|, id) <==> StagedId(staged, |staged|, id) {
      if StagedId(staged, |staged|, id) {
        var i :| 0 <= i < |staged| && staged[i].id == id;
        assert marked[i].id == id;
      }
    }
    assert forall i :: 0 <= i < |staged| ==> marked[i].id == staged[i].id;
  }

  /** One stage changes, and its file with it. */
  lemma HoldsOneChange(files: Files, before: Files, stages: seq<Stage>, i: nat, published: bool)
    requires i < |stages| && DistinctStages(stages) && Holds(files, before, stages)
    ensures Holds(files[stages[i].id := if published then Parsed(stages[i].content) else before[stages[i].id]],
                  before, stages[i := stages[i].(published := published)])
  {
    var changed := stages[i := stages[i].(published := published)];
    forall id ensures StagedId(changed, |changed|, id) <==> StagedId(stages, |stages|, id) {
      if StagedId(stages, |stages|, id) {
        var j :| 0 <= j < |stages| && stages[j].id == id;
        assert changed[j].id == id;
      }
    }
  }

  lemma MarkOne(files: Files, before: Files, staged: seq<Stage>, i: nat)
    requires i < |staged| && DistinctStages(staged) && Holds(files, before, Marked(staged, i))
    ensures Marked(staged, i + 1) == Marked(staged, i)[i := Marked(staged, i)[i].(published := true)]
    ensures Holds(files[staged[i].id := Parsed(staged[i].content)], before, Marked(staged, i + 1))
  {
    HoldsOneChange(files, before, Marked(staged, i), i, true);
    assert Marked(staged, i + 1) == Marked(staged, i)[i := Marked(staged, i)[i].(published := true)];
  }

  lemma NothingSettled(stages: seq<Stage>, fails: Faults)
    ensures Settled(stages, |stages|, fails) == stages
    ensures NamesFrom(stages, fails, |stages|, [])
  {
    var same := Settled(stages, |stages|, fails);
    forall j | 0 <= j < |stages| ensures same[j] == stages[j] {
      assert same[j] == stages[j].(published := stages[j].published);
    }
  }

  lemma SettleOne(files: Files, before: Files, stages: seq<Stage>, i: nat, fails: Faults)
    requires i < |stages| && StagedFrom(before, stages) && Holds(files, before, Settled(stages, i + 1, fails))
    ensures var restored := stages[i].published && !fails(RestoreFile(stages[i].id));
            Holds(if restored then files[stages[i].id := stages[i].original] else files, before, Settled(stages, i, fails))
  {
    var earlier, later := Settled(stages, i + 1, fails), Settled(stages, i, fails);
    if stages[i].published && !fails(RestoreFile(stages[i].id)) {
      HoldsOneChange(files, before, earlier, i, false);
      assert later == earlier[i := earlier[i].(published := false)];
    } else {
      assert later == earlier;
    }
  }

  lemma NothingPublished(files: Files, before: Files, stages: seq<Stage>, fails: Faults)
    requires forall i :: 0 <= i < |stages| ==> !stages[i].published
    requires Holds(files, before, stages) || Holds(files, before, Settled(stages, 0, fails))
    ensures files == before
  {
  }

  /** With no failure on the way every note is published. */
  lemma EveryNotePublishes(fails: Faults, updates: Updates)
    requires NoFault(fails, updates)
    ensures Part(updates, Published(fails, updates)) == updates
  {
  }

  lemma SettledMeans(files: Files, before: Files, stages: seq<Stage>, updates: Updates, fails: Faults, outcome: Outcome)
    requires DistinctStages(stages) && StagesCarry(stages, updates) && PublishedIds(stages) == Published(fails, updates)
    requires Staged(fails, updates) && !fails(Connect) && !NoFault(fails, updates)
    requires outcome == RollbackRaised <==> fails(RollBackTransaction)
    requires outcome == RollbackRaised ==> Holds(files, before, stages)
    requires outcome != RollbackRaised ==> Holds(files, before, Settled(stages, 0, fails))
    requires AnswersRestore(stages, fails, outcome)
    ensures Applied(before, updates, fails, outcome, files)
  {
    var left := if outcome == RollbackRaised then stages else Settled(stages, 0, fails);
    HoldsMeans(files, before, left, updates);
    LeftMeans(stages, left, updates, fails);
    ReportMeans(stages, updates, fails);
  }

  lemma LeftMeans(stages: seq<Stage>, left: seq<Stage>, updates: Updates, fails: Faults)
    requires PublishedIds(stages) == Published(fails, updates) && DistinctStages(stages)
    requires left == if fails(RollBackTransaction) then stages else Settled(stages, 0, fails)
    ensures PublishedIds(left) == LeftChanged(fails, updates)
  {
    forall id ensures id in PublishedIds(left) <==> id in LeftChanged(fails, updates) {
      if id in LeftChanged(fails, updates) {
        var i :| 0 <= i < |stages| && stages[i].published && stages[i].id == id;
        assert left[i].published && left[i].id == id;
      }
      if id in PublishedIds(left) {
        var i :| 0 <= i < |left| && left[i].published && left[i].id == id;
        assert stages[i].published && stages[i].id == id;
      }
    }
  }

  lemma ReportMeans(stages: seq<Stage>, updates: Updates, fails: Faults)
    requires PublishedIds(stages) == Published(fails, updates) && DistinctStages(stages)
    ensures forall id :: Reported(fails, updates, id) <==> ReportedFrom(stages, fails, 0, id)
  {
    forall id | Reported(fails, updates, id) ensures ReportedFrom(stages, fails, 0, id) {
      var i :| 0 <= i < |stages| && stages[i].published && stages[i].id == id;
      assert ReportedAt(fails, stages, i);
    }
    forall i | 0 <= i < |stages| ensures ReportedAt(fails, stages, i) ==> stages[i].id in PublishedIds(stages) {
    }
  }

  // ---------------------------------------------------------------------------
  // When a transition is all or nothing
  // ---------------------------------------------------------------------------

  /** The transition happened with all its notes, or no file changed. */
  ghost predicate AllOrNothing(before: Files, t: Transition, now: string, outcome: Outcome, after: Files)
  {
    if outcome.Done? then PlanOf(before, t, now) == Proceed(outcome.updates) && after == After(before, outcome.updates)
    else after == before
  }

  /** Every planned note differs from the one it replaces. */
  lemma PlannedDiffer(files: Files, t: Transition, now: string, id: string)
    requires PlanOf(files, t, now).Proceed? && id in PlanOf(files, t, now).updates
    ensures id in files && files[id] != Parsed(PlanOf(files, t, now).updates[id])
  {
  }

  /** Under any faults a planned transition is all or nothing if and only if no
      fault occurs or no published note is left changed: the rollback of the
      transaction raises after something was published, or a restore write fails. */
  lemma AllOrNothingIff(files: Files, t: Transition, now: string, fails: Faults, outcome: Outcome, after: Files)
    requires PlanOf(files, t, now).Proceed? && Applied(files, PlanOf(files, t, now).updates, fails, outcome, after)
    ensures AllOrNothing(files, t, now, outcome, after) <==>
            NoFault(fails, PlanOf(files, t, now).updates) || LeftChanged(fails, PlanOf(files, t, now).updates) == {}
  {
    var updates := PlanOf(files, t, now).updates;
    var left := LeftChanged(fails, updates);
    if left == {} {
      assert Part(updates, left) == map[];
    } else {
      var id :| id in left;
      PlannedDiffer(files, t, now, id);
      assert After(files, Part(updates, left))[id] == Parsed(updates[id]);
    }
  }

  /** A failing commit whose rollback raises leaves every planned note changed. */
  lemma CommitCanStrand(updates: Updates)
    ensures var fails: Faults := step => step == Commit || step == RollBackTransaction;
            !NoFault(fails, updates) && LeftChanged(fails, updates) == updates.Keys
  {
  }

  lemma CoversUpdates(ids: seq<string>, stages: seq<Stage>, updates: Updates)
    requires forall id :: id in ids <==> id in updates
    requires |stages| == |ids| && forall i :: 0 <= i < |ids| ==> stages[i].id == ids[i]
    ensures forall id :: id in updates <==> StagedId(stages, |stages|, id)
  {
    forall id | id in updates ensures StagedId(stages, |stages|, id) {
      var i :| 0 <= i < |ids| && ids[i] == id;
      assert stages[i].id == id;
    }
    forall i | 0 <= i < |stages| ensures stages[i].id in updates {
      assert ids[i] in ids;
    }
  }
}
