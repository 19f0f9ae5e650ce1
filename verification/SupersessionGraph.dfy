/** The supersession graph over whole runs of status transitions. */
module SupersessionGraph {
  import opened Collections
  import opened Values
  import opened NoteLifecycle

  ghost predicate Usable(files: Files, id: string)
  {
    FindNote(files, id).Got?
  }

  ghost function NoteAt(files: Files, id: string): Note
    requires Usable(files, id)
  {
    FindNote(files, id).note
  }

  /** Status and pointer agree. */
  ghost predicate StatusMatchesPointer(files: Files)
  {
    forall a :: Usable(files, a) ==> (NoteAt(files, a).status == "superseded" <==> NoteAt(files, a).supersededBy.Some?)
  }

  /** A pointer leads to a usable note that lists its origin. */
  ghost predicate PointersAreMutual(files: Files)
  {
    forall a :: Usable(files, a) && NoteAt(files, a).supersededBy.Some? ==>
      var b := NoteAt(files, a).supersededBy.value;
      Usable(files, b) && a in NoteAt(files, b).supersedes
  }

  ghost predicate Acyclic(files: Files)
  {
    forall a, k: nat :: k > 0 ==> Follow(files, a, k) != Some(a)
  }

  ghost predicate WellFormedGraph(files: Files)
  {
    && (forall a :: Usable(files, a) ==> NoteAt(files, a).id == a)
    && StatusMatchesPointer(files)
    && PointersAreMutual(files)
    && Acyclic(files)
  }

  /** The store once the planned notes are published. */
  ghost function After(files: Files, updates: Updates): Files
  {
    files + map id | id in updates :: Parsed(updates[id])
  }

  // ---------------------------------------------------------------------------
  // One transition
  // ---------------------------------------------------------------------------

  lemma NoSelfPointer(files: Files, a: string)
    requires Acyclic(files)
    ensures Pointer(files, a) != Some(a)
  {
    assert Follow(files, a, 0) == Some(a);
    assert Follow(files, a, 1) == Pointer(files, a);
  }

  /** In a well-formed store a verified note points nowhere, so the walk from a
      replacement stops at once: the bound on the walk never matters. */
  lemma VerifiedIsSink(files: Files, r: string, id: string, n: nat)
    requires StatusMatchesPointer(files) && Usable(files, r) && NoteAt(files, r).status == "verified" && r != id
    ensures Pointer(files, r).None?
    ensures !ReachedWithin(files, r, id, n)
  {
    assert Follow(files, r, 0) == Some(r);
    assert Follow(files, r, 1).None?;
    forall k | 0 <= k < n ensures Follow(files, r, k) != Some(id) {
      if k >= 1 {
        FollowStays(files, r, 1, k);
      }
    }
  }

  /** The cycle guard never fires on a well-formed store. */
  lemma CycleGuardNeverFires(files: Files, t: Transition, now: string)
    requires WellFormedGraph(files)
    ensures PlanOf(files, t, now) != Refuse(SupersessionCycle)
  {
    if ValidRequest(t) && t.replacement.Some? && Usable(files, t.replacement.value)
       && NoteAt(files, t.replacement.value).status == "verified" {
      VerifiedIsSink(files, t.replacement.value, t.id, MAX_SUPERSESSION_WALK);
    }
    FindErrorIsNotCycle(files, t.id);
    if t.replacement.Some? {
      FindErrorIsNotCycle(files, t.replacement.value);
    }
    if Usable(files, t.id) && NoteAt(files, t.id).supersededBy.Some? {
      FindErrorIsNotCycle(files, NoteAt(files, t.id).supersededBy.value);
    }
  }

  lemma FindErrorIsNotCycle(files: Files, id: string)
    ensures FindNote(files, id) != Missed(SupersessionCycle)
  {
  }

  /** The premises under which a transition is planned. */
  ghost predicate Proceeds(files: Files, t: Transition, now: string)
  {
    WellFormedGraph(files) && PlanOf(files, t, now).Proceed?
  }

  /** What the planned updates say, note by note. */
  lemma PlannedNotes(files: Files, t: Transition, now: string)
    requires Proceeds(files, t, now)
    ensures ValidRequest(t) && Usable(files, t.id)
    ensures var updates := PlanOf(files, t, now).updates;
            var primary := NoteAt(files, t.id);
            && updates.Keys <= files.Keys
            && t.id in updates && updates[t.id] == PrimaryAfter(primary, t, now)
            && (forall id :: id in updates && id != t.id ==>
                  && Usable(files, id)
                  && (if t.replacement == Some(id) then updates[id] == Linked(NoteAt(files, id), t.id, now)
                      else primary.supersededBy == Some(id) && updates[id] == Unlinked(NoteAt(files, id), t.id, now)))
    ensures t.replacement.Some? ==>
              && Usable(files, t.replacement.value)
              && NoteAt(files, t.replacement.value).status == "verified"
              && (t.replacement.value !in PlanOf(files, t, now).updates ==> t.id in NoteAt(files, t.replacement.value).supersedes)
  {
    NoSelfPointer(files, t.id);
  }

  lemma UsableAfter(files: Files, t: Transition, now: string, a: string)
    requires Proceeds(files, t, now)
    ensures Usable(After(files, PlanOf(files, t, now).updates), a) <==> Usable(files, a)
    ensures Usable(files, a) ==>
              NoteAt(After(files, PlanOf(files, t, now).updates), a)
              == if a in PlanOf(files, t, now).updates then PlanOf(files, t, now).updates[a] else NoteAt(files, a)
  {
    PlannedNotes(files, t, now);
  }

  /** The fields of the graph after a transition, note by note. */
  lemma GraphAfter(files: Files, t: Transition, now: string, a: string)
    requires Proceeds(files, t, now) && Usable(files, a)
    ensures ValidRequest(t)
    ensures var after := NoteAt(After(files, PlanOf(files, t, now).updates), a);
            && after.id == a
            && (a == t.id ==> after.status == t.newStatus && after.supersededBy == t.replacement)
            && (a != t.id ==> after.status == NoteAt(files, a).status && after.supersededBy == NoteAt(files, a).supersededBy)
            && (forall x :: x != t.id && x in NoteAt(files, a).supersedes ==> x in after.supersedes)
            && (t.replacement == Some(a) ==> t.id in after.supersedes)
    ensures Usable(After(files, PlanOf(files, t, now).updates), a)
  {
    PlannedNotes(files, t, now);
    UsableAfter(files, t, now, a);
  }

  lemma PointerAfter(files: Files, t: Transition, now: string, a: string)
    requires Proceeds(files, t, now)
    ensures Pointer(After(files, PlanOf(files, t, now).updates), a) == if a == t.id then t.replacement else Pointer(files, a)
  {
    PlannedNotes(files, t, now);
    UsableAfter(files, t, now, a);
    if Usable(files, a) {
      GraphAfter(files, t, now, a);
    }
  }

  /** Along new pointers one meets what the old pointers met, or the verified
      replacement, where the chain ends. */
  lemma {:induction false} FollowAfter(files: Files, t: Transition, now: string, a: string, k: nat)
    requires Proceeds(files, t, now)
    ensures var after := After(files, PlanOf(files, t, now).updates);
            Follow(after, a, k).Some? ==> Follow(after, a, k) == Follow(files, a, k) || Follow(after, a, k) == t.replacement
  {
    if k == 0 {
    } else {
      FollowAfter(files, t, now, a, k - 1);
      var after := After(files, PlanOf(files, t, now).updates);
      if Follow(after, a, k - 1).Some? {
        var x := Follow(after, a, k - 1).value;
        PointerAfter(files, t, now, x);
        if t.replacement == Some(x) {
          PlannedNotes(files, t, now);
          VerifiedIsSink(files, x, t.id, 0);
        }
      }
    }
  }

  lemma AcyclicAfter(files: Files, t: Transition, now: string)
    requires Proceeds(files, t, now)
    ensures Acyclic(After(files, PlanOf(files, t, now).updates))
  {
    var after := After(files, PlanOf(files, t, now).updates);
    forall a, k: nat | k > 0 ensures Follow(after, a, k) != Some(a) {
      FollowAfter(files, t, now, a, k);
      if t.replacement == Some(a) {
        PlannedNotes(files, t, now);
        VerifiedIsSink(files, a, t.id, 0);
        PointerAfter(files, t, now, a);
        assert Follow(after, a, 0) == Some(a);
        assert Follow(after, a, 1).None?;
        FollowStays(after, a, 1, k);
      }
    }
  }

  /** A planned transition keeps the graph well-formed. */
  lemma TransitionKeepsGraph(files: Files, t: Transition, now: string)
    requires Proceeds(files, t, now)
    ensures WellFormedGraph(After(files, PlanOf(files, t, now).updates))
  {
    var after := After(files, PlanOf(files, t, now).updates);
    AcyclicAfter(files, t, now);
    PlannedNotes(files, t, now);
    forall a | Usable(after, a)
      ensures NoteAt(after, a).id == a
      ensures NoteAt(after, a).status == "superseded" <==> NoteAt(after, a).supersededBy.Some?
    {
      UsableAfter(files, t, now, a);
      GraphAfter(files, t, now, a);
    }
    forall a | Usable(after, a) && NoteAt(after, a).supersededBy.Some?
      ensures var b := NoteAt(after, a).supersededBy.value; Usable(after, b) && a in NoteAt(after, b).supersedes
    {
      UsableAfter(files, t, now, a);
      GraphAfter(files, t, now, a);
      var b := NoteAt(after, a).supersededBy.value;
      UsableAfter(files, t, now, b);
      GraphAfter(files, t, now, b);
    }
  }

  /** Every touched note gains exactly one revision and the transition time, and
      no note but the primary changes status or pointer. */
  lemma TouchedNotes(files: Files, t: Transition, now: string, id: string)
    requires Proceeds(files, t, now) && id in PlanOf(files, t, now).updates
    ensures Usable(files, id)
    ensures var before, after := NoteAt(files, id), PlanOf(files, t, now).updates[id];
            && after.revision == before.revision + 1 && after.updatedAt == now
            && after.text == before.text && after.id == before.id
            && (id != t.id ==> after.status == before.status && after.supersededBy == before.supersededBy
                               && after.verifiedAt == before.verifiedAt)
            && Refreshed(after) == after
    ensures |PlanOf(files, t, now).updates| <= 3
  {
    PlannedNotes(files, t, now);
    var updates := PlanOf(files, t, now).updates;
    RefreshIsStable(updates[id], updates[id]);
    var before := NoteAt(files, id);
    var plain := before.(status := t.newStatus, supersededBy := t.replacement, revision := before.revision + 1, updatedAt := now,
                         verifiedAt := if t.newStatus == "verified" then Some(now) else before.verifiedAt);
    var unlinked := before.(supersedes := Without(before.supersedes, t.id), revision := before.revision + 1, updatedAt := now);
    var linked := before.(supersedes := before.supersedes + [t.id], revision := before.revision + 1, updatedAt := now);
    RefreshIsStable(plain, plain);
    RefreshIsStable(unlinked, unlinked);
    RefreshIsStable(linked, linked);
    AtMostThree(updates, t.id, NoteAt(files, t.id).supersededBy, t.replacement);
  }

  lemma AtMostThree(updates: Updates, id: string, former: Option<string>, next: Option<string>)
    requires forall x :: x in updates ==> x == id || former == Some(x) || next == Some(x)
    ensures |updates| <= 3
  {
    var bound := {id} + (if former.Some? then {former.value} else {}) + (if next.Some? then {next.value} else {});
    assert updates.Keys <= bound;
    assert |bound| <= 3;
    SubsetIsSmaller(updates.Keys, bound);
    assert |updates| == |updates.Keys|;
  }

  // ---------------------------------------------------------------------------
  // Runs
  // ---------------------------------------------------------------------------

  datatype Operation = Change(t: Transition, now: string) | Record(note: Note)

  /** A new note has a fresh id and is born outside the graph. */
  ghost predicate WellBorn(files: Files, op: Operation)
  {
    op.Record? ==>
      CanonicalId(op.note.id) && op.note.id !in files && op.note.supersededBy.None? && op.note.status != "superseded"
  }

  /** A refused or failed transition leaves the files as they were. */
  ghost predicate Steps(files: Files, op: Operation, files': Files)
  {
    match op
    case Change(t, now) =>
      files' == files || (PlanOf(files, t, now).Proceed? && files' == After(files, PlanOf(files, t, now).updates))
    case Record(note) => files' == files[note.id := Parsed(note)]
  }

  ghost predicate IsRun(states: seq<Files>, ops: seq<Operation>)
  {
    && |states| == |ops| + 1
    && (forall i :: 0 <= i < |ops| ==> WellBorn(states[i], ops[i]) && Steps(states[i], ops[i], states[i + 1]))
  }

  lemma {:induction false} FollowUnchanged(files: Files, note: Note, a: string, k: nat)
    requires WellFormedGraph(files) && note.id !in files && CanonicalId(note.id) && note.supersededBy.None?
    ensures Follow(files[note.id := Parsed(note)], a, k) == Follow(files, a, k)
  {
    if k == 0 {
    } else {
      FollowUnchanged(files, note, a, k - 1);
    }
  }

  lemma RecordKeepsGraph(files: Files, note: Note)
    requires WellFormedGraph(files) && WellBorn(files, Record(note))
    ensures WellFormedGraph(files[note.id := Parsed(note)])
  {
    var after := files[note.id := Parsed(note)];
    forall a ensures Usable(after, a) <==> Usable(files, a) || a == note.id
      ensures a != note.id && Usable(files, a) ==> NoteAt(after, a) == NoteAt(files, a)
    {
    }
    assert NoteAt(after, note.id) == note;
    forall a, k: nat | k > 0 ensures Follow(after, a, k) != Some(a) {
      FollowUnchanged(files, note, a, k);
    }
  }

  /** Over every run of transitions (successful, refused or failed) and new
      notes: a note is superseded exactly when it has a pointer, every pointer
      leads to an existing note that lists its origin, and no chain of pointers
      returns to its start. */
  lemma {:induction false} RunKeepsGraph(states: seq<Files>, ops: seq<Operation>, n: nat)
    requires IsRun(states, ops) && WellFormedGraph(states[0]) && n <= |ops|
    ensures WellFormedGraph(states[n])
  {
    if n == 0 {
    } else {
      RunKeepsGraph(states, ops, n - 1);
      var files, op := states[n - 1], ops[n - 1];
      assert Steps(files, op, states[n - 1 + 1]);
      match op {
        case Change(t, now) =>
          if states[n] != files {
            TransitionKeepsGraph(files, t, now);
          }
        case Record(note) => RecordKeepsGraph(files, note);
      }
    }
  }
}
