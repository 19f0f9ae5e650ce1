/** What a status transition asks for and what it writes, field by field, and the
    compare-and-swap over whole runs. */
module LifecycleRuns {
  import opened Whitespace
  import opened Values
  import opened NoteLifecycle
  import opened SupersessionGraph
  import opened LifecycleStore

  // ---------------------------------------------------------------------------
  // Requests
  // ---------------------------------------------------------------------------

  /** `mem-` before twelve lower-case hexadecimal digits. */
  ghost predicate IsNoteId(id: string)
  {
    exists digits :: IsHexOfTwelve(digits) && id == "mem-" + digits
  }

  predicate IsHexOfTwelve(digits: string)
  {
    |digits| == 12 && forall c :: c in digits ==> c in "0123456789abcdef"
  }

  /** Somewhere in the text is more than space. */
  predicate SaysSomething(text: string)
  {
    exists i :: 0 <= i < |text| && !IsSpace(text[i])
  }

  ghost predicate SoundRequest(t: Transition)
  {
    && IsNoteId(t.id) && SaysSomething(t.reason)
    && (t.newStatus == "superseded" ==> t.replacement.Some? && IsNoteId(t.replacement.value) && t.replacement.value != t.id)
    && (t.newStatus != "superseded" ==>
          t.replacement.None? && t.newStatus in {"candidate", "verified", "invalidated", "archived"})
  }

  lemma NoteIdsAreCanonical(id: string)
    ensures IsNoteId(id) <==> CanonicalId(id)
  {
    assert forall c :: c in "0123456789abcdef" <==> IsHex(c);
    if CanonicalId(id) {
      assert id == "mem-" + id[4..];
      assert IsHexOfTwelve(id[4..]);
    }
    if digits :| IsHexOfTwelve(digits) && id == "mem-" + digits {
      assert forall i :: 4 <= i < 16 ==> id[i] == digits[i - 4];
    }
  }

  lemma SoundIsValid(t: Transition)
    ensures SoundRequest(t) <==> ValidRequest(t)
  {
    NoteIdsAreCanonical(t.id);
    if t.replacement.Some? {
      NoteIdsAreCanonical(t.replacement.value);
    }
  }

  /** The store holds this readable note under a note id. */
  ghost predicate Holding(files: Files, id: string, note: Note)
  {
    IsNoteId(id) && id in files && files[id] == Parsed(note)
  }

  lemma HoldingIsFound(files: Files, id: string, note: Note)
    ensures Holding(files, id, note) <==> FindNote(files, id) == Got(note)
  {
    NoteIdsAreCanonical(id);
  }

  ghost predicate IsHeld(files: Files, id: string)
  {
    exists note :: Holding(files, id, note)
  }

  /** The compare-and-swap: a sound request for a note of another revision is
      refused with that revision, and what is planned compared equal. */
  lemma ComparesRevision(files: Files, t: Transition, now: string, note: Note)
    requires Holding(files, t.id, note)
    ensures SoundRequest(t) && note.revision != t.expectedRevision ==>
              PlanOf(files, t, now) == Refuse(RevisionConflict(note.revision))
    ensures PlanOf(files, t, now).Proceed? ==> note.revision == t.expectedRevision
  {
    HoldingIsFound(files, t.id, note);
    SoundIsValid(t);
  }

  /** When a transition is planned. */
  lemma PlannedIff(files: Files, t: Transition, now: string)
    requires WellFormedGraph(files)
    ensures PlanOf(files, t, now).Proceed? <==>
            && SoundRequest(t)
            && (exists note :: Holding(files, t.id, note) && note.revision == t.expectedRevision)
            && (t.replacement.Some? ==>
                  exists next :: Holding(files, t.replacement.value, next) && next.status == "verified")
  {
    SoundIsValid(t);
    forall id, note ensures Holding(files, id, note) <==> FindNote(files, id) == Got(note) {
      HoldingIsFound(files, id, note);
    }
    if Usable(files, t.id) && NoteAt(files, t.id).supersededBy.Some? {
      assert Usable(files, NoteAt(files, t.id).supersededBy.value);
    }
    if t.replacement.Some? && Usable(files, t.replacement.value) {
      assert Holding(files, t.replacement.value, NoteAt(files, t.replacement.value));
      if NoteAt(files, t.replacement.value).status == "verified" && t.replacement.value != t.id {
        VerifiedIsSink(files, t.replacement.value, t.id, MAX_SUPERSESSION_WALK);
      }
    }
  }

  // ---------------------------------------------------------------------------
  // What is written
  // ---------------------------------------------------------------------------

  /** The same external references, and last one that commits to the note. */
  ghost predicate Committed(before: Note, after: Note)
  {
    var n := |after.evidenceRefs| - 1;
    && n >= 0 && after.evidenceRefs[n].ContentRef?
    && (forall e: EvidenceRef :: e.External? ==> (e in before.evidenceRefs <==> e in after.evidenceRefs))
    && (forall i :: 0 <= i < n ==> after.evidenceRefs[i].External?)
    && var covered := after.evidenceRefs[n].digest.preimage;
       covered.status == after.status && covered.supersedes == after.supersedes && covered.supersededBy == after.supersededBy
       && covered.text == after.text && |covered.evidence| == n
       && forall i :: 0 <= i < n ==> covered.evidence[i] == after.evidenceRefs[i].text
  }

  ghost predicate PrimaryWritten(before: Note, t: Transition, now: string, after: Note)
  {
    && after.id == before.id && after.text == before.text && after.supersedes == before.supersedes
    && after.status == t.newStatus && after.supersededBy == t.replacement
    && after.revision == t.expectedRevision + 1 && after.updatedAt == now
    && (t.newStatus == "verified" ==> after.verifiedAt == Some(now))
    && (t.newStatus != "verified" ==> after.verifiedAt == before.verifiedAt)
    && Committed(before, after)
  }

  /** Another note changes only in what it lists. */
  ghost predicate LinkWritten(before: Note, now: string, after: Note)
  {
    && after.id == before.id && after.text == before.text && after.status == before.status
    && after.supersededBy == before.supersededBy && after.verifiedAt == before.verifiedAt
    && after.revision == before.revision + 1 && after.updatedAt == now && Committed(before, after)
  }

  lemma {:induction false} ExternalMembers(refs: seq<EvidenceRef>)
    ensures forall e :: e in ExternalRefs(refs) <==> e in refs && e.External?
  {
    if |refs| > 0 {
      ExternalMembers(refs[1..]);
    }
  }

  lemma RefreshCommits(n: Note)
    ensures Committed(n, Refreshed(n))
  {
    var refs, after := ExternalRefs(n.evidenceRefs), Refreshed(n).evidenceRefs;
    ExternalMembers(n.evidenceRefs);
    assert after[|refs|] == ContentRef(Sha256(PayloadOf(n)));
    forall i | 0 <= i < |refs| ensures after[i] == refs[i] && refs[i] in refs {
    }
  }

  /** The whole plan of a transition: the primary, its former replacement unless it
      stays the replacement, and the new one unless it lists the note already. */
  lemma TransitionWrites(files: Files, t: Transition, now: string, primary: Note)
    requires WellFormedGraph(files) && PlanOf(files, t, now).Proceed? && Holding(files, t.id, primary)
    ensures var updates, former := PlanOf(files, t, now).updates, primary.supersededBy;
            && t.id in updates && PrimaryWritten(primary, t, now, updates[t.id])
            && (forall id, before :: id != t.id && Holding(files, id, before) ==>
                  if t.replacement == Some(id) then
                    if t.id in before.supersedes then id !in updates
                    else id in updates && LinkWritten(before, now, updates[id]) && updates[id].supersedes == before.supersedes + [t.id]
                  else if former == Some(id) then
                    id in updates && LinkWritten(before, now, updates[id])
                    && forall x :: x in updates[id].supersedes <==> x in before.supersedes && x != t.id
                  else id !in updates)
            && (forall id :: id in updates ==> IsHeld(files, id))
  {
    HoldingIsFound(files, t.id, primary);
    NoSelfPointer(files, t.id);
    PlannedNotes(files, t, now);
    var updates := PlanOf(files, t, now).updates;
    RefreshCommits(primary.(status := t.newStatus, supersededBy := t.replacement, revision := primary.revision + 1,
                            updatedAt := now, verifiedAt := if t.newStatus == "verified" then Some(now) else primary.verifiedAt));
    forall id, before | id != t.id && Holding(files, id, before)
      ensures if t.replacement == Some(id) then
                if t.id in before.supersedes then id !in updates
                else id in updates && LinkWritten(before, now, updates[id]) && updates[id].supersedes == before.supersedes + [t.id]
              else if primary.supersededBy == Some(id) then
                id in updates && LinkWritten(before, now, updates[id])
                && forall x :: x in updates[id].supersedes <==> x in before.supersedes && x != t.id
              else id !in updates
    {
      HoldingIsFound(files, id, before);
      LinksCommit(before, t.id, now);
    }
    forall id | id in updates ensures IsHeld(files, id) {
      HoldingIsFound(files, id, NoteAt(files, id));
    }
  }

  lemma LinksCommit(before: Note, id: string, now: string)
    ensures LinkWritten(before, now, Linked(before, id, now)) && LinkWritten(before, now, Unlinked(before, id, now))
  {
    RefreshCommits(before.(supersedes := before.supersedes + [id], revision := before.revision + 1, updatedAt := now));
    RefreshCommits(before.(supersedes := Without(before.supersedes, id), revision := before.revision + 1, updatedAt := now));
  }

  /** A committed plan in the files and in the index, id by id. */
  lemma CommittedRows(files: Files, index: Index, updates: Updates, id: string)
    ensures id in updates ==>
              && id in After(files, updates) && After(files, updates)[id] == Parsed(updates[id])
              && id in IndexAfter(index, updates)
              && var row := IndexAfter(index, updates)[id];
                 row.id == updates[id].id && row.status == updates[id].status && row.text == updates[id].text
                 && row.content.preimage == updates[id]
    ensures id !in updates ==>
              && (id in After(files, updates) <==> id in files) && (id in IndexAfter(index, updates) <==> id in index)
              && (id in files ==> After(files, updates)[id] == files[id])
              && (id in index ==> IndexAfter(index, updates)[id] == index[id])
  {
  }

  /** A sound call that expects another revision is refused with the one found. */
  lemma StaleIsRefused(files: Files, t: Transition, now: string, note: Note, fails: Faults, outcome: Outcome, after: Files)
    requires Takes(files, t, now, fails, outcome, after)
    requires SoundRequest(t) && Holding(files, t.id, note) && note.revision != t.expectedRevision
    ensures outcome == Refused(RevisionConflict(note.revision)) && after == files
  {
    ComparesRevision(files, t, now, note);
  }

  // ---------------------------------------------------------------------------
  // Runs
  // ---------------------------------------------------------------------------

  /** A status call under some faults, or a new note. */
  datatype Call = Change(t: Transition, now: string, fails: Faults, outcome: Outcome) | Record(note: Note)

  ghost predicate Happens(files: Files, call: Call, after: Files)
  {
    match call
    case Change(t, now, fails, outcome) => Takes(files, t, now, fails, outcome, after)
    case Record(note) => note.id !in files && after == files[note.id := Parsed(note)]
  }

  ghost predicate IsHistory(states: seq<Files>, calls: seq<Call>)
  {
    |states| == |calls| + 1 && forall i :: 0 <= i < |calls| ==> Happens(states[i], calls[i], states[i + 1])
  }

  /** A failure before the first replacement leaves every file as it was; the
      transaction is rolled back only once there is a connection. */
  lemma EarlyFailure(files: Files, updates: Updates, fails: Faults, outcome: Outcome, after: Files)
    requires Applied(files, updates, fails, outcome, after)
    requires fails(Step.Connect) || fails(Step.Begin) || exists id :: id in updates && fails(StageFile(id))
    ensures after == files && (outcome == Restored || outcome == RollbackRaised)
    ensures fails(Step.Connect) || (exists id :: id in updates && fails(StageFile(id))) ==> outcome == Restored
  {
    assert Part(updates, {}) == map[];
    assert LeftChanged(fails, updates) == {};
    if outcome.RollbackFailed? {
      SomeId(outcome.ids);
    }
  }

  lemma SomeId(ids: seq<string>)
    requires ids != []
    ensures exists id :: id in ids
  {
    assert ids[0] in ids;
  }

  /** Every planned note has a later revision than the one it replaces. */
  lemma PlannedGrows(files: Files, t: Transition, now: string, id: string)
    requires PlanOf(files, t, now).Proceed? && id in PlanOf(files, t, now).updates
    ensures id in files && files[id].Parsed? && PlanOf(files, t, now).updates[id].revision > files[id].note.revision
  {
  }

  /** No call takes a revision back, whatever fails. */
  lemma RevisionsGrow(files: Files, call: Call, after: Files, id: string)
    requires Happens(files, call, after) && id in files && files[id].Parsed?
    ensures id in after && after[id].Parsed? && after[id].note.revision >= files[id].note.revision
  {
    if call.Change? && PlanOf(files, call.t, call.now).Proceed? {
      var updates := PlanOf(files, call.t, call.now).updates;
      if id in updates {
        PlannedGrows(files, call.t, call.now, id);
      }
    }
  }

  lemma {:induction false} RevisionsGrowOver(states: seq<Files>, calls: seq<Call>, i: nat, j: nat, id: string)
    requires IsHistory(states, calls) && i <= j < |states| && id in states[i] && states[i][id].Parsed?
    ensures id in states[j] && states[j][id].Parsed? && states[j][id].note.revision >= states[i][id].note.revision
  {
    if i < j {
      RevisionsGrowOver(states, calls, i, j - 1, id);
      RevisionsGrow(states[j - 1], calls[j - 1], states[j - 1 + 1], id);
    }
  }

  /** A call that is done found the revision it expected and left a later one. */
  lemma DoneSwaps(files: Files, t: Transition, now: string, fails: Faults, outcome: Outcome, after: Files)
    requires Takes(files, t, now, fails, outcome, after) && outcome.Done?
    ensures t.id in files && files[t.id].Parsed? && files[t.id].note.revision == t.expectedRevision
    ensures t.id in after && after[t.id].Parsed? && after[t.id].note.revision > t.expectedRevision
  {
    PlannedGrows(files, t, now, t.id);
  }

  /** Over every history of status calls, with any faults, and new notes: of two
      calls that expect the same revision of the same note at most one is done. */
  lemma AtMostOneDone(states: seq<Files>, calls: seq<Call>, i: nat, j: nat)
    requires IsHistory(states, calls) && i < j < |calls| && calls[i].Change? && calls[j].Change?
    requires calls[i].t.id == calls[j].t.id && calls[i].t.expectedRevision == calls[j].t.expectedRevision
    ensures !(calls[i].outcome.Done? && calls[j].outcome.Done?)
  {
    if calls[i].outcome.Done? && calls[j].outcome.Done? {
      var a, b := calls[i], calls[j];
      assert Happens(states[i], a, states[i + 1]) && Happens(states[j], b, states[j + 1]);
      DoneSwaps(states[i], a.t, a.now, a.fails, a.outcome, states[i + 1]);
      DoneSwaps(states[j], b.t, b.now, b.fails, b.outcome, states[j + 1]);
      RevisionsGrowOver(states, calls, i + 1, j, a.t.id);
      assert false;
    }
  }
}
