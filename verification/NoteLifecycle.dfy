/** Status transitions of memory notes (`plugins/chrono-vault/lifecycle.py`):
    the notes a transition touches, and the supersession graph it maintains. */
module NoteLifecycle {
  import opened Whitespace
  import opened Values

  /** Everything the content reference covers besides the lifecycle fields. */
  datatype NoteText = NoteText(title: string, noteType: string, body: string, details: string)

  datatype ContentPayload = ContentPayload(
    status: string, supersedes: seq<string>, supersededBy: Option<string>, evidence: seq<string>, text: NoteText)

  datatype EvidenceRef = External(text: string) | ContentRef(digest: Digest<ContentPayload>)

  datatype Note = Note(
    id: string, status: string, supersedes: seq<string>, supersededBy: Option<string>,
    evidenceRefs: seq<EvidenceRef>, revision: int, updatedAt: string, verifiedAt: Option<string>, text: NoteText)

  const STATUSES: set<string> := {"candidate", "verified", "superseded", "invalidated", "archived"}
  const MAX_SUPERSESSION_WALK: nat := 4096

  /** A canonical source file per note id; one that cannot be used (malformed, or
      present in two type directories) is damaged. */
  datatype Source = Parsed(note: Note) | Damaged

  type Files = map<string, Source>

  datatype LifecycleError =
    | InvalidRequest
    | NoteNotFound(id: string)
    | DamagedNote(id: string)
    | RevisionConflict(found: int)
    | ReplacementNotVerified
    | SupersessionCycle

  datatype Found = Got(note: Note) | Missed(error: LifecycleError)

  predicate IsHex(c: char)
  {
    '0' <= c <= '9' || 'a' <= c <= 'f'
  }

  /** `mem-` and twelve hexadecimal digits. */
  predicate CanonicalId(id: string)
  {
    |id| == 16 && id[..4] == "mem-" && forall i :: 4 <= i < 16 ==> IsHex(id[i])
  }

  function FindNote(files: Files, id: string): Found
  {
    if !CanonicalId(id) then Missed(InvalidRequest)
    else if id !in files then Missed(NoteNotFound(id))
    else if files[id].Damaged? then Missed(DamagedNote(id))
    else Got(files[id].note)
  }

  // ---------------------------------------------------------------------------
  // Content references
  // ---------------------------------------------------------------------------

  function ExternalRefs(refs: seq<EvidenceRef>): seq<EvidenceRef>
  {
    if |refs| == 0 then [] else (if refs[0].External? then [refs[0]] else []) + ExternalRefs(refs[1..])
  }

  function RefTexts(refs: seq<EvidenceRef>): seq<string>
  {
    seq(|refs|, i requires 0 <= i < |refs| => if refs[i].External? then refs[i].text else "")
  }

  function PayloadOf(n: Note): ContentPayload
  {
    ContentPayload(n.status, n.supersedes, n.supersededBy, RefTexts(ExternalRefs(n.evidenceRefs)), n.text)
  }

  /** `_refresh_content_ref`: one reference to the present content, last. */
  function Refreshed(n: Note): Note
  {
    n.(evidenceRefs := ExternalRefs(n.evidenceRefs) + [ContentRef(Sha256(PayloadOf(n)))])
  }

  lemma {:induction false} ExternalRefsAppend(a: seq<EvidenceRef>, b: seq<EvidenceRef>)
    ensures ExternalRefs(a + b) == ExternalRefs(a) + ExternalRefs(b)
  {
    if |a| == 0 {
      assert a + b == b;
    } else {
      var whole := a + b;
      assert whole[0] == a[0] && whole[1..] == a[1..] + b;
      ExternalRefsAppend(a[1..], b);
    }
  }

  lemma {:induction false} ExternalRefsTwice(refs: seq<EvidenceRef>)
    ensures ExternalRefs(ExternalRefs(refs)) == ExternalRefs(refs)
  {
    if |refs| == 0 {
    } else {
      ExternalRefsTwice(refs[1..]);
      var head := if refs[0].External? then [refs[0]] else [];
      ExternalRefsAppend(head, ExternalRefs(refs[1..]));
      assert ExternalRefs(head) == head;
    }
  }

  /** Refreshing again changes nothing, so a transition may refresh a note both
      when it edits and when it stages it; and the reference commits to the
      lifecycle fields: notes with equal references agree on them. */
  lemma RefreshIsStable(n: Note, m: Note)
    ensures Refreshed(Refreshed(n)) == Refreshed(n)
    ensures Refreshed(n).evidenceRefs == Refreshed(m).evidenceRefs ==>
              n.status == m.status && n.supersedes == m.supersedes && n.supersededBy == m.supersededBy && n.text == m.text
  {
    var last := [ContentRef(Sha256(PayloadOf(n)))];
    ExternalRefsTwice(n.evidenceRefs);
    ExternalRefsAppend(ExternalRefs(n.evidenceRefs), last);
    assert ExternalRefs(last) == [];
    assert ExternalRefs(Refreshed(n).evidenceRefs) == ExternalRefs(n.evidenceRefs);
    assert |Refreshed(n).evidenceRefs| > 0 && |Refreshed(m).evidenceRefs| > 0;
    var x, y := Refreshed(n).evidenceRefs, Refreshed(m).evidenceRefs;
    assert x[|x| - 1] == ContentRef(Sha256(PayloadOf(n))) && y[|y| - 1] == ContentRef(Sha256(PayloadOf(m)));
  }

  // ---------------------------------------------------------------------------
  // The supersession walk
  // ---------------------------------------------------------------------------

  /** The `superseded_by` pointer of a usable note. */
  function Pointer(files: Files, id: string): Option<string>
  {
    match FindNote(files, id)
    case Got(note) => note.supersededBy
    case Missed(_) => None
  }

  /** The id reached from `id` along `k` pointers. */
  function Follow(files: Files, id: string, k: nat): Option<string>
  {
    if k == 0 then Some(id)
    else
      match Follow(files, id, k - 1)
      case Some(x) => Pointer(files, x)
      case None => None
  }

  /** `target` is reached along fewer than `n` pointers. */
  ghost predicate ReachedWithin(files: Files, id: string, target: string, n: nat)
  {
    exists k :: 0 <= k < n && Follow(files, id, k) == Some(target)
  }

  lemma ReachedOneMore(files: Files, id: string, n: nat)
    ensures forall x :: ReachedWithin(files, id, x, n + 1) <==> ReachedWithin(files, id, x, n) || Follow(files, id, n) == Some(x)
  {
    forall x | ReachedWithin(files, id, x, n) ensures ReachedWithin(files, id, x, n + 1) {
      var k :| 0 <= k < n && Follow(files, id, k) == Some(x);
      assert 0 <= k < n + 1;
    }
  }

  /** `_creates_supersession_cycle`: a walk from the replacement, bounded and
      guarded by the ids already visited. */
  method CreatesSupersessionCycle(files: Files, noteId: string, replacementId: string) returns (cycle: bool)
    ensures cycle <==> ReachedWithin(files, replacementId, noteId, MAX_SUPERSESSION_WALK)
  {
    var seen: set<string> := {};
    var current: Option<string> := Some(replacementId);
    for i := 0 to MAX_SUPERSESSION_WALK
      invariant current == Follow(files, replacementId, i)
      invariant !ReachedWithin(files, replacementId, noteId, i)
      invariant forall x :: x in seen <==> ReachedWithin(files, replacementId, x, i)
    {
      ReachedOneMore(files, replacementId, i);
      if current.None? {
        WalkEnds(files, replacementId, i, noteId);
        return false;
      }
      if current.value == noteId {
        assert Follow(files, replacementId, i) == Some(noteId);
        return true;
      }
      if current.value in seen {
        RevisitingLoops(files, replacementId, i, noteId);
        return false;
      }
      seen := seen + {current.value};
      var found := FindNote(files, current.value);
      if found.Missed? {
        assert Follow(files, replacementId, i + 1).None?;
        WalkEnds(files, replacementId, i + 1, noteId);
        return false;
      }
      current := found.note.supersededBy;
    }
    cycle := false;
  }

  lemma {:induction false} FollowStays(files: Files, id: string, n: nat, k: nat)
    requires Follow(files, id, n).None? && k >= n
    ensures Follow(files, id, k).None?
  {
    if k > n {
      FollowStays(files, id, n, k - 1);
    }
  }

  lemma WalkEnds(files: Files, id: string, n: nat, target: string)
    requires Follow(files, id, n).None? && !ReachedWithin(files, id, target, n)
    ensures forall m :: !ReachedWithin(files, id, target, m)
  {
    forall k: nat ensures Follow(files, id, k) != Some(target) {
      if k >= n {
        FollowStays(files, id, n, k);
      }
    }
  }

  /** Once the walk revisits an id it only repeats what it has seen. */
  lemma {:induction false} RepeatsEarlier(files: Files, id: string, j: nat, i: nat, k: nat)
    requires j < i <= k && Follow(files, id, i) == Follow(files, id, j)
    ensures exists m :: 0 <= m < i && Follow(files, id, m) == Follow(files, id, k)
  {
    if k > i {
      RepeatsEarlier(files, id, j, i, k - 1);
      var m :| 0 <= m < i && Follow(files, id, m) == Follow(files, id, k - 1);
      assert Follow(files, id, m + 1) == Follow(files, id, k);
      if m + 1 == i {
        assert Follow(files, id, j) == Follow(files, id, k);
      }
    }
  }

  lemma RevisitingLoops(files: Files, id: string, i: nat, target: string)
    requires Follow(files, id, i).Some? && ReachedWithin(files, id, Follow(files, id, i).value, i)
    requires !ReachedWithin(files, id, target, i)
    ensures forall m :: !ReachedWithin(files, id, target, m)
  {
    var j :| 0 <= j < i && Follow(files, id, j) == Follow(files, id, i);
    forall k: nat ensures Follow(files, id, k) != Some(target) {
      if k >= i {
        RepeatsEarlier(files, id, j, i, k);
      }
    }
  }

  // ---------------------------------------------------------------------------
  // The notes a transition touches
  // ---------------------------------------------------------------------------

  datatype Transition = Transition(
    id: string, newStatus: string, reason: string, expectedRevision: int, replacement: Option<string>)

  predicate ValidRequest(t: Transition)
  {
    && CanonicalId(t.id) && t.newStatus in STATUSES && !IsBlank(t.reason)
    && (if t.newStatus == "superseded" then t.replacement.Some? && CanonicalId(t.replacement.value) && t.replacement.value != t.id
        else t.replacement.None?)
  }

  type Updates = map<string, Note>

  function Without(ids: seq<string>, id: string): (r: seq<string>)
    ensures forall x :: x in r <==> x in ids && x != id
  {
    if |ids| == 0 then [] else (if ids[0] == id then [] else [ids[0]]) + Without(ids[1..], id)
  }

  function Stamped(n: Note, now: string): Note
  {
    Refreshed(n.(revision := n.revision + 1, updatedAt := now))
  }

  /** The primary note after the transition. */
  function PrimaryAfter(n: Note, t: Transition, now: string): Note
  {
    Refreshed(n.(status := t.newStatus, supersededBy := t.replacement, revision := n.revision + 1, updatedAt := now,
                 verifiedAt := if t.newStatus == "verified" then Some(now) else n.verifiedAt))
  }

  /** A former replacement no longer lists the note. */
  function Unlinked(n: Note, id: string, now: string): Note
  {
    Stamped(n.(supersedes := Without(n.supersedes, id)), now)
  }

  /** The new replacement lists the note. */
  function Linked(n: Note, id: string, now: string): Note
  {
    Stamped(n.(supersedes := n.supersedes + [id]), now)
  }

  /** A note that pointed at itself is edited twice: as the primary and as its
      own former replacement. */
  function PrimaryEdited(n: Note, t: Transition, now: string): Note
  {
    if n.supersededBy == Some(t.id) then
      Stamped(PrimaryAfter(n.(supersedes := Without(n.supersedes, t.id)), t, now), now)
    else PrimaryAfter(n, t, now)
  }

  /** Up to three notes change: the primary, its former replacement when it
      differs, and the new replacement unless it already lists the primary. */
  function Planned(files: Files, t: Transition, primary: Note, now: string): Updates
  {
    var former, next := primary.supersededBy, t.replacement;
    var base := map[t.id := PrimaryEdited(primary, t, now)];
    var unlinked := if former.Some? && former != next && former != Some(t.id) && FindNote(files, former.value).Got?
                    then base[former.value := Unlinked(FindNote(files, former.value).note, t.id, now)] else base;
    if next.Some? && FindNote(files, next.value).Got? && t.id !in FindNote(files, next.value).note.supersedes
    then unlinked[next.value := Linked(FindNote(files, next.value).note, t.id, now)] else unlinked
  }

  datatype Plan = Proceed(updates: Updates) | Refuse(error: LifecycleError)

  /** `_updated_notes`: the checks in their order, then the planned edits. */
  ghost function PlanOf(files: Files, t: Transition, now: string): Plan
  {
    if !ValidRequest(t) then Refuse(InvalidRequest)
    else
      match FindNote(files, t.id)
      case Missed(error) => Refuse(error)
      case Got(primary) =>
        if primary.revision != t.expectedRevision then Refuse(RevisionConflict(primary.revision))
        else if t.replacement.Some? && FindNote(files, t.replacement.value).Missed? then
          Refuse(FindNote(files, t.replacement.value).error)
        else if t.replacement.Some? && FindNote(files, t.replacement.value).note.status != "verified" then
          Refuse(ReplacementNotVerified)
        else if t.replacement.Some? && ReachedWithin(files, t.replacement.value, t.id, MAX_SUPERSESSION_WALK) then
          Refuse(SupersessionCycle)
        else if primary.supersededBy.Some? && FindNote(files, primary.supersededBy.value).Missed? then
          Refuse(FindNote(files, primary.supersededBy.value).error)
        else Proceed(Planned(files, t, primary, now))
  }

  /** The checks and in-place edits of `_updated_notes`. */
  method UpdatedNotes(files: Files, t: Transition, now: string) returns (plan: Plan)
    ensures plan == PlanOf(files, t, now)
  {
    if !ValidRequest(t) {
      return Refuse(InvalidRequest);
    }
    var found := FindNote(files, t.id);
    if found.Missed? {
      return Refuse(found.error);
    }
    var primary := found.note;
    if primary.revision != t.expectedRevision {
      return Refuse(RevisionConflict(primary.revision));
    }
    if t.replacement.Some? {
      var check := FindNote(files, t.replacement.value);
      if check.Missed? {
        return Refuse(check.error);
      }
      if check.note.status != "verified" {
        return Refuse(ReplacementNotVerified);
      }
      var cycle := CreatesSupersessionCycle(files, t.id, t.replacement.value);
      if cycle {
        return Refuse(SupersessionCycle);
      }
    }
    var updates: Updates := map[t.id := primary];
    var former := primary.supersededBy;
    if former.Some? {
      var previous := FindNote(files, former.value);
      if previous.Missed? {
        return Refuse(previous.error);
      }
      updates := updates[former.value := previous.note];
    }
    if t.replacement.Some? && t.replacement.value !in updates {
      updates := updates[t.replacement.value := FindNote(files, t.replacement.value).note];
    }
    updates := Edit(t, former, updates, now);
    plan := Proceed(updates);
  }

  /** Whose `supersedes` lists change: the former replacement and the next. */
  function ChangedTargets(t: Transition, former: Option<string>, collected: Updates): set<string>
    requires t.replacement.Some? ==> t.replacement.value in collected
  {
    (if former.Some? && former != t.replacement then {former.value} else {})
    + (if t.replacement.Some? && t.id !in collected[t.replacement.value].supersedes then {t.replacement.value} else {})
  }

  /** Edits the collected copies in place and keeps the changed ones. */
  method Edit(t: Transition, former: Option<string>, collected: Updates, now: string) returns (updates: Updates)
    requires ValidRequest(t) && t.id in collected && collected[t.id].supersededBy == former
    requires former.Some? ==> former.value in collected
    requires t.replacement.Some? ==> t.replacement.value in collected
    ensures updates.Keys == {t.id} + ChangedTargets(t, former, collected)
    ensures updates[t.id] == PrimaryEdited(collected[t.id], t, now)
    ensures former.Some? && former != t.replacement && former.value != t.id ==>
              updates[former.value] == Unlinked(collected[former.value], t.id, now)
    ensures t.replacement.Some? && t.replacement.value in updates ==>
              updates[t.replacement.value] == Linked(collected[t.replacement.value], t.id, now)
  {
    var changed;
    updates, changed := EditLinks(t, former, collected);
    updates := updates[t.id := PrimaryStamp(updates[t.id], t.newStatus, now)];
    updates := StampTargets(updates, changed, now);
    updates := Restricted(updates, {t.id} + changed);
    PrimaryStampIs(collected[t.id], t, now);
  }

  function Restricted(updates: Updates, ids: set<string>): (r: Updates)
    requires ids <= updates.Keys
    ensures r.Keys == ids
    ensures forall id :: id in ids ==> r[id] == updates[id]
  {
    map id | id in ids :: updates[id]
  }

  function PrimaryStamp(n: Note, newStatus: string, now: string): Note
  {
    var stamped := n.(revision := n.revision + 1, updatedAt := now);
    Refreshed(if newStatus == "verified" then stamped.(verifiedAt := Some(now)) else stamped)
  }

  lemma PrimaryStampIs(n: Note, t: Transition, now: string)
    ensures forall supersedes ::
      PrimaryStamp(n.(status := t.newStatus, supersededBy := t.replacement, supersedes := supersedes), t.newStatus, now)
      == PrimaryAfter(n.(supersedes := supersedes), t, now)
    ensures n.(supersedes := n.supersedes) == n
  {
  }

  /** The primary's new fields and the two `supersedes` lists. */
  method EditLinks(t: Transition, former: Option<string>, collected: Updates) returns (updates: Updates, changed: set<string>)
    requires ValidRequest(t) && t.id in collected && collected[t.id].supersededBy == former
    requires former.Some? ==> former.value in collected
    requires t.replacement.Some? ==> t.replacement.value in collected
    ensures updates.Keys == collected.Keys
    ensures changed == ChangedTargets(t, former, collected)
    ensures var n := collected[t.id];
            updates[t.id] == n.(status := t.newStatus, supersededBy := t.replacement,
                                supersedes := if former == Some(t.id) then Without(n.supersedes, t.id) else n.supersedes)
    ensures former.Some? && former != t.replacement && former.value != t.id ==>
              updates[former.value] == collected[former.value].(supersedes := Without(collected[former.value].supersedes, t.id))
    ensures t.replacement.Some? && t.replacement.value in changed ==>
              updates[t.replacement.value]
              == collected[t.replacement.value].(supersedes := collected[t.replacement.value].supersedes + [t.id])
  {
    updates := collected;
    updates := updates[t.id := updates[t.id].(status := t.newStatus, supersededBy := t.replacement)];
    changed := {};
    if former.Some? && former != t.replacement {
      var previous := updates[former.value];
      updates := updates[former.value := previous.(supersedes := Without(previous.supersedes, t.id))];
      changed := changed + {former.value};
    }
    if t.replacement.Some? {
      var next := updates[t.replacement.value];
      if t.id !in next.supersedes {
        updates := updates[t.replacement.value := next.(supersedes := next.supersedes + [t.id])];
        changed := changed + {t.replacement.value};
      }
    }
  }

  /** Every changed target gets a new revision, time and content reference. */
  method StampTargets(edited: Updates, changed: set<string>, now: string) returns (updates: Updates)
    requires changed <= edited.Keys
    ensures updates.Keys == edited.Keys
    ensures forall id :: id in edited ==> updates[id] == if id in changed then Stamped(edited[id], now) else edited[id]
  {
    updates := edited;
    var pending := changed;
    while pending != {}
      invariant pending <= changed <= updates.Keys == edited.Keys
      invariant forall id :: id in edited ==>
                  updates[id] == if id in changed && id !in pending then Stamped(edited[id], now) else edited[id]
      decreases pending
    {
      var id :| id in pending;
      updates := updates[id := Stamped(updates[id], now)];
      pending := pending - {id};
    }
  }
}
