/** A listing on which synchronisation and rebuild disagree. */
module NoteIndexWitness {
  import opened Collections
  import opened Values
  import opened NoteIndex
  import opened NoteIndexTheorems

  /** Empty files are malformed and one content makes the parser raise; others are
      notes named by their stem. */
  function SampleParse(path: NotePath, content: Bytes): ParseOutcome
  {
    if content == "" then Malformed("note is missing opening frontmatter")
    else if content == "[[" then Raises
    else
      Note(ParsedNote(
        path.stem, 0, "candidate", "internal", path.noteType, None, FtsText("", content, "", "", "", "", "", ""), true))
  }

  ghost function Above(used: set<int>): (n: int)
    ensures forall u :: u in used ==> u < n
  {
    if used == {} then 0
    else
      var u := Pick(used);
      var n := Above(used - {u});
      assert used == (used - {u}) + {u};
      if u < n then n else u + 1
  }

  /** A valid note, and an emptied file of the same stem in a later directory. */
  const CLASHING: seq<SourceFile> := [
    SourceFile(NotePath("attempt", "mem-000000000000"), "note", 1),
    SourceFile(NotePath("finding", "mem-000000000000"), "", 2)
  ]

  lemma ClashingDisagree() returns (t0: Tables)
    ensures ChecksStem(SampleParse) && Relocatable(SampleParse) && PicksUnused(Above)
    ensures DistinctPaths(CLASHING) && InTypeDirectories(CLASHING) && !NoClash(SampleParse, CLASHING)
    ensures !RebuildRefuses(SampleParse, CLASHING)
    ensures Faithful(SampleParse, t0) && !SyncAgrees(SampleParse, Above, t0, CLASHING)
  {
    assert Relocatable(SampleParse) by {
      forall path: NotePath ensures Accepts(SampleParse, path) {
        assert Stores(SampleParse, path, "note");
      }
    }
    assert "attempt"[0] != "finding"[0];
    assert Valid(SampleParse, CLASHING[0]);
    assert CLASHING[0].path.stem == CLASHING[1].path.stem;
    t0 := ClashParts(SampleParse, Above, CLASHING);
  }

  /** One raising file beside a note: every pass and every rebuild fails. */
  const BLOCKED: seq<SourceFile> := [
    SourceFile(NotePath("attempt", "mem-000000000000"), "note", 1),
    SourceFile(NotePath("finding", "mem-000000000001"), "[[", 2)
  ]

  lemma OneFileBlocks(t0: Tables)
    requires Faithful(SampleParse, t0)
    ensures Synchronised(SampleParse, Above, t0, BLOCKED).Refused?
    ensures Rebuilt(SampleParse, Above, t0.generation, BLOCKED).None?
  {
    assert "[["[0] == '[';
    assert Breaks(SampleParse, BLOCKED[1]);
    BreakRefuses(SampleParse, Above, t0, BLOCKED, 1);
    assert RefusesRebuild(SampleParse, BLOCKED, BLOCKED[1]);
  }
}
