/** The incremental log scan of the dashboard (`_scan_log` in
    `bin/vs-board-dashboard.py`): bounded chunks of a growing file, whole lines
    only, with a skip state for lines longer than a chunk. The statements hold
    for every line scanner; the dashboard's is `LogEvents.EventScanner`. */
module LogScan {
  import opened Values
  import opened LogEvents

  /** The chunk bound of the dashboard; the statements hold for every bound. */
  const LOG_CHUNK_BYTES: nat := 2 * 1024 * 1024

  // ---------------------------------------------------------------------------
  // Reference: one fold over whole lines
  // ---------------------------------------------------------------------------

  /** Where the line containing position `n` starts. */
  function LineStart(data: Bytes, n: nat): (start: nat)
    requires n <= |data|
    ensures start <= n
    ensures start > 0 ==> data[start - 1] == '\n'
    ensures forall i :: start <= i < n ==> data[i] != '\n'
  {
    if n == 0 || data[n - 1] == '\n' then n else LineStart(data, n - 1)
  }

  /** The fold over the complete lines within the first `n` bytes that are
      shorter than the chunk bound. */
  function FoldUpTo(scan: Scanner, bound: nat, data: Bytes, n: nat): Option<Truth>
    requires n <= |data|
  {
    if n == 0 then Some(TRUTH_START)
    else
      match FoldUpTo(scan, bound, data, n - 1)
      case None => None
      case Some(t) =>
        if data[n - 1] != '\n' then Some(t)
        else
          var line := data[LineStart(data, n - 1)..n - 1];
          if |line| < bound then scan(line, t) else Some(t)
  }

  // ---------------------------------------------------------------------------
  // The incremental scan
  // ---------------------------------------------------------------------------

  datatype Entry = Entry(ino: int, offset: nat, skip: bool, truth: Truth)

  function FirstNewline(data: Bytes, lo: nat, hi: nat): (at: Option<nat>)
    requires lo <= hi <= |data|
    ensures at.Some? ==> lo <= at.value < hi && data[at.value] == '\n' && forall i :: lo <= i < at.value ==> data[i] != '\n'
    ensures at.None? ==> forall i :: lo <= i < hi ==> data[i] != '\n'
    decreases hi - lo
  {
    if lo == hi then None else if data[lo] == '\n' then Some(lo) else FirstNewline(data, lo + 1, hi)
  }

  function LastNewline(data: Bytes, lo: nat, hi: nat): (at: Option<nat>)
    requires lo <= hi <= |data|
    ensures at.Some? ==> lo <= at.value < hi && data[at.value] == '\n' && forall i :: at.value < i < hi ==> data[i] != '\n'
    ensures at.None? ==> forall i :: lo <= i < hi ==> data[i] != '\n'
  {
    if lo == hi then None else if data[hi - 1] == '\n' then Some(hi - 1) else LastNewline(data, lo, hi - 1)
  }

  /** The lines of `data[pos..end]` in turn. */
  function FoldLines(scan: Scanner, data: Bytes, pos: nat, end: nat, t: Truth): Option<Truth>
    requires pos <= end <= |data|
    decreases end - pos
  {
    match FirstNewline(data, pos, end)
    case None => scan(data[pos..end], t)
    case Some(nl) =>
      match scan(data[pos..nl], t)
      case None => None
      case Some(next) => FoldLines(scan, data, nl + 1, end, next)
  }

  /** A new inode, a shorter file or an unusable entry starts over. */
  function Resumed(entry: Option<Entry>, ino: int, data: Bytes): Entry
  {
    if entry.Some? && entry.value.ino == ino && entry.value.offset <= |data| then entry.value
    else Entry(ino, 0, false, TRUTH_START)
  }

  /** One frame reads at most a chunk. */
  function ChunkEnd(bound: nat, data: Bytes, offset: nat): (hi: nat)
    requires offset <= |data|
    ensures offset <= hi <= |data| && hi - offset <= bound && (hi == |data| || hi - offset == bound)
  {
    if offset + bound <= |data| then offset + bound else |data|
  }

  /** Without a newline in the chunk: skip a full chunk, or wait for more. */
  function WithoutNewline(bound: nat, data: Bytes, e: Entry): Entry
    requires e.offset <= |data|
  {
    var hi := ChunkEnd(bound, data, e.offset);
    if hi - e.offset >= bound then e.(offset := hi, skip := true) else e
  }

  /** Where the first whole line of the chunk starts; behind `end` when the only
      newline ends a skipped line. */
  function FirstWholeLine(data: Bytes, e: Entry, end: nat): nat
    requires e.offset <= end < |data| && data[end] == '\n'
  {
    if e.skip then FirstNewline(data, e.offset, end + 1).value + 1 else e.offset
  }

  /** The whole lines up to the last newline of the chunk. */
  function UpToNewline(scan: Scanner, data: Bytes, e: Entry, end: nat): Option<Entry>
    requires e.offset <= end < |data| && data[end] == '\n'
  {
    var start := FirstWholeLine(data, e, end);
    match if start <= end then FoldLines(scan, data, start, end, e.truth) else Some(e.truth)
    case None => None
    case Some(t) => Some(Entry(e.ino, end + 1, false, t))
  }

  /** One frame; `None` when an event raises and the frame is lost. */
  function ScanFrame(scan: Scanner, bound: nat, data: Bytes, e: Entry): Option<Entry>
    requires bound > 0 && e.offset <= |data|
  {
    match LastNewline(data, e.offset, ChunkEnd(bound, data, e.offset))
    case None => Some(WithoutNewline(bound, data, e))
    case Some(end) => UpToNewline(scan, data, e, end)
  }

  /** The line loop of one frame. */
  method ScanLines(scan: Scanner, data: Bytes, start: nat, end: nat, t0: Truth) returns (result: Option<Truth>)
    requires start <= end <= |data|
    ensures result == FoldLines(scan, data, start, end, t0)
  {
    var pos, t := start, t0;
    while true
      invariant pos <= end
      invariant FoldLines(scan, data, start, end, t0) == FoldLines(scan, data, pos, end, t)
      decreases end - pos
    {
      var nl := FirstNewline(data, pos, end);
      if nl.None? {
        return scan(data[pos..end], t);
      }
      var scanned := scan(data[pos..nl.value], t);
      if scanned.None? {
        return None;
      }
      pos, t := nl.value + 1, scanned.value;
    }
  }

  /** `_scan_log` on a readable file. */
  method ScanLog(scan: Scanner, bound: nat, ino: int, data: Bytes, entry: Option<Entry>) returns (result: Option<Entry>)
    requires bound > 0
    ensures result == ScanFrame(scan, bound, data, Resumed(entry, ino, data))
  {
    var e := Resumed(entry, ino, data);
    if |data| <= e.offset {
      return Some(e);
    }
    var last := LastNewline(data, e.offset, ChunkEnd(bound, data, e.offset));
    if last.None? {
      return Some(WithoutNewline(bound, data, e));
    }
    var start := FirstWholeLine(data, e, last.value);
    var t := Some(e.truth);
    if start <= last.value {
      t := ScanLines(scan, data, start, last.value, e.truth);
    }
    if t.None? {
      return None;
    }
    result := Some(Entry(e.ino, last.value + 1, false, t.value));
  }

  // ---------------------------------------------------------------------------
  // The scan is the fold
  // ---------------------------------------------------------------------------

  /** The entry is the fold over what it consumed; it stands at a line start, or
      inside a line already as long as a chunk. */
  ghost predicate Tracks(scan: Scanner, bound: nat, data: Bytes, e: Entry)
  {
    && e.offset <= |data|
    && FoldUpTo(scan, bound, data, e.offset) == Some(e.truth)
    && (if e.skip then e.offset - LineStart(data, e.offset) >= bound else LineStart(data, e.offset) == e.offset)
  }

  lemma {:induction false} LineStartStays(data: Bytes, lo: nat, hi: nat)
    requires lo <= hi <= |data| && forall i :: lo <= i < hi ==> data[i] != '\n'
    ensures LineStart(data, hi) == LineStart(data, lo)
  {
    if lo < hi {
      LineStartStays(data, lo, hi - 1);
    }
  }

  lemma {:induction false} FoldStays(scan: Scanner, bound: nat, data: Bytes, lo: nat, hi: nat)
    requires lo <= hi <= |data| && forall i :: lo <= i < hi ==> data[i] != '\n'
    ensures FoldUpTo(scan, bound, data, hi) == FoldUpTo(scan, bound, data, lo)
  {
    if lo < hi {
      FoldStays(scan, bound, data, lo, hi - 1);
    }
  }

  /** One short complete line, read from its start. */
  lemma FoldOneLine(scan: Scanner, bound: nat, data: Bytes, pos: nat, nl: nat, t: Truth)
    requires pos <= nl < |data| && data[nl] == '\n' && nl - pos < bound
    requires forall i :: pos <= i < nl ==> data[i] != '\n'
    requires LineStart(data, pos) == pos && FoldUpTo(scan, bound, data, pos) == Some(t)
    ensures FoldUpTo(scan, bound, data, nl + 1) == scan(data[pos..nl], t)
    ensures LineStart(data, nl + 1) == nl + 1
  {
    LineStartStays(data, pos, nl);
    FoldStays(scan, bound, data, pos, nl);
  }

  lemma {:induction false} FoldIsMonotone(scan: Scanner, bound: nat, data: Bytes, lo: nat, hi: nat)
    requires lo <= hi <= |data| && FoldUpTo(scan, bound, data, lo).None?
    ensures FoldUpTo(scan, bound, data, hi).None?
  {
    if lo < hi {
      FoldIsMonotone(scan, bound, data, lo, hi - 1);
    }
  }

  lemma {:induction false} FoldLinesIsFold(scan: Scanner, bound: nat, data: Bytes, pos: nat, end: nat, t: Truth)
    requires pos <= end < |data| && data[end] == '\n' && end - pos < bound
    requires LineStart(data, pos) == pos && FoldUpTo(scan, bound, data, pos) == Some(t)
    ensures FoldLines(scan, data, pos, end, t) == FoldUpTo(scan, bound, data, end + 1)
    ensures LineStart(data, end + 1) == end + 1
    decreases end - pos
  {
    match FirstNewline(data, pos, end) {
      case None => FoldOneLine(scan, bound, data, pos, end, t);
      case Some(nl) =>
        FoldOneLine(scan, bound, data, pos, nl, t);
        match scan(data[pos..nl], t) {
          case None => FoldIsMonotone(scan, bound, data, nl + 1, end + 1);
          case Some(next) => FoldLinesIsFold(scan, bound, data, nl + 1, end, next);
        }
    }
  }

  /** The end of an over-long line is passed over by the fold as well. */
  lemma FoldSkipsLongLine(scan: Scanner, bound: nat, data: Bytes, offset: nat, nl: nat)
    requires offset <= nl < |data| && data[nl] == '\n' && forall i :: offset <= i < nl ==> data[i] != '\n'
    requires offset - LineStart(data, offset) >= bound
    ensures FoldUpTo(scan, bound, data, nl + 1) == FoldUpTo(scan, bound, data, offset)
    ensures LineStart(data, nl + 1) == nl + 1
  {
    LineStartStays(data, offset, nl);
    FoldStays(scan, bound, data, offset, nl);
  }

  /** Nothing complete is left: no newline follows and less than a chunk. */
  predicate CaughtUp(bound: nat, data: Bytes, e: Entry)
    requires e.offset <= |data|
  {
    |data| - e.offset < bound && forall i :: e.offset <= i < |data| ==> data[i] != '\n'
  }

  lemma WithoutNewlineTracks(scan: Scanner, bound: nat, data: Bytes, e: Entry)
    requires bound > 0 && Tracks(scan, bound, data, e)
    requires LastNewline(data, e.offset, ChunkEnd(bound, data, e.offset)).None?
    ensures var next := WithoutNewline(bound, data, e);
            Tracks(scan, bound, data, next) && (next.offset > e.offset || (next == e && CaughtUp(bound, data, e)))
  {
    var hi := ChunkEnd(bound, data, e.offset);
    if hi - e.offset >= bound {
      LineStartStays(data, e.offset, hi);
      FoldStays(scan, bound, data, e.offset, hi);
    }
  }

  lemma FirstWholeLineTracks(scan: Scanner, bound: nat, data: Bytes, e: Entry, end: nat)
    requires Tracks(scan, bound, data, e) && e.offset <= end < |data| && data[end] == '\n'
    ensures var start := FirstWholeLine(data, e, end);
            && e.offset <= start <= end + 1 && LineStart(data, start) == start
            && FoldUpTo(scan, bound, data, start) == Some(e.truth)
  {
    if e.skip {
      FoldSkipsLongLine(scan, bound, data, e.offset, FirstNewline(data, e.offset, end + 1).value);
    }
  }

  lemma UpToNewlineTracks(scan: Scanner, bound: nat, data: Bytes, e: Entry, end: nat)
    requires Tracks(scan, bound, data, e) && e.offset <= end < |data| && data[end] == '\n' && end - e.offset < bound
    ensures match UpToNewline(scan, data, e, end)
            case None => FoldUpTo(scan, bound, data, end + 1).None?
            case Some(next) => Tracks(scan, bound, data, next) && next.ino == e.ino && next.offset == end + 1
  {
    FirstWholeLineTracks(scan, bound, data, e, end);
    var start := FirstWholeLine(data, e, end);
    if start <= end {
      FoldLinesIsFold(scan, bound, data, start, end, e.truth);
    }
  }

  /** A frame keeps tracking; it raises only on a line the fold raises on; and it
      moves forward until it has caught up. */
  lemma FrameTracks(scan: Scanner, bound: nat, data: Bytes, e: Entry)
    requires bound > 0 && Tracks(scan, bound, data, e)
    ensures match ScanFrame(scan, bound, data, e)
            case None => FoldUpTo(scan, bound, data, |data|).None?
            case Some(next) =>
              && Tracks(scan, bound, data, next) && next.ino == e.ino
              && (next.offset > e.offset || (next == e && CaughtUp(bound, data, e)))
  {
    match LastNewline(data, e.offset, ChunkEnd(bound, data, e.offset)) {
      case None => WithoutNewlineTracks(scan, bound, data, e);
      case Some(end) =>
        UpToNewlineTracks(scan, bound, data, e, end);
        if FoldUpTo(scan, bound, data, end + 1).None? {
          FoldIsMonotone(scan, bound, data, end + 1, |data|);
        }
    }
  }

  /** Growth does not disturb what was consumed. */
  lemma {:induction false} FoldOfPrefix(scan: Scanner, bound: nat, data: Bytes, more: Bytes, n: nat)
    requires n <= |data|
    ensures LineStart(data + more, n) == LineStart(data, n)
    ensures FoldUpTo(scan, bound, data + more, n) == FoldUpTo(scan, bound, data, n)
  {
    if n == 0 {
    } else {
      FoldOfPrefix(scan, bound, data, more, n - 1);
      var whole := data + more;
      assert whole[n - 1] == data[n - 1];
      assert whole[LineStart(data, n - 1)..n - 1] == data[LineStart(data, n - 1)..n - 1];
    }
  }

  // ---------------------------------------------------------------------------
  // Any interleaving of growth and frames
  // ---------------------------------------------------------------------------

  datatype Event = Grow(bytes: Bytes) | Frame

  datatype Session = Session(data: Bytes, entry: Option<Entry>)

  /** A lost frame keeps the saved entry. */
  function Next(scan: Scanner, bound: nat, ino: int, s: Session, ev: Event): Session
    requires bound > 0
  {
    match ev
    case Grow(bytes) => s.(data := s.data + bytes)
    case Frame =>
      match ScanFrame(scan, bound, s.data, Resumed(s.entry, ino, s.data))
      case None => s
      case Some(e) => s.(entry := Some(e))
  }

  function Sessions(scan: Scanner, bound: nat, ino: int, events: seq<Event>): Session
    requires bound > 0
  {
    if |events| == 0 then Session([], None)
    else Next(scan, bound, ino, Sessions(scan, bound, ino, events[..|events| - 1]), events[|events| - 1])
  }

  ghost predicate SessionTracks(scan: Scanner, bound: nat, ino: int, s: Session)
  {
    s.entry.Some? ==> s.entry.value.ino == ino && Tracks(scan, bound, s.data, s.entry.value)
  }

  lemma StartTracks(scan: Scanner, bound: nat, ino: int, data: Bytes)
    ensures Tracks(scan, bound, data, Entry(ino, 0, false, TRUTH_START))
  {
  }

  /** Frame-timing independence: whatever the interleaving of growth and frames,
      the entry is the fold over exactly the complete lines, shorter than the
      chunk bound, of the prefix it has consumed. */
  lemma {:induction false} FrameTimingIndependence(scan: Scanner, bound: nat, ino: int, events: seq<Event>)
    requires bound > 0
    ensures SessionTracks(scan, bound, ino, Sessions(scan, bound, ino, events))
  {
    if |events| == 0 {
    } else {
      var n := |events| - 1;
      FrameTimingIndependence(scan, bound, ino, events[..n]);
      var s := Sessions(scan, bound, ino, events[..n]);
      match events[n] {
        case Grow(bytes) =>
          if s.entry.Some? {
            FoldOfPrefix(scan, bound, s.data, bytes, s.entry.value.offset);
          }
        case Frame =>
          StartTracks(scan, bound, ino, s.data);
          FrameTracks(scan, bound, s.data, Resumed(s.entry, ino, s.data));
      }
    }
  }

  /** `k` frames without growth. */
  function Frames(scan: Scanner, bound: nat, data: Bytes, e: Entry, k: nat): Option<Entry>
    requires bound > 0 && e.offset <= |data|
    ensures Frames(scan, bound, data, e, k).Some? ==> Frames(scan, bound, data, e, k).value.offset <= |data|
  {
    if k == 0 then Some(e)
    else
      match Frames(scan, bound, data, e, k - 1)
      case None => None
      case Some(before) => ScanFrame(scan, bound, data, before)
  }

  lemma {:induction false} FramesAdvance(scan: Scanner, bound: nat, data: Bytes, e: Entry, k: nat)
    requires bound > 0 && Tracks(scan, bound, data, e) && FoldUpTo(scan, bound, data, |data|).Some?
    ensures var f := Frames(scan, bound, data, e, k);
            f.Some? && Tracks(scan, bound, data, f.value) && (f.value.offset >= e.offset + k || CaughtUp(bound, data, f.value))
  {
    if k > 0 {
      FramesAdvance(scan, bound, data, e, k - 1);
      FrameTracks(scan, bound, data, Frames(scan, bound, data, e, k - 1).value);
    }
  }

  /** Repeated frames catch up with a file at rest if and only if no complete
      short line makes the fold raise; having caught up, the entry is the fold
      over all complete short lines of the file. */
  lemma CatchesUpIff(scan: Scanner, bound: nat, data: Bytes, e: Entry)
    requires bound > 0 && Tracks(scan, bound, data, e)
    ensures FoldUpTo(scan, bound, data, |data|).Some? <==>
            exists k :: Frames(scan, bound, data, e, k).Some? && CaughtUp(bound, data, Frames(scan, bound, data, e, k).value)
    ensures forall k :: Frames(scan, bound, data, e, k).Some? && CaughtUp(bound, data, Frames(scan, bound, data, e, k).value) ==>
              Some(Frames(scan, bound, data, e, k).value.truth) == FoldUpTo(scan, bound, data, |data|)
  {
    if FoldUpTo(scan, bound, data, |data|).Some? {
      var k := |data| - e.offset + 1;
      FramesAdvance(scan, bound, data, e, k);
      assert CaughtUp(bound, data, Frames(scan, bound, data, e, k).value);
    }
    forall k | Frames(scan, bound, data, e, k).Some? && CaughtUp(bound, data, Frames(scan, bound, data, e, k).value)
      ensures Some(Frames(scan, bound, data, e, k).value.truth) == FoldUpTo(scan, bound, data, |data|)
    {
      FramesTrack(scan, bound, data, e, k);
      FoldStays(scan, bound, data, Frames(scan, bound, data, e, k).value.offset, |data|);
    }
  }

  lemma {:induction false} FramesTrack(scan: Scanner, bound: nat, data: Bytes, e: Entry, k: nat)
    requires bound > 0 && Tracks(scan, bound, data, e) && Frames(scan, bound, data, e, k).Some?
    ensures Tracks(scan, bound, data, Frames(scan, bound, data, e, k).value)
  {
    if k == 0 {
    } else {
      FramesTrack(scan, bound, data, e, k - 1);
      FrameTracks(scan, bound, data, Frames(scan, bound, data, e, k - 1).value);
    }
  }

  // ---------------------------------------------------------------------------
  // The dashboard's scanner
  // ---------------------------------------------------------------------------

  lemma {:induction false} FoldKeepsWarnings(lib: Library, bound: nat, data: Bytes, lo: nat, hi: nat)
    requires lo <= hi <= |data| && FoldUpTo(EventScanner(lib), bound, data, hi).Some?
    ensures FoldUpTo(EventScanner(lib), bound, data, lo).Some?
    ensures KeepsWarnings(FoldUpTo(EventScanner(lib), bound, data, lo).value, FoldUpTo(EventScanner(lib), bound, data, hi).value)
  {
    if lo < hi {
      FoldKeepsWarnings(lib, bound, data, lo, hi - 1);
      var t := FoldUpTo(EventScanner(lib), bound, data, hi - 1).value;
      LineKeepsWarnings(lib, data[LineStart(data, hi - 1)..hi - 1], t);
    }
  }

  /** Some complete line within the first `n` bytes, shorter than the bound, makes
      the scanner raise. */
  predicate HasRaisingLine(lib: Library, bound: nat, data: Bytes, n: nat)
    requires n <= |data|
  {
    exists nl: nat :: nl < n && RaisingLineAt(lib, bound, data, nl)
  }

  predicate RaisingLineAt(lib: Library, bound: nat, data: Bytes, nl: nat)
    requires nl < |data|
  {
    data[nl] == '\n' && nl - LineStart(data, nl) < bound && LineRaises(lib, data[LineStart(data, nl)..nl])
  }

  lemma {:induction false} FoldRaisesIff(lib: Library, bound: nat, data: Bytes, n: nat)
    requires n <= |data|
    ensures FoldUpTo(EventScanner(lib), bound, data, n).None? <==> HasRaisingLine(lib, bound, data, n)
  {
    if n == 0 {
    } else {
      FoldRaisesIff(lib, bound, data, n - 1);
      var before := FoldUpTo(EventScanner(lib), bound, data, n - 1);
      assert HasRaisingLine(lib, bound, data, n) <==>
        HasRaisingLine(lib, bound, data, n - 1) || RaisingLineAt(lib, bound, data, n - 1);
      if before.Some? {
        LineRaisesIff(lib, data[LineStart(data, n - 1)..n - 1], before.value);
      }
    }
  }

  /** The dashboard's frames catch up with a log at rest if and only if none of
      its complete lines below the chunk bound raises. */
  lemma DashboardCatchesUpIff(lib: Library, data: Bytes, e: Entry)
    requires Tracks(EventScanner(lib), LOG_CHUNK_BYTES, data, e)
    ensures !HasRaisingLine(lib, LOG_CHUNK_BYTES, data, |data|) <==>
            exists k :: Frames(EventScanner(lib), LOG_CHUNK_BYTES, data, e, k).Some?
                        && CaughtUp(LOG_CHUNK_BYTES, data, Frames(EventScanner(lib), LOG_CHUNK_BYTES, data, e, k).value)
  {
    FoldRaisesIff(lib, LOG_CHUNK_BYTES, data, |data|);
    CatchesUpIff(EventScanner(lib), LOG_CHUNK_BYTES, data, e);
  }

  /** The log of one short line that raises is never caught up with. */
  lemma RaisingLineStalls(lib: Library, line: Bytes, ino: int, k: nat)
    requires LineRaises(lib, line) && '\n' !in line && |line| < LOG_CHUNK_BYTES
    ensures var data, start := line + "\n", Entry(ino, 0, false, TRUTH_START);
            var after := Frames(EventScanner(lib), LOG_CHUNK_BYTES, data, start, k);
            HasRaisingLine(lib, LOG_CHUNK_BYTES, data, |data|) && (after.None? || !CaughtUp(LOG_CHUNK_BYTES, data, after.value))
  {
    var data := line + "\n";
    assert forall i :: 0 <= i < |line| ==> data[i] == line[i] != '\n';
    LineStartStays(data, 0, |line|);
    assert data[0..|line|] == line;
    assert RaisingLineAt(lib, LOG_CHUNK_BYTES, data, |line|);
    StartTracks(EventScanner(lib), LOG_CHUNK_BYTES, ino, data);
    DashboardCatchesUpIff(lib, data, Entry(ino, 0, false, TRUTH_START));
  }

  const RAISING_LINE := "{\"type\":" + "\"assistant\"" + ",\"message\":{\"content\":true}}"

  /** One assistant event whose content is `true`. */
  lemma RaisingLog(lib: Library, ino: int, k: nat)
    requires lib.decode(RAISING_LINE) ==
             Value(Object(map["type" := Text("assistant"), "message" := Object(map["content" := Bool(true)])]))
    ensures var after := Frames(EventScanner(lib), LOG_CHUNK_BYTES, RAISING_LINE + "\n", Entry(ino, 0, false, TRUTH_START), k);
            after.None? || !CaughtUp(LOG_CHUNK_BYTES, RAISING_LINE + "\n", after.value)
  {
    ContainsMiddle("{\"type\":", "\"assistant\"", ",\"message\":{\"content\":true}}");
    assert TRUTH_MARKERS[0] in TRUTH_MARKERS;
    RaisingLineStalls(lib, RAISING_LINE, ino, k);
  }

  /** A marker before brackets nested too deep to decode. */
  function DeepLine(depth: nat): Bytes
  {
    "[\"" + "safety classifier" + ("\"," + Brackets(depth))
  }

  function Brackets(n: nat): (s: Bytes)
    ensures |s| == n && forall i :: 0 <= i < n ==> s[i] == '['
  {
    seq(n, i => '[')
  }

  lemma DeepLog(lib: Library, depth: nat, ino: int, k: nat)
    requires lib.decode(DeepLine(depth)).Raises? && depth <= 1000000
    ensures var after := Frames(EventScanner(lib), LOG_CHUNK_BYTES, DeepLine(depth) + "\n", Entry(ino, 0, false, TRUTH_START), k);
            after.None? || !CaughtUp(LOG_CHUNK_BYTES, DeepLine(depth) + "\n", after.value)
  {
    ContainsMiddle("[\"", "safety classifier", "\"," + Brackets(depth));
    assert TRUTH_MARKERS[1] in TRUTH_MARKERS;
    RaisingLineStalls(lib, DeepLine(depth), ino, k);
  }

  lemma {:induction false} ContainsMiddle(front: Bytes, part: Bytes, back: Bytes)
    ensures Contains(front + part + back, part)
  {
    var s := front + part + back;
    if |front| == 0 {
      assert s == part + back;
    } else {
      ContainsMiddle(front[1..], part, back);
      assert s[1..] == front[1..] + part + back;
    }
  }

  // ---------------------------------------------------------------------------
  // What the fold says about the spawn
  // ---------------------------------------------------------------------------

  /** A complete line below the bound ends at `nl`. */
  predicate ShortLineAt(bound: nat, data: Bytes, nl: nat)
    requires nl < |data|
  {
    data[nl] == '\n' && nl - LineStart(data, nl) < bound
  }

  function LineAt(data: Bytes, nl: nat): Bytes
    requires nl < |data|
  {
    data[LineStart(data, nl)..nl]
  }

  /** The event on the short line that ends at `nl`; null where there is none. */
  function EventAt(lib: Library, bound: nat, data: Bytes, nl: nat): Json
    requires nl < |data|
  {
    if ShortLineAt(bound, data, nl) then EventOf(lib, LineAt(data, nl)) else Null
  }

  /** What a card shows by name. */
  datatype Naming = Model | Target

  function NamedAt(lib: Library, bound: nat, data: Bytes, naming: Naming, nl: nat): Option<string>
    requires nl < |data|
  {
    match naming
    case Model => EventModel(EventAt(lib, bound, data, nl))
    case Target => EventTarget(lib, EventAt(lib, bound, data, nl))
  }

  /** The name is what the last naming line names; empty without one. */
  ghost predicate IsLastNamed(lib: Library, bound: nat, data: Bytes, naming: Naming, n: nat, name: string)
    requires n <= |data|
  {
    || (name == "" && forall nl: nat :: nl < n ==> NamedAt(lib, bound, data, naming, nl).None?)
    || exists nl: nat :: nl < n && NamedLastAt(lib, bound, data, naming, nl, n, name)
  }

  ghost predicate NamedLastAt(lib: Library, bound: nat, data: Bytes, naming: Naming, nl: nat, n: nat, name: string)
    requires nl < n <= |data|
  {
    && NamedAt(lib, bound, data, naming, nl) == Some(name)
    && forall later: nat :: nl < later < n ==> NamedAt(lib, bound, data, naming, later).None?
  }

  /** The notices in the first `n` bytes: pairs of a short line and a place in its
      user event. */
  ghost function NoticesIn(lib: Library, bound: nat, data: Bytes, n: nat): nat
    requires n <= |data|
  {
    if n == 0 then 0 else NoticesIn(lib, bound, data, n - 1) + EventStops(EventAt(lib, bound, data, n - 1))
  }

  /** Whatever the chunks, what the card shows is what the log says: a fallback
      exactly when some complete short line reports one, the target and the model
      that the last naming lines name, and as many stops as texts of user events
      begin with the notice. */
  lemma {:induction false} FoldMeaning(lib: Library, bound: nat, data: Bytes, n: nat)
    requires n <= |data| && FoldUpTo(EventScanner(lib), bound, data, n).Some?
    ensures var t := FoldUpTo(EventScanner(lib), bound, data, n).value;
            && (t.fellBack <==> exists nl: nat :: nl < n && EventFallsBack(EventAt(lib, bound, data, nl)))
            && IsLastNamed(lib, bound, data, Target, n, t.fbTo)
            && IsLastNamed(lib, bound, data, Model, n, t.model)
            && t.stops == NoticesIn(lib, bound, data, n)
  {
    if n == 0 {
    } else {
      FoldMeaning(lib, bound, data, n - 1);
      var before := FoldUpTo(EventScanner(lib), bound, data, n - 1).value;
      var after := FoldUpTo(EventScanner(lib), bound, data, n).value;
      PositionMeaning(lib, bound, data, n - 1, before, after);
      assert (exists nl: nat :: nl < n && EventFallsBack(EventAt(lib, bound, data, nl))) <==>
        (exists nl: nat :: nl < n - 1 && EventFallsBack(EventAt(lib, bound, data, nl)))
        || EventFallsBack(EventAt(lib, bound, data, n - 1));
      LastNamedOneMore(lib, bound, data, Target, n, before.fbTo, after.fbTo);
      LastNamedOneMore(lib, bound, data, Model, n, before.model, after.model);
    }
  }

  lemma PositionMeaning(lib: Library, bound: nat, data: Bytes, nl: nat, before: Truth, after: Truth)
    requires nl < |data| && FoldUpTo(EventScanner(lib), bound, data, nl) == Some(before)
    requires FoldUpTo(EventScanner(lib), bound, data, nl + 1) == Some(after)
    ensures var event := EventAt(lib, bound, data, nl);
            && (after.fellBack <==> before.fellBack || EventFallsBack(event))
            && after.fbTo == (if EventTarget(lib, event).Some? then EventTarget(lib, event).value else before.fbTo)
            && after.model == (if EventModel(event).Some? then EventModel(event).value else before.model)
            && after.stops == before.stops + EventStops(event)
  {
    if ShortLineAt(bound, data, nl) {
      LineMeaning(lib, LineAt(data, nl), before);
    }
  }

  lemma LastNamedOneMore(lib: Library, bound: nat, data: Bytes, naming: Naming, n: nat, before: string, after: string)
    requires 0 < n <= |data| && IsLastNamed(lib, bound, data, naming, n - 1, before)
    requires var last := NamedAt(lib, bound, data, naming, n - 1); after == if last.Some? then last.value else before
    ensures IsLastNamed(lib, bound, data, naming, n, after)
  {
    var m := n - 1;
    if NamedAt(lib, bound, data, naming, m).Some? {
      assert NamedLastAt(lib, bound, data, naming, m, n, after);
    } else if nl: nat :| nl < m && NamedLastAt(lib, bound, data, naming, nl, m, before) {
      NamedStaysLast(lib, bound, data, naming, nl, m, before);
    }
  }

  lemma NamedStaysLast(lib: Library, bound: nat, data: Bytes, naming: Naming, nl: nat, m: nat, name: string)
    requires nl < m < |data| && NamedLastAt(lib, bound, data, naming, nl, m, name)
    requires NamedAt(lib, bound, data, naming, m).None?
    ensures NamedLastAt(lib, bound, data, naming, nl, m + 1, name)
  {
  }
}
