/** What one line of a spawn's event log says about it (`_scan_event` in
    `bin/vs-board-dashboard.py`). */
module LogEvents {
  import opened Whitespace
  import opened Values

  /** Bytes, written as characters of the same code. */
  type Bytes = seq<char>

  datatype Json =
    | Null
    | Bool(flag: bool)
    | Number(value: real)
    | Text(text: string)
    | List(items: seq<Json>)
    | Object(fields: map<string, Json>)

  predicate Truthy(j: Json)
  {
    match j
    case Null => false
    case Bool(flag) => flag
    case Number(value) => value != 0.0
    case Text(text) => |text| > 0
    case List(items) => |items| > 0
    case Object(fields) => fields != map[]
  }

  /** `dict.get` */
  function Get(fields: map<string, Json>, key: string): Json
  {
    if key in fields then fields[key] else Null
  }

  /** What a log tells about its spawn. */
  datatype Truth = Truth(fellBack: bool, fbTo: string, stops: nat, model: string)

  const TRUTH_START := Truth(false, "", 0, "")
  const CLASSIFIER_STOP := "Your " + "response above was stopped by a safety classifier"
  const TRUTH_MARKERS: seq<Bytes> := ["\"assistant\"", "safety classifier", "model_refusal_fallback"]

  /** `json.loads` on a line: a value, a `ValueError`, which is passed over, or an
      error that is not caught, as for nesting too deep. */
  datatype Decoded = Value(json: Json) | Undecodable | Raises

  /** Library behaviour the scan relies on: decoding a line as JSON and rendering
      a value as text, which fails on values nested too deep. */
  datatype Library = Library(decode: Bytes -> Decoded, show: Json -> Option<string>)

  function LeftStrip(s: string): string
  {
    if |s| > 0 && IsSpace(s[0]) then LeftStrip(s[1..]) else s
  }

  /** A fallback names its target, else the last known target stays. */
  function NameOr(lib: Library, j: Json, otherwise: string): Option<string>
  {
    if !Truthy(j) then Some(otherwise) else if j.Text? then Some(j.text) else lib.show(j)
  }

  /** A fallback to the named target. */
  function FallBackTo(lib: Library, target: Json, t: Truth): Option<Truth>
  {
    match NameOr(lib, target, t.fbTo)
    case None => None
    case Some(name) => Some(t.(fellBack := true, fbTo := name))
  }

  /** A fallback block; a truthy `to` that is no object raises. */
  function ScanBlock(lib: Library, block: Json, t: Truth): Option<Truth>
  {
    if !block.Object? || Get(block.fields, "type") != Text("fallback") then Some(t)
    else
      var to := Get(block.fields, "to");
      if !Truthy(to) then Some(t.(fellBack := true))
      else if !to.Object? then None
      else FallBackTo(lib, Get(to.fields, "model"), t)
  }

  function ScanBlocks(lib: Library, blocks: seq<Json>, t: Truth): Option<Truth>
  {
    if |blocks| == 0 then Some(t)
    else
      match ScanBlocks(lib, blocks[..|blocks| - 1], t)
      case None => None
      case Some(before) => ScanBlock(lib, blocks[|blocks| - 1], before)
  }

  function CountStop(block: Json, t: Truth): Truth
  {
    var text := if block.Object? && Get(block.fields, "type") == Text("text") then Get(block.fields, "text") else block;
    if text.Text? && CLASSIFIER_STOP <= LeftStrip(text.text) then t.(stops := t.stops + 1) else t
  }

  function CountStops(blocks: seq<Json>, t: Truth): Truth
  {
    if |blocks| == 0 then t else CountStop(blocks[|blocks| - 1], CountStops(blocks[..|blocks| - 1], t))
  }

  /** One stream event folded into the truth; `None` when the event's shape makes
      the fold raise. */
  function ScanEvent(lib: Library, event: map<string, Json>, t: Truth): Option<Truth>
  {
    var message := if Get(event, "message").Object? then Get(event, "message").fields else map[];
    var kind := Get(event, "type");
    if kind == Text("assistant") then
      var content := Get(message, "content");
      if Truthy(content) && (content.Bool? || content.Number?) then None
      else
        // a text or an object iterates over strings, which are no blocks
        match ScanBlocks(lib, if content.List? then content.items else [], t)
        case None => None
        case Some(scanned) =>
          var model := Get(message, "model");
          if Get(event, "parent_tool_use_id").Null? && model.Text? && |model.text| > 0 && model.text[0] != '<'
          then Some(scanned.(model := model.text)) else Some(scanned)
    else if kind == Text("system") && Get(event, "subtype") == Text("model_refusal_fallback") then
      FallBackTo(lib, Get(event, "fallback_model"), t)
    else if kind == Text("user") then
      var content := Get(message, "content");
      Some(CountStops(if content.Text? then [content] else if content.List? then content.items else [], t))
    else Some(t)
  }

  predicate Contains(s: Bytes, part: Bytes)
  {
    part <= s || (|s| > 0 && Contains(s[1..], part))
  }

  /** One complete line: unmarked, undecodable and non-object lines are passed
      over. */
  function ScanLine(lib: Library, line: Bytes, t: Truth): Option<Truth>
  {
    if !Marked(line) then Some(t)
    else
      match lib.decode(line)
      case Raises => None
      case Value(Object(fields)) => ScanEvent(lib, fields, t)
      case _ => Some(t)
  }

  /** How the log scan sees a line. */
  type Scanner = (Bytes, Truth) -> Option<Truth>

  function EventScanner(lib: Library): Scanner
  {
    (line, t) => ScanLine(lib, line, t)
  }

  // ---------------------------------------------------------------------------
  // Lines that raise
  // ---------------------------------------------------------------------------

  /** The target of a fallback cannot be rendered. */
  predicate Unshowable(lib: Library, target: Json)
  {
    Truthy(target) && !target.Text? && lib.show(target).None?
  }

  /** A fallback block whose truthy `to` is no object, or names a target that cannot
      be rendered. */
  predicate BlockRaises(lib: Library, block: Json)
  {
    && block.Object? && Get(block.fields, "type") == Text("fallback")
    && var to := Get(block.fields, "to");
       Truthy(to) && (to.Object? ==> Unshowable(lib, Get(to.fields, "model")))
  }

  /** An assistant event whose content cannot be iterated, or holds a raising
      block; a fallback notice whose target cannot be rendered. */
  predicate EventRaises(lib: Library, event: map<string, Json>)
  {
    var message := if Get(event, "message").Object? then Get(event, "message").fields else map[];
    var content := Get(message, "content");
    if Get(event, "type") == Text("assistant") then
      && Truthy(content)
      && (content.Bool? || content.Number? || (content.List? && exists b :: b in content.items && BlockRaises(lib, b)))
    else
      && Get(event, "type") == Text("system") && Get(event, "subtype") == Text("model_refusal_fallback")
      && Unshowable(lib, Get(event, "fallback_model"))
  }

  predicate Marked(line: Bytes)
  {
    exists m :: m in TRUTH_MARKERS && Contains(line, m)
  }

  lemma {:induction false} ContainsMeans(s: Bytes, part: Bytes)
    ensures Contains(s, part) <==> exists before, after :: s == before + part + after
  {
    if part <= s {
      assert s == [] + part + s[|part|..];
    } else if |s| > 0 {
      ContainsMeans(s[1..], part);
      if before, after :| s[1..] == before + part + after {
        assert s == ([s[0]] + before) + part + after;
      }
      if before, after :| s == before + part + after {
        assert before == [] ==> part <= s;
        assert s[1..] == before[1..] + part + after;
      }
    }
  }

  /** A line is looked at exactly when one of three texts stands in it. */
  lemma MarkedMeans(line: Bytes)
    ensures Marked(line) <==>
            exists marker, before, after ::
              (marker == "\"assistant\"" || marker == "safety classifier" || marker == "model_refusal_fallback")
              && line == before + marker + after
  {
    forall m ensures Contains(line, m) <==> exists before, after :: line == before + m + after {
      ContainsMeans(line, m);
    }
    assert TRUTH_MARKERS[0] in TRUTH_MARKERS && TRUTH_MARKERS[1] in TRUTH_MARKERS && TRUTH_MARKERS[2] in TRUTH_MARKERS;
  }

  predicate LineRaises(lib: Library, line: Bytes)
  {
    Marked(line) && match lib.decode(line)
                    case Raises => true
                    case Value(Object(event)) => EventRaises(lib, event)
                    case _ => false
  }

  lemma BlockRaisesIff(lib: Library, block: Json, t: Truth)
    ensures ScanBlock(lib, block, t).None? <==> BlockRaises(lib, block)
  {
  }

  lemma {:induction false} BlocksRaiseIff(lib: Library, blocks: seq<Json>, t: Truth)
    ensures ScanBlocks(lib, blocks, t).None? <==> exists b :: b in blocks && BlockRaises(lib, b)
  {
    if |blocks| == 0 {
    } else {
      var front, last := blocks[..|blocks| - 1], blocks[|blocks| - 1];
      BlocksRaiseIff(lib, front, t);
      assert forall b :: b in blocks <==> b in front || b == last;
      if ScanBlocks(lib, front, t).Some? {
        BlockRaisesIff(lib, last, ScanBlocks(lib, front, t).value);
      }
      assert (exists b :: b in blocks && BlockRaises(lib, b)) <==> (exists b :: b in front && BlockRaises(lib, b)) || BlockRaises(lib, last);
    }
  }

  /** Whether a line raises depends on the line alone. */
  lemma LineRaisesIff(lib: Library, line: Bytes, t: Truth)
    ensures ScanLine(lib, line, t).None? <==> LineRaises(lib, line)
  {
    match lib.decode(line) {
      case Value(Object(event)) =>
        var message := if Get(event, "message").Object? then Get(event, "message").fields else map[];
        var content := Get(message, "content");
        BlocksRaiseIff(lib, if content.List? then content.items else [], t);
      case _ =>
    }
  }

  // ---------------------------------------------------------------------------
  // Warnings never go away
  // ---------------------------------------------------------------------------

  /** Later truth keeps every warning of earlier truth. */
  predicate KeepsWarnings(before: Truth, after: Truth)
  {
    (before.fellBack ==> after.fellBack) && before.stops <= after.stops
  }

  lemma {:induction false} BlocksKeepWarnings(lib: Library, blocks: seq<Json>, t: Truth)
    ensures ScanBlocks(lib, blocks, t).Some? ==>
              KeepsWarnings(t, ScanBlocks(lib, blocks, t).value) && ScanBlocks(lib, blocks, t).value.stops == t.stops
              && ScanBlocks(lib, blocks, t).value.model == t.model
  {
    if |blocks| == 0 {
    } else {
      BlocksKeepWarnings(lib, blocks[..|blocks| - 1], t);
    }
  }

  /** The member of an object, null where there is none. */
  function Member(j: Json, key: string): Json
  {
    if j.Object? && key in j.fields then j.fields[key] else Null
  }

  /** Nothing but space comes before the classifier's notice. */
  ghost predicate BeginsWithNotice(text: string)
  {
    exists n: nat :: NoticeAt(text, n)
  }

  /** Only a text that begins with the notice counts as a stop; quoting it
      elsewhere does not. */
  ghost predicate IsStop(block: Json)
  {
    || (block.Text? && BeginsWithNotice(block.text))
    || (Member(block, "type") == Text("text") && Member(block, "text").Text? && BeginsWithNotice(Member(block, "text").text))
  }

  lemma NoticeIsNoSpace()
    ensures |CLASSIFIER_STOP| > 0 && !IsSpace(CLASSIFIER_STOP[0])
  {
    assert CLASSIFIER_STOP[0] == "Your "[0] == 'Y';
  }

  ghost predicate NoticeAt(text: string, n: nat)
  {
    n <= |text| && (forall i :: 0 <= i < n ==> IsSpace(text[i])) && CLASSIFIER_STOP <= text[n..]
  }

  lemma {:induction false} NoticeAfterSpace(text: string)
    ensures CLASSIFIER_STOP <= LeftStrip(text) <==> BeginsWithNotice(text)
  {
    if |text| > 0 && IsSpace(text[0]) {
      NoticeAfterSpace(text[1..]);
      if n: nat :| NoticeAt(text[1..], n) {
        NoticeMoves(text, n);
      }
      NoticeIsNoSpace();
      assert !NoticeAt(text, 0) by {
        assert text[0..][0] == text[0];
      }
      if n: nat :| NoticeAt(text, n) {
        var m := n - 1;
        NoticeMoves(text, m);
        assert NoticeAt(text[1..], m);
      }
    } else {
      assert text[0..] == text;
      assert CLASSIFIER_STOP <= text ==> NoticeAt(text, 0);
    }
  }

  lemma NoticeMoves(text: string, n: nat)
    requires |text| > 0 && IsSpace(text[0])
    ensures NoticeAt(text[1..], n) <==> NoticeAt(text, n + 1)
  {
    if n < |text| {
      assert text[1..][n..] == text[n + 1..];
      assert forall i :: 0 < i < n + 1 ==> text[i] == text[1..][i - 1];
      assert forall i :: 0 <= i < n ==> text[1..][i] == text[i + 1];
    }
  }

  /** The positions of the stops. */
  ghost function StopsOf(blocks: seq<Json>): set<int>
  {
    set i | 0 <= i < |blocks| && IsStop(blocks[i])
  }

  lemma StopsGrow(blocks: seq<Json>, block: Json)
    ensures |StopsOf(blocks + [block])| == |StopsOf(blocks)| + if IsStop(block) then 1 else 0
  {
    var n := |blocks|;
    assert StopsOf(blocks + [block]) == if IsStop(block) then StopsOf(blocks) + {n} else StopsOf(blocks);
  }

  lemma StopCountsOnce(block: Json, t: Truth)
    ensures CountStop(block, t) == t.(stops := t.stops + if IsStop(block) then 1 else 0)
  {
    var text := if block.Object? && Get(block.fields, "type") == Text("text") then Get(block.fields, "text") else block;
    if text.Text? {
      NoticeAfterSpace(text.text);
    }
  }

  lemma {:induction false} StopsAreCounted(blocks: seq<Json>, t: Truth)
    ensures CountStops(blocks, t).stops == t.stops + |StopsOf(blocks)|
    ensures CountStops(blocks, t) == t.(stops := CountStops(blocks, t).stops)
  {
    if |blocks| == 0 {
    } else {
      var n := |blocks| - 1;
      StopsAreCounted(blocks[..n], t);
      StopCountsOnce(blocks[n], CountStops(blocks[..n], t));
      StopsGrow(blocks[..n], blocks[n]);
      assert blocks == blocks[..n] + [blocks[n]];
    }
  }

  /** No line retracts a fallback or a classifier stop. */
  lemma LineKeepsWarnings(lib: Library, line: Bytes, t: Truth)
    ensures ScanLine(lib, line, t).Some? ==> KeepsWarnings(t, ScanLine(lib, line, t).value)
  {
    match lib.decode(line) {
      case Value(Object(event)) => EventKeepsWarnings(lib, event, t);
      case _ =>
    }
  }

  lemma EventKeepsWarnings(lib: Library, event: map<string, Json>, t: Truth)
    ensures ScanEvent(lib, event, t).Some? ==> KeepsWarnings(t, ScanEvent(lib, event, t).value)
  {
    var message := if Get(event, "message").Object? then Get(event, "message").fields else map[];
    var content := Get(message, "content");
    BlocksKeepWarnings(lib, if content.List? then content.items else [], t);
    StopsAreCounted(if content.Text? then [content] else if content.List? then content.items else [], t);
  }

  /** Only the main thread names the task's model: an event of a subagent, or of
      any kind but an assistant message, leaves the model alone. */
  lemma ModelOnlyFromMainThread(lib: Library, event: map<string, Json>, t: Truth)
    requires ScanEvent(lib, event, t).Some? && ScanEvent(lib, event, t).value.model != t.model
    ensures Get(event, "type") == Text("assistant") && Get(event, "parent_tool_use_id").Null?
    ensures Get(event, "message").Object?
            && Get(Get(event, "message").fields, "model") == Text(ScanEvent(lib, event, t).value.model)
  {
    var message := if Get(event, "message").Object? then Get(event, "message").fields else map[];
    var content := Get(message, "content");
    BlocksKeepWarnings(lib, if content.List? then content.items else [], t);
    StopsAreCounted(if content.Text? then [content] else if content.List? then content.items else [], t);
  }

  // ---------------------------------------------------------------------------
  // What a line says, independent of what came before
  // ---------------------------------------------------------------------------

  predicate IsFallback(block: Json)
  {
    Member(block, "type") == Text("fallback")
  }

  predicate IsAssistant(event: Json)
  {
    Member(event, "type") == Text("assistant")
  }

  predicate IsNotice(event: Json)
  {
    Member(event, "type") == Text("system") && Member(event, "subtype") == Text("model_refusal_fallback")
  }

  /** The blocks of the event's message. */
  function BlocksOf(event: Json): seq<Json>
  {
    var content := Member(Member(event, "message"), "content");
    if content.List? then content.items else []
  }

  /** The event reports a fallback to another model. */
  predicate EventFallsBack(event: Json)
  {
    (IsAssistant(event) && exists b :: b in BlocksOf(event) && IsFallback(b)) || IsNotice(event)
  }

  /** The name a value gives: null, zero and everything empty name nothing. */
  function NameOf(lib: Library, j: Json): Option<string>
  {
    match j
    case Text(text) => if text == "" then None else Some(text)
    case Null => None
    case Bool(flag) => if flag then lib.show(j) else None
    case Number(value) => if value == 0.0 then None else lib.show(j)
    case List(items) => if items == [] then None else lib.show(j)
    case Object(fields) => if fields == map[] then None else lib.show(j)
  }

  /** What the last fallback block that names a target names. */
  function LastTarget(lib: Library, blocks: seq<Json>): Option<string>
  {
    if |blocks| == 0 then None
    else
      var last := blocks[|blocks| - 1];
      var target := if IsFallback(last) then NameOf(lib, Member(Member(last, "to"), "model")) else None;
      if target.Some? then target else LastTarget(lib, blocks[..|blocks| - 1])
  }

  /** The model that the event says the spawn fell back to. */
  function EventTarget(lib: Library, event: Json): Option<string>
  {
    if IsAssistant(event) then LastTarget(lib, BlocksOf(event))
    else if IsNotice(event) then NameOf(lib, Member(event, "fallback_model"))
    else None
  }

  /** The model that an assistant event of the main thread names. */
  function EventModel(event: Json): Option<string>
  {
    var model := Member(Member(event, "message"), "model");
    if IsAssistant(event) && Member(event, "parent_tool_use_id").Null? && model.Text?
       && |model.text| > 0 && model.text[0] != '<'
    then Some(model.text) else None
  }

  /** How many texts of a user event begin with the notice. */
  ghost function EventStops(event: Json): nat
  {
    if Member(event, "type") != Text("user") then 0
    else |StopsOf(SaidIn(event))|
  }

  /** The texts and blocks of a message. */
  function SaidIn(event: Json): seq<Json>
  {
    var content := Member(Member(event, "message"), "content");
    if content.Text? then [content] else BlocksOf(event)
  }

  /** The event on a marked line; null where there is none. */
  function EventOf(lib: Library, line: Bytes): Json
  {
    if !Marked(line) then Null
    else match lib.decode(line) case Value(Object(fields)) => Object(fields) case _ => Null
  }

  lemma {:induction false} BlocksMeaning(lib: Library, blocks: seq<Json>, t: Truth)
    requires ScanBlocks(lib, blocks, t).Some?
    ensures var after := ScanBlocks(lib, blocks, t).value;
            && (after.fellBack <==> t.fellBack || exists b :: b in blocks && IsFallback(b))
            && after.fbTo == if LastTarget(lib, blocks).Some? then LastTarget(lib, blocks).value else t.fbTo
  {
    if |blocks| == 0 {
    } else {
      var front, last := blocks[..|blocks| - 1], blocks[|blocks| - 1];
      BlocksMeaning(lib, front, t);
      assert forall b :: b in blocks <==> b in front || b == last;
      BlockMeaning(lib, last, ScanBlocks(lib, front, t).value);
      assert (exists b :: b in blocks && IsFallback(b)) <==> (exists b :: b in front && IsFallback(b)) || IsFallback(last);
    }
  }

  lemma BlockMeaning(lib: Library, block: Json, t: Truth)
    requires ScanBlock(lib, block, t).Some?
    ensures var after := ScanBlock(lib, block, t).value;
            var target := NameOf(lib, Member(Member(block, "to"), "model"));
            && (after.fellBack <==> t.fellBack || IsFallback(block))
            && after.fbTo == if IsFallback(block) && target.Some? then target.value else t.fbTo
  {
  }

  /** What one line sets, said by the line alone. */
  ghost predicate Says(lib: Library, line: Bytes, t: Truth, after: Truth)
  {
    var event := EventOf(lib, line);
    && (after.fellBack <==> t.fellBack || EventFallsBack(event))
    && after.fbTo == (if EventTarget(lib, event).Some? then EventTarget(lib, event).value else t.fbTo)
    && after.model == (if EventModel(event).Some? then EventModel(event).value else t.model)
    && after.stops == t.stops + EventStops(event)
  }

  lemma LineMeaning(lib: Library, line: Bytes, t: Truth)
    requires ScanLine(lib, line, t).Some?
    ensures Says(lib, line, t, ScanLine(lib, line, t).value)
  {
    if EventOf(lib, line).Object? {
      EventMeaning(lib, EventOf(lib, line).fields, line, t);
    }
  }

  lemma EventMeaning(lib: Library, event: map<string, Json>, line: Bytes, t: Truth)
    requires ScanEvent(lib, event, t).Some? && EventOf(lib, line) == Object(event)
    ensures Says(lib, line, t, ScanEvent(lib, event, t).value)
  {
    var blocks, said := BlocksOf(Object(event)), SaidIn(Object(event));
    if Get(event, "type") == Text("assistant") {
      BlocksKeepWarnings(lib, blocks, t);
      BlocksMeaning(lib, blocks, t);
      assert |Text("user").text| != |Text("assistant").text| && |Text("system").text| != |Text("assistant").text|;
    } else if Get(event, "type") == Text("user") {
      StopsAreCounted(said, t);
      assert Text("user").text[0] != Text("system").text[0];
    } else if Get(event, "type") == Text("system") {
      assert Text("user").text[0] != Text("system").text[0];
    }
  }
}
