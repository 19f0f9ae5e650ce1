/** The JSON values of note frontmatter: printing in the plain and the fully
    escaped spelling (`plugins/chrono-vault/notes.py`) and reading as the
    standard library does (RFC 8259, section 7 for strings). */
module FrontmatterJson {
  import opened Collections
  import opened Values

  datatype Json = Null | Number(number: int) | Text(text: string) | Texts(items: seq<string>)

  // ---------------------------------------------------------------------------
  // Characters
  // ---------------------------------------------------------------------------

  function HexDigit(n: nat): char
    requires n < 16
  {
    "0123456789abcdef"[n]
  }

  function HexValue(c: char): Option<nat>
  {
    if '0' <= c <= '9' then Some(c as int - '0' as int)
    else if 'a' <= c <= 'f' then Some(c as int - 'a' as int + 10)
    else if 'A' <= c <= 'F' then Some(c as int - 'A' as int + 10)
    else None
  }

  function Hex4(n: nat): string
    requires n < 0x1_0000
  {
    [HexDigit(n / 4096), HexDigit(n / 256 % 16), HexDigit(n / 16 % 16), HexDigit(n % 16)]
  }

  /** The number spelled by the first four characters. */
  function ReadHex4(s: string): (n: Option<nat>)
    ensures n.Some? ==> n.value < 0x1_0000 && |s| >= 4
  {
    if |s| < 4 then None
    else
      match (HexValue(s[0]), HexValue(s[1]), HexValue(s[2]), HexValue(s[3]))
      case (Some(a), Some(b), Some(c), Some(d)) =>
        if a < 16 && b < 16 && c < 16 && d < 16 then Some(a * 4096 + b * 256 + c * 16 + d) else None
      case _ => None
  }

  function UnicodeEscape(n: nat): string
    requires n < 0x1_0000
  {
    "\\u" + Hex4(n)
  }

  /** `json.dumps` without ASCII escaping. */
  function PlainChar(c: char): string
  {
    if c == '"' then "\\\""
    else if c == '\\' then "\\\\"
    else if c == '\n' then "\\n"
    else if c == '\r' then "\\r"
    else if c == '\t' then "\\t"
    else if c as int == 8 then "\\b"
    else if c as int == 12 then "\\f"
    else if c as int < 0x20 then UnicodeEscape(c as int)
    else [c]
  }

  function HighHalf(n: nat): (h: nat)
    requires 0x1_0000 <= n < 0x11_0000
    ensures 0xD800 <= h < 0xDC00
  {
    0xD800 + (n - 0x1_0000) / 0x400
  }

  function LowHalf(n: nat): (l: nat)
    requires 0x1_0000 <= n < 0x11_0000
    ensures 0xDC00 <= l < 0xE000
  {
    0xDC00 + (n - 0x1_0000) % 0x400
  }

  function Combined(high: nat, low: nat): nat
    requires high >= 0xD800 && low >= 0xDC00
  {
    0x1_0000 + (high - 0xD800) * 0x400 + (low - 0xDC00)
  }

  /** Every character as an escape, beyond the basic plane as a surrogate pair. */
  function EscapedChar(c: char): string
  {
    var n := c as int;
    if n < 0x1_0000 then UnicodeEscape(n)
    else UnicodeEscape(HighHalf(n)) + UnicodeEscape(LowHalf(n))
  }

  function CharText(c: char, plain: bool): string
  {
    if plain then PlainChar(c) else EscapedChar(c)
  }

  datatype Unit = Char(c: char, rest: string) | Close(rest: string) | Bad

  function ScalarUnit(n: nat, rest: string): Unit
  {
    if n < 0xD800 || 0xE000 <= n < 0x11_0000 then Char(n as char, rest) else Bad
  }

  /** What follows a backslash. A lone surrogate has no character here. */
  function ReadEscape(s: string): (u: Unit)
    ensures u.Char? ==> |u.rest| < |s|
    ensures !u.Close?
  {
    if |s| == 0 then Bad
    else if s[0] == '"' || s[0] == '\\' || s[0] == '/' then Char(s[0], s[1..])
    else if s[0] == 'b' then Char(8 as char, s[1..])
    else if s[0] == 'f' then Char(12 as char, s[1..])
    else if s[0] == 'n' then Char('\n', s[1..])
    else if s[0] == 'r' then Char('\r', s[1..])
    else if s[0] == 't' then Char('\t', s[1..])
    else if s[0] == 'u' then ReadUnicode(s[1..])
    else Bad
  }

  function ReadUnicode(s: string): (u: Unit)
    ensures u.Char? ==> |u.rest| < |s|
    ensures !u.Close?
  {
    match ReadHex4(s)
    case None => Bad
    case Some(high) =>
      if 0xD800 <= high < 0xDC00 && |s| >= 6 && s[4] == '\\' && s[5] == 'u' then
        match ReadHex4(s[6..])
        case None => Bad
        case Some(low) =>
          if 0xDC00 <= low < 0xE000 then ScalarUnit(Combined(high, low), s[10..])
          else Bad
      else ScalarUnit(high, s[4..])
  }

  function ReadUnit(s: string): (u: Unit)
    ensures u.Char? ==> |u.rest| < |s|
    ensures u.Close? ==> |u.rest| < |s|
  {
    if |s| == 0 then Bad
    else if s[0] == '"' then Close(s[1..])
    else if s[0] == '\\' then ReadEscape(s[1..])
    else if s[0] as int < 0x20 then Bad
    else Char(s[0], s[1..])
  }

  lemma HexRoundTrip(n: nat, rest: string)
    requires n < 0x1_0000
    ensures ReadHex4(Hex4(n) + rest) == Some(n)
  {
    var s := Hex4(n) + rest;
    var a, b, c, d := n / 4096, n / 256 % 16, n / 16 % 16, n % 16;
    assert s[0] == HexDigit(a) && s[1] == HexDigit(b) && s[2] == HexDigit(c) && s[3] == HexDigit(d);
    DigitRoundTrip(a);
    DigitRoundTrip(b);
    DigitRoundTrip(c);
    DigitRoundTrip(d);
    HexPlaces(n);
  }

  lemma HexPlaces(n: nat)
    ensures n / 4096 * 4096 + n / 256 % 16 * 256 + n / 16 % 16 * 16 + n % 16 == n
  {
    assert n / 16 / 16 == n / 256 && n / 256 / 16 == n / 4096;
    assert n / 16 == n / 256 * 16 + n / 16 % 16;
    assert n / 256 == n / 4096 * 16 + n / 256 % 16;
  }

  lemma DigitRoundTrip(n: nat)
    requires n < 16
    ensures HexValue(HexDigit(n)) == Some(n)
  {
  }

  /** Either spelling of a character reads back as that character. */
  lemma CharRoundTrip(c: char, plain: bool, rest: string)
    ensures ReadUnit(CharText(c, plain) + rest) == Char(c, rest)
  {
    var n := c as int;
    if plain && n >= 0x20 && c != '"' && c != '\\' {
      assert ([c] + rest)[1..] == rest;
    } else if plain && (n >= 0x20 || n == 8 || n == 9 || n == 10 || n == 12 || n == 13) {
      var s := PlainChar(c) + rest;
      assert s[1..][0] == PlainChar(c)[1] && s[1..][1..] == rest;
    } else if n < 0x1_0000 {
      EscapeReads(n, rest);
    } else {
      PairReads(n, c, rest);
    }
  }

  lemma EscapeShape(n: nat, tail: string)
    requires n < 0x1_0000
    ensures var s := UnicodeEscape(n) + tail;
            && |s| == 6 + |tail| && s[0] == '\\' && s[1] == 'u' && s[1..][1..] == s[2..]
            && ReadHex4(s[2..]) == Some(n) && s[6..] == tail
  {
    var s := UnicodeEscape(n) + tail;
    assert s[2..] == Hex4(n) + tail;
    HexRoundTrip(n, tail);
  }

  lemma EscapeReads(n: nat, rest: string)
    requires n < 0xD800 || 0xE000 <= n < 0x1_0000
    ensures ReadUnit(UnicodeEscape(n) + rest) == Char(n as char, rest)
  {
    var s := UnicodeEscape(n) + rest;
    EscapeShape(n, rest);
    assert s[2..][4..] == s[6..];
  }

  lemma PairReads(n: nat, c: char, rest: string)
    requires n == c as int && n >= 0x1_0000
    ensures ReadUnit(EscapedChar(c) + rest) == Char(c, rest)
  {
    HalvesCombine(n);
    Associates(UnicodeEscape(HighHalf(n)), UnicodeEscape(LowHalf(n)), rest);
    PairUnit(HighHalf(n), LowHalf(n), rest);
  }

  lemma HalvesCombine(n: nat)
    requires 0x1_0000 <= n < 0x11_0000
    ensures Combined(HighHalf(n), LowHalf(n)) == n
  {
  }

  lemma PairUnit(high: nat, low: nat, rest: string)
    requires 0xD800 <= high < 0xDC00 && 0xDC00 <= low < 0xE000
    ensures ReadUnit(UnicodeEscape(high) + (UnicodeEscape(low) + rest)) ==
            ScalarUnit(Combined(high, low), rest)
  {
    var tail := UnicodeEscape(low) + rest;
    var s := UnicodeEscape(high) + tail;
    EscapeShape(high, tail);
    EscapeShape(low, rest);
    assert s[2..][4..] == s[6..];
    PairJoins(high, low, s[2..], tail, rest);
    UnicodeUnit(s);
  }

  lemma UnicodeUnit(s: string)
    requires |s| >= 2 && s[0] == '\\' && s[1] == 'u' && s[1..][1..] == s[2..]
    ensures ReadUnit(s) == ReadUnicode(s[2..])
  {
  }

  lemma PairJoins(high: nat, low: nat, joint: string, tail: string, rest: string)
    requires 0xD800 <= high < 0xDC00 && 0xDC00 <= low < 0xE000 && |joint| >= 4 && |tail| >= 6
    requires ReadHex4(joint) == Some(high) && joint[4..] == tail
    requires tail[0] == '\\' && tail[1] == 'u' && ReadHex4(tail[2..]) == Some(low) && tail[6..] == rest
    ensures ReadUnicode(joint) == ScalarUnit(Combined(high, low), rest)
  {
    assert joint[4] == tail[0] && joint[5] == tail[1];
    assert joint[6..] == tail[2..] && joint[10..] == tail[6..];
  }

  // ---------------------------------------------------------------------------
  // Strings
  // ---------------------------------------------------------------------------

  function BodyText(s: string, plain: bool): string
  {
    if |s| == 0 then "" else CharText(s[0], plain) + BodyText(s[1..], plain)
  }

  function TextJson(s: string, plain: bool): string
  {
    "\"" + BodyText(s, plain) + "\""
  }

  datatype Scan<+T> = Got(value: T, rest: string) | Fail

  /** The content of a string up to its closing quote. */
  function ReadBody(s: string): (r: Scan<string>)
    ensures r.Got? ==> |r.rest| < |s|
    decreases |s|
  {
    match ReadUnit(s)
    case Bad => Fail
    case Close(rest) => Got("", rest)
    case Char(c, rest) =>
      match ReadBody(rest)
      case Fail => Fail
      case Got(text, after) => Got([c] + text, after)
  }

  function Prepended(text: string, r: Scan<string>): Scan<string>
  {
    match r case Fail => Fail case Got(more, rest) => Got(text + more, rest)
  }

  lemma {:induction false} BodyReads(s: string, plain: bool, rest: string)
    ensures ReadBody(BodyText(s, plain) + rest) == Prepended(s, ReadBody(rest))
  {
    if |s| == 0 {
      assert BodyText(s, plain) + rest == rest;
      assert ReadBody(rest).Got? ==> "" + ReadBody(rest).value == ReadBody(rest).value;
    } else {
      var c, more := s[0], s[1..];
      var tail := BodyText(more, plain) + rest;
      assert BodyText(s, plain) + rest == CharText(c, plain) + tail;
      CharReads(c, plain, tail);
      BodyReads(more, plain, rest);
      PrependedTwice(c, more, s, ReadBody(rest));
    }
  }

  lemma CharReads(c: char, plain: bool, tail: string)
    ensures ReadBody(CharText(c, plain) + tail) == Prepended([c], ReadBody(tail))
  {
    CharRoundTrip(c, plain, tail);
  }

  lemma PrependedTwice(c: char, more: string, s: string, r: Scan<string>)
    requires s == [c] + more
    ensures Prepended([c], Prepended(more, r)) == Prepended(s, r)
  {
    assert r.Got? ==> [c] + (more + r.value) == s + r.value;
  }

  /** A string reads back up to its closing quote. */
  lemma TextReads(s: string, plain: bool, rest: string)
    ensures ReadBody(BodyText(s, plain) + "\"" + rest) == Got(s, rest)
  {
    var close := "\"" + rest;
    assert BodyText(s, plain) + "\"" + rest == BodyText(s, plain) + close;
    BodyReads(s, plain, close);
    assert close[1..] == rest;
    assert s + "" == s;
  }

  // ---------------------------------------------------------------------------
  // Values
  // ---------------------------------------------------------------------------

  function Digit(n: nat): char
    requires n < 10
  {
    "0123456789"[n]
  }

  function NatText(n: nat): string
  {
    if n < 10 then [Digit(n)] else NatText(n / 10) + [Digit(n % 10)]
  }

  function ItemsText(items: seq<string>, plain: string -> bool): string
  {
    if |items| == 0 then ""
    else if |items| == 1 then TextJson(items[0], plain(items[0]))
    else TextJson(items[0], plain(items[0])) + ", " + ItemsText(items[1..], plain)
  }

  /** The printed value, each string in the spelling `plain` chooses for it. */
  function Spelled(v: Json, plain: string -> bool): string
  {
    match v
    case Null => "null"
    case Number(n) => if n < 0 then "-" + NatText(-n) else NatText(n)
    case Text(s) => TextJson(s, plain(s))
    case Texts(items) => "[" + ItemsText(items, plain) + "]"
  }

  /** The spelling the screening leaves: plain unless screening refuses it. */
  function PlainIfClean(clean: string -> bool): string -> bool
  {
    s => clean(TextJson(s, true))
  }

  /** `_frontmatter_json`; None is the refusal of the screening. */
  function FrontmatterValue(clean: string -> bool, v: Json): (r: Option<string>)
    ensures r.Some? ==> r.value == Spelled(v, PlainIfClean(clean))
  {
    match v
    case Texts(items) =>
      (match FrontmatterItems(clean, items) case None => None case Some(text) => Some("[" + text + "]"))
    case Text(s) => FrontmatterText(clean, s)
    case _ =>
      var encoded := Spelled(v, PlainIfClean(clean));
      if clean(encoded) then Some(encoded) else None
  }

  function FrontmatterText(clean: string -> bool, s: string): Option<string>
  {
    if !clean(s) then None
    else if clean(TextJson(s, true)) then Some(TextJson(s, true))
    else if clean(TextJson(s, false)) then Some(TextJson(s, false))
    else None
  }

  function FrontmatterItems(clean: string -> bool, items: seq<string>): (r: Option<string>)
    ensures r.Some? ==> r.value == ItemsText(items, PlainIfClean(clean))
  {
    if |items| == 0 then Some("")
    else
      match FrontmatterText(clean, items[0])
      case None => None
      case Some(first) =>
        if |items| == 1 then Some(first)
        else
          match FrontmatterItems(clean, items[1..])
          case None => None
          case Some(more) => Some(first + ", " + more)
  }

  function SkipSpace(s: string): (r: string)
    ensures |r| <= |s|
  {
    if |s| > 0 && (s[0] == ' ' || s[0] == '\t' || s[0] == '\n' || s[0] == '\r') then SkipSpace(s[1..]) else s
  }

  function Digits(s: string, value: nat): (nat, string)
    decreases |s|
  {
    if |s| > 0 && '0' <= s[0] <= '9' then Digits(s[1..], value * 10 + (s[0] as int - '0' as int)) else (value, s)
  }

  /** A number without leading zeros. */
  function ReadNat(s: string): Scan<int>
  {
    if |s| == 0 || !('0' <= s[0] <= '9') then Fail
    else if s[0] == '0' then Got(0, s[1..])
    else Got(Digits(s, 0).0, Digits(s, 0).1)
  }

  /** The strings of a list, up to its closing bracket. */
  function ReadItems(s: string): Scan<seq<string>>
    decreases |s|
  {
    if |s| == 0 || s[0] != '"' then Fail
    else
      match ReadBody(s[1..])
      case Fail => Fail
      case Got(first, rest) =>
        var next := SkipSpace(rest);
        if |next| == 0 then Fail
        else if next[0] == ']' then Got([first], next[1..])
        else if next[0] != ',' then Fail
        else
          match ReadItems(SkipSpace(next[1..]))
          case Fail => Fail
          case Got(more, after) => Got([first] + more, after)
  }

  function ReadValue(s: string): Scan<Json>
  {
    if "null" <= s then Got(Null, s[4..])
    else if |s| == 0 then Fail
    else if s[0] == '"' then (match ReadBody(s[1..]) case Fail => Fail case Got(text, rest) => Got(Text(text), rest))
    else if s[0] == '[' then
      var inner := SkipSpace(s[1..]);
      if |inner| > 0 && inner[0] == ']' then Got(Texts([]), inner[1..])
      else (match ReadItems(inner) case Fail => Fail case Got(items, rest) => Got(Texts(items), rest))
    else if s[0] == '-' then (match ReadNat(s[1..]) case Fail => Fail case Got(n, rest) => Got(Number(-n), rest))
    else (match ReadNat(s) case Fail => Fail case Got(n, rest) => Got(Number(n), rest))
  }

  /** `json.loads` for the kinds of value that notes hold. */
  function Decode(s: string): Option<Json>
  {
    match ReadValue(SkipSpace(s))
    case Fail => None
    case Got(v, rest) => if SkipSpace(rest) == "" then Some(v) else None
  }

  lemma {:induction false} DigitsRead(n: nat, rest: string)
    ensures Digits(NatText(n) + rest, 0) == Digits(rest, n)
    ensures |NatText(n)| > 0 && '0' <= NatText(n)[0] <= '9' && (n > 0 ==> NatText(n)[0] != '0')
  {
    if n < 10 {
      assert (NatText(n) + rest)[1..] == rest;
    } else {
      var tail := [Digit(n % 10)] + rest;
      DigitsRead(n / 10, tail);
      assert NatText(n) + rest == NatText(n / 10) + tail;
      assert tail[1..] == rest;
    }
  }

  lemma NatReads(n: nat)
    ensures ReadNat(NatText(n)) == Got(n, "")
  {
    DigitsRead(n, "");
    assert NatText(n) + "" == NatText(n);
    assert Digits("", n) == (n, "");
    assert n == 0 ==> NatText(n)[1..] == "";
  }

  lemma {:induction false} ItemsRead(items: seq<string>, plain: string -> bool, rest: string)
    requires |items| > 0
    ensures ReadItems(ItemsText(items, plain) + "]" + rest) == Got(items, rest)
  {
    var text, spelling := items[0], plain(items[0]);
    var close := "]" + rest;
    if |items| == 1 {
      ItemReads(text, spelling, close);
      assert ItemsText(items, plain) + "]" + rest == TextJson(text, spelling) + close;
      assert close[1..] == rest;
      assert [text] == items;
    } else {
      var more := items[1..];
      var tail := ItemsText(more, plain) + "]" + rest;
      var after := ", " + tail;
      ItemsRead(more, plain, rest);
      ItemsSplit(items, plain, rest);
      ItemReads(text, spelling, after);
      ItemsStart(more, plain, rest);
      LinkSkipped(tail);
      assert [text] + more == items;
    }
  }

  lemma ItemsSplit(items: seq<string>, plain: string -> bool, rest: string)
    requires |items| > 1
    ensures ItemsText(items, plain) + "]" + rest ==
            TextJson(items[0], plain(items[0])) + (", " + (ItemsText(items[1..], plain) + "]" + rest))
  {
  }

  lemma ItemsStart(items: seq<string>, plain: string -> bool, rest: string)
    requires |items| > 0
    ensures (ItemsText(items, plain) + "]" + rest)[0] == '"'
  {
  }

  lemma TextStart(text: string, spelling: bool, after: string)
    ensures var s := TextJson(text, spelling) + after; s[0] == '"' && ReadBody(s[1..]) == Got(text, after)
  {
    TextReads(text, spelling, after);
    Quoted("\"", BodyText(text, spelling), after);
  }

  lemma Quoted(quote: string, body: string, after: string)
    requires |quote| == 1
    ensures var s := quote + body + quote + after; s[0] == quote[0] && s[1..] == body + quote + after
  {
  }

  /** One item of a list, with what follows it starting at a bracket or comma. */
  lemma ItemReads(text: string, spelling: bool, after: string)
    requires |after| > 0 && (after[0] == ']' || after[0] == ',')
    ensures ReadItems(TextJson(text, spelling) + after) ==
            if after[0] == ']' then Got([text], after[1..]) else WithFirst(text, ReadItems(SkipSpace(after[1..])))
  {
    TextStart(text, spelling, after);
    var s := TextJson(text, spelling) + after;
    ItemStep(s, text, after);
  }

  function WithFirst(text: string, r: Scan<seq<string>>): Scan<seq<string>>
  {
    match r case Fail => Fail case Got(more, rest) => Got([text] + more, rest)
  }

  lemma ItemStep(s: string, text: string, after: string)
    requires |s| > 0 && s[0] == '"' && ReadBody(s[1..]) == Got(text, after)
    requires |after| > 0 && (after[0] == ']' || after[0] == ',')
    ensures ReadItems(s) ==
            if after[0] == ']' then Got([text], after[1..]) else WithFirst(text, ReadItems(SkipSpace(after[1..])))
  {
  }

  lemma LinkSkipped(tail: string)
    requires |tail| > 0 && tail[0] == '"'
    ensures SkipSpace((", " + tail)[1..]) == tail
  {
    var spaced := (", " + tail)[1..];
    assert spaced == " " + tail && spaced[1..] == tail;
  }

  lemma NumberReads(n: int, plain: string -> bool)
    ensures Decode(Spelled(Number(n), plain)) == Some(Number(n))
  {
    if n < 0 {
      NatReads(-n);
      SignedStep("-" + NatText(-n), NatText(-n), -n);
    } else {
      NatReads(n);
      DigitsRead(n, "");
      UnsignedStep(NatText(n), n);
    }
  }

  lemma SignedStep(s: string, digits: string, n: int)
    requires s == "-" + digits && ReadNat(digits) == Got(n, "")
    ensures Decode(s) == Some(Number(-n))
  {
    assert s[0] == '-' && s[1..] == digits;
  }

  lemma UnsignedStep(s: string, n: nat)
    requires |s| > 0 && '0' <= s[0] <= '9' && ReadNat(s) == Got(n, "")
    ensures Decode(s) == Some(Number(n))
  {
    assert SkipSpace(s) == s;
  }

  lemma StringReads(text: string, plain: string -> bool)
    ensures Decode(Spelled(Text(text), plain)) == Some(Text(text))
  {
    var s := Spelled(Text(text), plain);
    TextReads(text, plain(text), "");
    assert s[1..] == BodyText(text, plain(text)) + "\"" + "";
  }

  lemma ListReads(items: seq<string>, plain: string -> bool)
    ensures Decode(Spelled(Texts(items), plain)) == Some(Texts(items))
  {
    var s := Spelled(Texts(items), plain);
    if |items| == 0 {
      assert s == "[]" && s[1..] == "]" && "]"[1..] == "";
    } else {
      ItemsRead(items, plain, "");
      ItemsStart(items, plain, "");
      var inner := ItemsText(items, plain) + "]" + "";
      assert s[0] == '[' && s[1..] == inner;
      ListStep(s, inner, items);
    }
  }

  lemma ListStep(s: string, inner: string, items: seq<string>)
    requires |s| > 0 && s[0] == '[' && s[1..] == inner && |inner| > 0 && inner[0] == '"'
    requires ReadItems(inner) == Got(items, "")
    ensures Decode(s) == Some(Texts(items))
  {
  }

  /** Every value reads back from any mix of spellings. */
  lemma ValueRoundTrip(v: Json, plain: string -> bool)
    ensures Decode(Spelled(v, plain)) == Some(v)
  {
    match v
    case Null => assert Spelled(v, plain)[4..] == "";
    case Number(n) => NumberReads(n, plain);
    case Text(text) => StringReads(text, plain);
    case Texts(items) => ListReads(items, plain);
  }
}
