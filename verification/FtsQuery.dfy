/** Compiling recall text into literal full-text queries
    (`plugins/chrono-vault/query.py` and the expansion and selector scanner of
    `plugins/chrono-vault/recall.py`). */
module FtsQuery {
  import opened Collections
  import opened Whitespace
  import opened Values

  /** What the regular expressions and case folding of the standard library
      provide: the word tokens of a text, case folding and lower-casing, and
      which characters are word characters. */
  datatype Library = Library(tokens: string -> seq<string>, fold: string -> string, lower: string -> string, word: char -> bool)

  const MAX_TERMS: nat := 32
  const NO_TERMS_SENTINEL := "__chrono_no_terms__"
  const MAX_EXPANSION_TERMS: nat := 16
  const STOPWORDS: set<string> := {
    "a", "an", "and", "are", "as", "at", "be", "by", "can", "could", "did", "do", "does", "for", "from", "how", "i",
    "in", "is", "it", "of", "on", "or", "should", "that", "the", "this", "to", "use", "was", "we", "were", "what",
    "when", "where", "which", "who", "why", "will", "with", "would", "you"
  }
  const WEIGHT_FIELDS: set<string> := {
    "title", "body", "aliases", "target", "component", "attack_class", "keywords", "evidence_summary"
  }

  // ---------------------------------------------------------------------------
  // Quoting
  // ---------------------------------------------------------------------------

  /** Embedded quotes are doubled. */
  function Doubled(term: string): string
  {
    if |term| == 0 then "" else (if term[0] == '"' then "\"\"" else [term[0]]) + Doubled(term[1..])
  }

  function QuoteTerm(term: string): string
  {
    "\"" + Doubled(term) + "\""
  }

  /** `" OR ".join(_quote_term(term) for term in terms)` */
  function Compile(terms: seq<string>): string
  {
    if |terms| == 0 then ""
    else if |terms| == 1 then QuoteTerm(terms[0])
    else QuoteTerm(terms[0]) + " OR " + Compile(terms[1..])
  }

  /** The compiled query followed by further alternatives. */
  function Expanded(terms: seq<string>, added: seq<string>): string
  {
    if |added| == 0 then Compile(terms) else Compile(terms) + " OR " + Compile(added)
  }

  // ---------------------------------------------------------------------------
  // Reading a query back
  // ---------------------------------------------------------------------------

  /** The content of a literal up to its closing quote, and what follows. */
  datatype Literal = Literal(term: string, rest: string) | Unterminated

  function ReadLiteral(s: string): (l: Literal)
    ensures l.Literal? ==> |l.rest| < |s|
  {
    if |s| == 0 then Unterminated
    else if s[0] != '"' then
      match ReadLiteral(s[1..])
      case Literal(term, rest) => Literal([s[0]] + term, rest)
      case Unterminated => Unterminated
    else if |s| > 1 && s[1] == '"' then
      match ReadLiteral(s[2..])
      case Literal(term, rest) => Literal(['"'] + term, rest)
      case Unterminated => Unterminated
    else Literal("", s[1..])
  }

  /** One or more doubled-quote literals joined by OR. */
  function ReadQuery(s: string): Option<seq<string>>
    decreases |s|
  {
    if |s| == 0 || s[0] != '"' then None
    else
      match ReadLiteral(s[1..])
      case Unterminated => None
      case Literal(term, rest) =>
        if rest == "" then Some([term])
        else if |rest| >= 4 && rest[..4] == " OR " then
          match ReadQuery(rest[4..])
          case None => None
          case Some(terms) => Some([term] + terms)
        else None
  }

  lemma {:induction false} LiteralRoundTrip(term: string, rest: string)
    requires rest == "" || rest[0] != '"'
    ensures ReadLiteral(Doubled(term) + "\"" + rest) == Literal(term, rest)
  {
    var s := Doubled(term) + "\"" + rest;
    if |term| == 0 {
      assert s[1..] == rest;
    } else {
      LiteralRoundTrip(term[1..], rest);
      var tail := Doubled(term[1..]) + "\"" + rest;
      assert [term[0]] + term[1..] == term;
      if term[0] == '"' {
        assert s == "\"\"" + tail && s[2..] == tail;
      } else {
        assert s == [term[0]] + tail && s[1..] == tail;
      }
    }
  }

  /** Reading a compiled query recovers exactly its terms. */
  lemma {:induction false} QueryRoundTrip(terms: seq<string>)
    requires |terms| > 0
    ensures ReadQuery(Compile(terms)) == Some(terms)
  {
    if |terms| == 1 {
      HeadIsRead(terms[0], "", "");
      assert QuoteTerm(terms[0]) + "" == QuoteTerm(terms[0]);
      assert [terms[0]] == terms;
    } else {
      QueryRoundTrip(terms[1..]);
      HeadIsRead(terms[0], " OR ", Compile(terms[1..]));
      assert [terms[0]] + terms[1..] == terms;
    }
  }

  /** Reading takes the first literal off, and the connective after it. */
  lemma HeadIsRead(term: string, link: string, more: string)
    requires link == " OR " || (link == "" && more == "")
    ensures ReadQuery(QuoteTerm(term) + link + more) ==
            if link == "" then Some([term])
            else match ReadQuery(more) case None => None case Some(terms) => Some([term] + terms)
  {
    var rest := link + more;
    LiteralRoundTrip(term, rest);
    var s := QuoteTerm(term) + link + more;
    assert s[1..] == Doubled(term) + "\"" + rest;
    if link != "" {
      assert rest[..4] == " OR ";
      assert rest[4..] == more;
    }
  }

  lemma {:induction false} LiteralIsDoubled(s: string)
    ensures var l := ReadLiteral(s); l.Literal? ==> s == Doubled(l.term) + "\"" + l.rest
  {
    if |s| > 0 && ReadLiteral(s).Literal? {
      var l := ReadLiteral(s);
      if s[0] != '"' {
        LiteralIsDoubled(s[1..]);
        assert l.term[1..] == ReadLiteral(s[1..]).term;
        assert s == [s[0]] + s[1..];
      } else if |s| > 1 && s[1] == '"' {
        LiteralIsDoubled(s[2..]);
        assert l.term[1..] == ReadLiteral(s[2..]).term;
        assert s == "\"\"" + s[2..];
      } else {
        assert s == "\"" + s[1..];
      }
    }
  }

  /** Nothing else is readable: every readable query is the compiled form of its
      terms, so distinct term lists compile to distinct queries. */
  lemma {:induction false} ReadableIsCompiled(s: string)
    ensures ReadQuery(s).Some? ==> |ReadQuery(s).value| > 0 && Compile(ReadQuery(s).value) == s
    decreases |s|
  {
    if ReadQuery(s).Some? {
      LiteralIsDoubled(s[1..]);
      var l := ReadLiteral(s[1..]);
      QuotedHead(s, l.term, l.rest);
      if l.rest != "" {
        var more := l.rest[4..];
        ReadableIsCompiled(more);
        CompiledHead(l.term, ReadQuery(more).value, l.rest, more);
      }
    }
  }

  lemma QuotedHead(s: string, term: string, rest: string)
    requires |s| > 0 && s[0] == '"' && s[1..] == Doubled(term) + "\"" + rest
    ensures s == QuoteTerm(term) + rest && (rest == "" ==> s == Compile([term]))
  {
    assert s == "\"" + s[1..];
  }

  lemma CompiledHead(term: string, terms: seq<string>, rest: string, more: string)
    requires |terms| > 0 && Compile(terms) == more && |rest| >= 4 && rest[..4] == " OR " && rest[4..] == more
    ensures Compile([term] + terms) == QuoteTerm(term) + rest
  {
    var all, link := [term] + terms, " OR ";
    assert all[0] == term && all[1..] == terms;
    assert rest == link + more;
    Associates(QuoteTerm(term), link, more);
  }

  /** Expansion only appends literals: the expanded query reads as the original
      terms followed by the added ones. */
  lemma {:induction false} ExpansionAppends(terms: seq<string>, added: seq<string>)
    requires |terms| > 0
    ensures Expanded(terms, added) == Compile(terms + added)
    ensures ReadQuery(Expanded(terms, added)) == Some(terms + added)
  {
    QueryRoundTrip(terms + added);
    CompileAppend(terms, added);
  }

  lemma Joins(a: string, b: string, c: string, d: string)
    ensures (a + b) + c + d == a + (b + c + d)
  {
  }

  lemma {:induction false} CompileAppend(terms: seq<string>, added: seq<string>)
    requires |terms| > 0
    ensures Expanded(terms, added) == Compile(terms + added)
  {
    if |added| == 0 {
      assert terms + added == terms;
    } else {
      var all, more := terms + added, terms[1..];
      assert all[1..] == more + added;
      if |terms| == 1 {
        assert more + added == added;
      } else {
        CompileAppend(more, added);
        Joins(QuoteTerm(terms[0]) + " OR ", Compile(more), " OR ", Compile(added));
      }
    }
  }

  // ---------------------------------------------------------------------------
  // The selector scanner
  // ---------------------------------------------------------------------------

  /** Blanks out quoted text; a doubled quote inside a literal stays inside. */
  function Unquoted(query: string, inQuote: bool): string
  {
    if |query| == 0 then ""
    else if query[0] == '"' then
      if inQuote && |query| > 1 && query[1] == '"' then "  " + Unquoted(query[2..], inQuote)
      else " " + Unquoted(query[1..], !inQuote)
    else [if inQuote then ' ' else query[0]] + Unquoted(query[1..], inQuote)
  }

  predicate IsNameStart(c: char)
  {
    'A' <= c <= 'Z' || 'a' <= c <= 'z' || c == '_'
  }

  predicate IsIdentifier(lib: Library, s: string)
  {
    |s| > 0 && IsNameStart(s[0]) && forall i :: 0 <= i < |s| ==> lib.word(s[i])
  }

  /** An identifier, or two joined by a dot. */
  predicate IsSelectorName(lib: Library, s: string)
  {
    IsIdentifier(lib, s) || exists d :: 0 < d < |s| && s[d] == '.' && IsIdentifier(lib, s[..d]) && IsIdentifier(lib, s[d + 1..])
  }

  /** The text from `i` to the colon at `k` matches the column selector pattern,
      its name ending at `j`. */
  predicate SelectorAt(lib: Library, u: string, i: nat, j: nat, k: nat)
  {
    && i <= j <= k < |u| && u[k] == ':'
    && (i > 0 ==> !lib.word(u[i - 1]) && u[i - 1] != '.')
    && IsSelectorName(lib, u[i..j]) && IsBlank(u[j..k])
  }

  ghost predicate HasUnknownSelector(lib: Library, query: string)
  {
    var u := Unquoted(query, false);
    exists i: nat, j: nat, k: nat :: SelectorAt(lib, u, i, j, k) && lib.lower(u[i..j]) !in WEIGHT_FIELDS
  }

  lemma UnquotedStep(s: string, inQuote: bool, query: string, index: nat)
    requires index < |query| && s == query[index..]
    ensures var c := query[index];
            var doubled := c == '"' && inQuote && index + 1 < |query| && query[index + 1] == '"';
            Unquoted(s, inQuote) ==
            if doubled then "  " + Unquoted(query[index + 2..], inQuote)
            else if c == '"' then " " + Unquoted(query[index + 1..], !inQuote)
            else [if inQuote then ' ' else c] + Unquoted(query[index + 1..], inQuote)
  {
    assert s[1..] == query[index + 1..];
    assert |s| > 1 ==> s[2..] == query[index + 2..] && s[1] == query[index + 1];
  }

  /** The index loop that blanks out quoted text. */
  method BlankQuoted(query: string) returns (unquoted: string)
    ensures unquoted == Unquoted(query, false)
  {
    unquoted := "";
    var inQuote := false;
    var index := 0;
    assert query[0..] == query;
    while index < |query|
      invariant 0 <= index <= |query|
      invariant Unquoted(query, false) == unquoted + Unquoted(query[index..], inQuote)
    {
      var character := query[index];
      UnquotedStep(query[index..], inQuote, query, index);
      if character == '"' {
        if inQuote && index + 1 < |query| && query[index + 1] == '"' {
          unquoted := unquoted + "  ";
          index := index + 2;
          continue;
        }
        inQuote := !inQuote;
        unquoted := unquoted + " ";
      } else {
        unquoted := unquoted + [if inQuote then ' ' else character];
      }
      index := index + 1;
    }
  }

  function Blanks(n: nat): (r: string)
    ensures |r| == n && ':' !in r
  {
    if n == 0 then "" else " " + Blanks(n - 1)
  }

  /** Inside a literal the doubled content and the closing quote are blanked. */
  lemma {:induction false} LiteralIsBlanked(term: string, rest: string)
    requires rest == "" || rest[0] != '"'
    ensures Unquoted(Doubled(term) + "\"" + rest, true) == Blanks(|Doubled(term)| + 1) + Unquoted(rest, false)
  {
    var s := Doubled(term) + "\"" + rest;
    if |term| == 0 {
      assert s[1..] == rest;
      assert Blanks(1) == " ";
    } else {
      LiteralIsBlanked(term[1..], rest);
      var tail := Doubled(term[1..]) + "\"" + rest;
      if term[0] == '"' {
        assert s == "\"\"" + tail && s[2..] == tail;
        assert Blanks(|Doubled(term)| + 1) == "  " + Blanks(|Doubled(term)| - 1);
      } else {
        assert s == [term[0]] + tail && s[1..] == tail;
        assert Blanks(|Doubled(term)| + 1) == " " + Blanks(|Doubled(term)|);
      }
    }
  }

  lemma {:induction false} CompiledHasNoColon(terms: seq<string>)
    ensures ':' !in Unquoted(Compile(terms), false)
  {
    if |terms| == 1 {
      QuotedHasNoColon(terms[0], "");
      assert QuoteTerm(terms[0]) + "" == QuoteTerm(terms[0]);
    } else if |terms| > 1 {
      var more := Compile(terms[1..]);
      CompiledHasNoColon(terms[1..]);
      OrIsPlain(more);
      QuotedHasNoColon(terms[0], " OR " + more);
      assert QuoteTerm(terms[0]) + " OR " + more == QuoteTerm(terms[0]) + (" OR " + more);
    }
  }

  lemma QuotedHasNoColon(term: string, rest: string)
    requires rest == "" || rest[0] != '"'
    requires ':' !in Unquoted(rest, false)
    ensures ':' !in Unquoted(QuoteTerm(term) + rest, false)
  {
    var s := QuoteTerm(term) + rest;
    assert s[1..] == Doubled(term) + "\"" + rest;
    LiteralIsBlanked(term, rest);
  }

  lemma PlainStep(c: char, s: string)
    requires c != '"'
    ensures Unquoted([c] + s, false) == [c] + Unquoted(s, false)
  {
    assert ([c] + s)[1..] == s;
  }

  lemma OrIsPlain(s: string)
    ensures Unquoted(" OR " + s, false) == " OR " + Unquoted(s, false)
  {
    var one := " " + s;
    var two := "R" + one;
    var three := "O" + two;
    PlainStep(' ', s);
    PlainStep('R', one);
    PlainStep('O', two);
    PlainStep(' ', three);
    assert " OR " + s == " " + three;
  }

  /** No term can act as a column selector: in any compiled or expanded query the
      pattern matches nowhere, whatever the terms contain. */
  lemma NoSelectorInCompiled(lib: Library, terms: seq<string>, added: seq<string>)
    requires |terms| > 0
    ensures forall i: nat, j: nat, k: nat :: !SelectorAt(lib, Unquoted(Expanded(terms, added), false), i, j, k)
    ensures !HasUnknownSelector(lib, Expanded(terms, added))
  {
    CompileAppend(terms, added);
    CompiledHasNoColon(terms + added);
  }

  // ---------------------------------------------------------------------------
  // Choosing the terms
  // ---------------------------------------------------------------------------

  /** First occurrences up to case folding. */
  function Deduplicated(lib: Library, terms: seq<string>): seq<string>
  {
    if |terms| == 0 then []
    else
      var before := Deduplicated(lib, terms[..|terms| - 1]);
      var last := terms[|terms| - 1];
      if Covered(lib, terms[..|terms| - 1], last) then before else before + [last]
  }

  method Deduplicate(lib: Library, terms: seq<string>) returns (unique: seq<string>)
    ensures unique == Deduplicated(lib, terms)
  {
    unique := [];
    var seen: set<string> := {};
    for i := 0 to |terms|
      invariant unique == Deduplicated(lib, terms[..i])
      invariant forall f :: f in seen <==> exists t :: t in terms[..i] && lib.fold(t) == f
    {
      assert terms[..i + 1][..i] == terms[..i];
      var folded := lib.fold(terms[i]);
      if folded !in seen {
        seen := seen + {folded};
        unique := unique + [terms[i]];
      }
    }
    assert terms[..|terms|] == terms;
  }

  /** Some listed term equals `t` up to case. */
  predicate Covered(lib: Library, listed: seq<string>, t: string)
  {
    exists u :: u in listed && lib.fold(u) == lib.fold(t)
  }

  predicate DistinctUpToCase(lib: Library, listed: seq<string>)
  {
    forall i, j :: 0 <= i < j < |listed| ==> lib.fold(listed[i]) != lib.fold(listed[j])
  }

  /** The kept terms are distinct up to case, come from the list, and stand for
      every term of it. */
  lemma {:induction false} DeduplicatedCovers(lib: Library, terms: seq<string>)
    ensures forall t :: t in Deduplicated(lib, terms) ==> t in terms
    ensures forall t :: t in terms ==> Covered(lib, Deduplicated(lib, terms), t)
    ensures DistinctUpToCase(lib, Deduplicated(lib, terms))
  {
    if |terms| == 0 {
    } else {
      var front, last := terms[..|terms| - 1], terms[|terms| - 1];
      DeduplicatedCovers(lib, front);
      var before, after := Deduplicated(lib, front), Deduplicated(lib, terms);
      assert terms == front + [last];
      if Covered(lib, front, last) {
        assert after == before;
        StillCovered(lib, front, before, last);
      } else {
        assert after == before + [last];
        LastIsNew(lib, front, before, last);
      }
    }
  }

  lemma StillCovered(lib: Library, front: seq<string>, before: seq<string>, last: string)
    requires forall t :: t in front ==> Covered(lib, before, t)
    requires Covered(lib, front, last)
    ensures Covered(lib, before, last)
  {
    var s :| s in front && lib.fold(s) == lib.fold(last);
    assert Covered(lib, before, s);
  }

  lemma LastIsNew(lib: Library, front: seq<string>, before: seq<string>, last: string)
    requires forall t :: t in before ==> t in front
    requires forall t :: t in front ==> Covered(lib, before, t)
    requires DistinctUpToCase(lib, before) && !Covered(lib, front, last)
    ensures DistinctUpToCase(lib, before + [last])
    ensures forall t :: t in front + [last] ==> Covered(lib, before + [last], t)
  {
    var after := before + [last];
    forall t | t in front + [last] ensures Covered(lib, after, t) {
      if t in front {
        var u :| u in before && lib.fold(u) == lib.fold(t);
        assert u in after;
      } else {
        assert last in after;
      }
    }
    forall i | 0 <= i < |before| ensures lib.fold(before[i]) != lib.fold(last) {
      assert before[i] in front;
    }
  }

  function DropStopwords(lib: Library, terms: seq<string>): (r: seq<string>)
    ensures forall t :: t in r <==> t in terms && lib.fold(t) !in STOPWORDS
  {
    if |terms| == 0 then [] else (if lib.fold(terms[0]) in STOPWORDS then [] else [terms[0]]) + DropStopwords(lib, terms[1..])
  }

  function Limited(terms: seq<string>): seq<string>
  {
    if |terms| <= MAX_TERMS then terms else terms[..MAX_TERMS]
  }

  /** Searchable terms, else all terms, else the sentinel. */
  function QueryTerms(lib: Library, userQuery: string): seq<string>
  {
    var raw := Deduplicated(lib, lib.tokens(userQuery));
    var searchable := Limited(DropStopwords(lib, raw));
    if |searchable| > 0 then searchable else if |raw| > 0 then Limited(raw) else [NO_TERMS_SENTINEL]
  }

  method BuildFtsQuery(lib: Library, userQuery: string) returns (query: string)
    ensures query == Compile(QueryTerms(lib, userQuery))
  {
    var raw := Deduplicate(lib, lib.tokens(userQuery));
    var searchable := Limited(DropStopwords(lib, raw));
    var terms := if |searchable| > 0 then searchable else if |raw| > 0 then Limited(raw) else [NO_TERMS_SENTINEL];
    query := Compile(terms);
  }

  /** Every query compiles to a readable one with 1 to 32 terms, all tokens of
      the text; within the limit every token that is no stopword is searched
      for, up to case. */
  lemma QueryTermsAreFaithful(lib: Library, userQuery: string)
    ensures var terms := QueryTerms(lib, userQuery);
            && 1 <= |terms| <= MAX_TERMS
            && ReadQuery(Compile(terms)) == Some(terms)
            && (lib.tokens(userQuery) == [] ==> terms == [NO_TERMS_SENTINEL])
            && (lib.tokens(userQuery) != [] ==> forall t :: t in terms ==> t in lib.tokens(userQuery))
            && (|DropStopwords(lib, Deduplicated(lib, lib.tokens(userQuery)))| <= MAX_TERMS ==>
                  forall t :: t in lib.tokens(userQuery) && lib.fold(t) !in STOPWORDS ==>
                    Covered(lib, terms, t))
  {
    var tokens := lib.tokens(userQuery);
    var raw := Deduplicated(lib, tokens);
    DeduplicatedCovers(lib, tokens);
    QueryRoundTrip(QueryTerms(lib, userQuery));
    assert tokens != [] ==> raw != [] by {
      if tokens != [] {
        assert tokens[0] in tokens;
      }
    }
    if |DropStopwords(lib, raw)| <= MAX_TERMS {
      forall t | t in tokens && lib.fold(t) !in STOPWORDS
        ensures Covered(lib, QueryTerms(lib, userQuery), t)
      {
        assert Covered(lib, raw, t);
        var u :| u in raw && lib.fold(u) == lib.fold(t);
        assert u in DropStopwords(lib, raw);
      }
    }
  }

  // ---------------------------------------------------------------------------
  // Expansion
  // ---------------------------------------------------------------------------

  /** A term matches as a contiguous run of whole query tokens. */
  predicate ContainsTerm(query: seq<string>, term: seq<string>)
  {
    0 < |term| && exists start :: 0 <= start <= |query| && term <= query[start..]
  }

  function Folded(lib: Library, tokens: seq<string>): seq<string>
  {
    seq(|tokens|, i requires 0 <= i < |tokens| => lib.fold(tokens[i]))
  }

  predicate Present(lib: Library, query: seq<string>, term: string)
  {
    ContainsTerm(query, Folded(lib, lib.tokens(term)))
  }

  /** Some member of the group occurs in the query. */
  predicate Triggered(lib: Library, query: seq<string>, group: seq<string>)
  {
    exists t :: t in group && Present(lib, query, t)
  }

  /** A term that a triggered group contributes. */
  predicate Contributed(lib: Library, query: seq<string>, group: seq<string>, term: string)
  {
    term in group && Triggered(lib, query, group) && !Present(lib, query, term)
  }

  /** What the expansion has collected: absent members of triggered groups, once
      each up to case. */
  ghost predicate Collected(lib: Library, groups: seq<seq<string>>, query: seq<string>, added: seq<string>)
  {
    && DistinctUpToCase(lib, added)
    && forall t :: t in added ==> exists g :: g in groups && Contributed(lib, query, g, t)
  }

  ghost predicate Exhausted(lib: Library, groups: seq<seq<string>>, query: seq<string>, added: seq<string>)
  {
    forall g, t :: g in groups && Contributed(lib, query, g, t) ==> Covered(lib, added, t)
  }

  ghost predicate SeenIsFolded(lib: Library, added: seq<string>, seen: set<string>)
  {
    forall f :: f in seen <==> exists u :: u in added && lib.fold(u) == f
  }

  /** Alias terms for the groups the query triggers: absent members only, once
      each up to case, at most sixteen, and all of them when fewer. */
  method ExpansionTerms(lib: Library, groups: seq<seq<string>>, userQuery: string) returns (added: seq<string>)
    ensures |added| <= MAX_EXPANSION_TERMS
    ensures Collected(lib, groups, Folded(lib, lib.tokens(userQuery)), added)
    ensures |added| < MAX_EXPANSION_TERMS ==> Exhausted(lib, groups, Folded(lib, lib.tokens(userQuery)), added)
  {
    var query := Folded(lib, lib.tokens(userQuery));
    added := [];
    var seen: set<string> := {};
    for n := 0 to |groups|
      invariant |added| < MAX_EXPANSION_TERMS && SeenIsFolded(lib, added, seen)
      invariant Collected(lib, groups, query, added) && Exhausted(lib, groups[..n], query, added)
    {
      var group := groups[n];
      if !Triggered(lib, query, group) {
        assert Exhausted(lib, groups[..n + 1], query, added);
        continue;
      }
      ghost var kept := added;
      for m := 0 to |group|
        invariant |added| < MAX_EXPANSION_TERMS && SeenIsFolded(lib, added, seen) && kept <= added
        invariant Collected(lib, groups, query, added)
        invariant forall t :: t in group[..m] && !Present(lib, query, t) ==> Covered(lib, added, t)
      {
        var term := group[m];
        var folded := lib.fold(term);
        if Present(lib, query, term) || folded in seen {
          continue;
        }
        assert group in groups && Contributed(lib, query, group, term);
        CollectOne(lib, groups, query, added, seen, term, group);
        seen := seen + {folded};
        added := added + [term];
        if |added| >= MAX_EXPANSION_TERMS {
          return;
        }
      }
      GroupIsExhausted(lib, groups[..n], query, kept, added, group);
      assert groups[..n + 1] == groups[..n] + [group];
    }
    assert groups[..|groups|] == groups;
  }

  lemma GrowingCovers(lib: Library, before: seq<string>, after: seq<string>, t: string)
    requires before <= after && Covered(lib, before, t)
    ensures Covered(lib, after, t)
  {
    var u :| u in before && lib.fold(u) == lib.fold(t);
    assert u in after;
  }

  lemma CollectOne(
    lib: Library, groups: seq<seq<string>>, query: seq<string>, added: seq<string>, seen: set<string>, term: string,
    group: seq<string>)
    requires Collected(lib, groups, query, added) && SeenIsFolded(lib, added, seen)
    requires lib.fold(term) !in seen && group in groups && Contributed(lib, query, group, term)
    ensures Collected(lib, groups, query, added + [term])
    ensures SeenIsFolded(lib, added + [term], seen + {lib.fold(term)})
    ensures Covered(lib, added + [term], term)
    ensures forall t :: Covered(lib, added, t) ==> Covered(lib, added + [term], t)
  {
    var after := added + [term];
    assert term in after;
    forall t | Covered(lib, added, t) ensures Covered(lib, after, t) {
      GrowingCovers(lib, added, after, t);
    }
    forall f ensures f in seen + {lib.fold(term)} <==> exists u :: u in after && lib.fold(u) == f {
      if f in seen {
        var u :| u in added && lib.fold(u) == f;
        assert u in after;
      }
    }
    forall i | 0 <= i < |added| ensures lib.fold(added[i]) != lib.fold(term) {
      assert added[i] in added;
    }
  }

  lemma GroupIsExhausted(
    lib: Library, groups: seq<seq<string>>, query: seq<string>, kept: seq<string>, added: seq<string>, group: seq<string>)
    requires Exhausted(lib, groups, query, kept) && kept <= added
    requires forall t :: t in group && !Present(lib, query, t) ==> Covered(lib, added, t)
    ensures Exhausted(lib, groups + [group], query, added)
  {
    forall g, t | g in groups + [group] && Contributed(lib, query, g, t) ensures Covered(lib, added, t) {
      if g in groups {
        GrowingCovers(lib, kept, added, t);
      }
    }
  }

  method BuildExpandedFtsQuery(lib: Library, groups: seq<seq<string>>, userQuery: string)
    returns (query: string, ghost added: seq<string>)
    ensures query == Expanded(QueryTerms(lib, userQuery), added)
    ensures ReadQuery(query) == Some(QueryTerms(lib, userQuery) + added)
    ensures Collected(lib, groups, Folded(lib, lib.tokens(userQuery)), added) && |added| <= MAX_EXPANSION_TERMS
    ensures !HasUnknownSelector(lib, query)
  {
    var compiled := BuildFtsQuery(lib, userQuery);
    var terms := ExpansionTerms(lib, groups, userQuery);
    added := terms;
    QueryTermsAreFaithful(lib, userQuery);
    ExpansionAppends(QueryTerms(lib, userQuery), terms);
    NoSelectorInCompiled(lib, QueryTerms(lib, userQuery), terms);
    query := if |terms| == 0 then compiled else compiled + " OR " + Compile(terms);
  }
}
