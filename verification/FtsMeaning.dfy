/** Which words of a text become search terms, which aliases join them, and which
    selectors the scanner sees. */
module FtsMeaning {
  import opened Whitespace
  import opened FtsQuery

  // ---------------------------------------------------------------------------
  // Terms
  // ---------------------------------------------------------------------------

  /** No earlier token equals this one up to case. */
  predicate IsFirst(lib: Library, tokens: seq<string>, p: nat)
    requires p < |tokens|
  {
    forall q :: 0 <= q < p ==> lib.fold(tokens[q]) != lib.fold(tokens[p])
  }

  predicate IsWanted(lib: Library, tokens: seq<string>, p: nat, keepAll: bool)
    requires p < |tokens|
  {
    IsFirst(lib, tokens, p) && (keepAll || lib.fold(tokens[p]) !in STOPWORDS)
  }

  /** The wanted positions among the first `n`, in order. */
  function Wanted(lib: Library, tokens: seq<string>, n: nat, keepAll: bool): (r: seq<nat>)
    requires n <= |tokens|
    ensures forall k :: 0 <= k < |r| ==> r[k] < n
  {
    if n == 0 then []
    else if IsWanted(lib, tokens, n - 1, keepAll) then Wanted(lib, tokens, n - 1, keepAll) + [n - 1]
    else Wanted(lib, tokens, n - 1, keepAll)
  }

  lemma {:induction false} WantedAre(lib: Library, tokens: seq<string>, n: nat, keepAll: bool)
    requires n <= |tokens|
    ensures AllWanted(lib, tokens, Wanted(lib, tokens, n, keepAll), keepAll) && Increasing(Wanted(lib, tokens, n, keepAll))
  {
    if n > 0 {
      WantedAre(lib, tokens, n - 1, keepAll);
    }
  }

  predicate AllWanted(lib: Library, tokens: seq<string>, positions: seq<nat>, keepAll: bool)
  {
    forall k :: 0 <= k < |positions| ==> positions[k] < |tokens| && IsWanted(lib, tokens, positions[k], keepAll)
  }

  predicate Increasing(positions: seq<nat>)
  {
    forall j, k :: 0 <= j < k < |positions| ==> positions[j] < positions[k]
  }

  lemma {:induction false} WantedAreAll(lib: Library, tokens: seq<string>, n: nat, keepAll: bool, p: nat)
    requires p < n <= |tokens| && IsWanted(lib, tokens, p, keepAll)
    ensures p in Wanted(lib, tokens, n, keepAll)
  {
    if p < n - 1 {
      WantedAreAll(lib, tokens, n - 1, keepAll, p);
    }
  }

  function At(tokens: seq<string>, positions: seq<nat>): seq<string>
    requires forall k :: 0 <= k < |positions| ==> positions[k] < |tokens|
  {
    seq(|positions|, k requires 0 <= k < |positions| => tokens[positions[k]])
  }

  lemma {:induction false} DropAppend(lib: Library, a: seq<string>, t: string)
    ensures DropStopwords(lib, a + [t]) == DropStopwords(lib, a) + if lib.fold(t) in STOPWORDS then [] else [t]
  {
    if |a| > 0 {
      var whole := a + [t];
      assert whole[0] == a[0] && whole[1..] == a[1..] + [t];
      DropAppend(lib, a[1..], t);
    }
  }

  lemma {:induction false} FirstsAreKept(lib: Library, tokens: seq<string>, n: nat)
    requires n <= |tokens|
    ensures Deduplicated(lib, tokens[..n]) == At(tokens, Wanted(lib, tokens, n, true))
  {
    if n > 0 {
      FirstsAreKept(lib, tokens, n - 1);
      assert tokens[..n][..n - 1] == tokens[..n - 1] && tokens[..n][n - 1] == tokens[n - 1];
      CoveredIffSeen(lib, tokens, n - 1);
    }
  }

  lemma OneMoreAt(tokens: seq<string>, positions: seq<nat>, p: nat)
    requires p < |tokens| && forall k :: 0 <= k < |positions| ==> positions[k] < |tokens|
    ensures At(tokens, positions + [p]) == At(tokens, positions) + [tokens[p]]
    ensures positions + [] == positions
  {
  }

  lemma DropOneMore(lib: Library, tokens: seq<string>, p: nat, all: seq<nat>, kept: seq<nat>, all': seq<nat>, kept': seq<nat>)
    requires p < |tokens| && (forall k :: 0 <= k < |all| ==> all[k] < |tokens|) && (forall k :: 0 <= k < |kept| ==> kept[k] < |tokens|)
    requires (forall k :: 0 <= k < |all'| ==> all'[k] < |tokens|) && (forall k :: 0 <= k < |kept'| ==> kept'[k] < |tokens|)
    requires DropStopwords(lib, At(tokens, all)) == At(tokens, kept)
    requires all' == if IsFirst(lib, tokens, p) then all + [p] else all
    requires kept' == if IsFirst(lib, tokens, p) && lib.fold(tokens[p]) !in STOPWORDS then kept + [p] else kept
    ensures DropStopwords(lib, At(tokens, all')) == At(tokens, kept')
  {
    OneMoreAt(tokens, all, p);
    OneMoreAt(tokens, kept, p);
    DropAppend(lib, At(tokens, all), tokens[p]);
  }

  lemma {:induction false} StopwordsAreDropped(lib: Library, tokens: seq<string>, n: nat)
    requires n <= |tokens|
    ensures DropStopwords(lib, At(tokens, Wanted(lib, tokens, n, true))) == At(tokens, Wanted(lib, tokens, n, false))
  {
    if n > 0 {
      StopwordsAreDropped(lib, tokens, n - 1);
      DropOneMore(lib, tokens, n - 1, Wanted(lib, tokens, n - 1, true), Wanted(lib, tokens, n - 1, false),
                  Wanted(lib, tokens, n, true), Wanted(lib, tokens, n, false));
    }
  }

  lemma CoveredIffSeen(lib: Library, tokens: seq<string>, p: nat)
    requires p < |tokens|
    ensures Covered(lib, tokens[..p], tokens[p]) <==> !IsFirst(lib, tokens, p)
  {
    if !IsFirst(lib, tokens, p) {
      var q :| 0 <= q < p && lib.fold(tokens[q]) == lib.fold(tokens[p]);
      assert tokens[..p][q] in tokens[..p];
    }
  }

  /** The terms stand at these places of the text, in order. */
  ghost predicate StandAt(lib: Library, tokens: seq<string>, terms: seq<string>, positions: seq<nat>, keepAll: bool)
  {
    && |positions| == |terms| <= 32
    && (forall k :: 0 <= k < |positions| ==>
          positions[k] < |tokens| && terms[k] == tokens[positions[k]] && IsWanted(lib, tokens, positions[k], keepAll))
    && (forall j, k :: 0 <= j < k < |positions| ==> positions[j] < positions[k])
    && (forall p: nat :: p < |tokens| && IsWanted(lib, tokens, p, keepAll) ==>
          p in positions || (|positions| == 32 && positions[31] < p))
  }

  lemma LimitedStands(lib: Library, tokens: seq<string>, keepAll: bool) returns (positions: seq<nat>)
    ensures StandAt(lib, tokens, Limited(At(tokens, Wanted(lib, tokens, |tokens|, keepAll))), positions, keepAll)
  {
    var all := Wanted(lib, tokens, |tokens|, keepAll);
    WantedAre(lib, tokens, |tokens|, keepAll);
    positions := if |all| <= 32 then all else all[..32];
    forall p: nat | p < |tokens| && IsWanted(lib, tokens, p, keepAll)
      ensures p in positions || (|positions| == 32 && positions[31] < p)
    {
      WantedAreAll(lib, tokens, |tokens|, keepAll, p);
      var k :| 0 <= k < |all| && all[k] == p;
      assert k < |positions| ==> positions[k] == p;
    }
  }

  /** The search terms of a text: its distinct tokens in order without stopwords, at
      most 32; all distinct tokens when nothing else is left; a sentinel when there
      are none. */
  lemma TermsMeaning(lib: Library, text: string)
    ensures var tokens, terms := lib.tokens(text), QueryTerms(lib, text);
            if tokens == [] then terms == ["__chrono_no_terms__"]
            else
              var onlyStopwords := forall t :: t in tokens ==> lib.fold(t) in STOPWORDS;
              exists positions :: StandAt(lib, tokens, terms, positions, onlyStopwords)
  {
    var tokens := lib.tokens(text);
    assert tokens[..|tokens|] == tokens;
    FirstsAreKept(lib, tokens, |tokens|);
    StopwordsAreDropped(lib, tokens, |tokens|);
    OnlyStopwordsIff(lib, tokens);
    var kept := LimitedStands(lib, tokens, false);
    var all := LimitedStands(lib, tokens, true);
  }

  lemma OnlyStopwordsIff(lib: Library, tokens: seq<string>)
    ensures |Wanted(lib, tokens, |tokens|, false)| == 0 <==> forall t :: t in tokens ==> lib.fold(t) in STOPWORDS
    ensures |Wanted(lib, tokens, |tokens|, true)| == 0 <==> tokens == []
  {
    var searchable, all := Wanted(lib, tokens, |tokens|, false), Wanted(lib, tokens, |tokens|, true);
    FirstOccurrence(lib, tokens);
    WantedAre(lib, tokens, |tokens|, false);
    WantedAre(lib, tokens, |tokens|, true);
    if |searchable| > 0 {
      assert IsWanted(lib, tokens, searchable[0], false) && tokens[searchable[0]] in tokens;
    }
    if t :| t in tokens && lib.fold(t) !in STOPWORDS {
      var p: nat :| p < |tokens| && IsFirst(lib, tokens, p) && lib.fold(tokens[p]) == lib.fold(t);
      WantedAreAll(lib, tokens, |tokens|, false, p);
    }
    if tokens != [] {
      WantedAreAll(lib, tokens, |tokens|, true, 0);
    }
  }

  /** Every token has a first occurrence, up to case. */
  lemma FirstOccurrence(lib: Library, tokens: seq<string>)
    ensures forall t :: t in tokens ==> exists p: nat :: p < |tokens| && IsFirst(lib, tokens, p) && lib.fold(tokens[p]) == lib.fold(t)
  {
    forall t | t in tokens
      ensures exists p: nat :: p < |tokens| && IsFirst(lib, tokens, p) && lib.fold(tokens[p]) == lib.fold(t)
    {
      var i :| 0 <= i < |tokens| && tokens[i] == t;
      var p := EarliestFold(lib, tokens, i);
    }
  }

  lemma {:induction false} EarliestFold(lib: Library, tokens: seq<string>, i: nat) returns (p: nat)
    requires i < |tokens|
    ensures p < |tokens| && IsFirst(lib, tokens, p) && lib.fold(tokens[p]) == lib.fold(tokens[i])
    decreases i
  {
    if IsFirst(lib, tokens, i) {
      p := i;
    } else {
      var q :| 0 <= q < i && lib.fold(tokens[q]) == lib.fold(tokens[i]);
      p := EarliestFold(lib, tokens, q);
    }
  }

  // ---------------------------------------------------------------------------
  // Aliases
  // ---------------------------------------------------------------------------

  /** The words stand in the query next to each other, whole and in this order. */
  ghost predicate IsRun(query: seq<string>, words: seq<string>)
  {
    words != [] && exists before, after :: query == before + words + after
  }

  lemma RunsAreContained(query: seq<string>, words: seq<string>)
    ensures ContainsTerm(query, words) <==> IsRun(query, words)
  {
    if ContainsTerm(query, words) {
      var start :| 0 <= start <= |query| && words <= query[start..];
      assert query == query[..start] + words + query[start + |words|..];
    }
    if IsRun(query, words) {
      var before, after :| query == before + words + after;
      assert words <= query[|before|..];
    }
  }

  /** The words of a text without regard to case. */
  predicate AreWords(lib: Library, text: string, words: seq<string>)
  {
    |words| == |lib.tokens(text)| && forall i :: 0 <= i < |words| ==> words[i] == lib.fold(lib.tokens(text)[i])
  }

  ghost predicate Occurs(lib: Library, text: string, term: string)
  {
    exists query, words :: AreWords(lib, text, query) && AreWords(lib, term, words) && IsRun(query, words)
  }

  lemma OccursIffPresent(lib: Library, text: string, term: string)
    ensures Occurs(lib, text, term) <==> Present(lib, Folded(lib, lib.tokens(text)), term)
  {
    var query, words := Folded(lib, lib.tokens(text)), Folded(lib, lib.tokens(term));
    RunsAreContained(query, words);
    assert AreWords(lib, text, query) && AreWords(lib, term, words);
    assert forall other :: AreWords(lib, text, other) ==> other == query;
    assert forall other :: AreWords(lib, term, other) ==> other == words;
  }

  /** The term is an alias of something that occurs in the text, and absent itself. */
  ghost predicate IsMissingAlias(lib: Library, groups: seq<seq<string>>, text: string, term: string)
  {
    !Occurs(lib, text, term) && exists g, u :: g in groups && term in g && u in g && Occurs(lib, text, u)
  }

  /** What the expansion collects: missing aliases of what occurs in the text, once
      each up to case, and all of them unless sixteen were found first. */
  lemma ExpansionMeaning(lib: Library, groups: seq<seq<string>>, text: string, added: seq<string>)
    ensures Collected(lib, groups, Folded(lib, lib.tokens(text)), added) <==>
            && (forall t :: t in added ==> IsMissingAlias(lib, groups, text, t))
            && (forall i, j :: 0 <= i < j < |added| ==> lib.fold(added[i]) != lib.fold(added[j]))
    ensures Exhausted(lib, groups, Folded(lib, lib.tokens(text)), added) <==>
            forall t :: IsMissingAlias(lib, groups, text, t) ==> exists u :: u in added && lib.fold(u) == lib.fold(t)
  {
    var query := Folded(lib, lib.tokens(text));
    forall t ensures IsMissingAlias(lib, groups, text, t) <==> exists g :: g in groups && Contributed(lib, query, g, t) {
      MissingIffContributed(lib, groups, text, t);
    }
    assert forall t :: Covered(lib, added, t) <==> exists u :: u in added && lib.fold(u) == lib.fold(t);
  }

  lemma MissingIffContributed(lib: Library, groups: seq<seq<string>>, text: string, t: string)
    ensures IsMissingAlias(lib, groups, text, t) <==>
            exists g :: g in groups && Contributed(lib, Folded(lib, lib.tokens(text)), g, t)
  {
    var query := Folded(lib, lib.tokens(text));
    forall u ensures Occurs(lib, text, u) <==> Present(lib, query, u) {
      OccursIffPresent(lib, text, u);
    }
    if g, u :| g in groups && t in g && u in g && Occurs(lib, text, u) {
      assert Triggered(lib, query, g);
    }
  }

  /** A text in which no alias occurs keeps its query as it is. */
  lemma NothingExpands(lib: Library, groups: seq<seq<string>>, text: string, added: seq<string>)
    requires Collected(lib, groups, Folded(lib, lib.tokens(text)), added)
    requires forall g, u :: g in groups && u in g ==> !Occurs(lib, text, u)
    ensures added == [] && Expanded(QueryTerms(lib, text), added) == Compile(QueryTerms(lib, text))
  {
    ExpansionMeaning(lib, groups, text, added);
    if added != [] {
      SomeMember(added);
    }
  }

  lemma SomeMember(s: seq<string>)
    requires s != []
    ensures exists t :: t in s
  {
    assert s[0] in s;
  }

  // ---------------------------------------------------------------------------
  // Selectors
  // ---------------------------------------------------------------------------

  /** A name: an ASCII letter or underscore, then word characters. */
  predicate IsName(lib: Library, name: string)
  {
    && name != "" && (name[0] == '_' || 'A' <= name[0] <= 'Z' || 'a' <= name[0] <= 'z')
    && forall c :: c in name ==> lib.word(c)
  }

  lemma {:induction false} PlainIsKept(plain: string, rest: string)
    requires '"' !in plain
    ensures Unquoted(plain + rest, false) == plain + Unquoted(rest, false)
  {
    if plain == "" {
      assert plain + rest == rest;
    } else {
      assert (plain + rest)[1..] == plain[1..] + rest;
      PlainIsKept(plain[1..], rest);
    }
  }

  /** Outside quotes a name, with or without a second one after a dot, before a
      colon is seen as a selector; it is refused unless it names a field. */
  lemma SelectorIsSeen(lib: Library, before: string, name: string, space: string, rest: string)
    requires '"' !in before + name + space
    requires before != "" ==> !lib.word(before[|before| - 1]) && before[|before| - 1] != '.'
    requires IsName(lib, name) || exists a, b :: IsName(lib, a) && IsName(lib, b) && name == a + "." + b
    requires forall c :: c in space ==> IsSpace(c)
    requires lib.lower(name) !in WEIGHT_FIELDS
    ensures HasUnknownSelector(lib, before + name + space + ":" + rest)
  {
    var plain := before + name + space + ":";
    PlainIsKept(plain, rest);
    assert plain + rest == before + name + space + ":" + rest;
    NamesAreSelectors(lib, name);
    SelectorInside(lib, before, name, space, Unquoted(rest, false), Unquoted(plain + rest, false));
  }

  lemma SelectorInside(lib: Library, before: string, name: string, space: string, rest: string, u: string)
    requires u == before + name + space + ":" + rest && IsSelectorName(lib, name)
    requires before != "" ==> !lib.word(before[|before| - 1]) && before[|before| - 1] != '.'
    requires forall c :: c in space ==> IsSpace(c)
    ensures exists i: nat, j: nat, k: nat :: SelectorAt(lib, u, i, j, k) && u[i..j] == name
  {
    var i, j := |before|, |before| + |name|;
    var k := j + |space|;
    assert u[i..j] == name && u[j..k] == space && u[k] == ':';
    assert i > 0 ==> u[i - 1] == before[|before| - 1];
    assert SelectorAt(lib, u, i, j, k);
  }

  lemma NamesAreSelectors(lib: Library, name: string)
    requires IsName(lib, name) || exists a, b :: IsName(lib, a) && IsName(lib, b) && name == a + "." + b
    ensures IsSelectorName(lib, name)
  {
    if !IsName(lib, name) {
      var a, b :| IsName(lib, a) && IsName(lib, b) && name == a + "." + b;
      assert name[..|a|] == a && name[|a| + 1..] == b && name[|a|] == '.';
      NameIsIdentifier(lib, a);
      NameIsIdentifier(lib, b);
    } else {
      NameIsIdentifier(lib, name);
    }
  }

  lemma NameIsIdentifier(lib: Library, name: string)
    requires IsName(lib, name)
    ensures IsIdentifier(lib, name)
  {
    assert IsNameStart(name[0]);
  }

  /** And what is seen as a selector is such a name before a colon, outside quotes. */
  lemma SeenIsSelector(lib: Library, u: string, i: nat, j: nat, k: nat)
    requires SelectorAt(lib, u, i, j, k)
    ensures i < j <= k < |u| && u[k] == ':' && (forall c :: c in u[j..k] ==> IsSpace(c))
    ensures i > 0 ==> !lib.word(u[i - 1]) && u[i - 1] != '.'
    ensures u[i] == '_' || 'A' <= u[i] <= 'Z' || 'a' <= u[i] <= 'z'
    ensures (forall c :: c in u[i..j] ==> lib.word(c)) || exists d :: i < d < j - 1 && u[d] == '.'
  {
    var name := u[i..j];
    assert name[0] == u[i];
    if !IsIdentifier(lib, name) {
      var d :| 0 < d < |name| && name[d] == '.' && IsIdentifier(lib, name[..d]) && IsIdentifier(lib, name[d + 1..]);
      assert name[..d][0] == name[0];
      assert u[i + d] == '.';
    }
  }
}
