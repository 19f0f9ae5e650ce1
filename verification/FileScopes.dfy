/** Canonical path comparison of the board router. Resolving a path against the
    file system is one fixed function; what is compared is its result. */
module FileScopes {
  import opened Values

  /** Case-folded real path, and device and inode when the path exists. */
  datatype CanonicalPath = CanonicalPath(key: string, identity: Option<(int, int)>)

  /** `(path, worktree root)` to canonical path. */
  type Resolver = (string, string) -> CanonicalPath

  function StripSlashes(s: string): (r: string)
    ensures |r| <= |s| && r == s[..|r|]
    ensures r == "" || r[|r| - 1] != '/'
    ensures forall i :: |r| <= i < |s| ==> s[i] == '/'
  {
    if |s| > 0 && s[|s| - 1] == '/' then StripSlashes(s[..|s| - 1]) else s
  }

  predicate IsAncestor(ancestor: string, descendant: string)
  {
    ancestor != descendant && StripSlashes(ancestor) + "/" <= descendant
  }

  predicate KeysAlias(a: string, b: string)
  {
    a == b || IsAncestor(a, b) || IsAncestor(b, a)
  }

  predicate PathsAlias(a: CanonicalPath, b: CanonicalPath)
  {
    (a.identity.Some? && a.identity == b.identity) || KeysAlias(a.key, b.key)
  }

  /** The scope up to its trailing slashes is the first `n` characters. */
  predicate EndsAt(scope: string, n: nat)
  {
    n <= |scope| && (forall i :: n <= i < |scope| ==> scope[i] == '/') && (n > 0 ==> scope[n - 1] != '/')
  }

  /** The item continues the scope with a slash, so `/a/bc` is not below `/a/b`. */
  ghost predicate Below(scope: string, item: string)
  {
    exists n: nat :: EndsAt(scope, n) && n < |item| && item[..n] == scope[..n] && item[n] == '/'
  }

  /** The items a scope covers: itself and everything below it. */
  ghost predicate Covers(scope: string, item: string)
  {
    item == scope || Below(scope, item)
  }

  lemma AncestorIsAbove(scope: string, item: string)
    ensures IsAncestor(scope, item) <==> item != scope && Below(scope, item)
  {
    var p := StripSlashes(scope);
    assert EndsAt(scope, |p|);
    if IsAncestor(scope, item) {
      CoversPrefix(scope, item);
    }
    if n: nat :| item != scope && EndsAt(scope, n) && n < |item| && item[..n] == scope[..n] && item[n] == '/' {
      assert n == |p|;
      PrefixCovers(scope, item);
    }
  }

  lemma CoversPrefix(scope: string, item: string)
    requires IsAncestor(scope, item)
    ensures var p := StripSlashes(scope); |p| < |item| && p == item[..|p|] && item[|p|] == '/'
  {
    var p := StripSlashes(scope) + "/";
    assert p[..|p| - 1] == item[..|p| - 1];
    assert p[|p| - 1] == item[|p| - 1];
  }

  lemma PrefixCovers(scope: string, item: string)
    requires scope != item
    requires var p := StripSlashes(scope); |p| < |item| && p == item[..|p|] && item[|p|] == '/'
    ensures IsAncestor(scope, item)
  {
    var p := StripSlashes(scope);
    assert item[..|p| + 1] == item[..|p|] + [item[|p|]];
  }

  /** Two scopes above one item are comparable. */
  lemma SharedItemAliases(a: string, b: string, item: string)
    requires Covers(a, item) && Covers(b, item)
    ensures KeysAlias(a, b)
  {
    AncestorIsAbove(a, item);
    AncestorIsAbove(b, item);
    if a != item && b != item {
      CoversPrefix(a, item);
      CoversPrefix(b, item);
      var p, q := StripSlashes(a), StripSlashes(b);
      if |p| < |q| {
        assert p == q[..|p|] == b[..|p|] && b[|p|] == item[|p|];
        PrefixCovers(a, b);
      } else if |q| < |p| {
        assert q == p[..|q|] == a[..|q|] && a[|q|] == item[|q|];
        PrefixCovers(b, a);
      } else {
        assert p == q;
        if |a| > |b| {
          PrefixCovers(b, a);
        } else if |b| > |a| {
          PrefixCovers(a, b);
        } else {
          assert a == b;
        }
      }
    }
  }

  /** The alias test is exact: it fires precisely when some item lies under
      both scopes. */
  lemma AliasIffSharedItem(a: string, b: string)
    ensures KeysAlias(a, b) <==> exists item :: Covers(a, item) && Covers(b, item)
  {
    if KeysAlias(a, b) {
      var deeper := if IsAncestor(a, b) then b else a;
      AncestorIsAbove(a, deeper);
      AncestorIsAbove(b, deeper);
      assert Covers(a, deeper) && Covers(b, deeper);
    }
    if item :| Covers(a, item) && Covers(b, item) {
      SharedItemAliases(a, b, item);
    }
  }
}
