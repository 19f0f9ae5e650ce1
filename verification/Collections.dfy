/** Facts about sets, sequences and multisets that several proofs share. */
module Collections {
  lemma {:induction false} SubsetIsSmaller<T>(a: set<T>, b: set<T>)
    requires a <= b
    ensures |a| <= |b|
  {
    if a != {} {
      var x :| x in a;
      SubsetIsSmaller(a - {x}, b - {x});
    }
  }

  lemma ProperSubsetIsSmaller<T>(a: set<T>, b: set<T>)
    requires a < b
    ensures |a| < |b|
  {
    var x :| x in b && x !in a;
    SubsetIsSmaller(a, b - {x});
  }

  ghost function Pick<T>(s: set<T>): (x: T)
    requires s != {}
    ensures x in s
  {
    var x :| x in s; x
  }

  lemma Associates<T>(a: seq<T>, b: seq<T>, c: seq<T>)
    ensures (a + b) + c == a + (b + c)
  {
  }

  /** Taking one item out of two equal multisets leaves equal multisets. */
  lemma RestAgrees<T>(a: seq<T>, front: seq<T>, back: seq<T>)
    requires a != [] && multiset(a) == multiset(front + [a[0]] + back)
    ensures multiset(a[1..]) == multiset(front + back)
  {
    assert a == [a[0]] + a[1..];
    assert multiset(a[1..]) == multiset(a) - multiset{a[0]};
  }

  predicate NoRepeats<T(==)>(s: seq<T>)
  {
    forall i, j :: 0 <= i < j < |s| ==> s[i] != s[j]
  }

  /** What is left of `whole` when a part without repeats is taken out. */
  lemma {:induction false} RestOf<T>(part: seq<T>, whole: seq<T>) returns (rest: seq<T>)
    requires NoRepeats(part) && forall x :: x in part ==> x in whole
    ensures multiset(part + rest) == multiset(whole)
  {
    if |part| == 0 {
      rest := whole;
      assert part + rest == whole;
    } else {
      var first, more := part[0], part[1..];
      assert first in part && part == [first] + more;
      var i :| 0 <= i < |whole| && whole[i] == first;
      var others := whole[..i] + whole[i + 1..];
      assert whole == whole[..i] + [first] + whole[i + 1..];
      forall x | x in more ensures x in others {
        assert x in part && x != first;
      }
      rest := RestOf(more, others);
      assert part + rest == [first] + (more + rest);
    }
  }

  /** What each item gives, in turn. */
  function Collect<S, T>(give: S -> seq<T>, items: seq<S>): seq<T>
  {
    if |items| == 0 then [] else give(items[0]) + Collect(give, items[1..])
  }

  lemma {:induction false} CollectConcat<S, T>(give: S -> seq<T>, a: seq<S>, b: seq<S>)
    ensures Collect(give, a + b) == Collect(give, a) + Collect(give, b)
  {
    if |a| == 0 {
      assert a + b == b;
    } else {
      CollectConcat(give, a[1..], b);
      assert (a + b)[1..] == a[1..] + b;
    }
  }
}
