/** What feasible claims mean for the holders of resources, claim by claim and
    against the capacities as they were declared. */
module ResourceMeaning {
  import opened BoardTypes
  import opened ResourceLocks

  predicate OnResource(c: ResourceClaim, resourceClass: string, target: string)
  {
    c.resourceClass == resourceClass && c.target == target
  }

  /** Two claims that may be held at the same time. */
  predicate GoTogether(c: ResourceClaim, d: ResourceClaim)
  {
    (c.mode == Read && d.mode == Read) || (c.mode == Count && d.mode == Count)
  }

  /** Claims on one resource go together pairwise. */
  predicate ClaimsAgree(claims: seq<ResourceClaim>, resourceClass: string, target: string)
  {
    forall i, j :: 0 <= i < j < |claims| && OnResource(claims[i], resourceClass, target) && OnResource(claims[j], resourceClass, target) ==>
      GoTogether(claims[i], claims[j])
  }

  /** The counted units on one resource. */
  function CountedUnits(claims: seq<ResourceClaim>, resourceClass: string, target: string): int
  {
    if |claims| == 0 then 0
    else
      (if OnResource(claims[0], resourceClass, target) && claims[0].mode == Count then claims[0].units else 0)
      + CountedUnits(claims[1..], resourceClass, target)
  }

  /** What is declared for the target counts, else what is declared for its class,
      and an undeclared resource is exclusive. */
  predicate WithinDeclared(capacities: Capacities, resourceClass: string, target: string, units: int)
  {
    && (TargetKey(resourceClass, target) in capacities ==> units <= capacities[TargetKey(resourceClass, target)])
    && (TargetKey(resourceClass, target) !in capacities && ClassKey(resourceClass) in capacities ==>
          units <= capacities[ClassKey(resourceClass)])
    && (TargetKey(resourceClass, target) !in capacities && ClassKey(resourceClass) !in capacities ==> units <= 1)
  }

  ghost predicate SharedFairly(claims: seq<ResourceClaim>, capacities: Capacities)
  {
    forall resourceClass, target ::
      && ClaimsAgree(claims, resourceClass, target)
      && WithinDeclared(capacities, resourceClass, target, CountedUnits(claims, resourceClass, target))
  }

  predicate AllPositive(capacities: Capacities)
  {
    forall k :: k in capacities ==> capacities[k] > 0
  }

  predicate OnWith(c: ResourceClaim, k: ResourceKey, mode: Mode)
  {
    OnResource(c, k.0, k.1) && c.mode == mode
  }

  /** Some claim of this mode is on the resource. */
  predicate Occurs(claims: seq<ResourceClaim>, k: ResourceKey, mode: Mode)
  {
    exists c :: c in claims && OnWith(c, k, mode)
  }

  /** The totals of one resource say which modes occur. */
  lemma {:induction false} TotalsOccur(claims: seq<ResourceClaim>, k: ResourceKey)
    requires KnownClaims(claims)
    ensures Total(claims, k, Readers) >= 0 && Total(claims, k, Writers) >= 0 && Total(claims, k, Counted) >= 0
    ensures Total(claims, k, Readers) > 0 <==> Occurs(claims, k, Read)
    ensures Total(claims, k, Writers) > 0 <==> Occurs(claims, k, Write)
    ensures Total(claims, k, Counted) > 0 <==> Occurs(claims, k, Count)
    ensures Total(claims, k, Units) == CountedUnits(claims, k.0, k.1)
  {
    if |claims| > 0 {
      var first, rest := claims[0], claims[1..];
      assert first in claims && forall c :: c in claims <==> c == first || c in rest;
      TotalsOccur(rest, k);
      OccursInRest(claims, k, Read);
      OccursInRest(claims, k, Write);
      OccursInRest(claims, k, Count);
    }
  }

  /** And whether the claims go together. */
  lemma {:induction false} AgreementMeans(claims: seq<ResourceClaim>, k: ResourceKey)
    requires KnownClaims(claims)
    ensures ClaimsAgree(claims, k.0, k.1) <==> AgreeInTotal(claims, k)
  {
    if |claims| > 0 {
      var first, rest := claims[0], claims[1..];
      assert first in claims && forall c :: c in claims <==> c == first || c in rest;
      AgreementMeans(rest, k);
      AgreesWithFirst(claims, k);
      TotalsOccur(rest, k);
      if OnResource(first, k.0, k.1) {
        GoTogetherMeans(first, rest, k);
        OneMoreAgrees(first.mode, Total(rest, k, Readers), Total(rest, k, Writers), Total(rest, k, Counted));
      }
    }
  }

  lemma GoTogetherMeans(first: ResourceClaim, rest: seq<ResourceClaim>, k: ResourceKey)
    requires IsKnown(first) && KnownClaims(rest) && OnResource(first, k.0, k.1)
    ensures (forall c :: c in rest && OnResource(c, k.0, k.1) ==> GoTogether(first, c)) <==>
            !Occurs(rest, k, Write) && (Occurs(rest, k, Read) ==> first.mode == Read) && (Occurs(rest, k, Count) ==> first.mode == Count)
            && (first.mode == Write ==> !Occurs(rest, k, Read) && !Occurs(rest, k, Count))
  {
    if c :| c in rest && OnWith(c, k, Write) {
      assert OnResource(c, k.0, k.1) && !GoTogether(first, c);
    }
    if c :| c in rest && OnWith(c, k, Read) {
      assert OnResource(c, k.0, k.1) && (GoTogether(first, c) <==> first.mode == Read);
    }
    if c :| c in rest && OnWith(c, k, Count) {
      assert OnResource(c, k.0, k.1) && (GoTogether(first, c) <==> first.mode == Count);
    }
    if c :| c in rest && OnResource(c, k.0, k.1) && !GoTogether(first, c) {
      assert OnWith(c, k, c.mode);
    }
  }

  /** Readers only, a single writer, or counted claims only. */
  predicate NumbersAgree(readers: int, writers: int, counted: int)
  {
    || (writers == 0 && counted == 0)
    || (writers == 1 && readers == 0 && counted == 0)
    || (writers == 0 && readers == 0)
  }

  lemma OneMoreAgrees(mode: Mode, readers: int, writers: int, counted: int)
    requires readers >= 0 && writers >= 0 && counted >= 0 && !mode.Other?
    ensures NumbersAgree(readers + if mode.Read? then 1 else 0, writers + if mode.Write? then 1 else 0,
                         counted + if mode.Count? then 1 else 0)
            <==> && NumbersAgree(readers, writers, counted)
                 && writers == 0 && (readers > 0 ==> mode == Read) && (counted > 0 ==> mode == Count)
                 && (mode == Write ==> readers == 0 && counted == 0)
  {
  }

  predicate AgreeInTotal(claims: seq<ResourceClaim>, k: ResourceKey)
  {
    NumbersAgree(Total(claims, k, Readers), Total(claims, k, Writers), Total(claims, k, Counted))
  }

  lemma OccursInRest(claims: seq<ResourceClaim>, k: ResourceKey, mode: Mode)
    requires |claims| > 0
    ensures Occurs(claims, k, mode) <==> OnWith(claims[0], k, mode) || Occurs(claims[1..], k, mode)
  {
    assert forall c :: c in claims <==> c == claims[0] || c in claims[1..];
  }

  /** The first claim goes together with the others of its resource. */
  lemma AgreesWithFirst(claims: seq<ResourceClaim>, k: ResourceKey)
    requires |claims| > 0
    ensures ClaimsAgree(claims, k.0, k.1) <==>
            && ClaimsAgree(claims[1..], k.0, k.1)
            && (OnResource(claims[0], k.0, k.1) ==>
                  forall c :: c in claims[1..] && OnResource(c, k.0, k.1) ==> GoTogether(claims[0], c))
  {
    var rest := claims[1..];
    if ClaimsAgree(claims, k.0, k.1) {
      forall i, j | 0 <= i < j < |rest| && OnResource(rest[i], k.0, k.1) && OnResource(rest[j], k.0, k.1)
        ensures GoTogether(rest[i], rest[j])
      {
        assert rest[i] == claims[i + 1] && rest[j] == claims[j + 1];
      }
      forall c | c in rest && OnResource(claims[0], k.0, k.1) && OnResource(c, k.0, k.1) ensures GoTogether(claims[0], c) {
        var j :| 0 <= j < |rest| && rest[j] == c;
        assert claims[j + 1] == c;
      }
    } else {
      var i, j :| 0 <= i < j < |claims| && OnResource(claims[i], k.0, k.1) && OnResource(claims[j], k.0, k.1)
                  && !GoTogether(claims[i], claims[j]);
      assert claims[j] == rest[j - 1] && rest[j - 1] in rest;
      assert i > 0 ==> claims[i] == rest[i - 1];
    }
  }

  /** Feasible totals mean exactly: claims on a resource go together pairwise, and
      the counted ones stay within what is declared. */
  lemma FeasibleMeans(claims: seq<ResourceClaim>, capacities: Capacities)
    requires KnownClaims(claims) && AllPositive(capacities)
    ensures Feasible(claims, capacities) <==> SharedFairly(claims, capacities)
  {
    forall k: ResourceKey
      ensures FitsAt(claims, k, capacities) <==>
              ClaimsAgree(claims, k.0, k.1) && WithinDeclared(capacities, k.0, k.1, CountedUnits(claims, k.0, k.1))
    {
      TotalsOccur(claims, k);
      AgreementMeans(claims, k);
      NothingCounted(claims, k);
    }
    if Feasible(claims, capacities) {
      forall resourceClass, target
        ensures ClaimsAgree(claims, resourceClass, target)
        ensures WithinDeclared(capacities, resourceClass, target, CountedUnits(claims, resourceClass, target))
      {
        assert FitsAt(claims, (resourceClass, target), capacities);
      }
    }
  }

  lemma {:induction false} NothingCounted(claims: seq<ResourceClaim>, k: ResourceKey)
    requires KnownClaims(claims)
    ensures Total(claims, k, Counted) == 0 ==> CountedUnits(claims, k.0, k.1) == 0
  {
    if |claims| > 0 {
      assert claims[0] in claims;
      NothingCounted(claims[1..], k);
      TotalsArePositive(claims[1..], k);
    }
  }
}
