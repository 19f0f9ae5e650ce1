/** `_LockTable` of the board router: all-or-nothing acquisition of a task's
    resource claims, with rollback. */
module ResourceLocks {
  import opened Collections
  import opened BoardTypes
  import opened Ordering

  // ---------------------------------------------------------------------------
  // What a multiset of claims amounts to, independent of any acquisition order
  // ---------------------------------------------------------------------------

  /** What is added up over the claims on one resource. */
  datatype Aspect = Readers | Writers | Counted | Units

  function Weight(c: ResourceClaim, a: Aspect): int
  {
    match a
    case Readers => if c.mode.Read? then 1 else 0
    case Writers => if c.mode.Write? then 1 else 0
    case Counted => if c.mode.Read? || c.mode.Write? then 0 else 1
    case Units => if c.mode.Read? || c.mode.Write? then 0 else c.units
  }

  function Share(c: ResourceClaim, k: ResourceKey, a: Aspect): int
  {
    if KeyOf(c) == k then Weight(c, a) else 0
  }

  function Total(claims: seq<ResourceClaim>, k: ResourceKey, a: Aspect): int
  {
    if |claims| == 0 then 0 else Share(claims[0], k, a) + Total(claims[1..], k, a)
  }

  /** One resource may carry readers only, a single writer, or counted claims
      whose units sum within its capacity. */
  predicate Fits(readers: int, writers: int, counted: int, units: int, capacity: int)
  {
    || (writers == 0 && counted == 0)
    || (writers == 1 && readers == 0 && counted == 0)
    || (writers == 0 && readers == 0 && units <= capacity)
  }

  ghost predicate FitsAt(claims: seq<ResourceClaim>, k: ResourceKey, capacities: Capacities)
  {
    Fits(Total(claims, k, Readers), Total(claims, k, Writers), Total(claims, k, Counted), Total(claims, k, Units),
         CapacityOf(capacities, k))
  }

  /** The whole-set capacity condition: every resource fits its total. */
  ghost predicate Feasible(claims: seq<ResourceClaim>, capacities: Capacities)
  {
    forall k :: FitsAt(claims, k, capacities)
  }

  /** `is_ambiguous` admits no other claims: the mode is one of the three, and
      units are positive. */
  predicate IsKnown(c: ResourceClaim)
  {
    c.units > 0 && !c.mode.Other?
  }

  ghost predicate KnownClaims(claims: seq<ResourceClaim>)
  {
    forall c :: c in claims ==> IsKnown(c)
  }

  lemma {:induction false} TotalAppend(a: seq<ResourceClaim>, b: seq<ResourceClaim>, k: ResourceKey, aspect: Aspect)
    ensures Total(a + b, k, aspect) == Total(a, k, aspect) + Total(b, k, aspect)
  {
    if |a| == 0 {
      assert a + b == b;
    } else {
      var whole := a + b;
      assert whole[0] == a[0] && whole[1..] == a[1..] + b;
      TotalAppend(a[1..], b, k, aspect);
    }
  }

  lemma TotalLast(a: seq<ResourceClaim>, c: ResourceClaim, k: ResourceKey, aspect: Aspect)
    ensures Total(a + [c], k, aspect) == Total(a, k, aspect) + Share(c, k, aspect)
  {
    TotalAppend(a, [c], k, aspect);
    var one := [c];
    assert one[0] == c && |one[1..]| == 0;
  }

  /** A total forgets the order of the claims. */
  lemma {:induction false} TotalForgetsOrder(a: seq<ResourceClaim>, b: seq<ResourceClaim>, k: ResourceKey, aspect: Aspect)
    requires multiset(a) == multiset(b)
    ensures Total(a, k, aspect) == Total(b, k, aspect)
  {
    if |a| == 0 {
      assert |multiset(b)| == |b|;
    } else {
      MultisetMembers(a, b);
      assert a[0] in b;
      var i :| 0 <= i < |b| && b[i] == a[0];
      var front, back := b[..i], b[i + 1..];
      assert b == front + [a[0]] + back;
      RestAgrees(a, front, back);
      TotalForgetsOrder(a[1..], front + back, k, aspect);
      TotalAppend(front + [a[0]], back, k, aspect);
      TotalLast(front, a[0], k, aspect);
      TotalAppend(front, back, k, aspect);
    }
  }

  /** Totals are non-negative, and counted units are at least the number of
      counted claims. */
  lemma {:induction false} TotalsArePositive(claims: seq<ResourceClaim>, k: ResourceKey)
    requires KnownClaims(claims)
    ensures Total(claims, k, Readers) >= 0 && Total(claims, k, Writers) >= 0
    ensures Total(claims, k, Units) >= Total(claims, k, Counted) >= 0
  {
    if |claims| == 0 {
    } else {
      assert claims[0] in claims;
      assert forall c :: c in claims[1..] ==> c in claims;
      TotalsArePositive(claims[1..], k);
    }
  }

  lemma AllTotalsAppend(a: seq<ResourceClaim>, b: seq<ResourceClaim>, k: ResourceKey)
    ensures forall aspect :: Total(a + b, k, aspect) == Total(a, k, aspect) + Total(b, k, aspect)
  {
    forall aspect ensures Total(a + b, k, aspect) == Total(a, k, aspect) + Total(b, k, aspect) {
      TotalAppend(a, b, k, aspect);
    }
  }

  /** Dropping claims never breaks feasibility. */
  lemma FeasibleIsMonotone(a: seq<ResourceClaim>, b: seq<ResourceClaim>, capacities: Capacities)
    requires KnownClaims(a) && KnownClaims(b)
    requires Feasible(a + b, capacities)
    ensures Feasible(a, capacities)
  {
    forall k ensures FitsAt(a, k, capacities) {
      AllTotalsAppend(a, b, k);
      TotalsArePositive(a, k);
      TotalsArePositive(b, k);
      assert FitsAt(a + b, k, capacities);
    }
  }

  lemma FeasibleForgetsOrder(a: seq<ResourceClaim>, b: seq<ResourceClaim>, capacities: Capacities)
    requires multiset(a) == multiset(b)
    ensures Feasible(a, capacities) <==> Feasible(b, capacities)
  {
    forall k ensures FitsAt(a, k, capacities) <==> FitsAt(b, k, capacities) {
      forall aspect ensures Total(a, k, aspect) == Total(b, k, aspect) {
        TotalForgetsOrder(a, b, k, aspect);
      }
    }
  }

  // ---------------------------------------------------------------------------
  // The table a multiset of claims leaves behind
  // ---------------------------------------------------------------------------

  datatype LockEntry = LockEntry(mode: Mode, count: int, units: int)

  /** The entry of a claimed resource. */
  function EntryFor(readers: int, writers: int, counted: int, units: int): LockEntry
  {
    if writers > 0 then LockEntry(Write, 1, 1)
    else if readers > 0 then LockEntry(Read, readers, 0)
    else LockEntry(Count, counted, units)
  }

  ghost function EntryAt(claims: seq<ResourceClaim>, k: ResourceKey): LockEntry
  {
    EntryFor(Total(claims, k, Readers), Total(claims, k, Writers), Total(claims, k, Counted), Total(claims, k, Units))
  }

  ghost function KeysOf(claims: seq<ResourceClaim>): set<ResourceKey>
  {
    if |claims| == 0 then {} else {KeyOf(claims[0])} + KeysOf(claims[1..])
  }

  /** The table as a function of the claims held. */
  ghost function TableOf(claims: seq<ResourceClaim>): map<ResourceKey, LockEntry>
  {
    map k | k in KeysOf(claims) :: EntryAt(claims, k)
  }

  predicate Claimed(readers: int, writers: int, counted: int)
  {
    readers > 0 || writers > 0 || counted > 0
  }

  lemma {:induction false} ClaimedKeys(claims: seq<ResourceClaim>, k: ResourceKey)
    ensures Total(claims, k, Readers) >= 0 && Total(claims, k, Writers) >= 0 && Total(claims, k, Counted) >= 0
    ensures k in KeysOf(claims) <==>
            Claimed(Total(claims, k, Readers), Total(claims, k, Writers), Total(claims, k, Counted))
    ensures k !in KeysOf(claims) ==> Total(claims, k, Units) == 0
  {
    if |claims| == 0 {
    } else {
      ClaimedKeys(claims[1..], k);
    }
  }

  lemma TableForgetsOrder(a: seq<ResourceClaim>, b: seq<ResourceClaim>)
    requires multiset(a) == multiset(b)
    ensures TableOf(a) == TableOf(b)
  {
    forall k
      ensures k in KeysOf(a) <==> k in KeysOf(b)
      ensures EntryAt(a, k) == EntryAt(b, k)
    {
      forall aspect ensures Total(a, k, aspect) == Total(b, k, aspect) {
        TotalForgetsOrder(a, b, k, aspect);
      }
      ClaimedKeys(a, k);
      ClaimedKeys(b, k);
    }
  }

  lemma AllTotalsLast(claims: seq<ResourceClaim>, c: ResourceClaim, k: ResourceKey)
    ensures forall aspect :: Total(claims + [c], k, aspect) == Total(claims, k, aspect) + Share(c, k, aspect)
  {
    forall aspect ensures Total(claims + [c], k, aspect) == Total(claims, k, aspect) + Share(c, k, aspect) {
      TotalLast(claims, c, k, aspect);
    }
  }

  /** One more claim changes the table at most at its own resource. */
  lemma TableExtends(claims: seq<ResourceClaim>, c: ResourceClaim)
    ensures TableOf(claims + [c]) == TableOf(claims)[KeyOf(c) := EntryAt(claims + [c], KeyOf(c))]
  {
    var whole := claims + [c];
    forall k
      ensures k in KeysOf(whole) <==> k in KeysOf(claims) || k == KeyOf(c)
      ensures k != KeyOf(c) ==> EntryAt(whole, k) == EntryAt(claims, k)
    {
      AllTotalsLast(claims, c, k);
      ClaimedKeys(claims, k);
      ClaimedKeys(whole, k);
    }
  }

  lemma FeasibleAtKey(claims: seq<ResourceClaim>, c: ResourceClaim, capacities: Capacities)
    requires Feasible(claims, capacities)
    ensures Feasible(claims + [c], capacities) <==> FitsAt(claims + [c], KeyOf(c), capacities)
  {
    if FitsAt(claims + [c], KeyOf(c), capacities) {
      forall k ensures FitsAt(claims + [c], k, capacities) {
        AllTotalsLast(claims, c, k);
        assert FitsAt(claims, k, capacities);
      }
    }
  }

  /** What the table shows at one resource. */
  lemma HeldEntry(claims: seq<ResourceClaim>, k: ResourceKey, capacities: Capacities)
    requires Feasible(claims, capacities) && KnownClaims(claims)
    ensures FitsAt(claims, k, capacities)
    ensures Total(claims, k, Readers) >= 0 && Total(claims, k, Writers) >= 0
    ensures Total(claims, k, Units) >= Total(claims, k, Counted) >= 0
    ensures k in TableOf(claims) <==>
            Claimed(Total(claims, k, Readers), Total(claims, k, Writers), Total(claims, k, Counted))
    ensures k in TableOf(claims) ==> TableOf(claims)[k] == EntryAt(claims, k)
    ensures k !in TableOf(claims) ==> Total(claims, k, Units) == 0
  {
    ClaimedKeys(claims, k);
    TotalsArePositive(claims, k);
  }

  /** Sort key of `try_acquire`: class, then target, then mode. */
  predicate ClaimLeq(a: ResourceClaim, b: ResourceClaim)
  {
    if a.resourceClass != b.resourceClass then LexLeq(a.resourceClass, b.resourceClass)
    else if a.target != b.target then LexLeq(a.target, b.target)
    else LexLeq(ModeName(a.mode), ModeName(b.mode))
  }

  lemma InfeasiblePrefix(held: seq<ResourceClaim>, claims: seq<ResourceClaim>, n: nat, capacities: Capacities)
    requires KnownClaims(held) && KnownClaims(claims) && n <= |claims|
    requires !Feasible(held + claims[..n], capacities)
    ensures !Feasible(held + claims, capacities)
  {
    if Feasible(held + claims, capacities) {
      assert held + claims == held + claims[..n] + claims[n..];
      FeasibleIsMonotone(held + claims[..n], claims[n..], capacities);
    }
  }

  // ---------------------------------------------------------------------------
  // The mutable table
  // ---------------------------------------------------------------------------

  class LockTable {
    const capacities: Capacities
    var state: map<ResourceKey, LockEntry>

    constructor (capacities: Capacities)
      ensures this.capacities == capacities
      ensures state == TableOf([])
    {
      this.capacities := capacities;
      state := map[];
    }

    /** Grants one claim exactly when the held claims stay feasible with it. */
    method Grant(claim: ResourceClaim, ghost held: seq<ResourceClaim>) returns (granted: bool)
      requires state == TableOf(held) && Feasible(held, capacities) && KnownClaims(held) && IsKnown(claim)
      modifies this
      ensures granted == Feasible(held + [claim], capacities)
      ensures state == if granted then TableOf(held + [claim]) else old(state)
    {
      var key := KeyOf(claim);
      HeldEntry(held, key, capacities);
      AllTotalsLast(held, claim, key);
      TableExtends(held, claim);
      FeasibleAtKey(held, claim, capacities);
      if claim.mode.Write? {
        if key in state && state[key].count > 0 {
          return false;
        }
        state := state[key := LockEntry(Write, 1, 1)];
        granted := true;
      } else if claim.mode.Read? {
        if key !in state {
          state := state[key := LockEntry(Read, 1, 0)];
        } else if !state[key].mode.Read? {
          return false;
        } else {
          state := state[key := state[key].(count := state[key].count + 1)];
        }
        granted := true;
      } else {
        var capacity := CapacityOf(capacities, key);
        if key !in state {
          if claim.units > capacity {
            return false;
          }
          state := state[key := LockEntry(Count, 1, claim.units)];
        } else if !state[key].mode.Count? {
          return false;
        } else if state[key].units + claim.units > capacity {
          return false;
        } else {
          state := state[key := LockEntry(Count, state[key].count + 1, state[key].units + claim.units)];
        }
        granted := true;
      }
    }

    /** Undoes the latest grant. */
    method Release(claim: ResourceClaim, ghost held: seq<ResourceClaim>)
      requires state == TableOf(held + [claim]) && Feasible(held + [claim], capacities)
      requires Feasible(held, capacities) && KnownClaims(held) && IsKnown(claim)
      modifies this
      ensures state == TableOf(held)
    {
      var key := KeyOf(claim);
      HeldEntry(held, key, capacities);
      AllTotalsLast(held, claim, key);
      TableExtends(held, claim);
      assert FitsAt(held + [claim], key, capacities);
      if key !in state {
        return;
      }
      var entry := state[key];
      if claim.mode.Count? {
        entry := entry.(units := entry.units - claim.units);
      }
      entry := entry.(count := entry.count - 1);
      if entry.count <= 0 {
        state := map k | k in state && k != key :: state[k];
      } else {
        state := state[key := entry];
      }
    }

    /** All claims of a task or none: the table moves from the held claims to
        the held claims plus the task's, or stays exactly as it was. */
    method TryAcquire(task: BoardTask, ghost held: seq<ResourceClaim>) returns (acquired: bool)
      requires state == TableOf(held) && Feasible(held, capacities)
      requires KnownClaims(held) && KnownClaims(task.resources)
      modifies this
      ensures acquired == Feasible(held + task.resources, capacities)
      ensures state == if acquired then TableOf(held + task.resources) else old(state)
    {
      var ordered := Sort(task.resources, ClaimLeq);
      MultisetMembers(ordered, task.resources);
      FeasibleForgetsOrder(held + ordered, held + task.resources, capacities);
      TableForgetsOrder(held + ordered, held + task.resources);
      acquired := AcquireOrdered(ordered, held);
    }

    method AcquireOrdered(ordered: seq<ResourceClaim>, ghost held: seq<ResourceClaim>) returns (acquired: bool)
      requires state == TableOf(held) && Feasible(held, capacities)
      requires KnownClaims(held) && KnownClaims(ordered)
      modifies this
      ensures acquired == Feasible(held + ordered, capacities)
      ensures state == if acquired then TableOf(held + ordered) else old(state)
    {
      var granted: seq<ResourceClaim> := [];
      assert held + granted == held;
      for i := 0 to |ordered|
        invariant granted == ordered[..i]
        invariant state == TableOf(held + granted) && Feasible(held + granted, capacities)
      {
        var claim := ordered[i];
        var ok := Grant(claim, held + granted);
        assert (held + granted) + [claim] == held + (granted + [claim]);
        assert granted + [claim] == ordered[..i + 1];
        if !ok {
          InfeasiblePrefix(held, ordered, i + 1, capacities);
          RollBack(granted, held);
          return false;
        }
        granted := granted + [claim];
      }
      assert granted == ordered;
      acquired := true;
    }

    /** Asks for the claims of each task in turn; those that get them keep them. */
    method AcquireEach(tasks: seq<BoardTask>) returns (holders: seq<BoardTask>)
      requires state == map[] && KnownTasks(tasks)
      modifies this
      ensures holders == Survivors(tasks, capacities) && state == TableOf(ClaimsOf(holders))
    {
      holders := [];
      EmptyIsFeasible(capacities);
      assert state == TableOf(ClaimsOf([]));
      for i := 0 to |tasks|
        invariant holders == Survivors(tasks[..i], capacities)
        invariant state == TableOf(ClaimsOf(holders)) && Feasible(ClaimsOf(holders), capacities)
      {
        assert tasks[..i + 1][..i] == tasks[..i] && tasks[i] in tasks;
        SurvivorsAreTasks(tasks[..i], capacities);
        ClaimsKnown(holders);
        ClaimsLast(holders, tasks[i]);
        var acquired := TryAcquire(tasks[i], ClaimsOf(holders));
        if acquired {
          holders := holders + [tasks[i]];
        }
      }
      assert tasks[..|tasks|] == tasks;
    }

    /** Releases in reverse order of granting. */
    method RollBack(granted: seq<ResourceClaim>, ghost held: seq<ResourceClaim>)
      requires state == TableOf(held + granted) && Feasible(held + granted, capacities)
      requires KnownClaims(held) && KnownClaims(granted)
      modifies this
      ensures state == TableOf(held)
    {
      var i := |granted|;
      assert granted[..i] == granted;
      while i > 0
        invariant 0 <= i <= |granted|
        invariant state == TableOf(held + granted[..i]) && Feasible(held + granted[..i], capacities)
      {
        assert held + granted[..i] == held + granted[..i - 1] + [granted[i - 1]];
        assert granted[i - 1] in granted;
        FeasibleIsMonotone(held + granted[..i - 1], [granted[i - 1]], capacities);
        Release(granted[i - 1], held + granted[..i - 1]);
        i := i - 1;
      }
      assert held + granted[..0] == held;
    }
  }

  // ---------------------------------------------------------------------------
  // Sequences of acquisitions
  // ---------------------------------------------------------------------------

  function ClaimsOf(tasks: seq<BoardTask>): seq<ResourceClaim>
  {
    if |tasks| == 0 then [] else tasks[0].resources + ClaimsOf(tasks[1..])
  }

  ghost predicate KnownTasks(tasks: seq<BoardTask>)
  {
    forall t :: t in tasks ==> KnownClaims(t.resources)
  }

  lemma {:induction false} ClaimsAppend(a: seq<BoardTask>, b: seq<BoardTask>)
    ensures ClaimsOf(a + b) == ClaimsOf(a) + ClaimsOf(b)
  {
    if |a| == 0 {
      assert a + b == b;
    } else {
      assert (a + b)[1..] == a[1..] + b;
      ClaimsAppend(a[1..], b);
    }
  }

  lemma ClaimsLast(a: seq<BoardTask>, t: BoardTask)
    ensures ClaimsOf(a + [t]) == ClaimsOf(a) + t.resources
  {
    ClaimsAppend(a, [t]);
    assert ClaimsOf([t]) == t.resources + ClaimsOf([]) == t.resources;
  }

  lemma {:induction false} ClaimsKnown(tasks: seq<BoardTask>)
    requires KnownTasks(tasks)
    ensures KnownClaims(ClaimsOf(tasks))
  {
    if |tasks| == 0 {
    } else {
      assert tasks[0] in tasks;
      assert forall t :: t in tasks[1..] ==> t in tasks;
      ClaimsKnown(tasks[1..]);
    }
  }

  lemma {:induction false} ClaimsForgetOrder(a: seq<BoardTask>, b: seq<BoardTask>)
    requires multiset(a) == multiset(b)
    ensures multiset(ClaimsOf(a)) == multiset(ClaimsOf(b))
  {
    if |a| == 0 {
      assert |multiset(b)| == |b|;
    } else {
      MultisetMembers(a, b);
      assert a[0] in b;
      var i :| 0 <= i < |b| && b[i] == a[0];
      var front, back := b[..i], b[i + 1..];
      assert b == front + [a[0]] + back;
      RestAgrees(a, front, back);
      ClaimsForgetOrder(a[1..], front + back);
      ClaimsAppend(front + [a[0]], back);
      ClaimsLast(front, a[0]);
      ClaimsAppend(front, back);
    }
  }

  /** The tasks that a sequence of `try_acquire` calls leaves holding locks,
      when every call succeeds exactly on feasible totals (`TryAcquire`). */
  ghost function Survivors(tasks: seq<BoardTask>, capacities: Capacities): seq<BoardTask>
  {
    if |tasks| == 0 then []
    else
      var before := Survivors(tasks[..|tasks| - 1], capacities);
      var last := tasks[|tasks| - 1];
      if Feasible(ClaimsOf(before + [last]), capacities) then before + [last] else before
  }

  lemma EmptyIsFeasible(capacities: Capacities)
    ensures Feasible([], capacities)
    ensures Feasible(ClaimsOf([]), capacities)
  {
  }

  lemma {:induction false} SurvivorsAreTasks(tasks: seq<BoardTask>, capacities: Capacities)
    ensures forall t :: t in Survivors(tasks, capacities) ==> t in tasks
    ensures Feasible(ClaimsOf(Survivors(tasks, capacities)), capacities)
  {
    if |tasks| > 0 {
      SurvivorsAreTasks(tasks[..|tasks| - 1], capacities);
    } else {
      EmptyIsFeasible(capacities);
    }
  }

  /** A set of tasks is acquirable in one order exactly when its claim total is
      feasible, hence in one order if and only if in every order. */
  lemma {:induction false} AllAcquirableIffFeasible(tasks: seq<BoardTask>, capacities: Capacities)
    requires KnownTasks(tasks)
    ensures Survivors(tasks, capacities) == tasks <==> Feasible(ClaimsOf(tasks), capacities)
  {
    SurvivorsAreTasks(tasks, capacities);
    if |tasks| > 0 && Feasible(ClaimsOf(tasks), capacities) {
      var front, last := tasks[..|tasks| - 1], tasks[|tasks| - 1];
      assert tasks == front + [last];
      ClaimsLast(front, last);
      ClaimsKnown(front);
      FeasibleIsMonotone(ClaimsOf(front), last.resources, capacities);
      AllAcquirableIffFeasible(front, capacities);
    }
  }

  lemma AcquirableInEveryOrder(a: seq<BoardTask>, b: seq<BoardTask>, capacities: Capacities)
    requires KnownTasks(a) && multiset(a) == multiset(b)
    ensures Survivors(a, capacities) == a <==> Survivors(b, capacities) == b
    ensures Survivors(a, capacities) == a ==> TableOf(ClaimsOf(a)) == TableOf(ClaimsOf(b))
  {
    MultisetMembers(a, b);
    ClaimsForgetOrder(a, b);
    AllAcquirableIffFeasible(a, capacities);
    AllAcquirableIffFeasible(b, capacities);
    FeasibleForgetsOrder(ClaimsOf(a), ClaimsOf(b), capacities);
    TableForgetsOrder(ClaimsOf(a), ClaimsOf(b));
  }
}
