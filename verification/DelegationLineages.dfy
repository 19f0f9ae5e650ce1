/** Delegation lineages and authority (`scripts/python/delegation_lineage.py`). */
module DelegationLineages {

  datatype Budget = Budget(maxDepth: int, maxChildren: int, maxTotal: int)

  predicate BudgetValid(b: Budget)
  {
    b.maxDepth >= 0 && b.maxChildren >= 0 && b.maxTotal >= 0
  }

  datatype Lineage = Lineage(originatingParent: string, chainDepth: int, visited: seq<string>, totalDelegations: int)

  datatype Denial =
    | InvalidArgument
    | DepthExceeded
    | Cycle
    | BudgetExhausted
    | ConcurrencyExceeded
    | LineageForgery
    | GlobalBudgetExhausted
    | MalformedLineage
    | UnknownDelegation
    | GenerationMismatch
    | AlreadySettled
    | Terminal
    | NotDispatched
    | Expired
    | HashMismatch

  datatype Advance = Advanced(lineage: Lineage) | Denied(reason: Denial)

  function RootLineage(originatingParent: string, requester: string): Lineage
    requires |originatingParent| > 0 && |requester| > 0
  {
    Lineage(originatingParent, 0, [requester], 0)
  }

  function Extend(l: Lineage, target: string): Lineage
  {
    Lineage(l.originatingParent, l.chainDepth + 1, l.visited + [target], l.totalDelegations + 1)
  }

  /** Admit one more hop or fail closed. */
  function AdvanceBy(l: Lineage, target: string, budget: Budget): Advance
  {
    if !BudgetValid(budget) || |target| == 0 then Denied(InvalidArgument)
    else if l.chainDepth >= budget.maxDepth then Denied(DepthExceeded)
    else if target in l.visited then Denied(Cycle)
    else if l.totalDelegations >= budget.maxTotal then Denied(BudgetExhausted)
    else Advanced(Extend(l, target))
  }

  // ---------------------------------------------------------------------------
  // Lineages that cross a process boundary
  // ---------------------------------------------------------------------------

  datatype Json = JString(text: string) | JInt(number: int) | JBool(flag: bool) | JList(items: seq<Json>) | JNull

  type Dict = map<string, Json>

  function ToDict(l: Lineage): Dict
  {
    map["originating_parent" := JString(l.originatingParent),
        "chain_depth" := JInt(l.chainDepth),
        "visited_specialists" := JList(seq(|l.visited|, i requires 0 <= i < |l.visited| => JString(l.visited[i]))),
        "total_delegations" := JInt(l.totalDelegations)]
  }

  function Texts(items: seq<Json>): seq<string>
    requires forall j :: j in items ==> j.JString?
  {
    seq(|items|, i requires 0 <= i < |items| => items[i].text)
  }

  /** What everything made by `RootLineage` and `Extend` satisfies. */
  predicate Coherent(l: Lineage)
  {
    && |l.originatingParent| > 0
    && (forall s :: s in l.visited ==> |s| > 0)
    && (forall i, j :: 0 <= i < j < |l.visited| ==> l.visited[i] != l.visited[j])
    && l.chainDepth >= 0 && l.totalDelegations >= 0
    && l.chainDepth == |l.visited| - 1 && l.totalDelegations == l.chainDepth
  }

  /** Strict validation of a carried lineage. */
  function FromDict(d: Dict): Advance
  {
    if !("originating_parent" in d && d["originating_parent"].JString?
         && "chain_depth" in d && d["chain_depth"].JInt?
         && "total_delegations" in d && d["total_delegations"].JInt?
         && "visited_specialists" in d && d["visited_specialists"].JList?
         && forall j :: j in d["visited_specialists"].items ==> j.JString?) then Denied(MalformedLineage)
    else
      var l := Lineage(d["originating_parent"].text, d["chain_depth"].number,
                       Texts(d["visited_specialists"].items), d["total_delegations"].number);
      if Coherent(l) then Advanced(l) else Denied(MalformedLineage)
  }

  /** Every hop of a chain starting at `requester`. */
  ghost function Chain(originatingParent: string, requester: string, targets: seq<string>): Lineage
    requires |originatingParent| > 0 && |requester| > 0
  {
    if |targets| == 0 then RootLineage(originatingParent, requester)
    else Extend(Chain(originatingParent, requester, targets[..|targets| - 1]), targets[|targets| - 1])
  }

  /** Each hop was admitted under the budget. */
  ghost predicate Admissible(originatingParent: string, requester: string, targets: seq<string>, budget: Budget)
    requires |originatingParent| > 0 && |requester| > 0
  {
    forall k :: 0 <= k < |targets| ==>
      AdvanceBy(Chain(originatingParent, requester, targets[..k]), targets[k], budget).Advanced?
  }

  lemma {:induction false} ChainFields(originatingParent: string, requester: string, targets: seq<string>)
    requires |originatingParent| > 0 && |requester| > 0
    ensures Chain(originatingParent, requester, targets)
            == Lineage(originatingParent, |targets|, [requester] + targets, |targets|)
  {
    if |targets| == 0 {
    } else {
      var n := |targets| - 1;
      ChainFields(originatingParent, requester, targets[..n]);
      assert targets == targets[..n] + [targets[n]];
    }
  }

  lemma {:induction false} AdmittedChainIsCoherent(originatingParent: string, requester: string, targets: seq<string>, budget: Budget)
    requires |originatingParent| > 0 && |requester| > 0
    requires Admissible(originatingParent, requester, targets, budget)
    ensures Coherent(Chain(originatingParent, requester, targets))
  {
    if |targets| == 0 {
    } else {
      var n := |targets| - 1;
      assert forall k :: 0 <= k < n ==> targets[..n][..k] == targets[..k];
      AdmittedChainIsCoherent(originatingParent, requester, targets[..n], budget);
      assert AdvanceBy(Chain(originatingParent, requester, targets[..n]), targets[n], budget).Advanced?;
    }
  }

  /** Some budget admits every hop of a chain from `requester` to `l`. */
  ghost predicate Produces(requester: string, targets: seq<string>, budget: Budget, l: Lineage)
  {
    |l.originatingParent| > 0 && |requester| > 0 && Admissible(l.originatingParent, requester, targets, budget)
    && Chain(l.originatingParent, requester, targets) == l
  }

  lemma CoherentIsProduced(l: Lineage)
    requires Coherent(l)
    ensures Produces(l.visited[0], l.visited[1..], Budget(|l.visited| - 1, 0, |l.visited| - 1), l)
  {
    var requester, targets := l.visited[0], l.visited[1..];
    var budget := Budget(|targets|, 0, |targets|);
    assert requester in l.visited;
    assert l.visited == [requester] + targets;
    ChainFields(l.originatingParent, requester, targets);
    forall k | 0 <= k < |targets|
      ensures AdvanceBy(Chain(l.originatingParent, requester, targets[..k]), targets[k], budget).Advanced?
    {
      ChainFields(l.originatingParent, requester, targets[..k]);
      assert targets[k] == l.visited[k + 1] && l.visited[k + 1] in l.visited;
      assert [requester] + targets[..k] == l.visited[..k + 1];
    }
  }

  /** A lineage passes strict validation exactly when some budget admits every
      hop of a chain that produces it. */
  lemma CoherentIffProduced(l: Lineage)
    ensures Coherent(l) <==> exists requester, targets, budget :: Produces(requester, targets, budget, l)
  {
    if Coherent(l) {
      CoherentIsProduced(l);
    }
    if requester, targets, budget :| Produces(requester, targets, budget, l) {
      AdmittedChainIsCoherent(l.originatingParent, requester, targets, budget);
    }
  }

  /** Round trip: a lineage survives the dictionary form exactly when coherent,
      and nothing else is ever returned. */
  lemma DictRoundTrip(l: Lineage, d: Dict)
    ensures FromDict(ToDict(l)) == if Coherent(l) then Advanced(l) else Denied(MalformedLineage)
    ensures FromDict(d).Advanced? ==> Coherent(FromDict(d).lineage) && ToDict(FromDict(d).lineage).Items <= d.Items
  {
    var e := ToDict(l);
    var items := e["visited_specialists"].items;
    assert forall j :: j in items ==> j.JString?;
    assert Texts(items) == l.visited;
    if FromDict(d).Advanced? {
      var back := ToDict(FromDict(d).lineage);
      var given := d["visited_specialists"].items;
      forall i | 0 <= i < |given| ensures back["visited_specialists"].items[i] == given[i] {
        assert given[i] in given;
      }
      forall kv | kv in back.Items ensures kv in d.Items {
        assert kv.0 in d && d[kv.0] == kv.1;
      }
    }
  }

  // ---------------------------------------------------------------------------
  // Authority
  // ---------------------------------------------------------------------------

  datatype DataClass = Public | Internal | Restricted

  function Rank(c: DataClass): int
  {
    match c
    case Public => 0
    case Internal => 1
    case Restricted => 2
  }

  datatype Authority = Authority(
    readPaths: set<string>, writePaths: set<string>, externalTargets: set<string>,
    dataClass: DataClass, resources: set<(string, string)>)

  function Lower(a: DataClass, b: DataClass): DataClass
  {
    if Rank(b) < Rank(a) then b else a
  }

  function IntersectAuthority(parent: Authority, requester: Authority, scope: Authority, policy: Authority): Authority
  {
    Authority(
      parent.readPaths * requester.readPaths * scope.readPaths * policy.readPaths,
      {},
      parent.externalTargets * requester.externalTargets * scope.externalTargets * policy.externalTargets,
      Lower(Lower(Lower(parent.dataClass, requester.dataClass), scope.dataClass), policy.dataClass),
      parent.resources * requester.resources * scope.resources * policy.resources)
  }

  /** `a` grants nothing that `b` does not grant. */
  predicate Within(a: Authority, b: Authority)
  {
    && a.readPaths <= b.readPaths && a.writePaths <= b.writePaths && a.externalTargets <= b.externalTargets
    && Rank(a.dataClass) <= Rank(b.dataClass) && a.resources <= b.resources
  }

  /** The intersection is the greatest read-only authority within all inputs; its
      data class is public as soon as one is, and restricted only if all are. */
  lemma IntersectionIsGreatest(a: Authority, parent: Authority, requester: Authority, scope: Authority, policy: Authority)
    ensures Within(a, IntersectAuthority(parent, requester, scope, policy)) <==>
            a.writePaths == {} && Within(a, parent) && Within(a, requester) && Within(a, scope) && Within(a, policy)
    ensures var least, all := IntersectAuthority(parent, requester, scope, policy).dataClass,
                              {parent.dataClass, requester.dataClass, scope.dataClass, policy.dataClass};
            && (least == Public <==> Public in all)
            && (least == Restricted <==> all == {Restricted})
  {
    var r := IntersectAuthority(parent, requester, scope, policy);
    assert r.dataClass in {parent.dataClass, requester.dataClass, scope.dataClass, policy.dataClass};
    assert Rank(a.dataClass) <= Rank(r.dataClass) <==>
           Rank(a.dataClass) <= Rank(parent.dataClass) && Rank(a.dataClass) <= Rank(requester.dataClass)
           && Rank(a.dataClass) <= Rank(scope.dataClass) && Rank(a.dataClass) <= Rank(policy.dataClass);
  }
}
