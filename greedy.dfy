/** Nearest-neighbour tour construction over an instance's distance oracle. */
module Greedy {
  import opened TspInstance

  /** The ascending nodes lo, lo + 1, ..., hi - 1; empty when hi <= lo. */
  function Span(lo: nat, hi: nat): (s: seq<Node>)
    ensures |s| == if hi <= lo then 0 else hi - lo
    ensures forall i :: 0 <= i < |s| ==> s[i] == lo + i
    decreases hi - lo
  {
    if hi <= lo then [] else [lo] + Span(lo + 1, hi)
  }

  predicate StrictlyAscending(s: seq<Node>) {
    forall i, j :: 0 <= i < j < |s| ==> s[i] < s[j]
  }

  predicate Distinct(s: seq<Node>) {
    forall i, j :: 0 <= i < j < |s| ==> s[i] != s[j]
  }

  /** `r` lists each of the nodes 0, ..., n - 1 exactly once. */
  predicate IsPermutationOfNodes(r: Route, n: nat) {
    && |r| == n
    && Distinct(r)
    && (forall i :: 0 <= i < |r| ==> r[i] < n)
    && (forall v: Node :: v < n ==> v in r)
  }

  /**
   * Seen from `from`, `chosen` beats `other`: it is strictly nearer, or
   * equally near and the lower node.
   */
  predicate NearerOrLowerTie(tsp: Tsp, from: Node, chosen: Node, other: Node) {
    || Distance(tsp, (from, chosen)) < Distance(tsp, (from, other))
    || (Distance(tsp, (from, chosen)) == Distance(tsp, (from, other)) && chosen < other)
  }

  /** Every node after the first beats every node that comes after it, seen from its predecessor. */
  predicate NearestChoices(tsp: Tsp, r: Route) {
    forall i, j :: 1 <= i < j < |r| ==> NearerOrLowerTie(tsp, r[i - 1], r[i], r[j])
  }

  /**
   * `min_by_key` over the enumerated `remaining`: the index of the nearest
   * candidate to `last`; among equally near ones, the first.
   */
  method NearestIndex(tsp: Tsp, last: Node, remaining: seq<Node>) returns (k: nat)
    requires |remaining| > 0
    ensures k < |remaining|
    ensures forall j :: 0 <= j < |remaining| ==>
      Distance(tsp, (last, remaining[k])) <= Distance(tsp, (last, remaining[j]))
    ensures forall j :: 0 <= j < k ==>
      Distance(tsp, (last, remaining[k])) < Distance(tsp, (last, remaining[j]))
  {
    k := 0;
    var best := Distance(tsp, (last, remaining[0]));
    for j := 1 to |remaining|
      invariant k < j
      invariant best == Distance(tsp, (last, remaining[k]))
      invariant forall i :: 0 <= i < j ==> best <= Distance(tsp, (last, remaining[i]))
      invariant forall i :: 0 <= i < k ==> best < Distance(tsp, (last, remaining[i]))
    {
      var d := Distance(tsp, (last, remaining[j]));
      if d < best {
        k, best := j, d;
      }
    }
  }

  /**
   * Builds a route from node 0 by repeatedly moving the nearest remaining
   * node, ties going to the lowest, from `remaining` to the end of `route`.
   * An instance with no nodes still yields the route [0].
   */
  method GreedyRoute(tsp: Tsp) returns (route: Route)
    ensures 0 < |route| && route[0] == 0
    ensures multiset(route) == multiset(Span(0, Max1(tsp.inner.dim)))
    ensures IsPermutationOfNodes(route, Max1(tsp.inner.dim))
    ensures tsp.inner.dim == 0 ==> route == [0]
    ensures NearestChoices(tsp, route)
  {
    var n := Max1(tsp.inner.dim);
    var remaining := Span(1, tsp.inner.dim);
    route := [0];
    assert route + remaining == Span(0, n);
    while |remaining| > 0
      invariant 0 < |route| && route[0] == 0
      invariant multiset(route + remaining) == multiset(Span(0, n))
      invariant StrictlyAscending(remaining)
      invariant NearestChoices(tsp, route)
      invariant forall i, k :: 1 <= i < |route| && 0 <= k < |remaining| ==>
        NearerOrLowerTie(tsp, route[i - 1], route[i], remaining[k])
      decreases |remaining|
    {
      var last := route[|route| - 1];
      var k := NearestIndex(tsp, last, remaining);
      var next := remaining[k];
      var rest := remaining[..k] + remaining[k + 1..];
      MoveKeepsPermutation(route, remaining, k);
      MoveKeepsNearestChoices(tsp, route, remaining, k, route + [next], rest);
      remaining := rest;
      route := route + [next];
    }
    SpanIsPermutation(route, n);
  }

  /** Moving remaining[k] to the end of the route keeps route + remaining a permutation and remaining ascending. */
  lemma MoveKeepsPermutation(route: Route, remaining: seq<Node>, k: nat)
    requires k < |remaining| && StrictlyAscending(remaining)
    ensures multiset((route + [remaining[k]]) + (remaining[..k] + remaining[k + 1..]))
         == multiset(route + remaining)
    ensures StrictlyAscending(remaining[..k] + remaining[k + 1..])
  {
    assert remaining == remaining[..k] + [remaining[k]] + remaining[k + 1..];
    var rest := remaining[..k] + remaining[k + 1..];
    forall i, j | 0 <= i < j < |rest|
      ensures rest[i] < rest[j]
    {
      var i', j' := if i < k then i else i + 1, if j < k then j else j + 1;
      assert rest[i] == remaining[i'] && rest[j] == remaining[j'];
    }
  }

  /**
   * When remaining[k] is the first nearest candidate to the route's last node,
   * moving it to the route keeps every choice made so far, and the new one,
   * ahead of all nodes still remaining.
   */
  lemma MoveKeepsNearestChoices(tsp: Tsp, route: Route, remaining: seq<Node>, k: nat, route': Route, rest: seq<Node>)
    requires 0 < |route| && k < |remaining| && StrictlyAscending(remaining)
    requires route' == route + [remaining[k]] && rest == remaining[..k] + remaining[k + 1..]
    requires NearestChoices(tsp, route)
    requires forall i, m :: 1 <= i < |route| && 0 <= m < |remaining| ==>
      NearerOrLowerTie(tsp, route[i - 1], route[i], remaining[m])
    requires forall j :: 0 <= j < |remaining| ==>
      Distance(tsp, (route[|route| - 1], remaining[k])) <= Distance(tsp, (route[|route| - 1], remaining[j]))
    requires forall j :: 0 <= j < k ==>
      Distance(tsp, (route[|route| - 1], remaining[k])) < Distance(tsp, (route[|route| - 1], remaining[j]))
    ensures NearestChoices(tsp, route')
    ensures forall i, m :: 1 <= i < |route'| && 0 <= m < |rest| ==>
      NearerOrLowerTie(tsp, route'[i - 1], route'[i], rest[m])
  {
    var last := route[|route| - 1];
    forall i, j | 1 <= i < j < |route'|
      ensures NearerOrLowerTie(tsp, route'[i - 1], route'[i], route'[j])
    {
      if j == |route| {
        assert route'[j] == remaining[k];
      } else {
        assert route'[i - 1] == route[i - 1] && route'[i] == route[i] && route'[j] == route[j];
      }
    }
    forall i, m | 1 <= i < |route'| && 0 <= m < |rest|
      ensures NearerOrLowerTie(tsp, route'[i - 1], route'[i], rest[m])
    {
      var m' := if m < k then m else m + 1;
      assert rest[m] == remaining[m'];
      if i == |route| {
        assert route'[i - 1] == last && route'[i] == remaining[k];
        if m' > k {
          assert remaining[k] < remaining[m'];
        }
      } else {
        assert route'[i - 1] == route[i - 1] && route'[i] == route[i];
      }
    }
  }

  function Max1(dim: nat): (n: nat)
    ensures 1 <= n && (dim >= 1 ==> n == dim)
  {
    if dim == 0 then 1 else dim
  }

  /** A sequence with the multiset of 0, ..., n - 1 lists each of those nodes exactly once. */
  lemma SpanIsPermutation(r: Route, n: nat)
    requires multiset(r) == multiset(Span(0, n))
    ensures IsPermutationOfNodes(r, n)
  {
    var span := Span(0, n);
    assert |r| == |multiset(r)| == |multiset(span)| == n;
    forall i | 0 <= i < |r|
      ensures r[i] < n
    {
      assert r[i] in multiset(span);
    }
    forall v: Node | v < n
      ensures v in r
    {
      assert span[v] == v;
      assert v in multiset(r);
    }
    forall i, j | 0 <= i < j < |r|
      ensures r[i] != r[j]
    {
      if r[i] == r[j] {
        CountOfRepeat(r, i, j);
        DistinctCount(span, r[i]);
        assert false;
      }
    }
  }

  lemma CountOfRepeat(s: seq<Node>, i: nat, j: nat)
    requires i < j < |s| && s[i] == s[j]
    ensures multiset(s)[s[i]] >= 2
  {
    assert s == s[..i] + [s[i]] + s[i + 1..j] + [s[j]] + s[j + 1..];
  }

  lemma {:induction false} DistinctCount(s: seq<Node>, v: Node)
    requires StrictlyAscending(s)
    ensures multiset(s)[v] <= 1
  {
    if |s| > 0 {
      assert s == [s[0]] + s[1..];
      DistinctCount(s[1..], v);
      if v == s[0] {
        assert v !in s[1..];
      }
    }
  }

  /**
   * The contract of `GreedyRoute` leaves no freedom: two routes that start at
   * node 0, list every node once and make the nearest choice with the
   * lowest-node tie-break at every step are equal.
   */
  lemma GreedyRouteIsDetermined(tsp: Tsp, r1: Route, r2: Route, n: nat)
    requires IsPermutationOfNodes(r1, n) && IsPermutationOfNodes(r2, n)
    requires 0 < n && r1[0] == 0 && r2[0] == 0
    requires NearestChoices(tsp, r1) && NearestChoices(tsp, r2)
    ensures r1 == r2
  {
    AgreeUpTo(tsp, r1, r2, n, n);
  }

  lemma {:induction false} AgreeUpTo(tsp: Tsp, r1: Route, r2: Route, n: nat, k: nat)
    requires IsPermutationOfNodes(r1, n) && IsPermutationOfNodes(r2, n)
    requires 0 < k <= n && r1[0] == 0 && r2[0] == 0
    requires NearestChoices(tsp, r1) && NearestChoices(tsp, r2)
    ensures r1[..k] == r2[..k]
  {
    if k > 1 {
      AgreeUpTo(tsp, r1, r2, n, k - 1);
      var i := k - 1;
      var a, b := r1[i], r2[i];
      var j1 := IndexOf(r1, b);
      var j2 := IndexOf(r2, a);
      LaterInOther(r2, r1, i, j1);
      LaterInOther(r1, r2, i, j2);
      TieBreakAsymmetric(tsp, r1[i - 1], a, b);
      assert r1[i] == r2[i];
      assert r1[..k] == r1[..k - 1] + [r1[i]];
      assert r2[..k] == r2[..k - 1] + [r2[i]];
    }
  }

  /** The position of `v` in `s`. */
  function IndexOf(s: seq<Node>, v: Node): (i: nat)
    requires v in s
    ensures i < |s| && s[i] == v
  {
    if s[0] == v then 0 else 1 + IndexOf(s[1..], v)
  }

  /** Two routes that agree before position i: the node at position i of one lies at or after i in the other. */
  lemma LaterInOther(r: Route, other: Route, i: nat, j: nat)
    requires i < |r| && j < |other| && i <= |other| && Distinct(r)
    requires r[..i] == other[..i] && other[j] == r[i]
    ensures i <= j
  {
  }

  /** The nearest-then-lowest order is asymmetric. */
  lemma TieBreakAsymmetric(tsp: Tsp, from: Node, a: Node, b: Node)
    ensures NearerOrLowerTie(tsp, from, a, b) ==> !NearerOrLowerTie(tsp, from, b, a)
  {
  }
}
