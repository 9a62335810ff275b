/**
 * The instance aggregate: the externally parsed TSPLIB instance, the optional
 * reference optimum, the distance oracle and route evaluation.
 */
module TspInstance {
  import opened Wrappers

  type Node = nat
  type Edge = (Node, Node)
  type Route = seq<Node>

  /** How the external parser stores weights: a given matrix, or computed from coordinates. */
  datatype WeightKind = Explicit | Derived

  /**
   * What the external TSPLIB grammar parser exposes: the instance name, the
   * node count, the weight kind and its own weight lookup, indexed however
   * that parser chooses.
   */
  datatype RawInstance = RawInstance(name: string, dim: nat, kind: WeightKind, weight: (nat, nat) -> real)

  /** The (global) optimum of an instance: its objective value and, if known, the tour. */
  datatype TspOptimum = TspOptimum(objective: real, solution: Option<Route>)

  /** A symmetric TSP instance; read-only once constructed. */
  datatype Tsp = Tsp(bestSolution: Option<TspOptimum>, inner: RawInstance)

  /**
   * The weight of an edge. Explicit matrices are looked up with the node
   * indices as given; every other weight kind is looked up one position
   * further on in both indices, self-edges included.
   */
  function Distance(tsp: Tsp, edge: Edge): (d: real)
    ensures tsp.inner.kind == Explicit ==> d == tsp.inner.weight(edge.0, edge.1)
    ensures tsp.inner.kind != Explicit ==> d == tsp.inner.weight(edge.0 + 1, edge.1 + 1)
  {
    var (a, b) := edge;
    if tsp.inner.kind == Explicit then tsp.inner.weight(a, b) else tsp.inner.weight(a + 1, b + 1)
  }

  /**
   * The same weight table read as a derived instance answers at (a, b) what
   * it answers as an explicit instance at (a + 1, b + 1); the stored optimum
   * plays no part.
   */
  lemma DerivedIsExplicitOneOn(raw: RawInstance, best1: Option<TspOptimum>, best2: Option<TspOptimum>, a: Node, b: Node)
    ensures Distance(Tsp(best1, raw.(kind := Derived)), (a, b))
         == Distance(Tsp(best2, raw.(kind := Explicit)), (a + 1, b + 1))
  {
  }

  /** The consecutive pairs of a route, as `zip(route, route.skip(1))` yields them. */
  function Pairs(route: Route): (edges: seq<Edge>)
    ensures |edges| == if |route| == 0 then 0 else |route| - 1
    ensures forall i :: 0 <= i < |edges| ==> edges[i] == (route[i], route[i + 1])
  {
    if |route| < 2 then [] else [(route[0], route[1])] + Pairs(route[1..])
  }

  /** Sum of the distances of `edges`, added left to right starting from zero. */
  function SumDistances(tsp: Tsp, edges: seq<Edge>): (sum: real) {
    if |edges| == 0 then 0.0 else SumDistances(tsp, edges[..|edges| - 1]) + Distance(tsp, edges[|edges| - 1])
  }

  /**
   * The objective of a route: the distances of its consecutive pairs summed.
   * No closing edge from the last node back to the first is added.
   */
  function EvaluateSolution(tsp: Tsp, solution: Route): (objective: real)
    ensures |solution| <= 1 ==> objective == 0.0
  {
    SumDistances(tsp, Pairs(solution))
  }

  /** Reference definition: the sum over i in [0, k) of the distance from route[i] to route[i + 1]. */
  function LegSum(tsp: Tsp, route: Route, k: nat): (sum: real)
    requires k < |route|
  {
    if k == 0 then 0.0 else LegSum(tsp, route, k - 1) + Distance(tsp, (route[k - 1], route[k]))
  }

  lemma {:induction false} SumDistancesOfPairs(tsp: Tsp, route: Route, k: nat)
    requires k < |route|
    ensures SumDistances(tsp, Pairs(route)[..k]) == LegSum(tsp, route, k)
  {
    if k > 0 {
      var edges := Pairs(route)[..k];
      assert edges[..k - 1] == Pairs(route)[..k - 1];
      SumDistancesOfPairs(tsp, route, k - 1);
    }
  }

  /** Evaluating a route sums exactly the |route| - 1 legs between consecutive nodes. */
  lemma EvaluateIsLegSum(tsp: Tsp, route: Route)
    requires 0 < |route|
    ensures EvaluateSolution(tsp, route) == LegSum(tsp, route, |route| - 1)
  {
    assert Pairs(route)[..|route| - 1] == Pairs(route);
    SumDistancesOfPairs(tsp, route, |route| - 1);
  }

  /** Appending a node adds exactly the one leg into it. */
  lemma EvaluateAppend(tsp: Tsp, route: Route, x: Node)
    requires 0 < |route|
    ensures EvaluateSolution(tsp, route + [x])
         == EvaluateSolution(tsp, route) + Distance(tsp, (route[|route| - 1], x))
  {
    var extended := route + [x];
    var edges := Pairs(extended);
    assert |edges| == |route|;
    forall i | 0 <= i < |route| - 1
      ensures edges[i] == Pairs(route)[i]
    {
      assert extended[i] == route[i] && extended[i + 1] == route[i + 1];
    }
    assert edges[..|route| - 1] == Pairs(route);
    assert extended[|route| - 1] == route[|route| - 1] && extended[|route|] == x;
    assert edges[|route| - 1] == (route[|route| - 1], x);
  }

  /**
   * A closed tour is only charged for its return leg when the route lists the
   * start node again at its end.
   */
  lemma ClosingLegOnlyIfListed(tsp: Tsp, route: Route)
    requires 0 < |route|
    ensures EvaluateSolution(tsp, route + [route[0]])
         == EvaluateSolution(tsp, route) + Distance(tsp, (route[|route| - 1], route[0]))
  {
    EvaluateAppend(tsp, route, route[0]);
  }

  /** Joining two routes adds the one leg that connects them. */
  lemma {:induction false} EvaluateConcat(tsp: Tsp, front: Route, back: Route)
    requires 0 < |front| && 0 < |back|
    ensures EvaluateSolution(tsp, front + back)
         == EvaluateSolution(tsp, front) + Distance(tsp, (front[|front| - 1], back[0]))
            + EvaluateSolution(tsp, back)
  {
    if |back| == 1 {
      assert front + back == front + [back[0]];
      EvaluateAppend(tsp, front, back[0]);
    } else {
      var init := back[..|back| - 1];
      var x := back[|back| - 1];
      assert back == init + [x];
      assert front + back == (front + init) + [x];
      EvaluateConcat(tsp, front, init);
      EvaluateAppend(tsp, front + init, x);
      EvaluateAppend(tsp, init, x);
    }
  }

  /** The stored optimum plays no part in evaluation. */
  lemma EvaluateIgnoresBestSolution(tsp: Tsp, best: Option<TspOptimum>, route: Route)
    ensures EvaluateSolution(tsp.(bestSolution := best), route) == EvaluateSolution(tsp, route)
  {
    SumIgnoresBestSolution(tsp, best, Pairs(route));
  }

  lemma {:induction false} SumIgnoresBestSolution(tsp: Tsp, best: Option<TspOptimum>, edges: seq<Edge>)
    ensures SumDistances(tsp.(bestSolution := best), edges) == SumDistances(tsp, edges)
  {
    if |edges| > 0 {
      SumIgnoresBestSolution(tsp, best, edges[..|edges| - 1]);
    }
  }

  /** The stored optimum, if any, handed out as it is stored. */
  function BestSolution(tsp: Tsp): (best: Option<TspOptimum>)
    ensures best == tsp.bestSolution
  {
    tsp.bestSolution
  }

  /** The objective of the stored optimum, if any. */
  function BestFitness(tsp: Tsp): (fitness: Option<real>)
    ensures fitness.None? <==> BestSolution(tsp).None?
    ensures fitness.Some? ==> fitness.value == BestSolution(tsp).value.objective
  {
    match tsp.bestSolution
    case None => None
    case Some(optimum) => Some(optimum.objective)
  }
}
