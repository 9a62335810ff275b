/** Building an instance: the external grammar parse, then the optional tour file. */
module Construction {
  import opened Wrappers
  import opened TspInstance
  import opened OptTour

  datatype ConstructionFailure =
    | GrammarFailed(message: string)  // the error returned when the instance text does not parse
    | OptFilePanicked(cause: Panic)   // an abort while reading the tour file

  /**
   * Builds an instance from what the external grammar parser made of the
   * instance text (`parsed`) and the lines of the optional tour file (`opt`).
   * The tour file is read against the freshly built instance, which has no
   * optimum yet; its result becomes the instance's optimum.
   */
  function TryParse(parsed: Result<RawInstance, string>, opt: Option<seq<string>>, parseReal: string -> Option<real>)
    : (r: Result<Tsp, ConstructionFailure>)
    ensures parsed.Err? ==> r == Err(GrammarFailed(parsed.error))
    ensures r.Ok? ==> parsed.Ok? && r.value.inner == parsed.value
    ensures parsed.Ok? && opt.None? ==> r.Ok? && BestSolution(r.value) == None
    ensures parsed.Ok? && opt.Some? ==>
      (r.Ok? <==> ParseOptFile(Tsp(None, parsed.value), opt.value, parseReal).Ok?)
    ensures r.Ok? && opt.Some? ==>
      BestSolution(r.value) == Some(ParseOptFile(Tsp(None, parsed.value), opt.value, parseReal).value)
    ensures parsed.Ok? && opt.Some? && ParseOptFile(Tsp(None, parsed.value), opt.value, parseReal).Err? ==>
      r == Err(OptFilePanicked(ParseOptFile(Tsp(None, parsed.value), opt.value, parseReal).error))
  {
    match parsed
    case Err(message) => Err(GrammarFailed(message))
    case Ok(raw) =>
      var instance := Tsp(None, raw);
      match opt
      case None => Ok(instance)
      case Some(lines) =>
        match ParseOptFile(instance, lines, parseReal)
        case Err(cause) => Err(OptFilePanicked(cause))
        case Ok(optimum) => Ok(instance.(bestSolution := Some(optimum)))
  }

  /** Without a tour file an instance has no known optimum and no best fitness. */
  lemma NoTourFileNoFitness(raw: RawInstance, parseReal: string -> Option<real>)
    ensures TryParse(Ok(raw), None, parseReal).Ok?
    ensures BestFitness(TryParse(Ok(raw), None, parseReal).value) == None
  {
  }

  /** A stated objective is the instance's best fitness. */
  lemma StatedObjectiveIsBestFitness(raw: RawInstance, lines: seq<string>, parseReal: string -> Option<real>, v: real)
    requires StatedObjective(lines, parseReal) == Ok(Some(v))
    requires ParseTourIds(TourEntries(lines)).Ok?
    ensures TryParse(Ok(raw), Some(lines), parseReal).Ok?
    ensures BestFitness(TryParse(Ok(raw), Some(lines), parseReal).value) == Some(v)
  {
  }

  /**
   * Without a stated objective the best fitness is the evaluation of the
   * stored tour, on the finished instance as on the one it was read against.
   */
  lemma UnstatedObjectiveIsTourLength(raw: RawInstance, lines: seq<string>, parseReal: string -> Option<real>)
    requires StatedObjective(lines, parseReal) == Ok(None)
    requires TryParse(Ok(raw), Some(lines), parseReal).Ok?
    ensures var tsp := TryParse(Ok(raw), Some(lines), parseReal).value;
      && BestSolution(tsp).Some? && BestSolution(tsp).value.solution.Some?
      && BestFitness(tsp) == Some(EvaluateSolution(tsp, BestSolution(tsp).value.solution.value))
  {
    var tsp := TryParse(Ok(raw), Some(lines), parseReal).value;
    EvaluateIgnoresBestSolution(Tsp(None, raw), tsp.bestSolution, tsp.bestSolution.value.solution.value);
  }
}
