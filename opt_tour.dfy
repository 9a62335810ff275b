/**
 * The reference-tour reader: a line-oriented file in the TSPLIB 95 tour
 * style, with a `TOUR_SECTION` of 1-based node ids closed by `-1`, plus a
 * `BEST_SOLUTION: <value>` line that the TSPLIB format itself does not define.
 */
module OptTour {
  import opened Wrappers
  import opened Text
  import opened TspInstance

  const BestSolutionKey: string := "BEST_SOLUTION"
  /** The objective text starts this many bytes into its line: the length of "BEST_SOLUTION: ". */
  const ObjectiveOffset: nat := |"BEST_SOLUTION: "|
  const TourSectionMarker: string := "TOUR_SECTION"
  const TourTerminator: string := "-1"

  /** The ways reading a tour file aborts. */
  datatype Panic =
    | ObjectiveLineTooShort               // the BEST_SOLUTION line is shorter than the offset
    | ObjectiveNotANumber                 // the text after the offset is not an admissible objective
    | TourEntryNotANumber(entry: string)  // a tour entry is not a `usize`
    | TourEntryZero                       // a tour entry is 0, so subtracting 1 underflows
    | NeitherObjectiveNorTour             // the file gives no objective and no tour

  /** Position of the first line satisfying `p`, or |lines| when there is none. */
  function FirstIndex(lines: seq<string>, p: string -> bool): (i: nat)
    ensures i <= |lines|
    ensures forall j {:trigger lines[j]} :: 0 <= j < i ==> !p(lines[j])
    ensures i < |lines| ==> p(lines[i])
  {
    if |lines| == 0 || p(lines[0]) then 0 else 1 + FirstIndex(lines[1..], p)
  }

  predicate IsFirstObjectiveLine(lines: seq<string>, i: nat) {
    && i < |lines|
    && StartsWith(lines[i], BestSolutionKey)
    && forall j :: 0 <= j < i ==> !StartsWith(lines[j], BestSolutionKey)
  }

  /**
   * The stated objective: none when no line starts with BEST_SOLUTION;
   * otherwise the first such line, read from byte 15 on. The two bytes after
   * the keyword are not looked at.
   */
  function StatedObjective(lines: seq<string>, parseReal: string -> Option<real>): (r: Result<Option<real>, Panic>)
    ensures r == Ok(None) <==> forall j :: 0 <= j < |lines| ==> !StartsWith(lines[j], BestSolutionKey)
    ensures forall i: nat :: IsFirstObjectiveLine(lines, i) ==>
      (r == Err(ObjectiveLineTooShort) <==> |lines[i]| < ObjectiveOffset)
    ensures forall i: nat :: IsFirstObjectiveLine(lines, i) && ObjectiveOffset <= |lines[i]| ==>
      (r.Ok? <==> parseReal(lines[i][ObjectiveOffset..]).Some?)
      && (r.Ok? ==> r.value == parseReal(lines[i][ObjectiveOffset..]))
  {
    var i := FirstIndex(lines, line => StartsWith(line, BestSolutionKey));
    if i == |lines| then Ok(None)
    else if |lines[i]| < ObjectiveOffset then Err(ObjectiveLineTooShort)
    else match parseReal(lines[i][ObjectiveOffset..])
      case None => Err(ObjectiveNotANumber)
      case Some(v) => Ok(Some(v))
  }

  /** The first line equal to TOUR_SECTION is at position s. */
  predicate IsFirstMarker(lines: seq<string>, s: nat) {
    s < |lines| && lines[s] == TourSectionMarker && forall j :: 0 <= j < s ==> lines[j] != TourSectionMarker
  }

  /** `entries` are the lines right after position s, up to the first `-1` or the end. */
  predicate IsTourBody(lines: seq<string>, s: nat, entries: seq<string>) {
    && s + 1 + |entries| <= |lines|
    && entries == lines[s + 1..s + 1 + |entries|]
    && (forall k :: 0 <= k < |entries| ==> entries[k] != TourTerminator)
    && (s + 1 + |entries| < |lines| ==> lines[s + 1 + |entries|] == TourTerminator)
  }

  /** Position of the first TOUR_SECTION line (`skip_while` stops there), or |lines|. */
  function MarkerIndex(lines: seq<string>): (i: nat)
    ensures i <= |lines| && (i < |lines| ==> lines[i] == TourSectionMarker)
    ensures forall j :: 0 <= j < i ==> lines[j] != TourSectionMarker
  {
    FirstIndex(lines, line => line == TourSectionMarker)
  }

  /** Position of the first `-1` line (`take_while` stops there), or |lines|. */
  function TerminatorIndex(lines: seq<string>): (i: nat)
    ensures i <= |lines| && (i < |lines| ==> lines[i] == TourTerminator)
    ensures forall j :: 0 <= j < i ==> lines[j] != TourTerminator
  {
    FirstIndex(lines, line => line == TourTerminator)
  }

  /** The raw tour entries: skip to the first TOUR_SECTION line, step over it, take until `-1`. */
  function TourEntries(lines: seq<string>): (entries: seq<string>)
    ensures (forall j :: 0 <= j < |lines| ==> lines[j] != TourSectionMarker) ==> entries == []
    ensures forall s :: IsFirstMarker(lines, s) ==> IsTourBody(lines, s, entries)
  {
    var m := MarkerIndex(lines);
    var body := if m == |lines| then [] else lines[m + 1..];
    var entries := body[..TerminatorIndex(body)];
    assert m < |lines| ==> entries == lines[m + 1..m + 1 + |entries|];
    assert forall s :: IsFirstMarker(lines, s) ==> s == m;
    entries
  }

  /** A tour entry that reads as a 1-based node id. */
  predicate IsNodeId(entry: string) {
    ParseUsize(entry).Some? && ParseUsize(entry).value >= 1
  }

  /** The abort caused by an entry that is not a 1-based node id. */
  function EntryPanic(entry: string): (p: Panic) {
    if ParseUsize(entry).None? then TourEntryNotANumber(entry) else TourEntryZero
  }

  /** One tour entry: parsed as a `usize`, then turned 0-based by subtracting 1. */
  function EntryNode(entry: string): (r: Result<Node, Panic>)
    ensures r.Ok? <==> IsNodeId(entry)
    ensures r.Ok? ==> ParseUsize(entry) == Some(r.value + 1)
    ensures r.Err? ==> r.error == EntryPanic(entry)
  {
    match ParseUsize(entry)
    case None => Err(TourEntryNotANumber(entry))
    case Some(id) => if id == 0 then Err(TourEntryZero) else Ok(id - 1)
  }

  /** Position of the first entry that is not a 1-based node id, or |entries|. */
  function FirstBadEntry(entries: seq<string>): (k: nat)
    ensures k <= |entries| && (k < |entries| ==> !IsNodeId(entries[k]))
    ensures forall m :: 0 <= m < k ==> IsNodeId(entries[m])
  {
    FirstIndex(entries, entry => !IsNodeId(entry))
  }

  /**
   * Each entry parsed and turned 0-based, in order. The first entry that is
   * not a 1-based id aborts the whole read.
   */
  function ParseTourIds(entries: seq<string>): (r: Result<Route, Panic>)
    ensures r.Ok? <==> forall k :: 0 <= k < |entries| ==> IsNodeId(entries[k])
    ensures r.Ok? ==> |r.value| == |entries|
    ensures r.Ok? ==> forall k :: 0 <= k < |entries| ==> ParseUsize(entries[k]) == Some(r.value[k] + 1)
    ensures r.Err? ==> FirstBadEntry(entries) < |entries| && r.error == EntryPanic(entries[FirstBadEntry(entries)])
  {
    if |entries| == 0 then Ok([])
    else match EntryNode(entries[0])
      case Err(p) => Err(p)
      case Ok(node) =>
        match ParseTourIds(entries[1..])
        case Err(p) => Err(p)
        case Ok(rest) => Ok([node] + rest)
  }

  /**
   * Reads a tour file given as its lines. The stated objective, when there is
   * one, is returned as it stands even if the tour evaluates differently;
   * otherwise the tour is evaluated on `instance`. An empty tour is no tour.
   */
  function ParseOptFile(instance: Tsp, lines: seq<string>, parseReal: string -> Option<real>): (r: Result<TspOptimum, Panic>)
    ensures r.Ok? <==>
      && StatedObjective(lines, parseReal).Ok?
      && ParseTourIds(TourEntries(lines)).Ok?
      && (StatedObjective(lines, parseReal).value.Some? || TourEntries(lines) != [])
    ensures StatedObjective(lines, parseReal) == Ok(None) && TourEntries(lines) == [] ==>
      r == Err(NeitherObjectiveNorTour)
    ensures r.Ok? ==> (r.value.solution.None? <==> TourEntries(lines) == [])
    ensures r.Ok? && r.value.solution.Some? ==>
      r.value.solution.value != [] && ParseTourIds(TourEntries(lines)) == Ok(r.value.solution.value)
    ensures r.Ok? && StatedObjective(lines, parseReal).value.Some? ==>
      r.value.objective == StatedObjective(lines, parseReal).value.value
    ensures r.Ok? && StatedObjective(lines, parseReal).value.None? ==>
      r.value.solution.Some? && r.value.objective == EvaluateSolution(instance, r.value.solution.value)
  {
    match StatedObjective(lines, parseReal)
    case Err(p) => Err(p)
    case Ok(stated) =>
      match ParseTourIds(TourEntries(lines))
      case Err(p) => Err(p)
      case Ok(route) =>
        var solution := if route == [] then None else Some(route);
        if stated.None? && solution.None? then Err(NeitherObjectiveNorTour)
        else
          var objective := if stated.Some? then stated.value else EvaluateSolution(instance, solution.value);
          Ok(TspOptimum(objective, solution))
  }

  /** A file whose objective line has any two bytes between the keyword and the value reads the same. */
  lemma SeparatorIsNotChecked(parseReal: string -> Option<real>, c1: char, c2: char, value: string, rest: seq<string>)
    ensures StatedObjective([BestSolutionKey + [c1, c2] + value] + rest, parseReal)
         == StatedObjective(["BEST_SOLUTION: " + value] + rest, parseReal)
  {
    var line1, line2 := BestSolutionKey + [c1, c2] + value, "BEST_SOLUTION: " + value;
    assert line1[..|BestSolutionKey|] == BestSolutionKey && line1[ObjectiveOffset..] == value;
    assert line2[..|BestSolutionKey|] == BestSolutionKey && line2[ObjectiveOffset..] == value;
    assert IsFirstObjectiveLine([line1] + rest, 0) && IsFirstObjectiveLine([line2] + rest, 0);
  }

  /** Only the first BEST_SOLUTION line is read: later ones are ignored, well-formed or not. */
  lemma FirstObjectiveLineWins(parseReal: string -> Option<real>, lines: seq<string>)
    requires |lines| > 0 && StartsWith(lines[0], BestSolutionKey) && ObjectiveOffset <= |lines[0]|
    ensures StatedObjective(lines, parseReal)
         == if parseReal(lines[0][ObjectiveOffset..]).Some? then Ok(parseReal(lines[0][ObjectiveOffset..]))
            else Err(ObjectiveNotANumber)
  {
    assert IsFirstObjectiveLine(lines, 0);
  }

  /** A file with neither a BEST_SOLUTION line nor a TOUR_SECTION line is rejected. */
  lemma NoObjectiveNoTourIsRejected(instance: Tsp, lines: seq<string>, parseReal: string -> Option<real>)
    requires forall j :: 0 <= j < |lines| ==> !StartsWith(lines[j], BestSolutionKey) && lines[j] != TourSectionMarker
    ensures ParseOptFile(instance, lines, parseReal) == Err(NeitherObjectiveNorTour)
  {
  }

  /** Lines that begin with a decimal digit: never a keyword line, a marker or the terminator. */
  predicate StartWithDigits(ids: seq<string>) {
    forall k :: 0 <= k < |ids| ==> 0 < |ids[k]| && IsDigit(ids[k][0])
  }

  /** The id lines of a tour: each node written 1-based, in decimal; each reads back as that id. */
  function IdLines(route: Route): (ids: seq<string>)
    requires forall k :: 0 <= k < |route| ==> route[k] < UsizeMax
    ensures |ids| == |route| && StartWithDigits(ids)
    ensures forall k :: 0 <= k < |route| ==> ParseUsize(ids[k]) == Some(route[k] + 1)
  {
    if route == [] then []
    else
      var head := Decimal(route[0] + 1);
      DecimalReadBack(head, route[0] + 1);
      [head] + IdLines(route[1..])
  }

  lemma DecimalReadBack(line: string, n: nat)
    requires n <= UsizeMax && line == Decimal(n)
    ensures 0 < |line| && IsDigit(line[0])
    ensures ParseUsize(line) == Some(n)
  {
    AllDigitsAt(line, 0);
    ParseDecimal(n);
  }

  function ObjectiveLines(objectiveText: Option<string>): (lines: seq<string>) {
    if objectiveText.Some? then ["BEST_SOLUTION: " + objectiveText.value] else []
  }

  function TourLines(ids: seq<string>): (lines: seq<string>) {
    [TourSectionMarker] + ids + [TourTerminator]
  }

  /** A tour file as a writer of this format lays it out: an optional objective line, then the tour section. */
  function RenderOptFile(objectiveText: Option<string>, route: Route): (lines: seq<string>)
    requires forall k :: 0 <= k < |route| ==> route[k] < UsizeMax
  {
    ObjectiveLines(objectiveText) + TourLines(IdLines(route))
  }

  lemma TourEntriesOfLayout(objectiveText: Option<string>, ids: seq<string>)
    requires StartWithDigits(ids)
    ensures TourEntries(ObjectiveLines(objectiveText) + TourLines(ids)) == ids
  {
    var header := ObjectiveLines(objectiveText);
    var lines := header + TourLines(ids);
    var s := |header|;
    if objectiveText.Some? {
      assert lines[0][0] == 'B';
    }
    assert lines[s] == TourSectionMarker;
    assert IsFirstMarker(lines, s);
    assert lines[s + 1..s + 1 + |ids|] == ids;
    assert lines[s + 1 + |ids|] == TourTerminator;
    assert forall k :: 0 <= k < |ids| ==> ids[k][0] != '-';
    assert IsTourBody(lines, s, TourEntries(lines));
  }

  lemma {:induction false} ParseIds(ids: seq<string>, route: Route)
    requires |ids| == |route|
    requires forall k :: 0 <= k < |ids| ==> ParseUsize(ids[k]) == Some(route[k] + 1)
    ensures ParseTourIds(ids) == Ok(route)
  {
    if ids != [] {
      assert EntryNode(ids[0]) == Ok(route[0]);
      ParseIds(ids[1..], route[1..]);
      assert route == [route[0]] + route[1..];
    }
  }

  /** Lines none of which begins with the letter B give no stated objective. */
  lemma NoObjectiveLine(lines: seq<string>, parseReal: string -> Option<real>)
    requires forall j :: 0 <= j < |lines| ==> 0 < |lines[j]| && lines[j][0] != 'B'
    ensures StatedObjective(lines, parseReal) == Ok(None)
  {
    forall j | 0 <= j < |lines|
      ensures !StartsWith(lines[j], BestSolutionKey)
    {
      assert BestSolutionKey[0] == 'B';
    }
  }

  lemma StatedObjectiveOfLayout(objectiveText: Option<string>, ids: seq<string>, parseReal: string -> Option<real>)
    requires StartWithDigits(ids)
    ensures StatedObjective(ObjectiveLines(objectiveText) + TourLines(ids), parseReal)
         == if objectiveText.Some? then
              (if parseReal(objectiveText.value).Some? then Ok(parseReal(objectiveText.value)) else Err(ObjectiveNotANumber))
            else Ok(None)
  {
    var lines := ObjectiveLines(objectiveText) + TourLines(ids);
    if objectiveText.Some? {
      var line := "BEST_SOLUTION: " + objectiveText.value;
      assert lines[0] == line;
      assert line[..|BestSolutionKey|] == BestSolutionKey && line[ObjectiveOffset..] == objectiveText.value;
      FirstObjectiveLineWins(parseReal, lines);
    } else {
      assert lines == TourLines(ids);
      forall j | 0 <= j < |lines|
        ensures 0 < |lines[j]| && lines[j][0] != 'B'
      {
        if 0 < j < |lines| - 1 {
          assert lines[j] == ids[j - 1];
        }
      }
      NoObjectiveLine(lines, parseReal);
    }
  }

  /** Reading back an objective line (if any) and a tour section of id lines. */
  lemma LayoutThenParse(instance: Tsp, objectiveText: Option<string>, ids: seq<string>, route: Route,
                        parseReal: string -> Option<real>)
    requires StartWithDigits(ids) && |ids| == |route|
    requires forall k :: 0 <= k < |ids| ==> ParseUsize(ids[k]) == Some(route[k] + 1)
    requires objectiveText.Some? ==> parseReal(objectiveText.value).Some?
    requires objectiveText.Some? || route != []
    ensures ParseOptFile(instance, ObjectiveLines(objectiveText) + TourLines(ids), parseReal)
         == Ok(TspOptimum(
              if objectiveText.Some? then parseReal(objectiveText.value).value else EvaluateSolution(instance, route),
              if route == [] then None else Some(route)))
  {
    TourEntriesOfLayout(objectiveText, ids);
    ParseIds(ids, route);
    StatedObjectiveOfLayout(objectiveText, ids, parseReal);
  }

  /**
   * Writing a tour out and reading it back gives the tour again, 0-based, and
   * the stated objective when there is one, the tour's evaluation otherwise.
   */
  lemma RenderThenParse(instance: Tsp, objectiveText: Option<string>, route: Route, parseReal: string -> Option<real>)
    requires forall k :: 0 <= k < |route| ==> route[k] < UsizeMax
    requires objectiveText.Some? ==> parseReal(objectiveText.value).Some?
    requires objectiveText.Some? || route != []
    ensures ParseOptFile(instance, RenderOptFile(objectiveText, route), parseReal)
         == Ok(TspOptimum(
              if objectiveText.Some? then parseReal(objectiveText.value).value else EvaluateSolution(instance, route),
              if route == [] then None else Some(route)))
  {
    LayoutThenParse(instance, objectiveText, IdLines(route), route, parseReal);
  }

  /** A file holding only `BEST_SOLUTION: 7542.0` gives that objective and no tour. */
  lemma ObjectiveOnlyFile(instance: Tsp, parseReal: string -> Option<real>)
    requires parseReal("7542.0") == Some(7542.0)
    ensures ParseOptFile(instance, ["BEST_SOLUTION: 7542.0"], parseReal) == Ok(TspOptimum(7542.0, None))
  {
    var lines := ["BEST_SOLUTION: 7542.0"];
    assert lines[0][..|BestSolutionKey|] == BestSolutionKey && lines[0][ObjectiveOffset..] == "7542.0";
    FirstObjectiveLineWins(parseReal, lines);
  }

  /** A tour section 1, 2, 3 without an objective line gives the tour [0, 1, 2] and its evaluation. */
  lemma TourOnlyFile(instance: Tsp, parseReal: string -> Option<real>)
    ensures ParseOptFile(instance, ["TOUR_SECTION", "1", "2", "3", "-1"], parseReal)
         == Ok(TspOptimum(EvaluateSolution(instance, [0, 1, 2]), Some([0, 1, 2])))
  {
    var ids := [Decimal(1), Decimal(2), Decimal(3)];
    var route: Route := [0, 1, 2];
    forall k | 0 <= k < 3
      ensures 0 < |ids[k]| && IsDigit(ids[k][0]) && ParseUsize(ids[k]) == Some(route[k] + 1)
    {
      DecimalReadBack(ids[k], k + 1);
    }
    LayoutThenParse(instance, None, ids, route, parseReal);
    assert ObjectiveLines(None) + TourLines(ids) == ["TOUR_SECTION", "1", "2", "3", "-1"];
  }
}
