# TSPLIB instances: distance oracle, greedy tour and reference-tour reader

A Dafny model of the core of a Rust crate that serves symmetric travelling
salesman instances from TSPLIB. An instance wraps what an external TSPLIB
grammar parser produced (node count, weight kind, weight lookup) together
with an optional known optimum read from a companion tour file. The model
covers:

- the distance oracle, which looks explicit weight matrices up with the node
  indices as given and every coordinate-derived weight kind one index further
  on in both coordinates (`TspInstance.Distance`);
- route evaluation: the distances of consecutive pairs summed, with no
  closing edge (`TspInstance.EvaluateSolution`);
- the greedy nearest-neighbour constructor, an imperative loop over two
  sequences, `route` and `remaining` (`Greedy.GreedyRoute`, with
  `Greedy.NearestIndex` for the `min_by_key` scan);
- the reference-tour reader: the first `BEST_SOLUTION` line, the
  `TOUR_SECTION` entries up to `-1`, the conversion of 1-based ids to 0-based
  nodes, the "objective or tour" assertion and the choice of objective
  (`OptTour.ParseOptFile`);
- construction of an instance with or without a tour file, and the
  `best_solution` / `best_fitness` accessors (`Construction.TryParse`,
  `TspInstance.BestFitness`).

Modules: `Wrappers` (Option, Result), `Text` (Rust's `starts_with` and
`str::parse::<usize>`, and decimal rendering for the round-trip lemmas),
`TspInstance`, `Greedy`, `OptTour` (src/opt.rs) and `Construction` (the
`try_parse` wiring of src/lib.rs, in its own module because src/lib.rs and
src/opt.rs call each other).

Failures of the Rust code are `Err` values: `Construction.ConstructionFailure`
separates the error `try_parse` returns (`GrammarFailed`) from a panic while
reading the tour file (`OptFilePanicked`), and `OptTour.Panic` names the
panic: an objective line shorter than 15 bytes, an objective that does not
parse, a tour entry that is not a `usize`, a tour entry `0`, and the
assertion that the file holds an objective or a tour.

Three details of the code that the model keeps:

- The objective line is recognised by the prefix `BEST_SOLUTION` alone, and
  the value is taken from byte 15 on, so the two separator bytes after the
  keyword are never checked (src/opt.rs:8-9, `OptTour.SeparatorIsNotChecked`).
- `remaining` starts ascending and `Vec::remove` keeps it so, and
  `min_by_key` returns the first minimum, so the greedy step breaks ties
  towards the lowest node (src/lib.rs:87-97, `Greedy.GreedyRoute`).
- For an instance of dimension 0 the greedy route is `[0]`
  (src/lib.rs:86-88).

## Model

| member | source | states |
|---|---|---|
| `TspInstance.Distance` | src/lib.rs:73-82 | for an explicit weight matrix the distance of (a, b) is the external weight at (a, b), indices unshifted; for every other weight kind it is the external weight at (a + 1, b + 1), self-edges included |
| `TspInstance.DerivedIsExplicitOneOn` | src/lib.rs:73-82 | the same weight table read as a derived instance answers at (a, b) what it answers as an explicit one at (a + 1, b + 1); the stored optimum plays no part |
| `TspInstance.Pairs` | src/lib.rs:39-42 | zipping a route with itself shifted by one gives max(len - 1, 0) edges, the i-th being (route[i], route[i + 1]) |
| `TspInstance.EvaluateSolution` | src/lib.rs:38-47 | a route of length 0 or 1 evaluates to 0 |
| `TspInstance.EvaluateIsLegSum` | src/lib.rs:38-47 | the objective of a non-empty route equals the sum over i in [0, len - 1) of distance(route[i], route[i + 1]) |
| `TspInstance.EvaluateAppend` | src/lib.rs:39-44 | appending a node adds exactly the one leg into it |
| `TspInstance.ClosingLegOnlyIfListed` | src/lib.rs:39-44 | no wrap-around edge: the return leg is charged only when the route lists the start node again |
| `TspInstance.EvaluateConcat` | src/lib.rs:39-44 | joining two routes adds the evaluations of both plus the one connecting leg |
| `TspInstance.EvaluateIgnoresBestSolution` | src/lib.rs:38-47 | evaluation depends only on the external instance, not on the stored optimum |
| `TspInstance.BestSolution` | src/lib.rs:63-65 | the accessor hands out the stored optimum as it is, `None` when there is none |
| `TspInstance.BestFitness` | src/lib.rs:67-70 | best fitness is None exactly when there is no stored optimum, otherwise it is that optimum's objective |
| `Greedy.NearestIndex` | src/lib.rs:90-96 | returns an index of `remaining` whose distance from `last` is minimal, and every earlier index is strictly farther (first minimum) |
| `Greedy.GreedyRoute` | src/lib.rs:85-101 | the route starts at node 0, lists each of the nodes 0..max(dim, 1) exactly once (a permutation, length max(dim, 1), `[0]` when dim is 0), and each node after the first is, seen from its predecessor, strictly nearer than every later node or equally near and lower |
| `Greedy.MoveKeepsPermutation` | src/lib.rs:97-98 | removing remaining[k] and pushing it onto the route keeps route ++ remaining the same multiset and remaining strictly ascending |
| `Greedy.MoveKeepsNearestChoices` | src/lib.rs:89-98 | when the moved node is the first nearest candidate, every choice made so far and the new one still beat all nodes left in remaining |
| `Greedy.SpanIsPermutation` | src/lib.rs:86-87 | a sequence with the multiset of 0..n lists every node below n exactly once |
| `Greedy.GreedyRouteIsDetermined` | src/lib.rs:85-101 | the greedy contract leaves no freedom: two routes meeting it for the same instance are equal |
| `Text.ParseUsize` | src/opt.rs:20-21 | a parsed tour entry never exceeds the largest 64-bit `usize` |
| `Text.ParseDecimal` | src/opt.rs:20-21 | every `usize` written in decimal parses back to itself |
| `Text.ParseUsizeRejectsMinus` | src/opt.rs:20-21 | an entry starting with `-` is not a `usize` (so `-1` can never be an id) |
| `OptTour.FirstIndex` | src/opt.rs:6-8 | the position returned is the first line satisfying the predicate, or the end when none does |
| `OptTour.StatedObjective` | src/opt.rs:6-13 | no objective exactly when no line starts with BEST_SOLUTION; otherwise the first such line decides: shorter than 15 bytes aborts, else the text from byte 15 is parsed, and a parse failure aborts |
| `OptTour.FirstObjectiveLineWins` | src/opt.rs:6-13 | once a leading line starts with BEST_SOLUTION, later lines cannot change the stated objective |
| `OptTour.SeparatorIsNotChecked` | src/opt.rs:8-9 | the two bytes between the keyword and the value are not checked |
| `OptTour.TourEntries` | src/opt.rs:15-19 | the entries are exactly the lines after the first TOUR_SECTION line, up to (excluding) the next `-1` line or the end; none when there is no TOUR_SECTION line |
| `OptTour.EntryNode` | src/opt.rs:20-22 | an entry becomes node k - 1 when it parses as k >= 1, and aborts (not a number, or 0) otherwise |
| `OptTour.ParseTourIds` | src/opt.rs:20-23 | succeeds exactly when every entry is an id >= 1; then order and count are kept and each node is its entry minus 1; otherwise the first bad entry decides the abort |
| `OptTour.ParseOptFile` | src/opt.rs:5-36 | succeeds exactly when the objective and all entries read and there is an objective or a non-empty tour; no objective and no entries fails the assertion; an empty tour is None; a stated objective wins; without one the objective is the tour's evaluation |
| `OptTour.NoObjectiveNoTourIsRejected` | src/opt.rs:27 | a file with neither a BEST_SOLUTION line nor a TOUR_SECTION line is rejected by the assertion |
| `OptTour.IdLines` | src/opt.rs:20-22 | the decimal 1-based id lines of a route each read back as node + 1 |
| `OptTour.TourEntriesOfLayout` | src/opt.rs:15-19 | in an optional objective line followed by TOUR_SECTION, id lines and `-1`, the tour entries are exactly the id lines |
| `OptTour.ParseIds` | src/opt.rs:20-23 | entries that read as route[k] + 1 convert to exactly the route |
| `OptTour.StatedObjectiveOfLayout` | src/opt.rs:6-13 | in such a file the stated objective is the value of the objective line, or none without one |
| `OptTour.LayoutThenParse` | src/opt.rs:5-36 | reading such a file gives the tour back and the stated objective, or the tour's evaluation when there is none |
| `OptTour.RenderThenParse` | src/opt.rs:5-36 | round trip: a tour written out 1-based (with or without an objective line) reads back as the same 0-based tour with the stated objective or its evaluation |
| `OptTour.ObjectiveOnlyFile` | src/opt.rs:5-36 | the single line `BEST_SOLUTION: 7542.0` reads as objective 7542.0 and no tour |
| `OptTour.TourOnlyFile` | src/opt.rs:15-30 | TOUR_SECTION, 1, 2, 3, -1 reads as the tour [0, 1, 2] with its evaluation as objective |
| `Construction.TryParse` | src/lib.rs:105-119 | a grammar failure is returned as such; without a tour file the instance has no optimum; with one, construction succeeds exactly when reading the file does and the optimum is what it read against the fresh instance; a panic while reading is reported with its cause |
| `Construction.NoTourFileNoFitness` | src/lib.rs:109-118 | without a tour file construction succeeds and best fitness is None |
| `Construction.StatedObjectiveIsBestFitness` | src/lib.rs:114-115 | when the tour file states an objective and every tour entry reads, construction succeeds and the stated objective is the instance's best fitness |
| `Construction.UnstatedObjectiveIsTourLength` | src/opt.rs:29-30 | without a stated objective the best fitness is the evaluation of the stored tour on the finished instance |

## Left out

- The TSPLIB grammar parser (`tspf::TspBuilder::parse_str`) and its weight computation are external: `TspInstance.RawInstance` holds the name, node count, weight kind and an uninterpreted weight function, and `Construction.TryParse` takes the parser's outcome as a parameter.
- `TspInstance.Distance`: weights are exact reals; f64 rounding is not modelled. The weight lookup is total, so the failure of the external lookup on out-of-range nodes is not modelled, and neither is `usize` overflow of `a + 1` for the largest `usize`.
- `TspInstance.EvaluateSolution`: the sum is exact real arithmetic in the same left-to-right order. The panic of `SingleObjective::try_from(..).unwrap()` on a non-finite sum is not modelled.
- `Greedy.GreedyRoute`: the keys compared by `min_by_key` are exact reals. The panic of `SingleObjective::try_from(..).unwrap()` on a non-finite distance is not modelled.
- `OptTour.StatedObjective`: `str::parse::<f64>` followed by `SingleObjective::try_from` is the abstract parameter `parseReal`. `None` stands for either failure.
- `OptTour.ParseOptFile`: the input is the file's lines. The splitting done by `str::lines` (on `\n`, removing a trailing `\r`) is not modelled.
- Text is taken as ASCII, one character per byte. Slicing a `BEST_SOLUTION` line at a byte offset that falls inside a multi-byte character (a panic in Rust) is not modelled.
- `OptTour.EntryNode`: an entry `0` is modelled as a panic, as in a debug build. A release build wraps `0 - 1` to the largest `usize` instead. `usize` is taken as 64 bits wide.
- The instance catalog (src/instances.rs): the enum of bundled instance names, its name conversion, the embedded resource lookup and the panicking `load` wrapper. These are resource packaging and I/O.
- `Tsp::name` (src/lib.rs:58-60) passes on the name the external parser read. It is not modelled.
- The optimisation-framework adapters (src/lib.rs:122-143) are not modelled. `Problem::name` returns the constant `"Tsp"`. `ObjectiveFunction::objective` calls `evaluate_solution`. `VectorProblem::dimension` returns the node count.
- The serialisation derives are not modelled.
