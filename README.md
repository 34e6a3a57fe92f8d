# Antinucleus coalescence detection

This project models the event analysis of the antihelium simulation program in
`ANTIHELIUM/main_antihelium/main01.cc` and proves properties of that model.
The program looks for antinuclei in each simulated event:

- It collects the event's final-state antiprotons (PDG code −2212) and
  antineutrons (PDG code −2112).
- It searches the candidate pairs, then triples, then quadruples, for groups
  whose 3-momenta all lie within half the coalescence momentum
  (pCoal = 0.160 GeV/c) of the group's centroid.
- Each match increments one of the process-wide counters `antideuteron`,
  `antihelium3` or `antihelium4`, and writes one record
  (collision energy, A, Z, energy) to the output file.

The project has five modules:

- `Coalescence` (coalescence.dfy): 3-momenta as exact reals, the centroid,
  the coalescence predicate `Coalesces`, and the method `CheckCoal`, which runs
  checkCoal's two loops. Distances are compared through their squares.
  `DistanceThreshold` proves this gives the same verdict as comparing the
  square root against pCoal/2.
- `Writer` (writer.dfy): particles, output records, and writeEvent's A/Z loop
  (`Tally`).
- `Search` (search.dfy): the functional specification of analyzeEvent.
  - `Candidates` lists the antinucleon positions.
  - `SearchTrace` lists every call of the coalescence test the nested
    i/j/k/l loops make, in call order, with its group of candidate positions
    and its outcome (a `Probe`).
  - `After` gives the counters and the log that result from a trace.
- `Analyzer` (analyzer.dfy): the class `EventAnalyzer`.
  - Its fields are the three counters and `log`, which stands in for the
    output file.
  - `AnalyzeEvent` and its loop bodies are imperative methods. Their loop
    invariants tie the fields to `After` applied to the part of
    `SearchTrace` done so far.
  - The candidate list is the 20-slot array `pbarList`, as in the source, and
    the momenta are passed to `CheckCoal` in the 4-slot array `pVecs`.
- `SearchProperties` (properties.dfy): the properties of the search, proved
  for any coalescence test. These cover pruning, which groups are tried, the
  repeated quadruple, what each of the three counters adds up to and the
  shape of each record.

Two behaviours of the source shape the counts. The model follows both as
written:

- **The fourth particle.** Line 208 reads the fourth particle from
  `pbarList[k]`, not `pbarList[l]`. Every iteration of the l-loop therefore
  tests the same group (i, j, k, k), and a coalescing one is counted and
  written once for each candidate after k. `TestQuad`, `LTrace`,
  `QuadrupleRepeats`, `QuadrupleCount`, `QuadrupleMomenta` and
  `QuadrupleRecord` state this behaviour.
- **Nested groups.** Every passing group is recorded: every pair, every
  triple and every repeated quadruple. A pair that also forms a triple is
  counted both as an antideuteron and as an antihelium-3.

## Model

| member | source | states |
|---|---|---|
| Coalescence.SqDistance | ANTIHELIUM/main_antihelium/main01.cc:95-101 | the squared separation computeDistance takes the root of is never negative |
| Coalescence.DistanceThreshold | ANTIHELIUM/main_antihelium/main01.cc:99-117 | for the non-negative root d of the squared distance, d > pCoal/2 exactly when the squared distance exceeds (pCoal/2)², so comparing squares gives checkCoal's verdict |
| Coalescence.CheckCoal | ANTIHELIUM/main_antihelium/main01.cc:106-121 | returns true exactly when each of the first numParticles momenta is within pCoal/2 = 0.08 of their centroid, the boundary accepted |
| Coalescence.SingleCoalesces | ANTIHELIUM/main_antihelium/main01.cc:111-118 | a single momentum always coalesces |
| Coalescence.PairCoalesces | ANTIHELIUM/main_antihelium/main01.cc:111-118 | two momenta coalesce if and only if their separation is at most pCoal, the boundary included |
| Coalescence.CoalescesPermutation | ANTIHELIUM/main_antihelium/main01.cc:111-118 | the verdict is the same for any reordering of the momenta |
| Coalescence.SumPermutation | ANTIHELIUM/main_antihelium/main01.cc:111 | the centroid's accumulated sum depends only on the multiset of momenta |
| Coalescence.SeparationExamples | ANTIHELIUM/main_antihelium/main01.cc:35 | with pCoal = 0.160, momenta 0.05 and 0.16 apart coalesce and 0.2 apart do not |
| Writer.Tally | ANTIHELIUM/main_antihelium/main01.cc:131-143 | Z is the number of antiprotons, A that plus the number of antineutrons, so 0 ≤ Z ≤ A ≤ numParticles; the energy is the sum of the particles' energies |
| Writer.CountsWithin | ANTIHELIUM/main_antihelium/main01.cc:141-142 | counting two distinct codes never counts more particles than there are |
| Writer.AntinucleonMass | ANTIHELIUM/main_antihelium/main01.cc:141-142 | when every particle is an antiproton or an antineutron, A is the number of particles |
| Analyzer.EventAnalyzer.constructor | ANTIHELIUM/main_antihelium/main01.cc:35-38 | the three counters start at 0 and nothing has been written |
| Analyzer.EventAnalyzer.WriteEvent | ANTIHELIUM/main_antihelium/main01.cc:131-147 | appends exactly one record (CMS, A, Z, energy) of the given particles to the log and changes nothing else |
| Analyzer.CollectAntinucleons | ANTIHELIUM/main_antihelium/main01.cc:155-167 | the array has 20 slots; the first antiNucIndex slots hold the candidate list in order and every later slot is −1; antiNucIndex is the number of candidates |
| Analyzer.EventAnalyzer.AnalyzeEvent | ANTIHELIUM/main_antihelium/main01.cc:154-223 | the log grows by one record per match of the search, in order; each counter grows by the number of matches of its size; counters never decrease; with fewer than 2 candidates nothing changes |
| Analyzer.EventAnalyzer.ScanRow | ANTIHELIUM/main_antihelium/main01.cc:172-220 | one i-iteration performs exactly the tests of the j-loop for i and accounts for them |
| Analyzer.EventAnalyzer.TestPair | ANTIHELIUM/main_antihelium/main01.cc:174-189 | one j-iteration tests the pair (i, j), whose momenta are those of `At(cp, [i, j])`, read through event[pbarList[·]]; a failing pair adds only its own test, with nothing counted |
| Analyzer.EventAnalyzer.AcceptPair | ANTIHELIUM/main_antihelium/main01.cc:181-193 | a passing pair adds one antideuteron and one record with A = 2, then the k-loop's tests |
| Analyzer.EventAnalyzer.ExtendPair | ANTIHELIUM/main_antihelium/main01.cc:193-219 | the k-loop tests every later candidate k as the third member and accounts for each test |
| Analyzer.EventAnalyzer.TestTriple | ANTIHELIUM/main_antihelium/main01.cc:193-197 | one k-iteration tests (i, j, k) with the pair's momenta kept in the first two slots; a failing triple adds only its own test |
| Analyzer.EventAnalyzer.AcceptTriple | ANTIHELIUM/main_antihelium/main01.cc:197-207 | a passing triple adds one antihelium-3 and one record with A = 3, then the l-loop's tests |
| Analyzer.EventAnalyzer.ExtendTriple | ANTIHELIUM/main_antihelium/main01.cc:207-218 | the l-loop makes one quadruple test per later candidate l and accounts for each |
| Analyzer.EventAnalyzer.TestQuad | ANTIHELIUM/main_antihelium/main01.cc:207-217 | each l-iteration tests the group (i, j, k, k), since the fourth particle is read from the k-th candidate; a pass adds one antihelium-4 and one record with A = 4 |
| Search.Candidates | ANTIHELIUM/main_antihelium/main01.cc:159-167 | every listed candidate position is a position in the event |
| Search.CandidatesExact | ANTIHELIUM/main_antihelium/main01.cc:159-167 | a position is listed if and only if it holds a final-state particle with code −2212 or −2112, and the list is strictly increasing |
| Search.CandidatesPrefix | ANTIHELIUM/main_antihelium/main01.cc:159-167 | scanning part of the event lists a prefix of the full candidate list, so slots once written are never rewritten |
| Search.AtConcat | ANTIHELIUM/main_antihelium/main01.cc:185-214 | the particles of g + h are those of g followed by those of h |
| Search.SearchTrace | ANTIHELIUM/main_antihelium/main01.cc:169-222 | every test the search makes and every group that passes names candidates only |
| Search.SearchAdmissible | ANTIHELIUM/main_antihelium/main01.cc:172-219 | every test is of a pair i < j, of a triple (i, j, k) with j < k after (i, j) passed, or of (i, j, k, k) after (i, j, k) passed, and its outcome is that group's coalescence verdict |
| Search.Matches | ANTIHELIUM/main_antihelium/main01.cc:181-215 | every match is a test of the trace that passed |
| Search.Count | ANTIHELIUM/main_antihelium/main01.cc:182-215 | one match appends exactly its record and increases exactly one counter by one, chosen by the group size |
| Search.AfterSnoc | ANTIHELIUM/main_antihelium/main01.cc:181-215 | one further test is counted and recorded exactly when it passes |
| Search.AfterMatches | ANTIHELIUM/main_antihelium/main01.cc:181-215 | the totals after a trace are the starting log plus one record per match, in order, and each counter plus the number of matches of its size |
| SearchProperties.AntideuteronsArePassingPairs | ANTIHELIUM/main_antihelium/main01.cc:172-188 | the antideuteron counter grows by exactly the number of coalescing pairs i < j of candidates |
| SearchProperties.SearchMatches | ANTIHELIUM/main_antihelium/main01.cc:172-219 | every match has 2 to 4 members, coalesces, starts with i < j and, if longer, extends a coalescing pair (and a coalescing triple for a quadruple, whose fourth member is its third) |
| SearchProperties.FailingPairNotExtended | ANTIHELIUM/main_antihelium/main01.cc:189 | after a failing pair, no triple or quadruple starting with it is tested, and no match starts with it |
| SearchProperties.QuadrupleRepeats | ANTIHELIUM/main_antihelium/main01.cc:207-209 | the l-loop tests the same group (i, j, k, k) once for every l between k + 1 and the last candidate |
| SearchProperties.QuadrupleCount | ANTIHELIUM/main_antihelium/main01.cc:207-217 | a coalescing (i, j, k, k) is counted as an antihelium-4 once per candidate after k; one that does not coalesce is never counted |
| SearchProperties.QuadrupleMomenta | ANTIHELIUM/main_antihelium/main01.cc:207-211 | the momenta checkCoal(4) is given are those of the i-th, the j-th and twice the k-th candidate |
| SearchProperties.QuadrupleRecord | ANTIHELIUM/main_antihelium/main01.cc:208-215 | the record of (i, j, k, k) has A = 4 and counts the k-th candidate twice in Z |
| SearchProperties.EveryPairTested | ANTIHELIUM/main_antihelium/main01.cc:172-181 | every pair i < j of candidates is tested, and the test's outcome is the pair's coalescence verdict |
| SearchProperties.EveryTripleTested | ANTIHELIUM/main_antihelium/main01.cc:189-197 | for every coalescing pair (i, j) and every later candidate k, the triple (i, j, k) is tested with its coalescence verdict as the outcome |
| SearchProperties.EveryQuadrupleTested | ANTIHELIUM/main_antihelium/main01.cc:197-211 | for every coalescing triple (i, j, k) with a candidate after k, the group (i, j, k, k) is tested with its coalescence verdict as the outcome |
| SearchProperties.ExtensionCounts | ANTIHELIUM/main_antihelium/main01.cc:193-217 | the antihelium-3 counter grows by the number of triples i < j < k whose pair and triple coalesce; the antihelium-4 counter grows, for each such triple whose (i, j, k, k) coalesces, by the number of candidates after k; both are independent sums over candidate positions |
| SearchProperties.SizesPartition | ANTIHELIUM/main_antihelium/main01.cc:182-212 | when every match has 2 to 4 members, the three counters together grow by the number of matches |
| SearchProperties.RecordsShape | ANTIHELIUM/main_antihelium/main01.cc:134-146 | one record per match carrying the collision energy, A equal to the group size and 0 ≤ Z ≤ A |
| SearchProperties.CandidateCodes | ANTIHELIUM/main_antihelium/main01.cc:162 | every candidate is a final-state antiproton or antineutron |
| SearchProperties.NoSearchBelowTwo | ANTIHELIUM/main_antihelium/main01.cc:169 | with fewer than two candidates no test is made and nothing matches |
| SearchProperties.SearchSummary | ANTIHELIUM/main_antihelium/main01.cc:169-222 | over antinucleon candidates: antideuterons equal coalescing pairs, antihelium-3 and antihelium-4 equal their sums from ExtensionCounts, the counters together grow by the number of records, and each record has the collision energy, 2 ≤ A ≤ 4 and 0 ≤ Z ≤ A |
| SearchProperties.EventSummary | ANTIHELIUM/main_antihelium/main01.cc:154-223 | the same for the candidates scanned from any event |

## Left out

- `main` (lines 56-88) is not modelled. It covers the argument check,
  opening and closing the file, the loop over five collision energies, and
  the `boost::thread` pool with its joins. That is I/O and concurrency. The
  model has a single sequential caller, so the unsynchronised updates of the
  counters and the file from several threads are not represented.
- `pythiaThread` (lines 233-285) is not modelled. It configures and steps the
  external event generator, seeds it from `rand()` and reports timing. The event an
  analysis receives is a parameter (`seq<Particle>`).
- The `cout` messages (lines 183, 200, 213) and the text formatting of the
  record line (line 146) are left out. A line of the file is a `Record`
  value appended to `log`.
- ANTIHELIUM/main_antihelium/analyze.py is not part of this model. It reads
  the output file and plots histograms.
- Coalescence.CheckCoal: doubles are modelled as exact reals, so rounding is
  not modelled. The square root of line 99 is replaced by a comparison of
  squares (`DistanceThreshold`).
- Writer.Tally: the energy is the sum of the particles' energy components
  as reals. The four-vector sum of line 139 contributes only its energy
  component to the record.
- Analyzer.EventAnalyzer.AnalyzeEvent: `int` counter overflow is not
  modelled. The counters are unbounded integers.
- Analyzer.EventAnalyzer.AnalyzeEvent: requires at most 20 candidates, the
  capacity of `pbarList`. With more candidates the source writes past the
  end of the array (line 163), which has no defined outcome to model.
- Analyzer.CollectAntinucleons: same requirement and reason.
- Coalescence.CheckCoal: with numParticles = 0 the source divides by zero but
  never reads the result. The model skips the rescale and returns true.
  Every call site passes 2, 3 or 4.
- Analyzer.EventAnalyzer.ScanRow: the nested loops read the contents of the
  candidate array, which they never change, as a sequence value
  (`pbarList[..]`).
- The particle copies in `partArray` (lines 185, 201, 214) are sequence
  values handed to `WriteEvent`.
- Analyzer.EventAnalyzer.AnalyzeEvent: the search is proved for the
  real-valued coalescence predicate `Coalesces`. The search lemmas in
  `SearchProperties` hold for any test predicate.
