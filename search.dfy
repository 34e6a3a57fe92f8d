/** The specification of analyzeEvent's search. The antinucleon candidates of
    an event are listed, and the upper-triangular pair / triple / quadruple
    search over them is described as a trace: one Probe per call of the
    coalescence test, in call order, with its group of candidate positions
    and its outcome. The matches are the probes that passed. */
module Search {
  import opened Coalescence
  import opened Writer

  /** A final-state antiproton or antineutron. */
  predicate IsAntinucleon(q: Particle) {
    q.isFinal && (q.id == PDG_PBAR || q.id == PDG_NBAR)
  }

  /** The event indices of the antinucleons, in event order. */
  function Candidates(event: seq<Particle>): (r: seq<nat>)
    ensures forall x :: 0 <= x < |r| ==> r[x] < |event|
  {
    if event == [] then []
    else Candidates(event[..|event| - 1]) + (if IsAntinucleon(event[|event| - 1]) then [|event| - 1] else [])
  }

  /** The candidate list holds exactly the antinucleons' indices, strictly
      increasing. */
  lemma {:induction false} CandidatesExact(event: seq<Particle>)
    ensures forall x: nat :: x in Candidates(event) <==> x < |event| && IsAntinucleon(event[x])
    ensures forall a, b :: 0 <= a < b < |Candidates(event)| ==> Candidates(event)[a] < Candidates(event)[b]
  {
    if event != [] {
      var front := event[..|event| - 1];
      CandidatesExact(front);
      forall x: nat | x < |front| ensures front[x] == event[x] { }
    }
  }

  /** Scanning a prefix of the event yields a prefix of the candidate list. */
  lemma {:induction false} CandidatesPrefix(event: seq<Particle>, i: nat)
    requires i <= |event|
    ensures Candidates(event[..i]) <= Candidates(event)
    decreases |event| - i
  {
    if i < |event| {
      var front := event[..|event| - 1];
      assert front[..i] == event[..i];
      CandidatesPrefix(front, i);
      assert Candidates(front) <= Candidates(event);
    } else {
      assert event[..i] == event;
    }
  }

  /** Every entry of g is below n. */
  predicate InRange(g: seq<nat>, n: nat) {
    forall x :: 0 <= x < |g| ==> g[x] < n
  }

  /** The elements of ps at the positions g. */
  function At(ps: seq<Particle>, g: seq<nat>): (r: seq<Particle>)
    requires InRange(g, |ps|)
    ensures |r| == |g| && forall x :: 0 <= x < |g| ==> r[x] == ps[g[x]]
  {
    seq(|g|, x requires 0 <= x < |g| => ps[g[x]])
  }

  /** Extending a group extends its particles: the particles of g followed
      by those of h. */
  lemma AtConcat(ps: seq<Particle>, g: seq<nat>, h: seq<nat>)
    requires InRange(g, |ps|) && InRange(h, |ps|)
    ensures InRange(g + h, |ps|)
    ensures At(ps, g + h) == At(ps, g) + At(ps, h)
  {
    assert forall x :: 0 <= x < |g + h| ==> (g + h)[x] == if x < |g| then g[x] else h[x - |g|];
  }

  /** The 3-momenta of the particles. */
  function Momenta(ps: seq<Particle>): (r: seq<Vec3>)
    ensures |r| == |ps| && forall x :: 0 <= x < |ps| ==> r[x] == ps[x].p
  {
    seq(|ps|, x requires 0 <= x < |ps| => ps[x].p)
  }

  /** The coalescence test applied to the candidates at positions g (false
      for a position that names no candidate). */
  predicate Coal(test: seq<Vec3> -> bool, cp: seq<Particle>, g: seq<nat>) {
    InRange(g, |cp|) && test(Momenta(At(cp, g)))
  }

  /** One call of the coalescence test: the candidate positions it was given
      and whether it passed. */
  datatype Probe = Probe(group: seq<nat>, passed: bool)

  /** What the search guarantees about every test it makes: a pair (i, j)
      with i < j; a triple (i, j, k) with j < k only after (i, j) passed; a
      quadruple only after (i, j, k) passed, and then with the k-th candidate
      in the fourth slot as well; and the outcome is the coalescence test of
      exactly that group. */
  predicate Admissible(test: seq<Vec3> -> bool, cp: seq<Particle>, q: Probe) {
    var g := q.group;
    && (|g| == 2 || |g| == 3 || |g| == 4)
    && InRange(g, |cp|)
    && g[0] < g[1]
    && (|g| >= 3 ==> g[1] < g[2] && Coal(test, cp, g[..2]))
    && (|g| == 4 ==> g[3] == g[2] && Coal(test, cp, g[..3]))
    && q.passed == Coal(test, cp, g)
  }

  predicate AllAdmissible(test: seq<Vec3> -> bool, cp: seq<Particle>, t: seq<Probe>) {
    forall q :: 0 <= q < |t| ==> Admissible(test, cp, t[q])
  }

  /** Every probe of t tests at least three candidates. */
  predicate Extensions(t: seq<Probe>) {
    forall q :: 0 <= q < |t| ==> |t[q].group| >= 3
  }

  lemma AdmissibleConcat(test: seq<Vec3> -> bool, cp: seq<Particle>, s: seq<Probe>, t: seq<Probe>)
    requires AllAdmissible(test, cp, s) && AllAdmissible(test, cp, t)
    ensures AllAdmissible(test, cp, s + t)
  {
    forall q | 0 <= q < |s + t| ensures Admissible(test, cp, (s + t)[q]) {
      if q >= |s| { assert (s + t)[q] == t[q - |s|]; }
    }
  }

  lemma ExtensionsConcat(s: seq<Probe>, t: seq<Probe>)
    requires Extensions(s) && Extensions(t)
    ensures Extensions(s + t)
  {
    forall q | 0 <= q < |s + t| ensures |(s + t)[q].group| >= 3 {
      if q >= |s| { assert (s + t)[q] == t[q - |s|]; }
    }
  }

  /** The l-loop for a passing triple (i, j, k), up to (excluding) l: each
      iteration tests (i, j, k, k), since the fourth particle is read from
      the k-th candidate. */
  function LTrace(test: seq<Vec3> -> bool, cp: seq<Particle>, i: nat, j: nat, k: nat, l: nat): seq<Probe>
    decreases l
  {
    if l <= k + 1 then []
    else LTrace(test, cp, i, j, k, l - 1) + [Probe([i, j, k, k], Coal(test, cp, [i, j, k, k]))]
  }

  /** One iteration of the k-loop: test (i, j, k) and, if it passes, run the
      l-loop. */
  function KStep(test: seq<Vec3> -> bool, cp: seq<Particle>, i: nat, j: nat, k: nat): seq<Probe> {
    var ok := Coal(test, cp, [i, j, k]);
    [Probe([i, j, k], ok)] + (if ok then LTrace(test, cp, i, j, k, |cp|) else [])
  }

  /** The k-loop for a passing pair (i, j), up to (excluding) k. */
  function KTrace(test: seq<Vec3> -> bool, cp: seq<Particle>, i: nat, j: nat, k: nat): seq<Probe>
    decreases k
  {
    if k <= j + 1 then [] else KTrace(test, cp, i, j, k - 1) + KStep(test, cp, i, j, k - 1)
  }

  /** One iteration of the j-loop: test (i, j) and, if it passes, run the
      k-loop; a failing pair is never extended. */
  function JStep(test: seq<Vec3> -> bool, cp: seq<Particle>, i: nat, j: nat): seq<Probe> {
    var ok := Coal(test, cp, [i, j]);
    [Probe([i, j], ok)] + (if ok then KTrace(test, cp, i, j, |cp|) else [])
  }

  /** The j-loop for candidate i, up to (excluding) j. */
  function JTrace(test: seq<Vec3> -> bool, cp: seq<Particle>, i: nat, j: nat): seq<Probe>
    decreases j
  {
    if j <= i + 1 then [] else JTrace(test, cp, i, j - 1) + JStep(test, cp, i, j - 1)
  }

  /** The i-loop, up to (excluding) i. */
  function ITrace(test: seq<Vec3> -> bool, cp: seq<Particle>, i: nat): seq<Probe> {
    if i == 0 then [] else ITrace(test, cp, i - 1) + JTrace(test, cp, i - 1, |cp|)
  }

  /** Every coalescence test analyzeEvent makes on the candidates cp, in
      order; no search at all with fewer than two candidates. The groups that
      pass name candidates only. */
  function SearchTrace(test: seq<Vec3> -> bool, cp: seq<Particle>): (r: seq<Probe>)
    ensures ProbesInRange(r, |cp|)
    ensures GroupsInRange(Matches(r), |cp|)
  {
    var r := if |cp| > 1 then ITrace(test, cp, |cp|) else [];
    SearchAdmissible(test, cp);
    AdmissibleInRange(test, cp, r);
    AfterMatches(Totals([], 0, 0, 0), 0.0, cp, r);
    r
  }

  /** The quadruples tried after a passing triple are admissible: each repeats
      the k-th candidate. */
  lemma {:induction false} LTraceAdmissible(test: seq<Vec3> -> bool, cp: seq<Particle>,
                                           i: nat, j: nat, k: nat, l: nat)
    requires i < j < k < l <= |cp| && Coal(test, cp, [i, j]) && Coal(test, cp, [i, j, k])
    ensures AllAdmissible(test, cp, LTrace(test, cp, i, j, k, l)) && Extensions(LTrace(test, cp, i, j, k, l))
    decreases l
  {
    if l > k + 1 {
      var g := [i, j, k, k];
      assert g[..2] == [i, j] && g[..3] == [i, j, k];
      LTraceAdmissible(test, cp, i, j, k, l - 1);
      AdmissibleConcat(test, cp, LTrace(test, cp, i, j, k, l - 1), [Probe(g, Coal(test, cp, g))]);
      ExtensionsConcat(LTrace(test, cp, i, j, k, l - 1), [Probe(g, Coal(test, cp, g))]);
    }
  }

  lemma KStepAdmissible(test: seq<Vec3> -> bool, cp: seq<Particle>, i: nat, j: nat, k: nat)
    requires i < j < k < |cp| && Coal(test, cp, [i, j])
    ensures AllAdmissible(test, cp, KStep(test, cp, i, j, k)) && Extensions(KStep(test, cp, i, j, k))
  {
    var g := [i, j, k];
    assert g[..2] == [i, j];
    var ok := Coal(test, cp, g);
    var tail := if ok then LTrace(test, cp, i, j, k, |cp|) else [];
    if ok { LTraceAdmissible(test, cp, i, j, k, |cp|); }
    AdmissibleConcat(test, cp, [Probe(g, ok)], tail);
    ExtensionsConcat([Probe(g, ok)], tail);
  }

  lemma {:induction false} KTraceAdmissible(test: seq<Vec3> -> bool, cp: seq<Particle>,
                                           i: nat, j: nat, k: nat)
    requires i < j < k <= |cp| && Coal(test, cp, [i, j])
    ensures AllAdmissible(test, cp, KTrace(test, cp, i, j, k)) && Extensions(KTrace(test, cp, i, j, k))
    decreases k
  {
    if k > j + 1 {
      KTraceAdmissible(test, cp, i, j, k - 1);
      KStepAdmissible(test, cp, i, j, k - 1);
      AdmissibleConcat(test, cp, KTrace(test, cp, i, j, k - 1), KStep(test, cp, i, j, k - 1));
      ExtensionsConcat(KTrace(test, cp, i, j, k - 1), KStep(test, cp, i, j, k - 1));
    }
  }

  lemma JStepAdmissible(test: seq<Vec3> -> bool, cp: seq<Particle>, i: nat, j: nat)
    requires i < j < |cp|
    ensures AllAdmissible(test, cp, JStep(test, cp, i, j))
  {
    var ok := Coal(test, cp, [i, j]);
    var tail := if ok then KTrace(test, cp, i, j, |cp|) else [];
    if ok { KTraceAdmissible(test, cp, i, j, |cp|); }
    AdmissibleConcat(test, cp, [Probe([i, j], ok)], tail);
  }

  lemma {:induction false} JTraceAdmissible(test: seq<Vec3> -> bool, cp: seq<Particle>, i: nat, j: nat)
    requires i < j <= |cp|
    ensures AllAdmissible(test, cp, JTrace(test, cp, i, j))
    decreases j
  {
    if j > i + 1 {
      JTraceAdmissible(test, cp, i, j - 1);
      JStepAdmissible(test, cp, i, j - 1);
      AdmissibleConcat(test, cp, JTrace(test, cp, i, j - 1), JStep(test, cp, i, j - 1));
    }
  }

  lemma {:induction false} ITraceAdmissible(test: seq<Vec3> -> bool, cp: seq<Particle>, i: nat)
    requires i <= |cp|
    ensures AllAdmissible(test, cp, ITrace(test, cp, i))
  {
    if i > 0 {
      ITraceAdmissible(test, cp, i - 1);
      JTraceAdmissible(test, cp, i - 1, |cp|);
      AdmissibleConcat(test, cp, ITrace(test, cp, i - 1), JTrace(test, cp, i - 1, |cp|));
    }
  }

  /** Every test the search makes is admissible: in particular a triple only
      follows a passing pair and a quadruple only a passing triple. */
  lemma SearchAdmissible(test: seq<Vec3> -> bool, cp: seq<Particle>)
    ensures AllAdmissible(test, cp, if |cp| > 1 then ITrace(test, cp, |cp|) else [])
  {
    if |cp| > 1 { ITraceAdmissible(test, cp, |cp|); }
  }

  /** The groups of the probes that passed, in order. */
  function Matches(t: seq<Probe>): (r: seq<seq<nat>>)
    ensures forall x :: 0 <= x < |r| ==> Probe(r[x], true) in t
  {
    if t == [] then []
    else
      var front := t[..|t| - 1];
      var rest := Matches(front);
      assert forall x :: 0 <= x < |rest| ==> Probe(rest[x], true) in t by {
        forall x | 0 <= x < |rest| ensures Probe(rest[x], true) in t {
          var q :| 0 <= q < |front| && front[q] == Probe(rest[x], true);
          assert t[q] == front[q];
        }
      }
      rest + (if t[|t| - 1].passed then [t[|t| - 1].group] else [])
  }

  /** The number of groups of the given size. */
  function CountSize(gs: seq<seq<nat>>, size: nat): nat {
    if gs == [] then 0
    else CountSize(gs[..|gs| - 1], size) + (if |gs[|gs| - 1]| == size then 1 else 0)
  }

  predicate GroupsInRange(gs: seq<seq<nat>>, n: nat) {
    forall x :: 0 <= x < |gs| ==> InRange(gs[x], n)
  }

  /** The records written for the groups gs of candidates cp, in order. */
  function RecordsOf(cms: real, cp: seq<Particle>, gs: seq<seq<nat>>): seq<Record>
    requires GroupsInRange(gs, |cp|)
  {
    if gs == [] then []
    else RecordsOf(cms, cp, gs[..|gs| - 1]) + [RecordOf(cms, At(cp, gs[|gs| - 1]))]
  }

  /** Appending a probe appends its group to the matches exactly when it
      passed. */
  lemma MatchesSnoc(t: seq<Probe>, q: Probe)
    ensures Matches(t + [q]) == Matches(t) + (if q.passed then [q.group] else [])
  {
    assert (t + [q])[..|t|] == t;
  }

  lemma CountSnoc(gs: seq<seq<nat>>, g: seq<nat>, size: nat)
    ensures CountSize(gs + [g], size) == CountSize(gs, size) + (if |g| == size then 1 else 0)
  {
    assert (gs + [g])[..|gs|] == gs;
  }

  lemma RecordsSnoc(cms: real, cp: seq<Particle>, gs: seq<seq<nat>>, g: seq<nat>)
    requires GroupsInRange(gs, |cp|) && InRange(g, |cp|)
    ensures GroupsInRange(gs + [g], |cp|)
    ensures RecordsOf(cms, cp, gs + [g]) == RecordsOf(cms, cp, gs) + [RecordOf(cms, At(cp, g))]
  {
    assert (gs + [g])[..|gs|] == gs;
  }

  // The lemmas from here to StepThen model nothing of their own: each takes
  // one step of a loop's trace, and the analyzer's loops call them so that
  // each loop unfolds its trace function once, at one place.

  lemma JTraceUnfold(test: seq<Vec3> -> bool, cp: seq<Particle>, i: nat, j: nat, next: nat)
    requires i < j < |cp| && next == j + 1
    ensures JTrace(test, cp, i, next) == JTrace(test, cp, i, j) + JStep(test, cp, i, j)
  {
  }

  lemma KTraceUnfold(test: seq<Vec3> -> bool, cp: seq<Particle>, i: nat, j: nat, k: nat, next: nat)
    requires i < j < k < |cp| && next == k + 1
    ensures KTrace(test, cp, i, j, next) == KTrace(test, cp, i, j, k) + KStep(test, cp, i, j, k)
  {
  }

  lemma LTraceUnfold(test: seq<Vec3> -> bool, cp: seq<Particle>, i: nat, j: nat, k: nat, l: nat, next: nat)
    requires i < j < k < l < |cp| && next == l + 1
    ensures LTrace(test, cp, i, j, k, next)
            == LTrace(test, cp, i, j, k, l) + [Probe([i, j, k, k], Coal(test, cp, [i, j, k, k]))]
  {
  }

  /** One more iteration of the l-loop appends one quadruple test. */
  lemma LTraceNext(test: seq<Vec3> -> bool, cp: seq<Particle>, i: nat, j: nat, k: nat, l: nat, next: nat,
                   prefix: seq<Probe>, t: seq<Probe>, t': seq<Probe>)
    requires i < j < k < l < |cp| && next == l + 1
    requires t == prefix + LTrace(test, cp, i, j, k, l)
    requires t' == t + [Probe([i, j, k, k], Coal(test, cp, [i, j, k, k]))]
    ensures t' == prefix + LTrace(test, cp, i, j, k, next)
  {
    LTraceUnfold(test, cp, i, j, k, l, next);
    Regroup(prefix, LTrace(test, cp, i, j, k, l), [Probe([i, j, k, k], Coal(test, cp, [i, j, k, k]))],
            LTrace(test, cp, i, j, k, next), t, t');
  }

  /** One more iteration of the k-loop appends that iteration's tests. */
  lemma KTraceNext(test: seq<Vec3> -> bool, cp: seq<Particle>, i: nat, j: nat, k: nat, next: nat,
                   prefix: seq<Probe>, t: seq<Probe>, t': seq<Probe>)
    requires i < j < k < |cp| && next == k + 1
    requires t == prefix + KTrace(test, cp, i, j, k)
    requires t' == t + KStep(test, cp, i, j, k)
    ensures t' == prefix + KTrace(test, cp, i, j, next)
  {
    KTraceUnfold(test, cp, i, j, k, next);
    Regroup(prefix, KTrace(test, cp, i, j, k), KStep(test, cp, i, j, k), KTrace(test, cp, i, j, next), t, t');
  }

  /** One more iteration of the j-loop appends that iteration's tests. */
  lemma JTraceNext(test: seq<Vec3> -> bool, cp: seq<Particle>, i: nat, j: nat, next: nat,
                   prefix: seq<Probe>, t: seq<Probe>, t': seq<Probe>)
    requires i < j < |cp| && next == j + 1
    requires t == prefix + JTrace(test, cp, i, j)
    requires t' == t + JStep(test, cp, i, j)
    ensures t' == prefix + JTrace(test, cp, i, next)
  {
    JTraceUnfold(test, cp, i, j, next);
    Regroup(prefix, JTrace(test, cp, i, j), JStep(test, cp, i, j), JTrace(test, cp, i, next), t, t');
  }

  /** Appending b after a is appending the whole a + b. */
  lemma Regroup(prefix: seq<Probe>, a: seq<Probe>, b: seq<Probe>, whole: seq<Probe>,
                t: seq<Probe>, t': seq<Probe>)
    requires whole == a + b && t == prefix + a && t' == t + b
    ensures t' == prefix + whole
  {
  }

  /** One more iteration of the i-loop appends that row's tests. */
  lemma ITraceNext(test: seq<Vec3> -> bool, cp: seq<Particle>, i: nat, next: nat,
                   t: seq<Probe>, t': seq<Probe>)
    requires i < |cp| && next == i + 1
    requires t == ITrace(test, cp, i)
    requires t' == t + JTrace(test, cp, i, |cp|)
    ensures t' == ITrace(test, cp, next)
  {
  }

  /** A test that passes followed by its extensions. */
  lemma StepThen(head: Probe, prefix: seq<Probe>, t: seq<Probe>, tail: seq<Probe>, t': seq<Probe>)
    requires t == prefix + [head] && t' == t + tail
    ensures t' == prefix + ([head] + tail)
  {
  }

  /** The counters and the log of the analyzer. */
  datatype Totals = Totals(log: seq<Record>, antideuteron: int, antihelium3: int, antihelium4: int)

  /** A match of the group g: one record appended, and the counter for the
      group's size (2, 3 or 4) bumped by one. */
  function Count(s: Totals, g: seq<nat>, rec: Record): (r: Totals)
    ensures r.log == s.log + [rec]
    ensures r.antideuteron + r.antihelium3 + r.antihelium4
            == s.antideuteron + s.antihelium3 + s.antihelium4 + (if 2 <= |g| <= 4 then 1 else 0)
  {
    Totals(s.log + [rec],
           s.antideuteron + (if |g| == 2 then 1 else 0),
           s.antihelium3 + (if |g| == 3 then 1 else 0),
           s.antihelium4 + (if |g| == 4 then 1 else 0))
  }

  /** Every probe of t names candidates only. */
  predicate ProbesInRange(t: seq<Probe>, n: nat) {
    forall q :: 0 <= q < |t| ==> InRange(t[q].group, n)
  }

  /** The totals after the tests t, starting from s0: each passing test (of
      candidates) is counted and recorded, in order. */
  function After(s0: Totals, cms: real, cp: seq<Particle>, t: seq<Probe>): Totals {
    if t == [] then s0
    else
      var s := After(s0, cms, cp, t[..|t| - 1]);
      var q := t[|t| - 1];
      if q.passed && InRange(q.group, |cp|) then Count(s, q.group, RecordOf(cms, At(cp, q.group))) else s
  }

  /** One more test of g with outcome ok is counted and recorded exactly
      when it passed. */
  lemma AfterSnoc(s0: Totals, cms: real, cp: seq<Particle>, t: seq<Probe>, g: seq<nat>, ok: bool)
    requires InRange(g, |cp|)
    ensures After(s0, cms, cp, t + [Probe(g, ok)])
            == if ok then Count(After(s0, cms, cp, t), g, RecordOf(cms, At(cp, g))) else After(s0, cms, cp, t)
  {
    assert (t + [Probe(g, ok)])[..|t|] == t;
  }

  /** An admissible trace names candidates only. */
  lemma AdmissibleInRange(test: seq<Vec3> -> bool, cp: seq<Particle>, t: seq<Probe>)
    requires AllAdmissible(test, cp, t)
    ensures ProbesInRange(t, |cp|)
  {
    forall q | 0 <= q < |t| ensures InRange(t[q].group, |cp|) {
      assert Admissible(test, cp, t[q]);
    }
  }

  /** The starting totals s0 with the groups gs counted and recorded. */
  function Tallied(s0: Totals, cms: real, cp: seq<Particle>, gs: seq<seq<nat>>): Totals
    requires GroupsInRange(gs, |cp|)
  {
    Totals(s0.log + RecordsOf(cms, cp, gs),
           s0.antideuteron + CountSize(gs, 2),
           s0.antihelium3 + CountSize(gs, 3),
           s0.antihelium4 + CountSize(gs, 4))
  }

  /** Counting one more group g is one more Count. */
  lemma TalliedSnoc(s0: Totals, cms: real, cp: seq<Particle>, gs: seq<seq<nat>>, g: seq<nat>)
    requires GroupsInRange(gs, |cp|) && InRange(g, |cp|)
    ensures GroupsInRange(gs + [g], |cp|)
    ensures Tallied(s0, cms, cp, gs + [g]) == Count(Tallied(s0, cms, cp, gs), g, RecordOf(cms, At(cp, g)))
  {
    RecordsSnoc(cms, cp, gs, g);
    CountSnoc(gs, g, 2);
    CountSnoc(gs, g, 3);
    CountSnoc(gs, g, 4);
  }

  /** The totals after t are the starting totals plus one record per match
      and, per group size, the number of matches of that size. */
  lemma {:induction false} AfterMatches(s0: Totals, cms: real, cp: seq<Particle>, t: seq<Probe>)
    requires ProbesInRange(t, |cp|)
    ensures GroupsInRange(Matches(t), |cp|)
    ensures After(s0, cms, cp, t) == Tallied(s0, cms, cp, Matches(t))
  {
    if t != [] {
      var front := t[..|t| - 1];
      var q := t[|t| - 1];
      assert t == front + [q];
      assert ProbesInRange(front, |cp|) by {
        forall x | 0 <= x < |front| ensures InRange(front[x].group, |cp|) {
          assert front[x] == t[x];
        }
      }
      assert InRange(q.group, |cp|);
      AfterMatches(s0, cms, cp, front);
      MatchesSnoc(front, q);
      if q.passed {
        TalliedSnoc(s0, cms, cp, Matches(front), q.group);
      } else {
        assert Matches(t) == Matches(front);
      }
    }
  }

}
