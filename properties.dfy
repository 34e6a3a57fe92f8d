/** What the search promises, stated over the trace and proved once for any
    coalescence test: which groups are tried, which are never tried, how
    often the same quadruple is tried, what each counter adds up to and what
    each written record holds. */
module SearchProperties {
  import opened Coalescence
  import opened Writer
  import opened Search

  /** The sum of c(x) over lo <= x < hi. */
  function SumOver(c: nat -> nat, lo: nat, hi: nat): nat
    decreases hi
  {
    if hi <= lo then 0 else SumOver(c, lo, hi - 1) + c(hi - 1)
  }

  /** 1 for a pair (i, j) of candidates that coalesces, 0 otherwise. */
  function PairFlag(test: seq<Vec3> -> bool, cp: seq<Particle>, i: nat): nat -> nat {
    (j: nat) => if Coal(test, cp, [i, j]) then 1 else 0
  }

  /** The number of j with i < j < |cp| such that (i, j) coalesces. */
  function RowFlag(test: seq<Vec3> -> bool, cp: seq<Particle>): nat -> nat {
    (i: nat) => SumOver(PairFlag(test, cp, i), i + 1, |cp|)
  }

  /** The number of coalescing pairs i < j among the candidates. */
  function PassingPairs(test: seq<Vec3> -> bool, cp: seq<Particle>): nat {
    SumOver(RowFlag(test, cp), 0, |cp|)
  }

  /** The traces f(lo), ..., f(hi - 1), one after the other. */
  function Flatten(f: nat -> seq<Probe>, lo: nat, hi: nat): seq<Probe>
    decreases hi
  {
    if hi <= lo then [] else Flatten(f, lo, hi - 1) + f(hi - 1)
  }

  /** The iterations of the j-loop for candidate i. */
  function JSteps(test: seq<Vec3> -> bool, cp: seq<Particle>, i: nat): nat -> seq<Probe> {
    (j: nat) => JStep(test, cp, i, j)
  }

  /** The rows of the i-loop, each its j-loop's iterations one after the
      other. */
  function Rows(test: seq<Vec3> -> bool, cp: seq<Particle>): nat -> seq<Probe> {
    (i: nat) => Flatten(JSteps(test, cp, i), i + 1, |cp|)
  }

  /** The j-loop is its iterations one after the other. */
  lemma {:induction false} JTraceFlat(test: seq<Vec3> -> bool, cp: seq<Particle>, i: nat, j: nat)
    ensures JTrace(test, cp, i, j) == Flatten(JSteps(test, cp, i), i + 1, j)
    decreases j
  {
    if j > i + 1 {
      JTraceFlat(test, cp, i, j - 1);
      assert JSteps(test, cp, i)(j - 1) == JStep(test, cp, i, j - 1);
    }
  }

  /** The i-loop is its rows one after the other. */
  lemma {:induction false} ITraceFlat(test: seq<Vec3> -> bool, cp: seq<Particle>, i: nat)
    ensures ITrace(test, cp, i) == Flatten(Rows(test, cp), 0, i)
  {
    if i > 0 {
      ITraceFlat(test, cp, i - 1);
      JTraceFlat(test, cp, i - 1, |cp|);
    }
  }

  /** The number of passing tests of groups of the given size in t, counted
      test by test so that it splits over concatenated traces; it equals
      CountSize(Matches(t), size) (PassedMatches). */
  function Passed(t: seq<Probe>, size: nat): nat {
    if t == [] then 0
    else Passed(t[..|t| - 1], size) + (if t[|t| - 1].passed && |t[|t| - 1].group| == size then 1 else 0)
  }

  lemma {:induction false} PassedConcat(a: seq<Probe>, b: seq<Probe>, size: nat)
    ensures Passed(a + b, size) == Passed(a, size) + Passed(b, size)
    decreases |b|
  {
    if b != [] {
      var front := b[..|b| - 1];
      assert (a + b)[..|a + b| - 1] == a + front;
      PassedConcat(a, front, size);
    } else {
      assert a + b == a;
    }
  }

  lemma {:induction false} PassedMatches(t: seq<Probe>, size: nat)
    ensures Passed(t, size) == CountSize(Matches(t), size)
  {
    if t != [] {
      var front := t[..|t| - 1];
      var q := t[|t| - 1];
      assert t == front + [q];
      PassedMatches(front, size);
      MatchesSnoc(front, q);
      assert Passed(t, size) == Passed(front, size) + (if q.passed && |q.group| == size then 1 else 0);
      if q.passed {
        assert Matches(t) == Matches(front) + [q.group];
        CountSnoc(Matches(front), q.group, size);
        assert CountSize(Matches(t), size) == CountSize(Matches(front), size) + (if |q.group| == size then 1 else 0);
      } else {
        assert Matches(t) == Matches(front);
      }
    }
  }

  lemma {:induction false} ExtensionsNoPairs(t: seq<Probe>)
    requires Extensions(t)
    ensures Passed(t, 2) == 0
  {
    if t != [] {
      var front := t[..|t| - 1];
      assert Extensions(front) by {
        forall x | 0 <= x < |front| ensures |front[x].group| >= 3 {
          assert front[x] == t[x];
        }
      }
      ExtensionsNoPairs(front);
    }
  }

  /** Counting passing tests commutes with flattening. */
  lemma {:induction false} FlattenPassed(f: nat -> seq<Probe>, c: nat -> nat, lo: nat, hi: nat, size: nat)
    requires forall x :: lo <= x < hi ==> Passed(f(x), size) == c(x)
    ensures Passed(Flatten(f, lo, hi), size) == SumOver(c, lo, hi)
    decreases hi
  {
    if hi > lo {
      FlattenPassed(f, c, lo, hi - 1, size);
      PassedConcat(Flatten(f, lo, hi - 1), f(hi - 1), size);
    }
  }

  lemma JStepPairs(test: seq<Vec3> -> bool, cp: seq<Particle>, i: nat, j: nat)
    requires i < j < |cp|
    ensures Passed(JStep(test, cp, i, j), 2) == PairFlag(test, cp, i)(j)
  {
    var ok := Coal(test, cp, [i, j]);
    var tail := if ok then KTrace(test, cp, i, j, |cp|) else [];
    if ok {
      KTraceAdmissible(test, cp, i, j, |cp|);
    }
    ExtensionsNoPairs(tail);
    PassedConcat([Probe([i, j], ok)], tail, 2);
    assert [Probe([i, j], ok)][..0] == [];
  }

  lemma StepsPairs(test: seq<Vec3> -> bool, cp: seq<Particle>, i: nat)
    ensures forall j :: i + 1 <= j < |cp| ==> Passed(JSteps(test, cp, i)(j), 2) == PairFlag(test, cp, i)(j)
  {
    forall j | i + 1 <= j < |cp| ensures Passed(JSteps(test, cp, i)(j), 2) == PairFlag(test, cp, i)(j) {
      JStepPairs(test, cp, i, j);
    }
  }

  lemma RowPairs(test: seq<Vec3> -> bool, cp: seq<Particle>, i: nat)
    requires i < |cp|
    ensures Passed(Rows(test, cp)(i), 2) == RowFlag(test, cp)(i)
  {
    StepsPairs(test, cp, i);
    FlattenPassed(JSteps(test, cp, i), PairFlag(test, cp, i), i + 1, |cp|, 2);
  }

  /** The antideuteron counter grows by exactly the number of coalescing
      pairs. */
  lemma AntideuteronsArePassingPairs(test: seq<Vec3> -> bool, cp: seq<Particle>)
    ensures CountSize(Matches(SearchTrace(test, cp)), 2) == PassingPairs(test, cp)
  {
    forall i | 0 <= i < |cp| ensures Passed(Rows(test, cp)(i), 2) == RowFlag(test, cp)(i) {
      RowPairs(test, cp, i);
    }
    FlattenPassed(Rows(test, cp), RowFlag(test, cp), 0, |cp|, 2);
    ITraceFlat(test, cp, |cp|);
    PassedMatches(SearchTrace(test, cp), 2);
    if |cp| == 1 {
      assert SumOver(RowFlag(test, cp), 0, 0) == 0;
      assert SumOver(PairFlag(test, cp, 0), 1, 1) == 0;
    }
  }

  /** The passing tests of the given size (3 or 4) in the k-iteration for a
      coalescing pair (i, j): a coalescing triple (i, j, k) passes once; the
      quadruple (i, j, k, k) tried after it passes once per later candidate
      when it coalesces. */
  function TripleWeight(test: seq<Vec3> -> bool, cp: seq<Particle>, i: nat, j: nat, k: nat, size: nat): nat {
    if !Coal(test, cp, [i, j, k]) then 0
    else if size == 3 then 1
    else if size == 4 && Coal(test, cp, [i, j, k, k]) && k < |cp| then |cp| - k - 1
    else 0
  }

  function KWeight(test: seq<Vec3> -> bool, cp: seq<Particle>, i: nat, j: nat, size: nat): nat -> nat {
    (k: nat) => TripleWeight(test, cp, i, j, k, size)
  }

  /** The passing tests of the given size after the pair (i, j): none when the
      pair does not coalesce, otherwise the sum over every later k. */
  function PairExtensions(test: seq<Vec3> -> bool, cp: seq<Particle>, i: nat, j: nat, size: nat): nat {
    if Coal(test, cp, [i, j]) then SumOver(KWeight(test, cp, i, j, size), j + 1, |cp|) else 0
  }

  function PairWeight(test: seq<Vec3> -> bool, cp: seq<Particle>, i: nat, size: nat): nat -> nat {
    (j: nat) => PairExtensions(test, cp, i, j, size)
  }

  function RowWeight(test: seq<Vec3> -> bool, cp: seq<Particle>, size: nat): nat -> nat {
    (i: nat) => SumOver(PairWeight(test, cp, i, size), i + 1, |cp|)
  }

  /** For size 3, the number of triples i < j < k whose pair (i, j) and whose
      triple both coalesce. For size 4, the sum over those triples whose
      (i, j, k, k) coalesces of the number of candidates after k. */
  function PassingExtensions(test: seq<Vec3> -> bool, cp: seq<Particle>, size: nat): nat {
    SumOver(RowWeight(test, cp, size), 0, |cp|)
  }

  /** The iterations of the k-loop for the pair (i, j). */
  function KSteps(test: seq<Vec3> -> bool, cp: seq<Particle>, i: nat, j: nat): nat -> seq<Probe> {
    (k: nat) => KStep(test, cp, i, j, k)
  }

  /** The k-loop is its iterations one after the other. */
  lemma {:induction false} KTraceFlat(test: seq<Vec3> -> bool, cp: seq<Particle>, i: nat, j: nat, k: nat)
    ensures KTrace(test, cp, i, j, k) == Flatten(KSteps(test, cp, i, j), j + 1, k)
    decreases k
  {
    if k > j + 1 {
      KTraceFlat(test, cp, i, j, k - 1);
      assert KSteps(test, cp, i, j)(k - 1) == KStep(test, cp, i, j, k - 1);
    }
  }

  /** The l-loop passes only quadruple tests, |cp| - k - 1 of them when
      (i, j, k, k) coalesces. */
  lemma LTracePassed(test: seq<Vec3> -> bool, cp: seq<Particle>, i: nat, j: nat, k: nat, size: nat)
    requires k < |cp|
    ensures Passed(LTrace(test, cp, i, j, k, |cp|), size)
            == if size == 4 && Coal(test, cp, [i, j, k, k]) then |cp| - k - 1 else 0
  {
    var q := Probe([i, j, k, k], Coal(test, cp, [i, j, k, k]));
    QuadrupleRepeats(test, cp, i, j, k, |cp|);
    PassedMatches(LTrace(test, cp, i, j, k, |cp|), size);
    RepeatedCount(q, |cp| - k - 1, size);
  }

  lemma KStepPassed(test: seq<Vec3> -> bool, cp: seq<Particle>, i: nat, j: nat, k: nat, size: nat)
    requires k < |cp|
    ensures Passed(KStep(test, cp, i, j, k), size) == KWeight(test, cp, i, j, size)(k)
  {
    var g := [i, j, k];
    var ok := Coal(test, cp, g);
    var tail := if ok then LTrace(test, cp, i, j, k, |cp|) else [];
    PassedConcat([Probe(g, ok)], tail, size);
    assert [Probe(g, ok)][..0] == [];
    if ok {
      LTracePassed(test, cp, i, j, k, size);
    }
  }

  lemma KStepsPassed(test: seq<Vec3> -> bool, cp: seq<Particle>, i: nat, j: nat, size: nat)
    ensures forall k :: j + 1 <= k < |cp| ==>
              Passed(KSteps(test, cp, i, j)(k), size) == KWeight(test, cp, i, j, size)(k)
  {
    forall k | j + 1 <= k < |cp|
      ensures Passed(KSteps(test, cp, i, j)(k), size) == KWeight(test, cp, i, j, size)(k)
    {
      KStepPassed(test, cp, i, j, k, size);
    }
  }

  /** The k-loop passes the sum of its iterations' weights. */
  lemma KTracePassed(test: seq<Vec3> -> bool, cp: seq<Particle>, i: nat, j: nat, size: nat)
    ensures Passed(KTrace(test, cp, i, j, |cp|), size) == SumOver(KWeight(test, cp, i, j, size), j + 1, |cp|)
  {
    KTraceFlat(test, cp, i, j, |cp|);
    KStepsPassed(test, cp, i, j, size);
    FlattenPassed(KSteps(test, cp, i, j), KWeight(test, cp, i, j, size), j + 1, |cp|, size);
  }

  lemma JStepPassed(test: seq<Vec3> -> bool, cp: seq<Particle>, i: nat, j: nat, size: nat)
    requires size >= 3
    ensures Passed(JStep(test, cp, i, j), size) == PairWeight(test, cp, i, size)(j)
  {
    var ok := Coal(test, cp, [i, j]);
    var tail := if ok then KTrace(test, cp, i, j, |cp|) else [];
    PassedConcat([Probe([i, j], ok)], tail, size);
    assert [Probe([i, j], ok)][..0] == [];
    if ok {
      KTracePassed(test, cp, i, j, size);
    }
  }

  lemma StepsPassed(test: seq<Vec3> -> bool, cp: seq<Particle>, i: nat, size: nat)
    requires size >= 3
    ensures forall j :: i + 1 <= j < |cp| ==>
              Passed(JSteps(test, cp, i)(j), size) == PairWeight(test, cp, i, size)(j)
  {
    forall j | i + 1 <= j < |cp|
      ensures Passed(JSteps(test, cp, i)(j), size) == PairWeight(test, cp, i, size)(j)
    {
      JStepPassed(test, cp, i, j, size);
    }
  }

  lemma RowPassed(test: seq<Vec3> -> bool, cp: seq<Particle>, i: nat, size: nat)
    requires size >= 3
    ensures Passed(Rows(test, cp)(i), size) == RowWeight(test, cp, size)(i)
  {
    StepsPassed(test, cp, i, size);
    FlattenPassed(JSteps(test, cp, i), PairWeight(test, cp, i, size), i + 1, |cp|, size);
  }

  /** The antihelium-3 counter grows by the number of triples i < j < k whose
      pair and triple coalesce, and the antihelium-4 counter by the number of
      passing (i, j, k, k) tests, one per candidate after k. */
  lemma ExtensionCounts(test: seq<Vec3> -> bool, cp: seq<Particle>, size: nat)
    requires size == 3 || size == 4
    ensures CountSize(Matches(SearchTrace(test, cp)), size) == PassingExtensions(test, cp, size)
  {
    forall i | 0 <= i < |cp| ensures Passed(Rows(test, cp)(i), size) == RowWeight(test, cp, size)(i) {
      RowPassed(test, cp, i, size);
    }
    FlattenPassed(Rows(test, cp), RowWeight(test, cp, size), 0, |cp|, size);
    ITraceFlat(test, cp, |cp|);
    PassedMatches(SearchTrace(test, cp), size);
    if |cp| == 1 {
      assert SumOver(RowWeight(test, cp, size), 0, 0) == 0;
      assert SumOver(PairWeight(test, cp, 0, size), 1, 1) == 0;
    }
  }

  /** Every group that matched passed the test and was admissible when tried. */
  lemma MatchesAdmissible(test: seq<Vec3> -> bool, cp: seq<Particle>, t: seq<Probe>)
    requires AllAdmissible(test, cp, t)
    ensures forall x :: 0 <= x < |Matches(t)| ==> Admissible(test, cp, Probe(Matches(t)[x], true))
  {
    forall x | 0 <= x < |Matches(t)| ensures Admissible(test, cp, Probe(Matches(t)[x], true)) {
      var q :| 0 <= q < |t| && t[q] == Probe(Matches(t)[x], true);
      assert Admissible(test, cp, t[q]);
    }
  }

  /** The matches of the search: every one coalesces and has two to four
      members; a triple or quadruple extends a coalescing pair, a quadruple
      extends a coalescing triple and repeats its third member. */
  lemma SearchMatches(test: seq<Vec3> -> bool, cp: seq<Particle>)
    ensures var gs := Matches(SearchTrace(test, cp));
            forall x :: 0 <= x < |gs| ==>
              && 2 <= |gs[x]| <= 4
              && InRange(gs[x], |cp|) && Coal(test, cp, gs[x])
              && gs[x][0] < gs[x][1]
              && (|gs[x]| >= 3 ==> gs[x][1] < gs[x][2] && Coal(test, cp, gs[x][..2]))
              && (|gs[x]| == 4 ==> gs[x][3] == gs[x][2] && Coal(test, cp, gs[x][..3]))
  {
    SearchAdmissible(test, cp);
    MatchesAdmissible(test, cp, SearchTrace(test, cp));
  }

  /** A pair that does not coalesce is never extended: no test of three or
      four candidates starts with it, and no match does. */
  lemma FailingPairNotExtended(test: seq<Vec3> -> bool, cp: seq<Particle>, i: nat, j: nat)
    requires !Coal(test, cp, [i, j])
    ensures var t := SearchTrace(test, cp);
            forall q :: 0 <= q < |t| && |t[q].group| >= 3 ==> t[q].group[..2] != [i, j]
    ensures var gs := Matches(SearchTrace(test, cp));
            forall x :: 0 <= x < |gs| ==> |gs[x]| >= 2 && gs[x][..2] != [i, j]
  {
    var t := SearchTrace(test, cp);
    SearchAdmissible(test, cp);
    forall q | 0 <= q < |t| && |t[q].group| >= 3 ensures t[q].group[..2] != [i, j] {
      assert Admissible(test, cp, t[q]);
    }
    SearchMatches(test, cp);
    var gs := Matches(t);
    forall x | 0 <= x < |gs| ensures |gs[x]| >= 2 && gs[x][..2] != [i, j] {
      if |gs[x]| == 2 {
        assert gs[x][..2] == gs[x];
      }
    }
  }

  /** The l-loop tries the same quadruple (i, j, k, k) once per iteration. */
  lemma {:induction false} QuadrupleRepeats(test: seq<Vec3> -> bool, cp: seq<Particle>,
                                           i: nat, j: nat, k: nat, l: nat)
    requires k < l
    ensures LTrace(test, cp, i, j, k, l)
            == seq(l - k - 1, _ => Probe([i, j, k, k], Coal(test, cp, [i, j, k, k])))
    decreases l
  {
    if l > k + 1 {
      QuadrupleRepeats(test, cp, i, j, k, l - 1);
    }
  }

  /** So a coalescing quadruple (i, j, k, k) is counted once for every
      candidate after the k-th, and one that does not coalesce never. */
  lemma QuadrupleCount(test: seq<Vec3> -> bool, cp: seq<Particle>, i: nat, j: nat, k: nat)
    requires k < |cp|
    ensures CountSize(Matches(LTrace(test, cp, i, j, k, |cp|)), 4)
            == if Coal(test, cp, [i, j, k, k]) then |cp| - k - 1 else 0
  {
    var q := Probe([i, j, k, k], Coal(test, cp, [i, j, k, k]));
    QuadrupleRepeats(test, cp, i, j, k, |cp|);
    RepeatedCount(q, |cp| - k - 1, 4);
  }

  /** The record of the quadruple (i, j, k, k) has A = 4 and counts the k-th
      candidate twice in Z. */
  lemma QuadrupleRecord(cms: real, cp: seq<Particle>, i: nat, j: nat, k: nat)
    requires i < j < k < |cp|
    requires forall x :: 0 <= x < |cp| ==> cp[x].id == PDG_PBAR || cp[x].id == PDG_NBAR
    ensures InRange([i, j, k, k], |cp|)
    ensures var r := RecordOf(cms, At(cp, [i, j, k, k]));
            && r.a == 4
            && r.z == (if cp[i].id == PDG_PBAR then 1 else 0) + (if cp[j].id == PDG_PBAR then 1 else 0)
                      + 2 * (if cp[k].id == PDG_PBAR then 1 else 0)
  {
    var g := [i, j, k, k];
    var ps := At(cp, g);
    assert ps == [cp[i], cp[j], cp[k], cp[k]];
    assert ps[..3] == [cp[i], cp[j], cp[k]];
    assert ps[..3][..2] == [cp[i], cp[j]];
    assert ps[..3][..2][..1] == [cp[i]];
    assert ps[..3][..2][..1][..0] == [];
    assert CountId(ps[..3][..2][..1], PDG_PBAR) == (if cp[i].id == PDG_PBAR then 1 else 0);
    assert CountId(ps[..3][..2], PDG_PBAR)
           == CountId(ps[..3][..2][..1], PDG_PBAR) + (if cp[j].id == PDG_PBAR then 1 else 0);
    assert CountId(ps[..3], PDG_PBAR) == CountId(ps[..3][..2], PDG_PBAR) + (if cp[k].id == PDG_PBAR then 1 else 0);
    assert CountId(ps, PDG_PBAR) == CountId(ps[..3], PDG_PBAR) + (if cp[k].id == PDG_PBAR then 1 else 0);
    AntinucleonMass(ps);
  }

  /** The momenta handed to the four-particle test are those of the i-th,
      j-th and twice the k-th candidate. */
  lemma QuadrupleMomenta(cp: seq<Particle>, i: nat, j: nat, k: nat)
    requires i < j < k < |cp|
    ensures InRange([i, j, k, k], |cp|)
    ensures Momenta(At(cp, [i, j, k, k])) == [cp[i].p, cp[j].p, cp[k].p, cp[k].p]
  {
    assert At(cp, [i, j, k, k]) == [cp[i], cp[j], cp[k], cp[k]];
  }

  /** A probe repeated m times matches m times if it passed, and never
      otherwise. */
  lemma {:induction false} RepeatedCount(q: Probe, m: nat, size: nat)
    ensures CountSize(Matches(seq(m, _ => q)), size) == if q.passed && |q.group| == size then m else 0
  {
    if m > 0 {
      var front := seq(m - 1, _ => q);
      assert seq(m, _ => q) == front + [q];
      RepeatedCount(q, m - 1, size);
      MatchesSnoc(front, q);
      if q.passed {
        CountSnoc(Matches(front), q.group, size);
      }
    }
  }

  /** A test made in the k-iteration for k is part of the k-loop. */
  lemma {:induction false} KTraceHas(test: seq<Vec3> -> bool, cp: seq<Particle>,
                                    i: nat, j: nat, k: nat, n: nat, x: Probe)
    requires j < k < n && x in KStep(test, cp, i, j, k)
    ensures x in KTrace(test, cp, i, j, n)
    decreases n
  {
    assert KTrace(test, cp, i, j, n) == KTrace(test, cp, i, j, n - 1) + KStep(test, cp, i, j, n - 1);
    if n - 1 > k {
      KTraceHas(test, cp, i, j, k, n - 1, x);
    }
  }

  /** A test made in the j-iteration for j is part of the j-loop. */
  lemma {:induction false} JTraceHas(test: seq<Vec3> -> bool, cp: seq<Particle>,
                                    i: nat, j: nat, n: nat, x: Probe)
    requires i < j < n && x in JStep(test, cp, i, j)
    ensures x in JTrace(test, cp, i, n)
    decreases n
  {
    assert JTrace(test, cp, i, n) == JTrace(test, cp, i, n - 1) + JStep(test, cp, i, n - 1);
    if n - 1 > j {
      JTraceHas(test, cp, i, j, n - 1, x);
    }
  }

  /** A test made in the i-iteration for i is part of the i-loop. */
  lemma {:induction false} ITraceHas(test: seq<Vec3> -> bool, cp: seq<Particle>, i: nat, n: nat, x: Probe)
    requires i < n && x in JTrace(test, cp, i, |cp|)
    ensures x in ITrace(test, cp, n)
  {
    if n - 1 > i {
      ITraceHas(test, cp, i, n - 1, x);
    }
  }

  /** A test made in the j-iteration for (i, j) is part of the search. */
  lemma InSearch(test: seq<Vec3> -> bool, cp: seq<Particle>, i: nat, j: nat, x: Probe)
    requires i < j < |cp| && x in JStep(test, cp, i, j)
    ensures x in SearchTrace(test, cp)
  {
    JTraceHas(test, cp, i, j, |cp|, x);
    ITraceHas(test, cp, i, |cp|, x);
  }

  /** Every pair i < j of candidates is tested, as the upper triangle is
      scanned in full. */
  lemma EveryPairTested(test: seq<Vec3> -> bool, cp: seq<Particle>, i: nat, j: nat)
    requires i < j < |cp|
    ensures Probe([i, j], Coal(test, cp, [i, j])) in SearchTrace(test, cp)
  {
    assert JStep(test, cp, i, j)[0] == Probe([i, j], Coal(test, cp, [i, j]));
    InSearch(test, cp, i, j, Probe([i, j], Coal(test, cp, [i, j])));
  }

  /** Every coalescing pair (i, j) is extended by every later candidate k. */
  lemma EveryTripleTested(test: seq<Vec3> -> bool, cp: seq<Particle>, i: nat, j: nat, k: nat)
    requires i < j < k < |cp| && Coal(test, cp, [i, j])
    ensures Probe([i, j, k], Coal(test, cp, [i, j, k])) in SearchTrace(test, cp)
  {
    var x := Probe([i, j, k], Coal(test, cp, [i, j, k]));
    assert KStep(test, cp, i, j, k)[0] == x;
    KTraceHas(test, cp, i, j, k, |cp|, x);
    assert JStep(test, cp, i, j) == [Probe([i, j], true)] + KTrace(test, cp, i, j, |cp|);
    InSearch(test, cp, i, j, x);
  }

  /** Every coalescing triple (i, j, k) with a candidate after k is followed by
      a test of (i, j, k, k). */
  lemma EveryQuadrupleTested(test: seq<Vec3> -> bool, cp: seq<Particle>, i: nat, j: nat, k: nat)
    requires i < j < k && k + 1 < |cp| && Coal(test, cp, [i, j]) && Coal(test, cp, [i, j, k])
    ensures Probe([i, j, k, k], Coal(test, cp, [i, j, k, k])) in SearchTrace(test, cp)
  {
    var x := Probe([i, j, k, k], Coal(test, cp, [i, j, k, k]));
    QuadrupleRepeats(test, cp, i, j, k, |cp|);
    assert LTrace(test, cp, i, j, k, |cp|)[0] == x;
    assert KStep(test, cp, i, j, k) == [Probe([i, j, k], true)] + LTrace(test, cp, i, j, k, |cp|);
    KTraceHas(test, cp, i, j, k, |cp|, x);
    assert JStep(test, cp, i, j) == [Probe([i, j], true)] + KTrace(test, cp, i, j, |cp|);
    InSearch(test, cp, i, j, x);
  }

  /** With every group of size two to four, the three counters together
      count every match once. */
  lemma {:induction false} SizesPartition(gs: seq<seq<nat>>)
    requires forall x :: 0 <= x < |gs| ==> 2 <= |gs[x]| <= 4
    ensures CountSize(gs, 2) + CountSize(gs, 3) + CountSize(gs, 4) == |gs|
  {
    if gs != [] {
      SizesPartition(gs[..|gs| - 1]);
    }
  }

  /** Each record written for a group of antinucleons: the collision energy,
      A the size of the group and 0 <= Z <= A. */
  lemma {:induction false} RecordsShape(cms: real, cp: seq<Particle>, gs: seq<seq<nat>>)
    requires GroupsInRange(gs, |cp|)
    requires forall x :: 0 <= x < |cp| ==> cp[x].id == PDG_PBAR || cp[x].id == PDG_NBAR
    ensures |RecordsOf(cms, cp, gs)| == |gs|
    ensures forall x :: 0 <= x < |gs| ==>
              RecordsOf(cms, cp, gs)[x].cms == cms
              && RecordsOf(cms, cp, gs)[x].a == |gs[x]|
              && 0 <= RecordsOf(cms, cp, gs)[x].z <= RecordsOf(cms, cp, gs)[x].a
  {
    if gs != [] {
      var front := gs[..|gs| - 1];
      var g := gs[|gs| - 1];
      assert GroupsInRange(front, |cp|) by {
        forall x | 0 <= x < |front| ensures InRange(front[x], |cp|) {
          assert front[x] == gs[x];
        }
      }
      RecordsShape(cms, cp, front);
      assert InRange(g, |cp|);
      AntinucleonMass(At(cp, g));
      CountsWithin(At(cp, g), PDG_PBAR, PDG_NBAR);
      forall x | 0 <= x < |front| ensures front[x] == gs[x] { }
    }
  }

  /** The candidates are final-state antiprotons and antineutrons. */
  lemma CandidateCodes(event: seq<Particle>)
    ensures forall x :: 0 <= x < |Candidates(event)| ==> IsAntinucleon(event[Candidates(event)[x]])
  {
    CandidatesExact(event);
    var c := Candidates(event);
    forall x | 0 <= x < |c| ensures IsAntinucleon(event[c[x]]) {
      assert c[x] in c;
    }
  }

  /** With fewer than two candidates nothing is tested. */
  lemma NoSearchBelowTwo(test: seq<Vec3> -> bool, cp: seq<Particle>)
    requires |cp| < 2
    ensures SearchTrace(test, cp) == [] && Matches(SearchTrace(test, cp)) == []
  {
  }

  /** What the search over antinucleon candidates cp adds, as a whole: one
      record per match, each with the collision energy, A from 2 to 4 and
      0 <= Z <= A; the three counters together grow by the number of records;
      and the antideuteron counter grows by the number of coalescing pairs. */
  lemma SearchSummary(test: seq<Vec3> -> bool, cms: real, cp: seq<Particle>)
    requires forall x :: 0 <= x < |cp| ==> cp[x].id == PDG_PBAR || cp[x].id == PDG_NBAR
    ensures var gs := Matches(SearchTrace(test, cp));
            var recs := RecordsOf(cms, cp, gs);
            && CountSize(gs, 2) == PassingPairs(test, cp)
            && CountSize(gs, 3) == PassingExtensions(test, cp, 3)
            && CountSize(gs, 4) == PassingExtensions(test, cp, 4)
            && CountSize(gs, 2) + CountSize(gs, 3) + CountSize(gs, 4) == |recs|
            && forall x :: 0 <= x < |recs| ==>
                 recs[x].cms == cms && 2 <= recs[x].a <= 4 && 0 <= recs[x].z <= recs[x].a
  {
    var gs := Matches(SearchTrace(test, cp));
    AntideuteronsArePassingPairs(test, cp);
    ExtensionCounts(test, cp, 3);
    ExtensionCounts(test, cp, 4);
    SearchMatches(test, cp);
    SizesPartition(gs);
    RecordsShape(cms, cp, gs);
  }

  /** The same for the candidates of an event, which are antinucleons. */
  lemma EventSummary(test: seq<Vec3> -> bool, cms: real, event: seq<Particle>)
    ensures var cp := At(event, Candidates(event));
            var gs := Matches(SearchTrace(test, cp));
            var recs := RecordsOf(cms, cp, gs);
            && CountSize(gs, 2) == PassingPairs(test, cp)
            && CountSize(gs, 3) == PassingExtensions(test, cp, 3)
            && CountSize(gs, 4) == PassingExtensions(test, cp, 4)
            && CountSize(gs, 2) + CountSize(gs, 3) + CountSize(gs, 4) == |recs|
            && forall x :: 0 <= x < |recs| ==>
                 recs[x].cms == cms && 2 <= recs[x].a <= 4 && 0 <= recs[x].z <= recs[x].a
  {
    var c := Candidates(event);
    var cp := At(event, c);
    CandidateCodes(event);
    forall x | 0 <= x < |cp| ensures cp[x].id == PDG_PBAR || cp[x].id == PDG_NBAR {
      assert cp[x] == event[c[x]] && IsAntinucleon(event[c[x]]);
    }
    SearchSummary(test, cms, cp);
  }
}
