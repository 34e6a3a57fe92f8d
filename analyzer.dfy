/** The event analyzer: the process-wide species counters and the output log,
    updated by analyzeEvent for one event at a time. The log stands in for the
    output file; each entry is one line (CMS, A, Z, energy). */
module Analyzer {
  import opened Coalescence
  import opened Writer
  import opened Search

  /** Capacity of the fixed candidate array pbarList. */
  const MaxCandidates: nat := 20

  /** The antinucleon scan of analyzeEvent: pbarList is set to -1 throughout,
      then the index of every final-state antiproton or antineutron is stored
      in event order and antiNucIndex counts them. The source has no bounds
      check on the 20 slots, so at most 20 candidates are required. */
  method CollectAntinucleons(event: seq<Particle>) returns (pbarList: array<int>, antiNucIndex: nat)
    requires |Candidates(event)| <= MaxCandidates
    ensures fresh(pbarList) && pbarList.Length == MaxCandidates
    ensures antiNucIndex == |Candidates(event)|
    ensures forall t :: 0 <= t < antiNucIndex ==> pbarList[t] == Candidates(event)[t]
    ensures forall t :: antiNucIndex <= t < MaxCandidates ==> pbarList[t] == -1
  {
    pbarList := new int[MaxCandidates];
    for t := 0 to MaxCandidates
      invariant forall s :: 0 <= s < t ==> pbarList[s] == -1
    {
      pbarList[t] := -1;
    }
    antiNucIndex := 0;

    var i := 0;
    while i < |event|
      invariant 0 <= i <= |event|
      invariant antiNucIndex == |Candidates(event[..i])| <= MaxCandidates
      invariant forall t :: 0 <= t < antiNucIndex ==> pbarList[t] == Candidates(event[..i])[t]
      invariant forall t :: antiNucIndex <= t < MaxCandidates ==> pbarList[t] == -1
    {
      CandidatesPrefix(event, i + 1);
      assert event[..i + 1][..i] == event[..i];
      var part := event[i];
      if part.isFinal && (part.id == PDG_PBAR || part.id == PDG_NBAR) {
        pbarList[antiNucIndex] := i;
        antiNucIndex := antiNucIndex + 1;
      }
      i := i + 1;
    }
    assert event[..|event|] == event;
  }

  /** The candidate array and count as the scan left them: the first
      antiNucIndex slots hold the event positions of the candidates cp. */
  ghost predicate Lists(event: seq<Particle>, pbarList: seq<int>, antiNucIndex: nat, cp: seq<Particle>)
  {
    && |cp| == antiNucIndex <= |pbarList|
    && forall x :: 0 <= x < antiNucIndex ==> 0 <= pbarList[x] < |event| && event[pbarList[x]] == cp[x]
  }

  /** test answers as the coalescence condition does. The loop methods take
      the test as a ghost parameter pinned to Coalesces by this predicate,
      rather than Coalesces itself: the trigger keeps the condition folded
      except where checkCoal has just decided it, which keeps the loop proofs
      small. */
  ghost predicate Decides(test: seq<Vec3> -> bool) {
    forall ps {:trigger Coalesces(ps)} :: test(ps) == Coalesces(ps)
  }

  class EventAnalyzer {
    /** Number of antideuterons found. */
    var antideuteron: int
    /** Number of antihelium-3 (or antitriton) clusters found. */
    var antihelium3: int
    /** Number of antihelium-4 clusters found. */
    var antihelium4: int
    /** The output file, one record per line. */
    var log: seq<Record>

    /** The counters start at zero and the log is empty. */
    constructor ()
      ensures antideuteron == 0 && antihelium3 == 0 && antihelium4 == 0
      ensures log == []
    {
      antideuteron, antihelium3, antihelium4 := 0, 0, 0;
      log := [];
    }

    /** The counters and the log as one value. */
    function Current(): Totals
      reads this
    {
      Totals(log, antideuteron, antihelium3, antihelium4)
    }

    /** The counters and the log are those of s0 with the tests t counted. */
    ghost predicate Accounts(s0: Totals, cms: real, cp: seq<Particle>, t: seq<Probe>)
      reads this
    {
      Current() == After(s0, cms, cp, t)
    }

    /** writeEvent: appends the record (CMS, A, Z, energy) of the first
        numParticles particles to the log. */
    method WriteEvent(cms: real, numParticles: nat, part: seq<Particle>)
      requires numParticles <= |part|
      modifies this`log
      ensures log == old(log) + [RecordOf(cms, part[..numParticles])]
    {
      var a, z, total := Tally(numParticles, part);
      log := log + [Record(cms, a, z, total)];
    }

    /** analyzeEvent: collects the antinucleons of the event and, when there
        are at least two, runs the upper-triangular search over all pairs.
        Every passing test bumps the counter of its group size by one and
        writes one record; nothing else changes. */
    method AnalyzeEvent(cms: real, event: seq<Particle>)
      requires |Candidates(event)| <= MaxCandidates
      modifies this
      ensures var cp := At(event, Candidates(event));
              var gs := Matches(SearchTrace(Coalesces, cp));
              && log == old(log) + RecordsOf(cms, cp, gs)
              && antideuteron == old(antideuteron) + CountSize(gs, 2)
              && antihelium3 == old(antihelium3) + CountSize(gs, 3)
              && antihelium4 == old(antihelium4) + CountSize(gs, 4)
      ensures antideuteron >= old(antideuteron) && antihelium3 >= old(antihelium3)
              && antihelium4 >= old(antihelium4) && |log| >= |old(log)|
      ensures |Candidates(event)| < 2 ==>
                && log == old(log) && antideuteron == old(antideuteron)
                && antihelium3 == old(antihelium3) && antihelium4 == old(antihelium4)
    {
      var pbarList, antiNucIndex := CollectAntinucleons(event);
      ghost var cp := At(event, Candidates(event));
      ghost var s0 := Current();
      ghost var trace: seq<Probe> := [];
      assert Lists(event, pbarList[..], antiNucIndex, cp);

      if antiNucIndex > 1 {
        var i := 0;
        while i < antiNucIndex
          invariant 0 <= i <= antiNucIndex
          invariant trace == ITrace(Coalesces, cp, i)
          invariant Accounts(s0, cms, cp, trace)
          invariant Lists(event, pbarList[..], antiNucIndex, cp)
          modifies this
        {
          ghost var before := trace;
          trace := ScanRow(cms, event, pbarList[..], antiNucIndex, i, Coalesces, cp, s0, trace);
          var next := i + 1;
          ITraceNext(Coalesces, cp, i, next, before, trace);
          i := next;
        }
      }
      assert trace == SearchTrace(Coalesces, cp);
      AfterMatches(s0, cms, cp, trace);
    }

    /** One iteration of the i-loop: the j-loop over every later candidate. */
    method ScanRow(cms: real, event: seq<Particle>, pbarList: seq<int>, antiNucIndex: nat,
                   i: nat, ghost test: seq<Vec3> -> bool, ghost cp: seq<Particle>,
                   ghost s0: Totals, ghost trace: seq<Probe>)
      returns (ghost trace': seq<Probe>)
      requires Lists(event, pbarList, antiNucIndex, cp) && Decides(test)
      requires i < antiNucIndex
      requires Accounts(s0, cms, cp, trace)
      modifies this
      ensures trace' == trace + JTrace(test, cp, i, |cp|)
      ensures Accounts(s0, cms, cp, trace')
    {
      var part1 := event[pbarList[i]];
      trace' := trace;
      var j := i + 1;
      assert trace' == trace + JTrace(test, cp, i, j);
      while j < antiNucIndex
        invariant i + 1 <= j <= antiNucIndex
        invariant trace' == trace + JTrace(test, cp, i, j)
        invariant Accounts(s0, cms, cp, trace')
        invariant Lists(event, pbarList, antiNucIndex, cp)
        modifies this
      {
        ghost var before := trace';
        trace' := TestPair(cms, event, pbarList, antiNucIndex, i, j, part1, test, cp, s0, trace');
        var next := j + 1;
        JTraceNext(test, cp, i, j, next, trace, before, trace');
        j := next;
      }
    }

    /** One iteration of the j-loop: tests the pair (i, j); a failing pair is
        not extended. */
    method TestPair(cms: real, event: seq<Particle>, pbarList: seq<int>, antiNucIndex: nat,
                    i: nat, j: nat, part1: Particle, ghost test: seq<Vec3> -> bool,
                    ghost cp: seq<Particle>, ghost s0: Totals, ghost trace: seq<Probe>)
      returns (ghost trace': seq<Probe>)
      requires Lists(event, pbarList, antiNucIndex, cp) && Decides(test)
      requires i < j < antiNucIndex && part1 == cp[i]
      requires Accounts(s0, cms, cp, trace)
      modifies this
      ensures trace' == trace + JStep(test, cp, i, j)
      ensures Accounts(s0, cms, cp, trace')
    {
      var part2 := event[pbarList[j]];
      var pVecs := new Vec3[4](_ => Zero);
      pVecs[0], pVecs[1] := part1.p, part2.p;
      ghost var g := [i, j];
      assert pVecs[..2] == Momenta(At(cp, g));
      var ok := CheckCoal(2, pVecs);
      assert ok == Coal(test, cp, g);
      if ok {
        trace' := AcceptPair(cms, event, pbarList, antiNucIndex, i, j, part1, part2, pVecs,
                             test, cp, s0, trace);
      } else {
        AfterSnoc(s0, cms, cp, trace, g, ok);
        trace' := trace + [Probe(g, ok)];
      }
    }

    /** A pair (i, j) that coalesces: counts and writes an antideuteron, then
        extends the pair by every later candidate k. */
    method AcceptPair(cms: real, event: seq<Particle>, pbarList: seq<int>, antiNucIndex: nat,
                      i: nat, j: nat, part1: Particle, part2: Particle, pVecs: array<Vec3>,
                      ghost test: seq<Vec3> -> bool, ghost cp: seq<Particle>,
                      ghost s0: Totals, ghost trace: seq<Probe>)
      returns (ghost trace': seq<Probe>)
      requires Lists(event, pbarList, antiNucIndex, cp) && Decides(test)
      requires i < j < antiNucIndex && part1 == cp[i] && part2 == cp[j]
      requires pVecs.Length == 4 && pVecs[0] == part1.p && pVecs[1] == part2.p
      requires Coal(test, cp, [i, j])
      requires Accounts(s0, cms, cp, trace)
      modifies this, pVecs
      ensures trace' == trace + JStep(test, cp, i, j)
      ensures Accounts(s0, cms, cp, trace')
    {
      ghost var g := [i, j];
      AfterSnoc(s0, cms, cp, trace, g, true);
      assert [part1, part2][..2] == At(cp, g);
      antideuteron := antideuteron + 1;
      WriteEvent(cms, 2, [part1, part2]);
      ghost var t1 := trace + [Probe(g, true)];
      trace' := ExtendPair(cms, event, pbarList, antiNucIndex, i, j, part1, part2, pVecs,
                           test, cp, s0, t1);
      StepThen(Probe(g, true), trace, t1, KTrace(test, cp, i, j, |cp|), trace');
    }

    /** The k-loop for a passing pair (i, j): every later candidate k is tried
        as the third member. */
    method ExtendPair(cms: real, event: seq<Particle>, pbarList: seq<int>, antiNucIndex: nat,
                      i: nat, j: nat, part1: Particle, part2: Particle, pVecs: array<Vec3>,
                      ghost test: seq<Vec3> -> bool, ghost cp: seq<Particle>,
                      ghost s0: Totals, ghost trace: seq<Probe>)
      returns (ghost trace': seq<Probe>)
      requires Lists(event, pbarList, antiNucIndex, cp) && Decides(test)
      requires i < j < antiNucIndex && part1 == cp[i] && part2 == cp[j]
      requires pVecs.Length == 4 && pVecs[0] == part1.p && pVecs[1] == part2.p
      requires Accounts(s0, cms, cp, trace)
      modifies this, pVecs
      ensures trace' == trace + KTrace(test, cp, i, j, |cp|)
      ensures Accounts(s0, cms, cp, trace')
    {
      trace' := trace;
      var k := j + 1;
      assert trace' == trace + KTrace(test, cp, i, j, k);
      while k < antiNucIndex
        invariant j + 1 <= k <= antiNucIndex
        invariant pVecs[0] == part1.p && pVecs[1] == part2.p
        invariant trace' == trace + KTrace(test, cp, i, j, k)
        invariant Accounts(s0, cms, cp, trace')
        invariant Lists(event, pbarList, antiNucIndex, cp)
        modifies this, pVecs
      {
        ghost var before := trace';
        trace' := TestTriple(cms, event, pbarList, antiNucIndex, i, j, k, part1, part2, pVecs,
                             test, cp, s0, trace');
        var next := k + 1;
        KTraceNext(test, cp, i, j, k, next, trace, before, trace');
        k := next;
      }
    }

    /** One iteration of the k-loop: tests (i, j, k) with the pair's momenta
        still in the first two slots. */
    method TestTriple(cms: real, event: seq<Particle>, pbarList: seq<int>, antiNucIndex: nat,
                      i: nat, j: nat, k: nat, part1: Particle, part2: Particle, pVecs: array<Vec3>,
                      ghost test: seq<Vec3> -> bool, ghost cp: seq<Particle>,
                      ghost s0: Totals, ghost trace: seq<Probe>)
      returns (ghost trace': seq<Probe>)
      requires Lists(event, pbarList, antiNucIndex, cp) && Decides(test)
      requires i < j < k < antiNucIndex && part1 == cp[i] && part2 == cp[j]
      requires pVecs.Length == 4 && pVecs[0] == part1.p && pVecs[1] == part2.p
      requires Accounts(s0, cms, cp, trace)
      modifies this, pVecs
      ensures pVecs[0] == part1.p && pVecs[1] == part2.p
      ensures trace' == trace + KStep(test, cp, i, j, k)
      ensures Accounts(s0, cms, cp, trace')
    {
      var part3 := event[pbarList[k]];
      pVecs[2] := part3.p;
      ghost var g := [i, j, k];
      assert pVecs[..3] == Momenta(At(cp, g));
      var ok := CheckCoal(3, pVecs);
      assert ok == Coal(test, cp, g);
      if ok {
        trace' := AcceptTriple(cms, event, pbarList, antiNucIndex, i, j, k, part1, part2, part3, pVecs,
                               test, cp, s0, trace);
      } else {
        AfterSnoc(s0, cms, cp, trace, g, ok);
        trace' := trace + [Probe(g, ok)];
      }
    }

    /** A triple (i, j, k) that coalesces: counts and writes an antihelium-3,
        then runs the l-loop. */
    method AcceptTriple(cms: real, event: seq<Particle>, pbarList: seq<int>, antiNucIndex: nat,
                        i: nat, j: nat, k: nat, part1: Particle, part2: Particle, part3: Particle,
                        pVecs: array<Vec3>, ghost test: seq<Vec3> -> bool, ghost cp: seq<Particle>,
                        ghost s0: Totals, ghost trace: seq<Probe>)
      returns (ghost trace': seq<Probe>)
      requires Lists(event, pbarList, antiNucIndex, cp) && Decides(test)
      requires i < j < k < antiNucIndex && part1 == cp[i] && part2 == cp[j] && part3 == cp[k]
      requires pVecs.Length == 4 && pVecs[0] == part1.p && pVecs[1] == part2.p && pVecs[2] == part3.p
      requires Coal(test, cp, [i, j, k])
      requires Accounts(s0, cms, cp, trace)
      modifies this, pVecs
      ensures pVecs[0] == part1.p && pVecs[1] == part2.p
      ensures trace' == trace + KStep(test, cp, i, j, k)
      ensures Accounts(s0, cms, cp, trace')
    {
      ghost var g := [i, j, k];
      AfterSnoc(s0, cms, cp, trace, g, true);
      assert [part1, part2, part3][..3] == At(cp, g);
      antihelium3 := antihelium3 + 1;
      WriteEvent(cms, 3, [part1, part2, part3]);
      ghost var t1 := trace + [Probe(g, true)];
      trace' := ExtendTriple(cms, event, pbarList, antiNucIndex, i, j, k, part1, part2, part3, pVecs,
                             test, cp, s0, t1);
      StepThen(Probe(g, true), trace, t1, LTrace(test, cp, i, j, k, |cp|), trace');
    }

    /** The l-loop for a passing triple (i, j, k): one quadruple test per
        later candidate l. */
    method ExtendTriple(cms: real, event: seq<Particle>, pbarList: seq<int>, antiNucIndex: nat,
                        i: nat, j: nat, k: nat, part1: Particle, part2: Particle, part3: Particle,
                        pVecs: array<Vec3>, ghost test: seq<Vec3> -> bool, ghost cp: seq<Particle>,
                        ghost s0: Totals, ghost trace: seq<Probe>)
      returns (ghost trace': seq<Probe>)
      requires Lists(event, pbarList, antiNucIndex, cp) && Decides(test)
      requires i < j < k < antiNucIndex && part1 == cp[i] && part2 == cp[j] && part3 == cp[k]
      requires pVecs.Length == 4 && pVecs[0] == part1.p && pVecs[1] == part2.p && pVecs[2] == part3.p
      requires Accounts(s0, cms, cp, trace)
      modifies this, pVecs
      ensures pVecs[0] == part1.p && pVecs[1] == part2.p
      ensures trace' == trace + LTrace(test, cp, i, j, k, |cp|)
      ensures Accounts(s0, cms, cp, trace')
    {
      trace' := trace;
      var l := k + 1;
      assert trace' == trace + LTrace(test, cp, i, j, k, l);
      while l < antiNucIndex
        invariant k + 1 <= l <= antiNucIndex
        invariant pVecs[0] == part1.p && pVecs[1] == part2.p && pVecs[2] == part3.p
        invariant trace' == trace + LTrace(test, cp, i, j, k, l)
        invariant Accounts(s0, cms, cp, trace')
        invariant Lists(event, pbarList, antiNucIndex, cp)
        modifies this, pVecs
      {
        ghost var before := trace';
        trace' := TestQuad(cms, event, pbarList, antiNucIndex, i, j, k, part1, part2, part3, pVecs,
                           test, cp, s0, trace');
        var next := l + 1;
        LTraceNext(test, cp, i, j, k, l, next, trace, before, trace');
        l := next;
      }
    }

    /** One iteration of the l-loop. The fourth slot is read from the k-th
        candidate, not the l-th, so every iteration tests the same group
        (i, j, k, k), and counts and writes an antihelium-4 when it
        coalesces. */
    method TestQuad(cms: real, event: seq<Particle>, pbarList: seq<int>, antiNucIndex: nat,
                    i: nat, j: nat, k: nat, part1: Particle, part2: Particle, part3: Particle,
                    pVecs: array<Vec3>, ghost test: seq<Vec3> -> bool, ghost cp: seq<Particle>,
                    ghost s0: Totals, ghost trace: seq<Probe>)
      returns (ghost trace': seq<Probe>)
      requires Lists(event, pbarList, antiNucIndex, cp) && Decides(test)
      requires i < j < k < antiNucIndex && part1 == cp[i] && part2 == cp[j] && part3 == cp[k]
      requires pVecs.Length == 4 && pVecs[0] == part1.p && pVecs[1] == part2.p && pVecs[2] == part3.p
      requires Accounts(s0, cms, cp, trace)
      modifies this, pVecs
      ensures pVecs[0] == part1.p && pVecs[1] == part2.p && pVecs[2] == part3.p
      ensures trace' == trace + [Probe([i, j, k, k], Coal(test, cp, [i, j, k, k]))]
      ensures Accounts(s0, cms, cp, trace')
    {
      ghost var g := [i, j, k, k];
      var part4 := event[pbarList[k]];
      pVecs[3] := part4.p;
      assert pVecs[..4] == Momenta(At(cp, g));
      var ok := CheckCoal(4, pVecs);
      assert ok == Coal(test, cp, g);
      AfterSnoc(s0, cms, cp, trace, g, ok);
      trace' := trace + [Probe(g, ok)];
      if ok {
        assert [part1, part2, part3, part4][..4] == At(cp, g);
        antihelium4 := antihelium4 + 1;
        WriteEvent(cms, 4, [part1, part2, part3, part4]);
      }
    }
  }
}
