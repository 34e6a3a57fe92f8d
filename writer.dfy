/** Particles as the event generator hands them over, output records, and the
    mass-number / charge-number bookkeeping of writeEvent. */
module Writer {
  import opened Coalescence

  /** PDG code of the antiproton. */
  const PDG_PBAR: int := -2212
  /** PDG code of the antineutron. */
  const PDG_NBAR: int := -2112

  /** A generated particle: PDG identity code, final-state flag, 3-momentum and
      energy (the fourth component of its four-momentum). */
  datatype Particle = Particle(id: int, isFinal: bool, p: Vec3, e: real)

  /** One line of the output log: collision energy, mass number A, charge
      number Z and the summed energy of the cluster. */
  datatype Record = Record(cms: real, a: int, z: int, energy: real)

  /** The number of particles in s with identity code id. */
  function CountId(s: seq<Particle>, id: int): nat {
    if s == [] then 0
    else CountId(s[..|s| - 1], id) + (if s[|s| - 1].id == id then 1 else 0)
  }

  /** The energy components of the particles, summed front to back. */
  function EnergySum(s: seq<Particle>): real {
    if s == [] then 0.0 else EnergySum(s[..|s| - 1]) + s[|s| - 1].e
  }

  /** The record writeEvent emits for the particles s: Z counts antiprotons,
      A counts antiprotons and antineutrons. */
  function RecordOf(cms: real, s: seq<Particle>): Record {
    Record(cms, CountId(s, PDG_PBAR) + CountId(s, PDG_NBAR), CountId(s, PDG_PBAR), EnergySum(s))
  }

  /** Two distinct codes together count no more particles than there are. */
  lemma {:induction false} CountsWithin(s: seq<Particle>, x: int, y: int)
    requires x != y
    ensures CountId(s, x) + CountId(s, y) <= |s|
  {
    if s != [] {
      CountsWithin(s[..|s| - 1], x, y);
    }
  }

  /** When every particle is an antiproton or an antineutron, A is the number
      of particles. */
  lemma {:induction false} AntinucleonMass(s: seq<Particle>)
    requires forall i :: 0 <= i < |s| ==> s[i].id == PDG_PBAR || s[i].id == PDG_NBAR
    ensures CountId(s, PDG_PBAR) + CountId(s, PDG_NBAR) == |s|
  {
    if s != [] {
      AntinucleonMass(s[..|s| - 1]);
    }
  }

  /** The loop of writeEvent over the first numParticles particles: it adds up
      the energy and counts Z and A; 0 <= Z <= A <= numParticles. */
  method Tally(numParticles: nat, part: seq<Particle>) returns (a: int, z: int, total: real)
    requires numParticles <= |part|
    ensures z == CountId(part[..numParticles], PDG_PBAR)
    ensures a == z + CountId(part[..numParticles], PDG_NBAR)
    ensures 0 <= z <= a <= numParticles
    ensures total == EnergySum(part[..numParticles])
  {
    total := 0.0;
    a := 0;
    z := 0;
    var i := 0;
    while i < numParticles
      invariant 0 <= i <= numParticles
      invariant z == CountId(part[..i], PDG_PBAR)
      invariant a == z + CountId(part[..i], PDG_NBAR)
      invariant total == EnergySum(part[..i])
    {
      assert part[..i + 1][..i] == part[..i];
      total := total + part[i].e;
      if part[i].id == PDG_PBAR {
        z := z + 1;
        a := a + 1;
      } else if part[i].id == PDG_NBAR {
        a := a + 1;
      }
      i := i + 1;
    }
    CountsWithin(part[..numParticles], PDG_PBAR, PDG_NBAR);
  }
}
