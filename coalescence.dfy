/** The momentum-space coalescence test: a group of antinucleons coalesces when
    every member lies within half the coalescence momentum of the group's
    centroid. Momenta are exact reals; the Euclidean distance is compared
    through its square, which is equivalent because the square root is
    monotone on non-negative numbers (see DistanceThreshold). */
module Coalescence {

  /** The 3-momentum part of a four-vector, in GeV/c. */
  datatype Vec3 = Vec3(px: real, py: real, pz: real)

  const Zero: Vec3 := Vec3(0.0, 0.0, 0.0)

  /** Coalescence momentum in GeV. */
  const PCoal: real := 0.160

  /** The coalescence radius around the centroid, pCoal / 2. */
  const Radius: real := PCoal / 2.0

  function Add(a: Vec3, b: Vec3): Vec3 {
    Vec3(a.px + b.px, a.py + b.py, a.pz + b.pz)
  }

  /** Scales the three spatial components, as Vec4::rescale3 does. */
  function Scale(a: Vec3, s: real): Vec3 {
    Vec3(s * a.px, s * a.py, s * a.pz)
  }

  /** The square of computeDistance: the squared Euclidean distance of the
      spatial parts of two momenta. */
  function SqDistance(v1: Vec3, v2: Vec3): (r: real)
    ensures r >= 0.0
  {
    var dx := v1.px - v2.px;
    var dy := v1.py - v2.py;
    var dz := v1.pz - v2.pz;
    dx * dx + dy * dy + dz * dz
  }

  /** Comparing the true distance d (the square root of SqDistance) against
      pCoal / 2 gives the same answer as comparing the squares. */
  lemma DistanceThreshold(v1: Vec3, v2: Vec3, d: real)
    requires d >= 0.0 && d * d == SqDistance(v1, v2)
    ensures d > Radius <==> SqDistance(v1, v2) > Radius * Radius
  {
    var r := Radius;
    assert r == 0.08;
    assert d * d - r * r == (d - r) * (d + r);
    if d > r {
      PositiveProduct(d - r, d + r);
    } else {
      NonNegativeProduct(r - d, d + r);
    }
  }

  lemma PositiveProduct(a: real, b: real)
    requires a > 0.0 && b > 0.0
    ensures a * b > 0.0
  {
  }

  lemma NonNegativeProduct(a: real, b: real)
    requires a >= 0.0 && b >= 0.0
    ensures a * b >= 0.0
  {
  }

  /** The vector sum of a sequence of momenta, accumulated front to back. */
  function Sum(p: seq<Vec3>): Vec3 {
    if |p| == 0 then Zero else Add(Sum(p[..|p| - 1]), p[|p| - 1])
  }

  /** The arithmetic mean of the momenta. The mean of no momenta is never
      used (the source would divide by zero there); it is taken to be Zero. */
  function Centroid(p: seq<Vec3>): Vec3 {
    if |p| == 0 then Zero else Scale(Sum(p), 1.0 / (|p| as real))
  }

  /** The coalescence condition: every momentum is within the coalescence
      radius of the centroid, the boundary included. */
  predicate Coalesces(p: seq<Vec3>) {
    forall i :: 0 <= i < |p| ==> SqDistance(Centroid(p), p[i]) <= Radius * Radius
  }

  /** checkCoal: sums the first numParticles momenta into a centroid, rescales
      it by 1 / numParticles, and rejects as soon as one momentum lies strictly
      more than pCoal / 2 from it. */
  method CheckCoal(numParticles: nat, p: array<Vec3>) returns (b: bool)
    requires numParticles <= p.Length
    ensures b == Coalesces(p[..numParticles])
  {
    var centroid := Zero;
    var i := 0;
    while i < numParticles
      invariant 0 <= i <= numParticles
      invariant centroid == Sum(p[..i])
    {
      assert p[..i + 1][..i] == p[..i];
      centroid := Add(centroid, p[i]);
      i := i + 1;
    }
    if numParticles > 0 {
      centroid := Scale(centroid, 1.0 / (numParticles as real));
    }
    assert centroid == Centroid(p[..numParticles]);

    i := 0;
    while i < numParticles
      invariant 0 <= i <= numParticles
      invariant forall t :: 0 <= t < i ==> SqDistance(centroid, p[t]) <= Radius * Radius
    {
      var dist := SqDistance(centroid, p[i]);
      if dist > Radius * Radius {
        assert p[..numParticles][i] == p[i];
        return false;
      }
      i := i + 1;
    }
    return true;
  }

  /** A single momentum always coalesces: it is its own centroid. */
  lemma SingleCoalesces(v: Vec3)
    ensures Coalesces([v])
  {
    assert [v][..0] == [];
    assert Sum([v]) == v;
    assert Centroid([v]) == v;
  }

  /** Two momenta coalesce exactly when they are at most pCoal apart: each lies
      at half their separation from the centroid. The separation pCoal itself
      is accepted. */
  lemma PairCoalesces(a: Vec3, b: Vec3)
    ensures Coalesces([a, b]) <==> SqDistance(a, b) <= PCoal * PCoal
  {
    assert [a, b][..1] == [a];
    assert [a][..0] == [];
    assert Sum([a]) == a;
    assert Sum([a, b]) == Add(a, b);
    var c := Centroid([a, b]);
    assert c == Vec3((a.px + b.px) / 2.0, (a.py + b.py) / 2.0, (a.pz + b.pz) / 2.0);
    assert SqDistance(c, a) == SqDistance(a, b) / 4.0;
    assert SqDistance(c, b) == SqDistance(a, b) / 4.0;
    assert [a, b][0] == a && [a, b][1] == b;
  }

  /** Removing the k-th momentum from a sequence takes it out of the sum. */
  lemma {:induction false} SumRemove(t: seq<Vec3>, k: nat)
    requires k < |t|
    ensures Sum(t) == Add(Sum(t[..k] + t[k + 1..]), t[k])
    decreases |t|
  {
    var n := |t|;
    if k < n - 1 {
      var front := t[..n - 1];
      var r := t[..k] + t[k + 1..];
      SumRemove(front, k);
      assert front[..k] == t[..k];
      assert front[k + 1..] == t[k + 1..n - 1];
      assert r[..|r| - 1] == front[..k] + front[k + 1..];
      assert r[|r| - 1] == t[n - 1];
    } else {
      assert t[..k] + t[k + 1..] == t[..n - 1];
    }
  }

  /** The sum depends only on the multiset of momenta. */
  lemma {:induction false} SumPermutation(s: seq<Vec3>, t: seq<Vec3>)
    requires multiset(s) == multiset(t)
    ensures Sum(s) == Sum(t)
    decreases |s|
  {
    assert |s| == |multiset(s)| == |multiset(t)| == |t|;
    if |s| > 0 {
      var x := s[|s| - 1];
      assert x in multiset(s);
      assert x in t;
      var k :| 0 <= k < |t| && t[k] == x;
      var rest := t[..k] + t[k + 1..];
      assert t == t[..k] + [t[k]] + t[k + 1..];
      assert s == s[..|s| - 1] + [x];
      assert multiset(t) == multiset(rest) + multiset{x};
      assert multiset(s) == multiset(s[..|s| - 1]) + multiset{x};
      calc {
        multiset(s[..|s| - 1]);
        multiset(s) - multiset{x};
        multiset(t) - multiset{x};
        multiset(rest);
      }
      SumPermutation(s[..|s| - 1], rest);
      SumRemove(t, k);
    }
  }

  /** The coalescence condition does not depend on the order of the momenta. */
  lemma CoalescesPermutation(s: seq<Vec3>, t: seq<Vec3>)
    requires multiset(s) == multiset(t)
    ensures Coalesces(s) <==> Coalesces(t)
  {
    SumPermutation(s, t);
    assert |s| == |multiset(s)| == |multiset(t)| == |t|;
    assert Centroid(s) == Centroid(t);
    var c := Centroid(s);
    if Coalesces(s) {
      forall j | 0 <= j < |t| ensures SqDistance(c, t[j]) <= Radius * Radius {
        assert t[j] in multiset(s);
        var i :| 0 <= i < |s| && s[i] == t[j];
      }
    }
    if Coalesces(t) {
      forall i | 0 <= i < |s| ensures SqDistance(c, s[i]) <= Radius * Radius {
        assert s[i] in multiset(t);
        var j :| 0 <= j < |t| && t[j] == s[i];
      }
    }
  }

  /** Two antinucleons 0.05 GeV/c apart coalesce; 0.2 GeV/c apart they do not. */
  lemma SeparationExamples()
    ensures Coalesces([Zero, Vec3(0.0, 0.0, 0.05)])
    ensures Coalesces([Zero, Vec3(0.0, 0.0, 0.16)])
    ensures !Coalesces([Zero, Vec3(0.0, 0.0, 0.2)])
  {
    PairCoalesces(Zero, Vec3(0.0, 0.0, 0.05));
    PairCoalesces(Zero, Vec3(0.0, 0.0, 0.16));
    PairCoalesces(Zero, Vec3(0.0, 0.0, 0.2));
  }
}
