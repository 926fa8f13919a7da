/** The light path `trace` builds, one segment per surface hit, and its backward
    reduction `light = (light * a + b) * c` from the deepest hit to the first. */
module Path {

  /** One hit: `a` the reflectance times the clamped cosine, `b` the emission,
      `c` the attenuation over the distance travelled to the hit. */
  datatype Segment = Segment(a: real, b: real, c: real)

  predicate NonNegative(s: Segment) {
    s.a >= 0.0 && s.b >= 0.0 && s.c >= 0.0
  }

  predicate AllNonNegative(path: seq<Segment>) {
    forall i :: 0 <= i < |path| ==> NonNegative(path[i])
  }

  /** The light a path delivers to its start: the loop over the reversed path,
      seeded with 0, written as a recursion on the first segment. */
  function Fold(path: seq<Segment>): (light: real)
    ensures path == [] ==> light == 0.0
    ensures |path| == 1 ==> light == path[0].b * path[0].c
  {
    if path == [] then 0.0
    else
      assert |path| == 1 ==> path[1..] == [];
      (Fold(path[1..]) * path[0].a + path[0].b) * path[0].c
  }

  /** `n` copies of one segment: the path of a walk that hits the same surface at
      every bounce. */
  function Repeat(s: Segment, n: nat): (path: seq<Segment>)
    ensures |path| == n
    ensures forall i :: 0 <= i < n ==> path[i] == s
  {
    if n == 0 then [] else [s] + Repeat(s, n - 1)
  }

  /** Every hit modulates what lies beyond it: folding `p + q` is folding `p` with
      the light of `q` in place of the seed 0. */
  lemma {:induction false} FoldAppend(p: seq<Segment>, q: seq<Segment>)
    ensures Fold(p + q) == FoldOnto(p, Fold(q))
  {
    if p == [] {
      assert p + q == q;
    } else {
      assert (p + q)[0] == p[0];
      assert (p + q)[1..] == p[1..] + q;
      FoldAppend(p[1..], q);
    }
  }

  /** The fold continued from an arbitrary seed instead of 0. */
  function FoldOnto(path: seq<Segment>, seed: real): real {
    if path == [] then seed
    else (FoldOnto(path[1..], seed) * path[0].a + path[0].b) * path[0].c
  }

  /** Non-negative segments never produce negative light. */
  lemma {:induction false} FoldNonNegative(path: seq<Segment>)
    requires AllNonNegative(path)
    ensures Fold(path) >= 0.0
  {
    if path != [] {
      FoldNonNegative(path[1..]);
      var rest, s := Fold(path[1..]), path[0];
      assert NonNegative(s);
      MulNonNegative(rest, s.a);
      MulNonNegative(rest * s.a + s.b, s.c);
    }
  }

  /** With reflectances and attenuations in [0, 1] and every emission at most `e`,
      a path of `n` segments delivers at most `n * e`. */
  lemma {:induction false} FoldBounded(path: seq<Segment>, e: real)
    requires AllNonNegative(path)
    requires forall i :: 0 <= i < |path| ==> path[i].a <= 1.0 && path[i].b <= e && path[i].c <= 1.0
    ensures Fold(path) <= (|path| as real) * e
  {
    if path != [] {
      var n := |path| - 1;
      assert |path[1..]| == n;
      FoldBounded(path[1..], e);
      FoldNonNegative(path[1..]);
      StepBounded(Fold(path[1..]), path[0], (n as real) * e, e);
      AddOneTimes(n, e);
    }
  }

  /** One step of the fold adds at most `e` to a bound on the light behind it. */
  lemma StepBounded(rest: real, s: Segment, bound: real, e: real)
    requires 0.0 <= rest <= bound
    requires NonNegative(s) && s.a <= 1.0 && s.b <= e && s.c <= 1.0
    ensures (rest * s.a + s.b) * s.c <= bound + e
  {
    var a, b, c := s.a, s.b, s.c;
    var p := rest * a;
    MulAtMost(rest, a);
    MulNonNegative(rest, a);
    var q := p + b;
    assert 0.0 <= q <= bound + e;
    MulAtMost(q, c);
    assert q * c <= bound + e;
  }

  /** A segment whose first factor is a reflectance weighted by a cosine in [0, 1]. */
  lemma WeightedSegment(s: Segment, reflectance: real, dot: real)
    requires s.a == reflectance * dot && 0.0 <= dot <= 1.0 && reflectance >= 0.0
    requires s.b >= 0.0 && s.c >= 0.0
    ensures NonNegative(s) && s.a <= reflectance
  {
    MulAtMost(reflectance, dot);
    MulNonNegative(reflectance, dot);
  }

  lemma AddOneTimes(n: nat, e: real)
    ensures (n as real) * e + e == ((n + 1) as real) * e
  {
  }

  lemma MulNonNegative(x: real, y: real)
    requires x >= 0.0 && y >= 0.0
    ensures x * y >= 0.0
  {
  }

  lemma MulAtMost(x: real, y: real)
    requires x >= 0.0 && 0.0 <= y <= 1.0
    ensures x * y <= x
  {
    assert x - x * y == x * (1.0 - y);
    MulNonNegative(x, 1.0 - y);
  }
}
