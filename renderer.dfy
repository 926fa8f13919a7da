/** `Renderer<N>`: the accumulation buffer of per-channel light sums, the sweep
    counter, and the three loops that fill the buffer: `intersect` (sphere tracing
    along a ray), `trace` (one random walk through the scene, folded into a light
    value) and `render` (one sample per pixel and channel per sweep), with `rgb`,
    which turns the sums into packed 8-bit pixels. */
module Renderer {
  import opened Common
  import opened Scene
  import opened Path
  import opened Tone
  import Rtrf
  import Rdf
  import Material

  /** A surface reached by `intersect`: the distance travelled along the ray and
      the index of the object hit. */
  datatype Hit = Hit(distance: real, index: nat)

  /** The state of the scan over the scene in one round of `intersect`: `minT`
      is `None` while it still holds its initial `f64::INFINITY`. */
  datatype Nearest = Nearest(minT: Option<real>, minObj: nat)

  /** How one round of `intersect` ends: it advances `t`, returns the no-hit
      sentinel, or returns a hit. */
  datatype Round = Advance(t: real) | Miss | Found(hit: Hit)

  /** One bounce of `trace`: the segment pushed onto the path, the position and
      direction the walk continues from, whether the photon was reflected, and the
      clamped cosine `dot` that weights the reflectance. */
  datatype Bounce = Bounce(segment: Segment, position: Vec3, direction: Vec3, reflected: bool, dot: real)

  /** `d < m` where `None` stands for infinity. */
  predicate Below(d: real, m: Option<real>) {
    m.None? || d < m.value
  }

  /** `f64::clamp(v, 0.0, 1.0)`. */
  function Clamp(v: real): (r: real)
    ensures 0.0 <= r <= 1.0
    ensures 0.0 <= v <= 1.0 ==> r == v
    ensures v < 0.0 ==> r == 0.0
    ensures v > 1.0 ==> r == 1.0
  {
    if v < 0.0 then 0.0 else if v > 1.0 then 1.0 else v
  }

  /** The first entry of a segment: the reflectance times the cosine `dot`. */
  function Weighted(reflectance: real, dot: real): real {
    reflectance * dot
  }

  /** The distance between neighbouring pixels on the unit square, `1 / (n - 1)`. */
  function Spacing(n: nat): (d: real)
    requires n >= 2
    ensures d > 0.0 && d * ((n - 1) as real) == 1.0
  {
    1.0 / ((n - 1) as real)
  }

  /** A uniform draw in [0, 1) turned into an offset of at most half a spacing. */
  function Jitter(u: real, spacing: real): (r: real)
    ensures 0.0 <= u < 1.0 && spacing > 0.0 ==> -spacing * 0.5 <= r < spacing * 0.5
  {
    (u - 0.5) * spacing
  }

  /** `p` lies within half a spacing of grid point `i` of `n` points spread over
      [0, 1]. */
  predicate NearGridPoint(p: real, i: nat, n: nat)
    requires n >= 2
  {
    var d := Spacing(n);
    d * (i as real) - d * 0.5 <= p < d * (i as real) + d * 0.5
  }

  /** One screen coordinate of pixel `i` of `n`, `scaled + noise`: its grid point
      moved by the jitter draw `u`. */
  function Coordinate(n: nat, i: nat, u: real): (p: real)
    requires n >= 2
    ensures 0.0 <= u < 1.0 ==> NearGridPoint(p, i, n)
  {
    var d := Spacing(n);
    d * (i as real) + Jitter(u, d)
  }

  /** `Option::unwrap_or` on the last element of a list. */
  function LastOr(s: seq<real>, default: real): (r: real)
    ensures s == [] ==> r == default
    ensures s != [] ==> r == s[|s| - 1]
  {
    if s == [] then default else s[|s| - 1]
  }

  /** Each round that `intersect` does not end moves `t` by at least the accuracy
      without passing `ray_max`: the measure `(ray_max - t) / ray_accuracy` drops
      by at least one and was not negative. */
  lemma Progress(t: real, m: real, rayMax: real, accuracy: real)
    requires accuracy > 0.0 && m >= accuracy && t + m <= rayMax
    ensures 0.0 <= (rayMax - t) / accuracy
    ensures (rayMax - (t + m)) / accuracy <= (rayMax - t) / accuracy - 1.0
  {
    var before := (rayMax - t) / accuracy;
    var after := (rayMax - (t + m)) / accuracy;
    DivSub(rayMax - t, m, accuracy);
    assert before - after == m / accuracy;
    assert m / accuracy >= accuracy / accuracy;
  }

  lemma DivSub(a: real, b: real, d: real)
    requires d > 0.0
    ensures a / d - (a - b) / d == b / d
  {
  }

  lemma DivModUnique(n: nat, d: nat, q: nat, r: nat)
    requires d > 0 && r < d && n == q * d + r
    ensures n / d == q && n % d == r
  {
    var q', r' := n / d, n % d;
    assert n == q' * d + r';
    if q' < q {
      MulMono(q' + 1, q, d);
      assert false;
    } else if q' > q {
      MulMono(q + 1, q', d);
      assert false;
    }
  }

  lemma DivBelow(a: nat, b: nat, d: nat)
    requires d > 0 && a < b * d
    ensures a / d < b
  {
    if a / d >= b {
      MulMono(b, a / d, d);
      assert false;
    }
  }

  lemma MulMono(a: int, b: int, c: int)
    requires 0 <= a <= b && c >= 0
    ensures a * c <= b * c
  {
    assert b * c - a * c == (b - a) * c;
  }

  /** `f(first) + f(first + 1) + ... + f(first + count - 1)`, added in that order. */
  function Total(f: nat -> real, first: nat, count: nat): real {
    if count == 0 then 0.0 else Total(f, first, count - 1) + f(first + count - 1)
  }

  lemma {:induction false} TotalSplit(f: nat -> real, first: nat, a: nat, b: nat)
    ensures Total(f, first, a + b) == Total(f, first, a) + Total(f, first + a, b)
    decreases b
  {
    if b > 0 {
      TotalSplit(f, first, a, b - 1);
      assert first + (a + b) - 1 == (first + a) + b - 1;
    }
  }

  lemma {:induction false} TotalNonNegative(f: nat -> real, first: nat, count: nat)
    requires forall k :: first <= k < first + count ==> f(k) >= 0.0
    ensures Total(f, first, count) >= 0.0
    decreases count
  {
    if count > 0 {
      TotalNonNegative(f, first, count - 1);
    }
  }

  class Renderer {
    const config: Config
    const camera: (real, real) -> Ray
    const scene: seq<Object>
    const kernels: Kernels
    const rng: Draws
    const image: array<real>
    var iteration: nat

    /** The buffer has one sum per pixel and channel. */
    predicate Valid()
      reads this
    {
      image.Length == config.width * config.height * config.channels
    }

    /** What `trace` needs on every channel: a positive accuracy (so that
        `intersect` terminates), per-channel arrays of N entries and a reflection
        distribution on every object, and rejection loops that end. */
    ghost predicate Traceable() {
      && config.rayAccuracy > 0.0
      && (forall i :: 0 <= i < |scene| ==> Ready(scene[i], |config.attenuation|))
      && rng.Valid()
    }

    /** `trace` on `channel` runs without a panic. */
    ghost predicate TraceReady(channel: nat) {
      Traceable() && channel < |config.attenuation|
    }

    /** What `render` needs: every channel it walks is traceable, and the pixel
        spacings `1 / (width - 1)` and `1 / (height - 1)` are finite. */
    ghost predicate RenderReady() {
      && config.width >= 2
      && config.height >= 2
      && config.channels <= |config.attenuation|
      && Traceable()
    }

    /** Every material was built through its constructors. */
    ghost predicate MaterialsValid() {
      forall i :: 0 <= i < |scene| ==> scene[i].material.Valid()
    }

    // ---------------------------------------------------------------- layout

    /** The slot of pixel `(x, y)` and `channel` in the flat buffer. */
    function Index(y: nat, x: nat, channel: nat): nat {
      ((y * config.width) + x) * config.channels + channel
    }

    /** The pixel row, column and channel a slot belongs to. */
    function CellY(q: nat): nat
      requires config.width > 0 && config.channels > 0
    {
      q / config.channels / config.width
    }

    function CellX(q: nat): nat
      requires config.width > 0 && config.channels > 0
    {
      q / config.channels % config.width
    }

    function CellC(q: nat): (c: nat)
      requires config.channels > 0
      ensures c < config.channels
    {
      q % config.channels
    }

    /** Every slot `render` writes lies inside the buffer. */
    lemma IndexBound(y: nat, x: nat, channel: nat)
      requires y < config.height && x < config.width && channel < config.channels
      ensures Index(y, x, channel) < config.width * config.height * config.channels
    {
      var w, h, n := config.width, config.height, config.channels;
      var row := y * w + x;
      assert row + 1 <= (y + 1) * w;
      MulMono(y + 1, h, w);
      assert row + 1 <= w * h;
      MulMono(row + 1, w * h, n);
      assert row * n + n == (row + 1) * n;
    }

    /** Distinct pixels and channels have distinct slots: the slot decodes back. */
    lemma IndexCell(y: nat, x: nat, channel: nat)
      requires config.width > 0 && x < config.width && channel < config.channels
      ensures CellY(Index(y, x, channel)) == y
      ensures CellX(Index(y, x, channel)) == x
      ensures CellC(Index(y, x, channel)) == channel
    {
      var row := y * config.width + x;
      DivModUnique(Index(y, x, channel), config.channels, row, channel);
      DivModUnique(row, config.width, y, x);
    }

    /** Every slot of the buffer is the slot of some pixel and channel. */
    lemma CellIndex(q: nat)
      requires config.width > 0 && q < config.width * config.height * config.channels
      ensures config.channels > 0
      ensures CellY(q) < config.height && CellX(q) < config.width
      ensures Index(CellY(q), CellX(q), CellC(q)) == q
    {
      var w, h, n := config.width, config.height, config.channels;
      if n == 0 {
        assert false;
      }
      DivBelow(q, w * h, n);
      DivBelow(q / n, h, w);
    }

    lemma IndexCarry(y: nat, x: nat)
      ensures Index(y, x, config.channels) == Index(y, x + 1, 0)
      ensures Index(y, config.width, 0) == Index(y + 1, 0, 0)
      ensures Index(config.height, 0, 0) == config.width * config.height * config.channels
    {
      var w, n := config.width, config.channels;
      assert (y * w + x) * n + n == (y * w + x + 1) * n;
      assert (y + 1) * w == y * w + w;
      assert config.height * w == w * config.height;
    }

    // ---------------------------------------------------------- intersection

    /** The signed distance of object `index` from the point reached at `t`. */
    function Sdf(origin: Vec3, direction: Vec3, t: real, index: nat): real
      requires index < |scene|
    {
      kernels.sdf(scene[index].shape, At(origin, direction, t))
    }

    /** The candidate test of the scan: the object is farther than the accuracy,
        or the ray, moved on to where the distance would take it, is heading into
        the surface there. */
    predicate Eligible(origin: Vec3, direction: Vec3, t: real, index: nat)
      requires index < |scene|
      ensures Sdf(origin, direction, t, index) > config.rayAccuracy ==> Eligible(origin, direction, t, index)
      ensures Sdf(origin, direction, t, index) <= config.rayAccuracy ==>
        (Eligible(origin, direction, t, index) <==> Facing(origin, direction, t, index))
    {
      Sdf(origin, direction, t, index) > config.rayAccuracy || Facing(origin, direction, t, index)
    }

    /** The ray, moved on by the object's distance, heads into the object's surface:
        its direction points against the surface normal there. */
    predicate Facing(origin: Vec3, direction: Vec3, t: real, index: nat)
      requires index < |scene|
    {
      var sdf := Sdf(origin, direction, t, index);
      Dot(kernels.normal(scene[index].shape, At(origin, direction, t + sdf), config.normalEpsilon), direction) < 0.0
    }

    /** The scan over the first `n` objects at `t`: the nearest eligible object,
        the earliest one among equally near ones, or none when no object is eligible. */
    function Scan(origin: Vec3, direction: Vec3, t: real, n: nat): (r: Nearest)
      requires n <= |scene|
      ensures r.minT.None? <==> forall i :: 0 <= i < n ==> !Eligible(origin, direction, t, i)
      ensures r.minT.None? ==> r.minObj == 0
      ensures r.minT.Some? ==> r.minObj < n && Eligible(origin, direction, t, r.minObj)
      ensures r.minT.Some? ==> r.minT.value == Sdf(origin, direction, t, r.minObj)
      ensures r.minT.Some? ==> forall i :: 0 <= i < n && Eligible(origin, direction, t, i) ==>
                r.minT.value <= Sdf(origin, direction, t, i)
      ensures r.minT.Some? ==> forall i :: 0 <= i < r.minObj && Eligible(origin, direction, t, i) ==>
                r.minT.value < Sdf(origin, direction, t, i)
    {
      if n == 0 then Nearest(None, 0)
      else
        var prev := Scan(origin, direction, t, n - 1);
        var sdf := Sdf(origin, direction, t, n - 1);
        if Below(sdf, prev.minT) && Eligible(origin, direction, t, n - 1) then Nearest(Some(sdf), n - 1)
        else prev
    }

    /** One round of the loop of `intersect` at `t`: `t += min_t`; past `ray_max`
        the sentinel; a step below the accuracy a hit, moved on by half the step. */
    function Round(origin: Vec3, direction: Vec3, t: real): (r: Round)
      ensures r.Advance? ==> t + config.rayAccuracy <= r.t <= config.rayMax
      ensures r.Found? ==> r.hit.index < |scene| && Eligible(origin, direction, t, r.hit.index)
    {
      var near := Scan(origin, direction, t, |scene|);
      if near.minT.None? then Miss
      else
        var m := near.minT.value;
        if t + m > config.rayMax then Miss
        else if m < config.rayAccuracy then Found(Hit(t + m + m * 0.5, near.minObj))
        else Advance(t + m)
    }

    /** How a round ends: the sentinel exactly when no object is eligible or the
        step passes `ray_max`; otherwise a step of at least the accuracy that stays
        within `ray_max`, or a hit on the nearest eligible object, at most half the
        accuracy beyond `ray_max`. */
    lemma RoundCases(origin: Vec3, direction: Vec3, t: real)
      ensures var r, near := Round(origin, direction, t), Scan(origin, direction, t, |scene|);
        r.Miss? <==> near.minT.None? || t + near.minT.value > config.rayMax
      ensures var r := Round(origin, direction, t);
        r.Advance? ==> t + config.rayAccuracy <= r.t <= config.rayMax
      ensures var r, near := Round(origin, direction, t), Scan(origin, direction, t, |scene|);
        r.Found? ==> && near.minT.Some? && near.minT.value < config.rayAccuracy
                     && r.hit.index == near.minObj < |scene|
                     && Eligible(origin, direction, t, r.hit.index)
                     && r.hit.distance == t + near.minT.value + near.minT.value * 0.5
                     && r.hit.distance < config.rayMax + config.rayAccuracy * 0.5
    {
    }

    /** The rounds of `intersect` from `t` on, until one of them returns. */
    function March(origin: Vec3, direction: Vec3, t: real): (r: Option<Hit>)
      requires config.rayAccuracy > 0.0
      ensures r.Some? ==> r.value.index < |scene|
      ensures r.Some? ==> r.value.distance < config.rayMax + config.rayAccuracy * 0.5
      ensures |scene| == 0 ==> r.None?
      decreases (config.rayMax - t) / config.rayAccuracy
    {
      match Round(origin, direction, t)
      case Miss => None
      case Found(hit) => RoundCases(origin, direction, t); Some(hit)
      case Advance(next) =>
        RoundCases(origin, direction, t);
        Progress(t, next - t, config.rayMax, config.rayAccuracy);
        March(origin, direction, next)
    }

    /** The inner loop of `intersect`: one pass over the scene at `t`, keeping the
        nearest eligible object seen so far. */
    method ScanScene(origin: Vec3, direction: Vec3, t: real) returns (minT: Option<real>, minObj: nat)
      ensures Nearest(minT, minObj) == Scan(origin, direction, t, |scene|)
    {
      var p := At(origin, direction, t);
      minT, minObj := None, 0;
      var index := 0;
      while index < |scene|
        invariant index <= |scene|
        invariant Nearest(minT, minObj) == Scan(origin, direction, t, index)
      {
        var sdf := kernels.sdf(scene[index].shape, p);
        if Below(sdf, minT) {
          if sdf > config.rayAccuracy
            || Dot(kernels.normal(scene[index].shape, At(origin, direction, t + sdf), config.normalEpsilon), direction) < 0.0
          {
            minT := Some(sdf);
            minObj := index;
          }
        }
        index := index + 1;
      }
    }

    /** `intersect`: sphere tracing from `origin` along `direction`; `None` is the
        sentinel `(f64::INFINITY, 0)`. */
    method Intersect(origin: Vec3, direction: Vec3) returns (r: Option<Hit>)
      requires config.rayAccuracy > 0.0
      ensures r == March(origin, direction, 0.0)
    {
      var t := 0.0;
      while true
        invariant March(origin, direction, t) == March(origin, direction, 0.0)
        decreases (config.rayMax - t) / config.rayAccuracy
      {
        var minT, minObj := ScanScene(origin, direction, t);
        if minT.None? {
          assert Round(origin, direction, t) == Miss;
          return None;
        }
        var next := t + minT.value;
        if next > config.rayMax {
          assert Round(origin, direction, t) == Miss;
          return None;
        }
        if minT.value < config.rayAccuracy {
          next := next + minT.value * 0.5;
          assert Round(origin, direction, t) == Found(Hit(next, minObj));
          return Some(Hit(next, minObj));
        }
        assert Round(origin, direction, t) == Advance(next);
        Progress(t, minT.value, config.rayMax, config.rayAccuracy);
        t := next;
      }
    }

    // ----------------------------------------------------------------- trace

    /** One bounce of the walk at `hit`: reflect when the ratio exceeds the draw,
        taking the normal at the walk's current position (not at the hit) and a new
        direction from the reflection distribution; otherwise stay where the walk is.
        The segment is the weighted reflectance, the emission, and the attenuation
        of `config.attenuation[channel]` over the distance (the walk's own list of
        attenuations is never pushed, so it is always that one). */
    function Step(key: SampleKey, bounce: nat, position: Vec3, direction: Vec3, hit: Hit): (r: Bounce)
      requires TraceReady(key.channel) && hit.index < |scene|
      ensures r.reflected <==> scene[hit.index].material.rtrf.Ratio(key.channel) > rng.reflect(key, bounce)
      ensures r.segment.a == Weighted(scene[hit.index].material.rdf.Reflection(key.channel), r.dot)
      ensures r.segment.b == scene[hit.index].material.emission[key.channel]
      ensures r.segment.c == kernels.powf(1.0 - config.attenuation[key.channel], hit.distance)
      ensures 0.0 <= r.dot <= 1.0
      ensures !r.reflected ==> r.position == position && r.direction == direction && r.dot == 1.0
    {
      var target := scene[hit.index];
      var channel := key.channel;
      var c := kernels.powf(1.0 - LastOr([], config.attenuation[channel]), hit.distance);
      var reflected := target.material.rtrf.Ratio(channel) > rng.reflect(key, bounce);
      var normal := kernels.normal(target.shape, position, config.normalEpsilon);
      var newDirection :=
        if reflected then target.material.rdf.Random(direction, normal, rng.directions(key, bounce), kernels.normalize)
        else direction;
      var dot := if reflected then Clamp(Dot(newDirection, normal)) else 1.0;
      var newPosition := if reflected then At(position, direction, hit.distance) else position;
      Bounce(Segment(Weighted(target.material.rdf.Reflection(channel), dot), target.material.emission[channel], c),
             newPosition, newDirection, reflected, dot)
    }

    /** A reflected photon moves to the hit point and leaves in the direction the
        reflection distribution draws, on the side of the normal taken at its
        previous position; `dot` is the clamped cosine between the two. */
    lemma StepReflects(key: SampleKey, bounce: nat, position: Vec3, direction: Vec3, hit: Hit)
      requires TraceReady(key.channel) && hit.index < |scene|
      requires Step(key, bounce, position, direction, hit).reflected
      ensures var r := Step(key, bounce, position, direction, hit);
        var target := scene[hit.index];
        var normal := kernels.normal(target.shape, position, config.normalEpsilon);
        && r.position == At(position, direction, hit.distance)
        && r.direction == target.material.rdf.Random(direction, normal, rng.directions(key, bounce), kernels.normalize)
        && Dot(r.direction, normal) >= 0.0
        && r.dot == Clamp(Dot(r.direction, normal))
    {
    }

    /** The segments the walk pushes from bounce `bounce` on: one per hit, none
        after a miss, and none past `path_length`. */
    function PathFrom(key: SampleKey, bounce: nat, position: Vec3, direction: Vec3): (path: seq<Segment>)
      requires TraceReady(key.channel) && bounce <= config.pathLength
      ensures |path| <= config.pathLength - bounce
      decreases config.pathLength - bounce
    {
      if bounce == config.pathLength then []
      else
        match March(position, direction, 0.0)
        case None => []
        case Some(hit) =>
          var b := Step(key, bounce, position, direction, hit);
          [b.segment] + PathFrom(key, bounce + 1, b.position, b.direction)
    }

    /** A hit at a bounce before `path_length` pushes that hit's segment and moves
        the walk on to where the bounce leaves it. */
    lemma PathUnfold(key: SampleKey, bounce: nat, position: Vec3, direction: Vec3, hit: Hit)
      requires TraceReady(key.channel) && bounce < config.pathLength
      requires March(position, direction, 0.0) == Some(hit)
      ensures var b := Step(key, bounce, position, direction, hit);
        PathFrom(key, bounce, position, direction) == [b.segment] + PathFrom(key, bounce + 1, b.position, b.direction)
    {
    }

    /** The walk pushes nothing once it misses or reaches `path_length`. */
    lemma PathEnds(key: SampleKey, bounce: nat, position: Vec3, direction: Vec3)
      requires TraceReady(key.channel) && bounce <= config.pathLength
      ensures (PathFrom(key, bounce, position, direction) == [])
                <==> (bounce == config.pathLength || March(position, direction, 0.0).None?)
    {
    }

    /** The light one call of `trace` returns. */
    function Radiance(key: SampleKey, origin: Vec3, direction: Vec3): (light: real)
      requires TraceReady(key.channel)
      ensures config.pathLength == 0 || March(origin, direction, 0.0).None? ==> light == 0.0
    {
      PathEnds(key, 0, origin, direction);
      Fold(PathFrom(key, 0, origin, direction))
    }

    /** The second loop of `trace`: `for (a, b, c) in path.iter().rev()`, seeded
        with 0. */
    method Reduce(path: seq<Segment>) returns (light: real)
      ensures light == Fold(path)
    {
      light := 0.0;
      var j := |path|;
      while j > 0
        invariant 0 <= j <= |path|
        invariant light == Fold(path[j..])
      {
        j := j - 1;
        assert path[j..][1..] == path[j + 1..];
        light := (light * path[j].a + path[j].b) * path[j].c;
      }
      assert path[0..] == path;
    }

    /** `trace`: the walk that builds the path, then the backward fold
        `light = (light * a + b) * c` seeded with 0. */
    method Trace(start: Vec3, heading: Vec3, key: SampleKey) returns (light: real)
      requires TraceReady(key.channel)
      ensures light == Radiance(key, start, heading)
    {
      var path := Walk(start, heading, key);
      light := Reduce(path);
    }

    /** `walk(bounce, position, direction)` is the path the walk pushes from there:
        a table that agrees with `PathFrom` at every point `PathFrom` is asked about,
        so that the loop of `Walk` can reason about the table alone. */
    ghost predicate Walks(walk: (nat, Vec3, Vec3) -> seq<Segment>, key: SampleKey)
      requires TraceReady(key.channel)
    {
      forall bounce: nat, position: Vec3, direction: Vec3 {:trigger PathFrom(key, bounce, position, direction)} ::
        bounce <= config.pathLength ==> walk(bounce, position, direction) == PathFrom(key, bounce, position, direction)
    }

    /** `PathFrom` itself is such a table. */
    lemma WalksExist(key: SampleKey)
      requires TraceReady(key.channel)
      ensures exists walk :: Walks(walk, key)
    {
      var walk := (bounce: nat, position: Vec3, direction: Vec3) =>
        if bounce <= config.pathLength then PathFrom(key, bounce, position, direction) else [];
      assert Walks(walk, key);
    }

    /** `PathUnfold` read on the table. */
    lemma WalkStep(walk: (nat, Vec3, Vec3) -> seq<Segment>, key: SampleKey, bounce: nat, position: Vec3, direction: Vec3, hit: Hit)
      requires TraceReady(key.channel) && Walks(walk, key) && bounce < config.pathLength
      requires March(position, direction, 0.0) == Some(hit)
      ensures var b := Step(key, bounce, position, direction, hit);
        walk(bounce, position, direction) == [b.segment] + walk(bounce + 1, b.position, b.direction)
    {
      var b := Step(key, bounce, position, direction, hit);
      PathUnfold(key, bounce, position, direction, hit);
      assert walk(bounce + 1, b.position, b.direction) == PathFrom(key, bounce + 1, b.position, b.direction);
    }

    /** `PathEnds` read on the table. */
    lemma WalkStops(walk: (nat, Vec3, Vec3) -> seq<Segment>, key: SampleKey, bounce: nat, position: Vec3, direction: Vec3)
      requires TraceReady(key.channel) && Walks(walk, key) && bounce <= config.pathLength
      requires bounce == config.pathLength || March(position, direction, 0.0).None?
      ensures walk(bounce, position, direction) == []
    {
      PathEnds(key, bounce, position, direction);
    }

    /** The first loop of `trace`: up to `path_length` calls of `intersect`, one
        pushed segment per hit, stopping at the first miss. */
    method Walk(start: Vec3, heading: Vec3, key: SampleKey) returns (path: seq<Segment>)
      requires TraceReady(key.channel)
      ensures path == PathFrom(key, 0, start, heading)
    {
      WalksExist(key);
      ghost var walk: (nat, Vec3, Vec3) -> seq<Segment> :| Walks(walk, key);
      path := [];
      var position, direction := start, heading;
      var i := 0;
      while i < config.pathLength
        invariant i <= config.pathLength && |path| == i
        invariant path + walk(i, position, direction) == walk(0, start, heading)
      {
        var hit := Intersect(position, direction);
        if hit.None? {
          WalkStops(walk, key, i, position, direction);
          assert path + [] == path;
          break;
        }
        var step := Step(key, i, position, direction, hit.value);
        WalkStep(walk, key, i, position, direction, hit.value);
        ghost var rest := walk(i + 1, step.position, step.direction);
        assert path + ([step.segment] + rest) == (path + [step.segment]) + rest;
        path := path + [step.segment];
        position, direction := step.position, step.direction;
        i := i + 1;
      }
      WalkStops(walk, key, i, position, direction);
      assert path + [] == path;
      assert walk(0, start, heading) == PathFrom(key, 0, start, heading);
    }

    /** The segment of a bounce off a valid material is non-negative, and its
        weighted reflectance is at most the channel's reflectance. */
    lemma StepWeight(key: SampleKey, bounce: nat, position: Vec3, direction: Vec3, hit: Hit)
      requires TraceReady(key.channel) && hit.index < |scene| && scene[hit.index].material.Valid()
      requires 0.0 <= config.attenuation[key.channel] <= 1.0
      requires forall x, y :: x >= 0.0 ==> kernels.powf(x, y) >= 0.0
      ensures NonNegative(Step(key, bounce, position, direction, hit).segment)
      ensures Step(key, bounce, position, direction, hit).segment.a
                <= scene[hit.index].material.rdf.Reflection(key.channel)
    {
      var r := Step(key, bounce, position, direction, hit);
      var target := scene[hit.index];
      var reflectance := target.material.rdf.Reflection(key.channel);
      assert target.material.Valid();
      assert Material.NonNegative(target.material.emission[key.channel]);
      assert r.segment.b >= 0.0;
      var base := 1.0 - config.attenuation[key.channel];
      assert base >= 0.0;
      assert r.segment.c == kernels.powf(base, hit.distance);
      assert r.segment.c >= 0.0;
      WeightedSegment(r.segment, reflectance, r.dot);
    }

    /** With valid materials, an attenuation in [0, 1] and a `powf` that keeps
        non-negative bases non-negative, every segment of the walk is non-negative. */
    lemma {:induction false} PathNonNegative(key: SampleKey, bounce: nat, position: Vec3, direction: Vec3)
      requires TraceReady(key.channel) && bounce <= config.pathLength && MaterialsValid()
      requires 0.0 <= config.attenuation[key.channel] <= 1.0
      requires forall x, y :: x >= 0.0 ==> kernels.powf(x, y) >= 0.0
      ensures AllNonNegative(PathFrom(key, bounce, position, direction))
      decreases config.pathLength - bounce
    {
      if bounce < config.pathLength && March(position, direction, 0.0).Some? {
        var hit := March(position, direction, 0.0).value;
        var b := Step(key, bounce, position, direction, hit);
        StepWeight(key, bounce, position, direction, hit);
        PathNonNegative(key, bounce + 1, b.position, b.direction);
        PathUnfold(key, bounce, position, direction, hit);
      } else {
        PathEnds(key, bounce, position, direction);
      }
    }

    /** Under the same conditions `trace` never returns negative light. */
    lemma RadianceNonNegative(key: SampleKey, origin: Vec3, direction: Vec3)
      requires TraceReady(key.channel) && MaterialsValid()
      requires 0.0 <= config.attenuation[key.channel] <= 1.0
      requires forall x, y :: x >= 0.0 ==> kernels.powf(x, y) >= 0.0
      ensures Radiance(key, origin, direction) >= 0.0
    {
      var path := PathFrom(key, 0, origin, direction);
      PathNonNegative(key, 0, origin, direction);
      FoldNonNegative(path);
    }

    /** An absorbed photon stays where it is: when the surface first hit never
        reflects on the remaining bounces, the walk meets it again at every bounce
        and the path is one segment repeated up to `path_length`. */
    lemma {:induction false} AbsorbedRepeats(key: SampleKey, bounce: nat, position: Vec3, direction: Vec3, hit: Hit)
      requires TraceReady(key.channel) && bounce <= config.pathLength
      requires March(position, direction, 0.0) == Some(hit)
      requires forall b :: bounce <= b < config.pathLength ==>
                 scene[hit.index].material.rtrf.Ratio(key.channel) <= rng.reflect(key, b)
      ensures PathFrom(key, bounce, position, direction)
                == Repeat(Segment(scene[hit.index].material.rdf.Reflection(key.channel),
                                  scene[hit.index].material.emission[key.channel],
                                  kernels.powf(1.0 - config.attenuation[key.channel], hit.distance)),
                          config.pathLength - bounce)
      decreases config.pathLength - bounce
    {
      if bounce < config.pathLength {
        var b := Step(key, bounce, position, direction, hit);
        assert !b.reflected;
        AbsorbedRepeats(key, bounce + 1, position, direction, hit);
      }
    }

    // ---------------------------------------------------------------- render

    /** The ray of pixel `(x, y)` in sweep `sweep`: the pixel's place on the unit
        square, moved by the sweep's two jitter draws, each scaled to one pixel
        spacing. */
    function SampleRay(sweep: nat, y: nat, x: nat): Ray
      requires config.width >= 2 && config.height >= 2
    {
      camera(Coordinate(config.width, x, rng.jitter(sweep).0), Coordinate(config.height, y, rng.jitter(sweep).1))
    }

    /** The light `render` adds to pixel `(x, y)`, `channel`, in sweep `sweep`. */
    function Sample(sweep: nat, y: nat, x: nat, channel: nat): (light: real)
      requires RenderReady() && channel < config.channels
    {
      var ray := SampleRay(sweep, y, x);
      Radiance(SampleKey(sweep, y, x, channel), ray.origin, ray.direction)
    }

    /** A pixel whose camera ray meets no object gathers no light in that sweep. */
    lemma SampleMisses(sweep: nat, y: nat, x: nat, channel: nat)
      requires RenderReady() && channel < config.channels
      ensures var ray := SampleRay(sweep, y, x);
        March(ray.origin, ray.direction, 0.0).None? ==> Sample(sweep, y, x, channel) == 0.0
    {
    }

    /** With both jitter draws in [0, 1), as `rand::random::<f64>()` yields them, the
        camera ray of a pixel passes through a point within half a pixel spacing of
        that pixel's place on the unit square, in both directions. */
    lemma JitteredRay(sweep: nat, y: nat, x: nat)
      requires config.width >= 2 && config.height >= 2
      requires 0.0 <= rng.jitter(sweep).0 < 1.0 && 0.0 <= rng.jitter(sweep).1 < 1.0
      ensures exists u, v :: SampleRay(sweep, y, x) == camera(u, v)
                && NearGridPoint(u, x, config.width) && NearGridPoint(v, y, config.height)
    {
      var u := Coordinate(config.width, x, rng.jitter(sweep).0);
      var v := Coordinate(config.height, y, rng.jitter(sweep).1);
      assert SampleRay(sweep, y, x) == camera(u, v);
    }

    /** The samples of pixel `(x, y)`, `channel`, indexed by sweep. */
    ghost function Samples(y: nat, x: nat, channel: nat): (f: nat -> real)
      requires RenderReady() && channel < config.channels
      ensures forall sweep :: f(sweep) == Sample(sweep, y, x, channel)
    {
      (sweep: nat) => Sample(sweep, y, x, channel)
    }

    /** The sum of the samples of sweeps `first .. first + count`. */
    ghost function Accumulated(first: nat, count: nat, y: nat, x: nat, channel: nat): real
      requires RenderReady() && channel < config.channels
    {
      Total(Samples(y, x, channel), first, count)
    }

    /** `Accumulated` for the pixel and channel of slot `q`. */
    ghost function AccumulatedAt(first: nat, count: nat, q: nat): real
      requires RenderReady() && q < config.width * config.height * config.channels
    {
      CellIndex(q);
      Accumulated(first, count, CellY(q), CellX(q), CellC(q))
    }

    /** The slot of a pixel and channel accumulates that pixel and channel. */
    lemma AccumulatedCell(first: nat, count: nat, y: nat, x: nat, channel: nat)
      requires RenderReady() && y < config.height && x < config.width && channel < config.channels
      ensures Index(y, x, channel) < config.width * config.height * config.channels
      ensures AccumulatedAt(first, count, Index(y, x, channel)) == Accumulated(first, count, y, x, channel)
    {
      IndexBound(y, x, channel);
      IndexCell(y, x, channel);
    }

    /** One more sweep adds one sample to the slot of a pixel and channel. */
    lemma AccumulatedStep(first: nat, count: nat, y: nat, x: nat, channel: nat)
      requires RenderReady() && y < config.height && x < config.width && channel < config.channels
      ensures Index(y, x, channel) < config.width * config.height * config.channels
      ensures AccumulatedAt(first, count + 1, Index(y, x, channel))
                == AccumulatedAt(first, count, Index(y, x, channel)) + Sample(first + count, y, x, channel)
    {
      IndexBound(y, x, channel);
      IndexCell(y, x, channel);
    }

    /** Two calls of `render` add what one call with both counts adds: the sweeps
        are numbered by `iteration`, so the second call continues the first. */
    lemma AccumulatedSplit(first: nat, a: nat, b: nat, y: nat, x: nat, channel: nat)
      requires RenderReady() && channel < config.channels
      ensures Accumulated(first, a + b, y, x, channel)
                == Accumulated(first, a, y, x, channel) + Accumulated(first + a, b, y, x, channel)
    {
      TotalSplit(Samples(y, x, channel), first, a, b);
    }

    /** When every sample is non-negative (valid materials, attenuations in [0, 1],
        a non-negative `powf`), accumulating never lowers a sum. */
    lemma AccumulatedNonNegative(first: nat, count: nat, y: nat, x: nat, channel: nat)
      requires RenderReady() && channel < config.channels && MaterialsValid()
      requires 0.0 <= config.attenuation[channel] <= 1.0
      requires forall x, y :: x >= 0.0 ==> kernels.powf(x, y) >= 0.0
      ensures Accumulated(first, count, y, x, channel) >= 0.0
    {
      var f := Samples(y, x, channel);
      forall sweep: nat
        ensures f(sweep) >= 0.0
      {
        var ray := SampleRay(sweep, y, x);
        RadianceNonNegative(SampleKey(sweep, y, x, channel), ray.origin, ray.direction);
      }
      TotalNonNegative(f, first, count);
    }

    /** `Renderer::new`: a zero-filled buffer of one sum per pixel and channel,
        and no sweep yet. */
    constructor (config: Config, camera: (real, real) -> Ray, scene: seq<Object>, kernels: Kernels, rng: Draws)
      ensures this.config == config && this.scene == scene
      ensures this.camera == camera && this.kernels == kernels && this.rng == rng
      ensures Valid() && fresh(image)
      ensures forall q :: 0 <= q < image.Length ==> image[q] == 0.0
      ensures iteration == 0
    {
      this.config := config;
      this.camera := camera;
      this.scene := scene;
      this.kernels := kernels;
      this.rng := rng;
      image := new real[config.width * config.height * config.channels](_ => 0.0);
      iteration := 0;
    }

    /** `Renderer::iteration`: the number of sweeps accumulated so far. */
    function Iteration(): (n: nat)
      reads this
      ensures n == iteration
    {
      iteration
    }

    /** `acc(count, q)` agrees with what sweeps `first .. first + count` add to slot `q`. */
    ghost predicate Tracks(acc: (nat, nat) -> real, first: nat)
      requires RenderReady()
    {
      forall count: nat, q: nat {:trigger AccumulatedAt(first, count, q)} ::
        q < config.width * config.height * config.channels ==> acc(count, q) == AccumulatedAt(first, count, q)
    }

    /** Some table tracks the accumulated samples of every slot. */
    lemma TrackerExists(first: nat)
      requires RenderReady()
      ensures exists acc :: Tracks(acc, first)
    {
      var acc := (count: nat, q: nat) =>
        if q < config.width * config.height * config.channels then AccumulatedAt(first, count, q) else 0.0;
      assert Tracks(acc, first);
    }

    /** The table grows by one sample per sweep. */
    lemma TrackStep(acc: (nat, nat) -> real, first: nat, count: nat, y: nat, x: nat, channel: nat)
      requires RenderReady() && Tracks(acc, first)
      requires y < config.height && x < config.width && channel < config.channels
      ensures Index(y, x, channel) < config.width * config.height * config.channels
      ensures acc(count + 1, Index(y, x, channel)) == acc(count, Index(y, x, channel)) + Sample(first + count, y, x, channel)
    {
      AccumulatedStep(first, count, y, x, channel);
    }

    /** The table starts at zero. */
    lemma TrackStart(acc: (nat, nat) -> real, first: nat)
      requires RenderReady() && Tracks(acc, first)
      ensures forall q :: 0 <= q < config.width * config.height * config.channels ==> acc(0, q) == 0.0
    {
      forall q | 0 <= q < config.width * config.height * config.channels
        ensures acc(0, q) == 0.0
      {
        assert AccumulatedAt(first, 0, q) == 0.0;
      }
    }

    /** The buffer holds `start` plus the first `done` sweeps of `acc`, and the slots
        before `frontier` also hold sweep `done`. */
    ghost predicate Swept(start: seq<real>, acc: (nat, nat) -> real, done: nat, frontier: nat)
      reads image
    {
      && |start| == image.Length
      && forall q :: 0 <= q < image.Length ==>
           image[q] == start[q] + acc(if q < frontier then done + 1 else done, q)
    }

    /** `render`: `iterations` sweeps over every pixel and channel, each adding one
        sample to the pixel's slot; the counter advances by `iterations`. Each slot
        ends up holding its old sum plus exactly the samples of the new sweeps. */
    method Render(iterations: nat)
      requires Valid() && RenderReady()
      modifies this, image
      ensures Valid()
      ensures iteration == old(iteration) + iterations
      ensures forall q :: 0 <= q < image.Length ==>
                image[q] == old(image[q]) + AccumulatedAt(old(iteration), iterations, q)
      ensures forall y: nat, x: nat, channel: nat :: y < config.height && x < config.width && channel < config.channels ==>
                Index(y, x, channel) < image.Length
                && image[Index(y, x, channel)]
                     == old(image[Index(y, x, channel)]) + Accumulated(old(iteration), iterations, y, x, channel)
    {
      ghost var start := image[..];
      TrackerExists(iteration);
      ghost var acc: (nat, nat) -> real :| Tracks(acc, iteration);
      TrackStart(acc, iteration);
      var i := 0;
      while i < iterations
        modifies image
        invariant i <= iterations && iteration == old(iteration)
        invariant Swept(start, acc, i, 0)
      {
        Sweep(start, acc, iteration, i);
        i := i + 1;
      }
      iteration := iteration + iterations;
      Settled(start, acc, old(iteration), iterations);
    }

    /** Sweep `first + i` of `render`: the two jitter draws, then every pixel row by
        row. */
    method Sweep(ghost start: seq<real>, ghost acc: (nat, nat) -> real, first: nat, i: nat)
      requires Valid() && RenderReady() && Tracks(acc, first)
      requires Swept(start, acc, i, 0)
      modifies image
      ensures Swept(start, acc, i + 1, 0)
    {
      var y := 0;
      while y < config.height
        invariant y <= config.height
        invariant Swept(start, acc, i, Index(y, 0, 0))
      {
        var x := 0;
        while x < config.width
          invariant x <= config.width
          invariant Swept(start, acc, i, Index(y, x, 0))
        {
          RenderPixel(start, acc, first, i, y, x);
          x := x + 1;
        }
        IndexCarry(y, x);
        y := y + 1;
      }
      IndexCarry(y, 0);
    }

    /** The channel loop of `render` for pixel `(x, y)` in sweep `first + i`: one
        call of `trace` per channel, its light added to the channel's slot. The
        camera point `(u, v)` is the pixel's place moved by the sweep's jitter. */
    method RenderPixel(ghost start: seq<real>, ghost acc: (nat, nat) -> real, first: nat, i: nat,
                       y: nat, x: nat)
      requires Valid() && RenderReady() && Tracks(acc, first)
      requires y < config.height && x < config.width
      requires Swept(start, acc, i, Index(y, x, 0))
      modifies image
      ensures Swept(start, acc, i, Index(y, x + 1, 0))
    {
      var ray := SampleRay(first + i, y, x);
      var channel := 0;
      while channel < config.channels
        invariant channel <= config.channels
        invariant Swept(start, acc, i, Index(y, x, channel))
      {
        AddSample(start, acc, first, i, y, x, channel, ray);
        channel := channel + 1;
      }
      IndexCarry(y, x);
    }

    /** One pass of the channel loop: the light `trace` returns for `channel` is
        added to that channel's slot, which moves the frontier one slot on. */
    method AddSample(ghost start: seq<real>, ghost acc: (nat, nat) -> real, first: nat, i: nat,
                     y: nat, x: nat, channel: nat, ray: Ray)
      requires Valid() && RenderReady() && Tracks(acc, first)
      requires y < config.height && x < config.width && channel < config.channels
      requires ray == SampleRay(first + i, y, x)
      requires Swept(start, acc, i, Index(y, x, channel))
      modifies image
      ensures Swept(start, acc, i, Index(y, x, channel) + 1)
    {
      var light := Trace(ray.origin, ray.direction, SampleKey(first + i, y, x, channel));
      assert light == Sample(first + i, y, x, channel);
      TrackStep(acc, first, i, y, x, channel);
      var slot := ((y * config.width) + x) * config.channels + channel;
      image[slot] := image[slot] + light;
    }

    /** After the last sweep, every pixel and channel holds its starting sum plus
        its accumulated samples. */
    lemma Settled(start: seq<real>, acc: (nat, nat) -> real, first: nat, count: nat)
      requires Valid() && RenderReady() && Tracks(acc, first) && Swept(start, acc, count, 0)
      ensures forall q :: 0 <= q < image.Length ==> image[q] == start[q] + AccumulatedAt(first, count, q)
      ensures forall y: nat, x: nat, channel: nat :: y < config.height && x < config.width && channel < config.channels ==>
                Index(y, x, channel) < image.Length
                && image[Index(y, x, channel)] == start[Index(y, x, channel)] + Accumulated(first, count, y, x, channel)
    {
      forall y: nat, x: nat, channel: nat | y < config.height && x < config.width && channel < config.channels
        ensures Index(y, x, channel) < image.Length
        ensures image[Index(y, x, channel)] == start[Index(y, x, channel)] + Accumulated(first, count, y, x, channel)
      {
        AccumulatedCell(first, count, y, x, channel);
        assert acc(count, Index(y, x, channel)) == AccumulatedAt(first, count, Index(y, x, channel));
      }
    }

    /** Pixel `i` has its three channels inside the buffer. */
    predicate RgbSlot(i: nat)
      reads this
    {
      3 * i + 2 < image.Length
    }

    lemma RgbOffset(i: nat)
      requires Valid() && i < config.width * config.height && config.channels >= 3
      ensures RgbSlot(i)
    {
      MulMono(i + 1, config.width * config.height, 3);
      MulMono(3, config.channels, config.width * config.height);
    }

    /** With fewer than three channels the reads of the last pixel run past the end
        of the buffer: `rgb` is only safe on three or more channels. */
    lemma RgbOverruns()
      requires Valid() && config.channels < 3 && config.width * config.height > 0
      ensures !RgbSlot(config.width * config.height - 1)
    {
      var n := config.width * config.height;
      MulMono(config.channels, 2, n);
      assert image.Length == n * config.channels <= 2 * n;
    }

    /** The scan of `rgb` for the brightest sum, starting from 0. */
    method Brightest() returns (max: real)
      ensures max == Peak(image[..])
    {
      max := 0.0;
      var j := 0;
      while j < image.Length
        invariant j <= image.Length && max == Peak(image[..j])
      {
        assert image[..j + 1][..j] == image[..j];
        if max < image[j] {
          max := image[j];
        }
        j := j + 1;
      }
      assert image[..image.Length] == image[..];
    }

    /** `rgb`: the brightest sum of the buffer, then one word per pixel packing the
        tone-mapped sums at `3 * i`, `3 * i + 1`, `3 * i + 2`. */
    method Rgb(gamma: real) returns (words: seq<nat>)
      requires Valid() && config.channels >= 3 && Peak(image[..]) > 0.0
      ensures |words| == config.width * config.height
      ensures forall i :: 0 <= i < |words| ==>
                RgbSlot(i) && words[i] == Pixel(image[..], i, Peak(image[..]), gamma, kernels.powf)
    {
      ghost var sums := image[..];
      var buffer := new nat[config.width * config.height](_ => 0);
      var max := Brightest();
      var i := 0;
      while i < config.width * config.height
        invariant i <= config.width * config.height && image[..] == sums
        invariant forall k :: 0 <= k < i ==> RgbSlot(k) && buffer[k] == Pixel(sums, k, max, gamma, kernels.powf)
      {
        var offset := i * 3;
        RgbOffset(i);
        var r := CastU32(255.0 * kernels.powf(image[offset] / max, gamma) + 0.5);
        var g := CastU32(255.0 * kernels.powf(image[offset + 1] / max, gamma) + 0.5);
        var b := CastU32(255.0 * kernels.powf(image[offset + 2] / max, gamma) + 0.5);
        assert r == Channel(sums[3 * i], max, gamma, kernels.powf);
        assert g == Channel(sums[3 * i + 1], max, gamma, kernels.powf);
        assert b == Channel(sums[3 * i + 2], max, gamma, kernels.powf);
        buffer[i] := Pack(r, g, b);
        i := i + 1;
      }
      words := buffer[..];
    }
  }
}
