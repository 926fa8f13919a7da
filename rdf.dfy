/** The reflection distribution function: how a reflected photon picks its new
    direction, the density of that choice, and how much of each channel survives
    the reflection. */
module Rdf {
  import opened Common

  /** `std::f64::consts::PI`. */
  const PI: real := 3.141592653589793

  /** One round of the rejection loop draws three uniform values in [0, 1) and maps
      each to [-1, 1). */
  function Candidate(u: Vec3): (c: Vec3)
    ensures 0.0 <= u.x < 1.0 ==> -1.0 <= c.x < 1.0
    ensures 0.0 <= u.y < 1.0 ==> -1.0 <= c.y < 1.0
    ensures 0.0 <= u.z < 1.0 ==> -1.0 <= c.z < 1.0
  {
    Vec3(u.x * 2.0 - 1.0, u.y * 2.0 - 1.0, u.z * 2.0 - 1.0)
  }

  /** The loop keeps a candidate that is not the origin and lies inside the unit ball. */
  predicate Accepts(c: Vec3) {
    (c.x != 0.0 || c.y != 0.0 || c.z != 0.0) && LengthSquared(c) <= 1.0
  }

  /** The rejection loop only returns if some round is accepted; the draws handed
      to it are assumed to contain one. */
  predicate HasAccepted(draws: seq<Vec3>) {
    exists k :: 0 <= k < |draws| && Accepts(Candidate(draws[k]))
  }

  /** The round at which the rejection loop of `Diffuse::random` returns, counting
      from round `i`: the first accepted one. */
  function FirstAccepted(draws: seq<Vec3>, i: nat): (k: nat)
    requires i <= |draws|
    requires exists k :: i <= k < |draws| && Accepts(Candidate(draws[k]))
    ensures i <= k < |draws| && Accepts(Candidate(draws[k]))
    ensures forall j :: i <= j < k ==> !Accepts(Candidate(draws[j]))
    decreases |draws| - i
  {
    if Accepts(Candidate(draws[i])) then i else FirstAccepted(draws, i + 1)
  }

  /** The last step of `Diffuse::random`: keep `v` when it points to the normal's
      side, otherwise turn it around. */
  function Hemisphere(v: Vec3, normal: Vec3): (r: Vec3)
    ensures r == v || r == Neg(v)
    ensures Dot(r, normal) >= 0.0
    ensures Dot(v, normal) > 0.0 ==> r == v
    ensures Dot(v, normal) <= 0.0 ==> r == Neg(v)
  {
    DotNeg(v, normal);
    if Dot(v, normal) > 0.0 then v else Neg(v)
  }

  /** `Diffuse<N>`: one reflectance per channel. Its field is private, so every value
      a program holds was built by `NewDiffuse` and is `Valid`. */
  datatype Diffuse = Diffuse(reflection: seq<real>) {

    predicate Valid() {
      forall i :: 0 <= i < |reflection| ==> InUnitInterval(reflection[i])
    }

    /** `Diffuse::random` as a function of its draws: the first accepted candidate,
        scaled to unit length by `normalize` (the division by the square root of its
        squared length), then put on the normal's side. */
    function Random(inVector: Vec3, normal: Vec3, draws: seq<Vec3>, normalize: Vec3 -> Vec3): (v: Vec3)
      requires HasAccepted(draws)
      ensures Dot(v, normal) >= 0.0
    {
      Hemisphere(normalize(Candidate(draws[FirstAccepted(draws, 0)])), normal)
    }

    /** The direction comes from the first accepted round of the loop, scaled to
        unit length and possibly turned around. */
    lemma RandomAccepted(inVector: Vec3, normal: Vec3, draws: seq<Vec3>, normalize: Vec3 -> Vec3)
      requires HasAccepted(draws)
      ensures exists k :: 0 <= k < |draws| && Accepts(Candidate(draws[k]))
                && (forall j :: 0 <= j < k ==> !Accepts(Candidate(draws[j])))
                && (Random(inVector, normal, draws, normalize) == normalize(Candidate(draws[k]))
                    || Random(inVector, normal, draws, normalize) == Neg(normalize(Candidate(draws[k]))))
    {
      var k := FirstAccepted(draws, 0);
      var v := normalize(Candidate(draws[k]));
      assert Random(inVector, normal, draws, normalize) == Hemisphere(v, normal);
    }

    /** Dividing the accepted candidate by the square root of its squared length
        gives a unit vector, and the hemisphere flip keeps that length: whenever
        `normalize` does so on accepted candidates, the direction is a unit vector. */
    lemma RandomUnit(inVector: Vec3, normal: Vec3, draws: seq<Vec3>, normalize: Vec3 -> Vec3)
      requires HasAccepted(draws)
      requires forall c :: Accepts(c) ==> LengthSquared(normalize(c)) == 1.0
      ensures LengthSquared(Random(inVector, normal, draws, normalize)) == 1.0
    {
      var v := normalize(Candidate(draws[FirstAccepted(draws, 0)]));
      assert LengthSquared(v) == 1.0;
      assert (-v.x) * (-v.x) == v.x * v.x;
      assert (-v.y) * (-v.y) == v.y * v.y;
      assert (-v.z) * (-v.z) == v.z * v.z;
      assert Random(inVector, normal, draws, normalize) == Hemisphere(v, normal);
    }

    /** `Diffuse::pdf`: the same density for every pair of directions. */
    function Pdf(inVector: Vec3, outVector: Vec3): (r: real)
      ensures r == 1.0 / (2.0 * PI)
    {
      1.0 / (2.0 * PI)
    }

    /** `Diffuse::reflection`: the stored entry of the channel; indexing past the
        array panics, hence the requires. */
    function Reflection(channel: nat): (r: real)
      requires channel < |reflection|
      ensures r == reflection[channel]
      ensures Valid() ==> 0.0 <= r <= 1.0
    {
      reflection[channel]
    }
  }

  /** `Diffuse::new`: rejects the first channel outside [0, 1], otherwise keeps the
      array as given. */
  function NewDiffuse(reflection: seq<real>): (r: Result<Diffuse, Error>)
    ensures r.Success? <==> forall i :: 0 <= i < |reflection| ==> 0.0 <= reflection[i] <= 1.0
    ensures r.Success? ==> r.value.reflection == reflection && r.value.Valid()
    ensures r.Failure? ==> r.error.index < |reflection|
    ensures r.Failure? ==> reflection[r.error.index] < 0.0 || reflection[r.error.index] > 1.0
    ensures r.Failure? ==> forall i :: 0 <= i < r.error.index ==> 0.0 <= reflection[i] <= 1.0
  {
    Checked(reflection, InUnitInterval, Diffuse(reflection))
  }

  /** The `Rdf` enum. `None` panics on every operation, so every operation requires
      the `Diffuse` variant. */
  datatype Rdf = None | DiffuseRdf(diffuse: Diffuse) {

    predicate Valid() {
      DiffuseRdf? ==> diffuse.Valid()
    }

    /** `Rdf::random` forwards to the variant. */
    function Random(inVector: Vec3, normal: Vec3, draws: seq<Vec3>, normalize: Vec3 -> Vec3): (v: Vec3)
      requires DiffuseRdf?
      requires HasAccepted(draws)
      ensures v == diffuse.Random(inVector, normal, draws, normalize)
      ensures Dot(v, normal) >= 0.0
    {
      diffuse.Random(inVector, normal, draws, normalize)
    }

    /** `Rdf::pdf` forwards to the variant and ignores `normal`. */
    function Pdf(inVector: Vec3, outVector: Vec3, normal: Vec3): (r: real)
      requires DiffuseRdf?
      ensures r == diffuse.Pdf(inVector, outVector)
      ensures r == 1.0 / (2.0 * PI)
    {
      diffuse.Pdf(inVector, outVector)
    }

    /** `Rdf::reflection` forwards to the variant. */
    function Reflection(channel: nat): (r: real)
      requires DiffuseRdf? && channel < |diffuse.reflection|
      ensures r == diffuse.Reflection(channel) == diffuse.reflection[channel]
      ensures Valid() ==> 0.0 <= r <= 1.0
    {
      diffuse.Reflection(channel)
    }
  }
}
