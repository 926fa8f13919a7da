/** Values shared by every part of the renderer: optional values, construction
    errors, the 3-vector arithmetic the renderer takes from glam's DVec3, and the
    per-channel range check that the constructors run. */
module Common {

  datatype Option<+T> = None | Some(value: T)

  datatype Result<+R, +E> = Success(value: R) | Failure(error: E)

  /** A constructor rejected its per-channel argument; `index` is the first channel
      whose value lies outside the accepted range (the index the panic reports). */
  datatype Error = OutOfRange(index: nat)

  /** glam's DVec3, over the reals. */
  datatype Vec3 = Vec3(x: real, y: real, z: real)

  function Add(a: Vec3, b: Vec3): Vec3 {
    Vec3(a.x + b.x, a.y + b.y, a.z + b.z)
  }

  function Scale(a: Vec3, s: real): Vec3 {
    Vec3(a.x * s, a.y * s, a.z * s)
  }

  function Neg(a: Vec3): Vec3 {
    Vec3(-a.x, -a.y, -a.z)
  }

  function Dot(a: Vec3, b: Vec3): real {
    a.x * b.x + a.y * b.y + a.z * b.z
  }

  lemma DotNeg(a: Vec3, b: Vec3)
    ensures Dot(Neg(a), b) == -Dot(a, b)
  {
    assert (-a.x) * b.x == -(a.x * b.x);
    assert (-a.y) * b.y == -(a.y * b.y);
    assert (-a.z) * b.z == -(a.z * b.z);
  }

  /** A probability or a fraction of the incoming light: a per-channel ratio or
      reflectance. */
  predicate InUnitInterval(v: real) {
    0.0 <= v <= 1.0
  }

  function LengthSquared(a: Vec3): real {
    Dot(a, a)
  }

  /** The point reached from `origin` after travelling `t` along `direction`. */
  function At(origin: Vec3, direction: Vec3, t: real): Vec3 {
    Add(origin, Scale(direction, t))
  }

  /** The per-channel validation loop `for i in 0 .. N { if !ok(xs[i]) { panic } }`:
      the first index whose value fails `ok`, or None when every value passes. */
  function FirstFailing(xs: seq<real>, ok: real -> bool): (r: Option<nat>)
    ensures r.None? <==> forall i :: 0 <= i < |xs| ==> ok(xs[i])
    ensures r.Some? ==> r.value < |xs| && !ok(xs[r.value])
    ensures r.Some? ==> forall i :: 0 <= i < r.value ==> ok(xs[i])
  {
    if xs == [] then None
    else if !ok(xs[0]) then Some(0)
    else
      match FirstFailing(xs[1..], ok)
      case None => None
      case Some(i) => Some(i + 1)
  }

  /** Turns the outcome of a range check into the constructor's result: the stored
      value, or the error naming the first rejected channel. */
  function Checked<T>(xs: seq<real>, ok: real -> bool, value: T): (r: Result<T, Error>)
    ensures r.Success? <==> forall i :: 0 <= i < |xs| ==> ok(xs[i])
    ensures r.Success? ==> r.value == value
    ensures r.Failure? ==> r.error.index < |xs| && !ok(xs[r.error.index])
    ensures r.Failure? ==> forall i :: 0 <= i < r.error.index ==> ok(xs[i])
  {
    match FirstFailing(xs, ok)
    case None => Success(value)
    case Some(i) => Failure(OutOfRange(i))
  }
}
