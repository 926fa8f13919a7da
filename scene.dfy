/** The records the renderer is built from (configuration, shapes, objects), the
    numeric kernels it calls without this model looking inside them, and the
    random draws it consumes. */
module Scene {
  import opened Common
  import Rtrf
  import Rdf
  import Material

  /** `Config<N>`: render parameters; `attenuation` has one entry per spectral
      channel, so its length is the channel count N of every per-channel array. */
  datatype Config = Config(
    width: nat,
    height: nat,
    channels: nat,
    rayAccuracy: real,
    rayMax: real,
    normalEpsilon: real,
    pathLength: nat,
    attenuation: seq<real>)

  /** `Shape`; `Sphere` is its only variant. */
  datatype Shape = Sphere(position: Vec3, radius: real)

  /** `Object<N>`: a shape and its material. */
  datatype Object = Object(shape: Shape, material: Material.Material)

  /** The origin and direction `Camera::ray` returns. */
  datatype Ray = Ray(origin: Vec3, direction: Vec3)

  /** The floating-point kernels the renderer calls: the signed distance of a shape,
      its finite-difference normal, scaling a vector to unit length, and `powf`. */
  datatype Kernels = Kernels(
    sdf: (Shape, Vec3) -> real,
    normal: (Shape, Vec3, real) -> Vec3,
    normalize: Vec3 -> Vec3,
    powf: (real, real) -> real)

  /** Identifies one call of `trace` during `render`: the sweep (the global
      iteration number), the pixel and the channel. */
  datatype SampleKey = SampleKey(sweep: nat, y: nat, x: nat, channel: nat)

  /** The values `rand::random` yields, indexed by where they are drawn: the two
      jitter values of each sweep, the reflect-or-absorb draw of each bounce, and the
      candidate triples the rejection loop of `Diffuse::random` draws at a bounce. */
  datatype Draws = Draws(
    jitter: nat -> (real, real),
    reflect: (SampleKey, nat) -> real,
    directions: (SampleKey, nat) -> seq<Vec3>)
  {
    /** Every rejection loop eventually accepts a candidate. */
    ghost predicate Valid() {
      forall key, bounce :: Rdf.HasAccepted(directions(key, bounce))
    }
  }

  /** The per-channel arrays of an object's material have the renderer's N entries,
      and its reflection distribution is not the panicking `None`. */
  predicate Ready(o: Object, n: nat) {
    && |o.material.rtrf.constant.ratio| == n
    && o.material.rdf.DiffuseRdf?
    && |o.material.rdf.diffuse.reflection| == n
    && |o.material.emission| == n
  }
}
