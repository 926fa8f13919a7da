/** A surface material: the ratio function that decides reflect or absorb, the
    reflection distribution, the (unimplemented) transmission distribution and the
    light the surface emits on each channel. */
module Material {
  import opened Common
  import Rtrf
  import Rdf

  /** The transmission distribution function. Its definition is not part of this
      model; `None` is the only variant any scene uses. */
  datatype Tdf = None

  /** Emission has no upper bound, only a lower one. */
  predicate NonNegative(v: real) {
    v >= 0.0
  }

  datatype Material = Material(rtrf: Rtrf.Rtrf, rdf: Rdf.Rdf, tdf: Tdf, emission: seq<real>) {

    /** What the constructors guarantee of a material built through them. */
    predicate Valid() {
      rtrf.Valid() && rdf.Valid() && forall i :: 0 <= i < |emission| ==> NonNegative(emission[i])
    }
  }

  /** `Material::new`: rejects the first negative emission channel; the checks of
      transmission, reflection and refraction in the loop are commented out and are
      not made. On success every argument is stored unchanged. */
  function NewMaterial(rtrf: Rtrf.Rtrf, rdf: Rdf.Rdf, tdf: Tdf, emission: seq<real>): (r: Result<Material, Error>)
    ensures r.Success? <==> forall i :: 0 <= i < |emission| ==> emission[i] >= 0.0
    ensures r.Success? ==> r.value.rtrf == rtrf && r.value.rdf == rdf && r.value.tdf == tdf
    ensures r.Success? ==> r.value.emission == emission
    ensures r.Failure? ==> r.error.index < |emission| && emission[r.error.index] < 0.0
    ensures r.Failure? ==> forall i :: 0 <= i < r.error.index ==> emission[i] >= 0.0
  {
    Checked(emission, NonNegative, Material(rtrf, rdf, tdf, emission))
  }

  /** A material assembled from validated parts is valid, whatever its emission's
      magnitude: values above 1 are accepted. */
  lemma NewMaterialValid(rtrf: Rtrf.Rtrf, rdf: Rdf.Rdf, tdf: Tdf, emission: seq<real>)
    requires rtrf.Valid() && rdf.Valid()
    requires forall i :: 0 <= i < |emission| ==> emission[i] >= 0.0
    ensures NewMaterial(rtrf, rdf, tdf, emission).Success?
    ensures NewMaterial(rtrf, rdf, tdf, emission).value.Valid()
    ensures NewMaterial(rtrf, rdf, tdf, emission).value.emission == emission
  {
  }
}
