/** The reflection-transmission ratio function: per channel, the probability that a
    photon reaching a surface is reflected rather than absorbed. */
module Rtrf {
  import opened Common

  /** `Constant<N>`: one fixed ratio per channel. Its field is private, so every
      value a program holds was built by `NewConstant` and is `Valid`. */
  datatype Constant = Constant(ratio: seq<real>) {

    predicate Valid() {
      forall i :: 0 <= i < |ratio| ==> InUnitInterval(ratio[i])
    }

    /** `Constant::ratio`: the stored entry of the channel; indexing past the
        array panics, hence the requires. */
    function Ratio(channel: nat): (r: real)
      requires channel < |ratio|
      ensures r == ratio[channel]
      ensures Valid() ==> 0.0 <= r <= 1.0
    {
      ratio[channel]
    }
  }

  /** `Constant::new`: rejects the first channel outside [0, 1], otherwise keeps the
      array as given. */
  function NewConstant(ratio: seq<real>): (r: Result<Constant, Error>)
    ensures r.Success? <==> forall i :: 0 <= i < |ratio| ==> 0.0 <= ratio[i] <= 1.0
    ensures r.Success? ==> r.value.ratio == ratio && r.value.Valid()
    ensures r.Failure? ==> r.error.index < |ratio|
    ensures r.Failure? ==> ratio[r.error.index] < 0.0 || ratio[r.error.index] > 1.0
    ensures r.Failure? ==> forall i :: 0 <= i < r.error.index ==> 0.0 <= ratio[i] <= 1.0
  {
    Checked(ratio, InUnitInterval, Constant(ratio))
  }

  /** The `Rtrf` enum; `Constant` is its only variant. */
  datatype Rtrf = ConstantRtrf(constant: Constant) {

    predicate Valid() {
      constant.Valid()
    }

    /** `Rtrf::ratio` forwards to the variant's lookup. */
    function Ratio(channel: nat): (r: real)
      requires channel < |constant.ratio|
      ensures r == constant.Ratio(channel) == constant.ratio[channel]
      ensures Valid() ==> 0.0 <= r <= 1.0
    {
      constant.Ratio(channel)
    }
  }

  /** Building a `Constant` and reading a channel back gives the value passed in,
      and that value is a probability. */
  lemma NewConstantRatio(ratio: seq<real>, channel: nat)
    requires NewConstant(ratio).Success? && channel < |ratio|
    ensures NewConstant(ratio).value.Ratio(channel) == ratio[channel]
    ensures 0.0 <= ConstantRtrf(NewConstant(ratio).value).Ratio(channel) <= 1.0
  {
  }
}
