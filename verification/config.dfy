/** The producer's configuration: four threshold vectors, each holding one value
    for the barrel (index 0) and one for the endcap (index 1). */
module Config {
  import opened Results

  /** The four vector parameters, in the order the constructor checks them. */
  datatype Parameter =
    | TrackPtMin
    | TrackChi2OverNdofMax
    | RelativeEnergyDifferenceMax
    | DeltaPhiMax
  {
    /** Position of this parameter's size check in the constructor. */
    function Order(): nat {
      match this
      case TrackPtMin => 0
      case TrackChi2OverNdofMax => 1
      case RelativeEnergyDifferenceMax => 2
      case DeltaPhiMax => 3
    }
  }

  /** The parameter values as read from the parameter set, of any length. */
  datatype Parameters = Parameters(
    trackPtMin: seq<real>,
    trackChi2OverNdofMax: seq<real>,
    relativeEnergyDifferenceMax: seq<real>,
    deltaPhiMax: seq<real>)
  {
    function Values(p: Parameter): seq<real> {
      match p
      case TrackPtMin => trackPtMin
      case TrackChi2OverNdofMax => trackChi2OverNdofMax
      case RelativeEnergyDifferenceMax => relativeEnergyDifferenceMax
      case DeltaPhiMax => deltaPhiMax
    }
  }

  /** The exception the constructor throws: the named vector does not have exactly
      two elements (one for EB, one for EE). */
  datatype ConfigError = WrongSize(parameter: Parameter)

  /** A configuration the constructor accepts. */
  predicate ValidConfig(c: Parameters) {
    && |c.trackPtMin| == 2
    && |c.trackChi2OverNdofMax| == 2
    && |c.relativeEnergyDifferenceMax| == 2
    && |c.deltaPhiMax| == 2
  }

  /** The constructor: checks the four sizes in order and throws on the first one
      that is not two; otherwise the producer keeps the vectors unchanged. */
  function Construct(c: Parameters): (r: Result<Parameters, ConfigError>)
    ensures r.Success? <==> forall p: Parameter :: |c.Values(p)| == 2
    ensures r.Success? ==> r.value == c && ValidConfig(r.value)
    ensures r.Failure? ==>
      && |c.Values(r.error.parameter)| != 2
      && forall p: Parameter :: p.Order() < r.error.parameter.Order() ==> |c.Values(p)| == 2
  {
    assert c.Values(TrackPtMin) == c.trackPtMin;
    assert c.Values(TrackChi2OverNdofMax) == c.trackChi2OverNdofMax;
    assert c.Values(RelativeEnergyDifferenceMax) == c.relativeEnergyDifferenceMax;
    assert c.Values(DeltaPhiMax) == c.deltaPhiMax;
    if |c.trackPtMin| != 2 then Failure(WrongSize(TrackPtMin))
    else if |c.trackChi2OverNdofMax| != 2 then Failure(WrongSize(TrackChi2OverNdofMax))
    else if |c.relativeEnergyDifferenceMax| != 2 then Failure(WrongSize(RelativeEnergyDifferenceMax))
    else if |c.deltaPhiMax| != 2 then Failure(WrongSize(DeltaPhiMax))
    else Success(c)
  }

  /** Acceptance by the constructor is exactly the 2-element invariant. */
  lemma ConstructAcceptsIffValid(c: Parameters)
    ensures Construct(c).Success? <==> ValidConfig(c)
  {
  }

  /** The defaults declared for the module: no pt floor, every maximum 9999. */
  function Defaults(): (c: Parameters)
    ensures ValidConfig(c)
  {
    Parameters([0.0, 0.0], [9999.0, 9999.0], [9999.0, 9999.0], [9999.0, 9999.0])
  }

  lemma DefaultsAccepted()
    ensures Construct(Defaults()) == Success(Defaults())
  {
  }

}
