/** Concrete events for the behaviours the selection rule is easy to misread on.
    They use the thresholds of the example job and a stand-in kinematics whose
    energy is the transverse momentum and whose deltaPhi is the plain signed
    difference phi1 - phi2, which is what the wrapped difference reduces to for
    small angles. */
module Scenarios {
  import opened Results
  import opened Numerics
  import opened Config
  import opened Selection

  function StandIn(): (k: Kinematics)
    ensures PositiveEnergy(k)
  {
    Kinematics((pt: real, eta: real, phi: real, m: real) => if pt > 0.0 then pt else 1.0,
               (phi1: real, phi2: real) => phi1 - phi2)
  }

  /** TrackPtMin (12, 12), TrackChi2OverNdofMax (3, 2),
      RelativeEnergyDifferenceMax (1, 1), DeltaPhiMax (0.06, 0.06). */
  function JobConfig(): (c: Parameters)
    ensures Construct(c) == Success(c)
  {
    Parameters([12.0, 12.0], [3.0, 2.0], [1.0, 1.0], [0.06, 0.06])
  }

  /** Track 0 survives with difference 0.04; track 1 fails the pt cut. */
  function E0(): Electron {
    Electron(50.0, 0.5, 0.0, [48.0, 10.0], [0.5, 0.5], [0.01, 0.0], [1.0, 1.0])
  }

  /** Track 0 survives with difference 0.25, track 1 with 0.0125. */
  function E1(): Electron {
    Electron(40.0, 0.5, 0.0, [30.0, 39.5], [0.5, 0.5], [0.0, 0.0], [1.0, 1.0])
  }

  /** Track 0 fails the pt cut; track 1 survives with difference 0.25. */
  function E2(): Electron {
    Electron(40.0, 0.5, 0.0, [5.0, 30.0], [0.5, 0.5], [0.0, 0.0], [1.0, 1.0])
  }

  /** The minimum runs over all electrons and the output indexes the track list
      of whichever electron supplied it: here track 1 of the second electron,
      although index 1 of the first electron is a rejected track. */
  lemma WinnerFromLaterElectron()
    ensures Produce(JobConfig(), StandIn(), [E0(), E1()]) == Success(1)
  {
  }

  /** The running minimum is not reset per electron: the second electron's own
      best track (index 1) loses to the first electron's track 0. */
  lemma MinimumNotResetBetweenElectrons()
    ensures Produce(JobConfig(), StandIn(), [E2()]) == Success(1)
    ensures Produce(JobConfig(), StandIn(), [E0(), E2()]) == Success(0)
  {
  }

  /** Equal differences: the first survivor in iteration order wins. */
  lemma FirstOfEqualWins()
    ensures Produce(JobConfig(), StandIn(), [E0(), E0().(trkpt := [10.0, 48.0])]) == Success(0)
  {
  }

  /** An event of one electron with one track produces that track's verdict. */
  lemma SingleTrackEvent(c: Parameters, k: Kinematics, e: Electron)
    requires ValidConfig(c) && PositiveEnergy(k)
    requires |e.trkpt| == 1
    ensures Produce(c, k, [e]) ==
      match EvalTrack(c, k, e, 0)
      case Thrown(f) => Failure(OutOfRange(0, 0, f))
      case Rejected(_) => Success(-1)
      case Passed(d) => if d < DoubleMax then Success(0) else Success(-1)
  {
    var es := [e];
    assert ScanElectrons(c, k, es, 1) == ScanTracks(c, k, es, 0, 1, Success(Initial));
  }

  /** An event of one electron with one track (pt 48) against a cluster of pt
      50 at phi 0, the track's eta, phi and chi2/ndf given. */
  function OneTrack(eta: real, phi: real, chi2: real): seq<Electron> {
    [Electron(50.0, 0.5, 0.0, [48.0], [eta], [phi], [chi2])]
  }

  /** |eta| >= 1.479 is endcap, where chi2/ndf 2.5 exceeds the maximum 2. */
  lemma EndcapBoundary()
    ensures Produce(JobConfig(), StandIn(), OneTrack(1.479, 0.0, 2.5)) == Success(-1)
    ensures Produce(JobConfig(), StandIn(), OneTrack(-1.479, 0.0, 2.5)) == Success(-1)
  {
    SingleTrackEvent(JobConfig(), StandIn(), OneTrack(1.479, 0.0, 2.5)[0]);
    SingleTrackEvent(JobConfig(), StandIn(), OneTrack(-1.479, 0.0, 2.5)[0]);
    assert EvalTrack(JobConfig(), StandIn(), OneTrack(1.479, 0.0, 2.5)[0], 0) == Rejected(Chi2Cut);
    assert EvalTrack(JobConfig(), StandIn(), OneTrack(-1.479, 0.0, 2.5)[0], 0) == Rejected(Chi2Cut);
  }

  /** Just below 1.479 is barrel, where the chi2/ndf maximum is 3. The second
      value is the single-precision number nearest 1.479 (12406751 / 2^23),
      which is what a stored eta of 1.479 becomes: it is barrel. */
  lemma BarrelBelowBoundary()
    ensures Produce(JobConfig(), StandIn(), OneTrack(1.4789, 0.0, 2.5)) == Success(0)
    ensures Produce(JobConfig(), StandIn(), OneTrack(1.47899997234344482421875, 0.0, 2.5)) == Success(0)
  {
    SingleTrackEvent(JobConfig(), StandIn(), OneTrack(1.4789, 0.0, 2.5)[0]);
    SingleTrackEvent(JobConfig(), StandIn(), OneTrack(1.47899997234344482421875, 0.0, 2.5)[0]);
    assert EvalTrack(JobConfig(), StandIn(), OneTrack(1.4789, 0.0, 2.5)[0], 0) == Passed(0.04);
    assert EvalTrack(JobConfig(), StandIn(), OneTrack(1.47899997234344482421875, 0.0, 2.5)[0], 0) == Passed(0.04);
  }

  /** Every cut bound is inclusive: pt at the minimum, chi2/ndf, deltaPhi and
      the difference at their maxima all pass. */
  lemma BoundsInclusive()
    ensures Produce(JobConfig(), StandIn(), [Electron(12.0, 0.0, 0.06, [12.0], [0.0], [0.0], [3.0])]) == Success(0)
    ensures Produce(JobConfig(), StandIn(), [Electron(12.0, 0.0, 0.0, [24.0], [0.0], [0.0], [3.0])]) == Success(0)
  {
    SingleTrackEvent(JobConfig(), StandIn(), Electron(12.0, 0.0, 0.06, [12.0], [0.0], [0.0], [3.0]));
    SingleTrackEvent(JobConfig(), StandIn(), Electron(12.0, 0.0, 0.0, [24.0], [0.0], [0.0], [3.0]));
    assert EvalTrack(JobConfig(), StandIn(), Electron(12.0, 0.0, 0.06, [12.0], [0.0], [0.0], [3.0]), 0) == Passed(0.0);
    assert EvalTrack(JobConfig(), StandIn(), Electron(12.0, 0.0, 0.0, [24.0], [0.0], [0.0], [3.0]), 0) == Passed(1.0);
  }

  /** deltaPhi is compared with `>` and no absolute value: with a signed
      difference a track far off on one side passes, on the other it does not. */
  lemma DeltaPhiCutIsOneSided()
    ensures Produce(JobConfig(), StandIn(), OneTrack(0.5, 1.0, 1.0)) == Success(0)
    ensures Produce(JobConfig(), StandIn(), OneTrack(0.5, -1.0, 1.0)) == Success(-1)
  {
    SingleTrackEvent(JobConfig(), StandIn(), OneTrack(0.5, 1.0, 1.0)[0]);
    SingleTrackEvent(JobConfig(), StandIn(), OneTrack(0.5, -1.0, 1.0)[0]);
    assert EvalTrack(JobConfig(), StandIn(), OneTrack(0.5, 1.0, 1.0)[0], 0) == Passed(0.04);
    assert EvalTrack(JobConfig(), StandIn(), OneTrack(0.5, -1.0, 1.0)[0], 0) == Rejected(DeltaPhiCut);
  }

  /** A short trkchi2overndf only throws when the track gets past the pt cut. */
  lemma ChecksAreLazy()
    ensures Produce(JobConfig(), StandIn(), [Electron(50.0, 0.5, 0.0, [5.0], [0.5], [0.0], [])]) == Success(-1)
    ensures Produce(JobConfig(), StandIn(), [Electron(50.0, 0.5, 0.0, [48.0], [0.5], [0.0], [])])
            == Failure(OutOfRange(0, 0, TrkChi2OverNdf))
  {
    SingleTrackEvent(JobConfig(), StandIn(), Electron(50.0, 0.5, 0.0, [5.0], [0.5], [0.0], []));
    SingleTrackEvent(JobConfig(), StandIn(), Electron(50.0, 0.5, 0.0, [48.0], [0.5], [0.0], []));
    assert EvalTrack(JobConfig(), StandIn(), Electron(50.0, 0.5, 0.0, [5.0], [0.5], [0.0], []), 0) == Rejected(PtCut);
    assert EvalTrack(JobConfig(), StandIn(), Electron(50.0, 0.5, 0.0, [48.0], [0.5], [0.0], []), 0) == Thrown(TrkChi2OverNdf);
  }

  /** A short trkphi only throws when the track gets past the pt and chi2 cuts. */
  lemma PhiCheckIsLazy()
    ensures Produce(JobConfig(), StandIn(), [Electron(50.0, 0.5, 0.0, [5.0], [0.5], [], [1.0])]) == Success(-1)
    ensures Produce(JobConfig(), StandIn(), [Electron(50.0, 0.5, 0.0, [48.0], [0.5], [], [4.0])]) == Success(-1)
    ensures Produce(JobConfig(), StandIn(), [Electron(50.0, 0.5, 0.0, [48.0], [0.5], [], [1.0])])
            == Failure(OutOfRange(0, 0, TrkPhi))
  {
    SingleTrackEvent(JobConfig(), StandIn(), Electron(50.0, 0.5, 0.0, [5.0], [0.5], [], [1.0]));
    SingleTrackEvent(JobConfig(), StandIn(), Electron(50.0, 0.5, 0.0, [48.0], [0.5], [], [4.0]));
    SingleTrackEvent(JobConfig(), StandIn(), Electron(50.0, 0.5, 0.0, [48.0], [0.5], [], [1.0]));
    assert EvalTrack(JobConfig(), StandIn(), Electron(50.0, 0.5, 0.0, [5.0], [0.5], [], [1.0]), 0) == Rejected(PtCut);
    assert EvalTrack(JobConfig(), StandIn(), Electron(50.0, 0.5, 0.0, [48.0], [0.5], [], [4.0]), 0) == Rejected(Chi2Cut);
    assert EvalTrack(JobConfig(), StandIn(), Electron(50.0, 0.5, 0.0, [48.0], [0.5], [], [1.0]), 0) == Thrown(TrkPhi);
  }

}
