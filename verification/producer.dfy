/** The producer's event loop written as the nested loops of the C++ code, with
    an early `continue` per cut, proved equal to the fold `Selection.Produce`. */
module Producer {
  import opened Results
  import opened Numerics
  import opened Config
  import opened Selection
  import SelectionProofs

  /** The inner loop over the tracks of electron j, entered with the running
      best (idx0, ediff0) and returning it updated, or the failed access. */
  method ScanElectronTracks(c: Parameters, k: Kinematics, es: seq<Electron>, j: nat,
                            idx0: int, ediff0: real) returns (r: Result<Best, ProduceError>)
    requires ValidConfig(c) && PositiveEnergy(k)
    requires j < |es|
    ensures r == ScanTracks(c, k, es, j, |es[j].trkpt|, Success(Best(idx0, ediff0)))
  {
    var electron := es[j];
    var clusterEnergy := k.energy(electron.pt, electron.eta, electron.phi, ElectronMass);
    ghost var start := Success(Best(idx0, ediff0));
    var besttrkidx, besttrackEdiff := idx0, ediff0;
    for i := 0 to |electron.trkpt|
      invariant ScanTracks(c, k, es, j, i, start) == Success(Best(besttrkidx, besttrackEdiff))
    {
      ghost var before := ScanTracks(c, k, es, j, i, start);
      assert ScanTracks(c, k, es, j, i + 1, start) == Step(c, k, es, j, i, before);
      if i >= |electron.trketa| {
        r := Failure(OutOfRange(j, i, TrkEta));
        SelectionProofs.TrackFailureSticks(c, k, es, j, i + 1, |electron.trkpt|, start);
        return;
      }
      var etaIdx := RegionIndex(electron.trketa[i]);
      if electron.trkpt[i] < c.trackPtMin[etaIdx] {
        assert EvalTrack(c, k, electron, i) == Rejected(PtCut);
        continue;
      }
      if i >= |electron.trkchi2overndf| {
        r := Failure(OutOfRange(j, i, TrkChi2OverNdf));
        SelectionProofs.TrackFailureSticks(c, k, es, j, i + 1, |electron.trkpt|, start);
        return;
      }
      if electron.trkchi2overndf[i] > c.trackChi2OverNdofMax[etaIdx] {
        assert EvalTrack(c, k, electron, i) == Rejected(Chi2Cut);
        continue;
      }
      if i >= |electron.trkphi| {
        r := Failure(OutOfRange(j, i, TrkPhi));
        SelectionProofs.TrackFailureSticks(c, k, es, j, i + 1, |electron.trkpt|, start);
        return;
      }
      if k.deltaPhi(electron.phi, electron.trkphi[i]) > c.deltaPhiMax[etaIdx] {
        assert EvalTrack(c, k, electron, i) == Rejected(DeltaPhiCut);
        continue;
      }
      var trackEnergy := k.energy(electron.trkpt[i], electron.trketa[i], electron.trkphi[i], ElectronMass);
      var trackEdiff := Abs((clusterEnergy - trackEnergy) / clusterEnergy);
      if trackEdiff > c.relativeEnergyDifferenceMax[etaIdx] {
        assert EvalTrack(c, k, electron, i) == Rejected(EnergyDifferenceCut);
        continue;
      }
      assert EvalTrack(c, k, electron, i) == Passed(trackEdiff);
      if trackEdiff < besttrackEdiff {
        besttrackEdiff := trackEdiff;
        besttrkidx := i;
      }
    }
    r := Success(Best(besttrkidx, besttrackEdiff));
  }

  /** The electron loop: the running best starts at (-1, the largest double) and
      is carried across electrons; a failed access ends the event. */
  method ProduceEvent(c: Parameters, k: Kinematics, es: seq<Electron>) returns (r: Result<int, ProduceError>)
    requires ValidConfig(c) && PositiveEnergy(k)
    ensures r == Produce(c, k, es)
  {
    var besttrkidx := -1;
    var besttrackEdiff := DoubleMax;
    for j := 0 to |es|
      invariant ScanElectrons(c, k, es, j) == Success(Best(besttrkidx, besttrackEdiff))
    {
      var scanned := ScanElectronTracks(c, k, es, j, besttrkidx, besttrackEdiff);
      if scanned.Failure? {
        r := Failure(scanned.error);
        SelectionProofs.ElectronFailureSticks(c, k, es, j + 1, |es|);
        return;
      }
      besttrkidx, besttrackEdiff := scanned.value.index, scanned.value.ediff;
    }
    r := Success(besttrkidx);
  }

}
