/** The per-event best-track selection of the producer: every track of every
    electron is put through four region-dependent cuts, and the survivor with the
    smallest relative energy difference wins, the first one on ties. */
module Selection {
  import opened Results
  import opened Numerics
  import opened Config

  /** |eta| below this is barrel (region 0), otherwise endcap (region 1). */
  const EtaBoundary: real := 1.479

  /** A scouting electron: the cluster kinematics and the parallel per-track
      vectors. The selector iterates over `trkpt`; the other vectors are read
      with a checked access and may be of any length. */
  datatype Electron = Electron(
    pt: real,
    eta: real,
    phi: real,
    trkpt: seq<real>,
    trketa: seq<real>,
    trkphi: seq<real>,
    trkchi2overndf: seq<real>)

  /** The track vectors read with a checked access (trkpt itself never fails). */
  datatype Field = TrkEta | TrkChi2OverNdf | TrkPhi

  function FieldValues(e: Electron, f: Field): seq<real> {
    match f
    case TrkEta => e.trketa
    case TrkChi2OverNdf => e.trkchi2overndf
    case TrkPhi => e.trkphi
  }

  /** Every checked access made for track `i` is in range. */
  predicate WellFormedAt(e: Electron, i: nat) {
    i < |e.trketa| && i < |e.trkchi2overndf| && i < |e.trkphi|
  }

  /** The parallel vectors are at least as long as `trkpt`. */
  predicate WellFormed(e: Electron) {
    |e.trkpt| <= |e.trketa| && |e.trkpt| <= |e.trkchi2overndf| && |e.trkpt| <= |e.trkphi|
  }

  /** The four cuts, in the order they are applied. */
  datatype Cut = PtCut | Chi2Cut | DeltaPhiCut | EnergyDifferenceCut {
    function Order(): nat {
      match this
      case PtCut => 0
      case Chi2Cut => 1
      case DeltaPhiCut => 2
      case EnergyDifferenceCut => 3
    }
  }

  /** What happens to one track: rejected by a cut, accepted with its relative
      energy difference, or an out-of-range access on the named vector. */
  datatype Verdict = Rejected(cut: Cut) | Passed(ediff: real) | Thrown(field: Field)

  /** The region index of a track: 0 (barrel) or 1 (endcap). */
  function RegionIndex(eta: real): (r: nat)
    ensures r < 2
    ensures r == 0 <==> -EtaBoundary < eta < EtaBoundary
  {
    if Abs(eta) < EtaBoundary then 0 else 1
  }

  /** |E_cluster - E_track| / E_cluster for track `i`. */
  function RelEnergyDiff(k: Kinematics, e: Electron, i: nat): (r: real)
    requires PositiveEnergy(k)
    requires i < |e.trkpt| && i < |e.trketa| && i < |e.trkphi|
    ensures r >= 0.0
    ensures var ec := k.energy(e.pt, e.eta, e.phi, ElectronMass);
            var et := k.energy(e.trkpt[i], e.trketa[i], e.trkphi[i], ElectronMass);
            && r * ec == Abs(ec - et)
            && (r == 0.0 <==> et == ec)
  {
    var ec := k.energy(e.pt, e.eta, e.phi, ElectronMass);
    var et := k.energy(e.trkpt[i], e.trketa[i], e.trkphi[i], ElectronMass);
    Abs((ec - et) / ec)
  }

  /** Track `i` meets all four cuts of its region; every bound is inclusive. */
  ghost predicate Passes(c: Parameters, k: Kinematics, e: Electron, i: nat)
    requires ValidConfig(c) && PositiveEnergy(k)
  {
    && i < |e.trkpt|
    && WellFormedAt(e, i)
    && var r := RegionIndex(e.trketa[i]);
       && c.trackPtMin[r] <= e.trkpt[i]
       && e.trkchi2overndf[i] <= c.trackChi2OverNdofMax[r]
       && k.deltaPhi(e.phi, e.trkphi[i]) <= c.deltaPhiMax[r]
       && RelEnergyDiff(k, e, i) <= c.relativeEnergyDifferenceMax[r]
  }

  /** Track `i` fails the named cut of its region; only the vectors that cut
      reads need to be in range. */
  ghost predicate FailsCut(c: Parameters, k: Kinematics, e: Electron, i: nat, cut: Cut)
    requires ValidConfig(c) && PositiveEnergy(k)
  {
    && i < |e.trkpt|
    && i < |e.trketa|
    && var r := RegionIndex(e.trketa[i]);
       match cut
       case PtCut => e.trkpt[i] < c.trackPtMin[r]
       case Chi2Cut => i < |e.trkchi2overndf| && e.trkchi2overndf[i] > c.trackChi2OverNdofMax[r]
       case DeltaPhiCut => i < |e.trkphi| && k.deltaPhi(e.phi, e.trkphi[i]) > c.deltaPhiMax[r]
       case EnergyDifferenceCut =>
         i < |e.trkphi| && RelEnergyDiff(k, e, i) > c.relativeEnergyDifferenceMax[r]
  }

  /** The body of the inner loop for track `i`, with each checked access made
      only when the code reaches it: trketa first, trkchi2overndf after the pt
      cut, trkphi after the chi2 cut. */
  function EvalTrack(c: Parameters, k: Kinematics, e: Electron, i: nat): (v: Verdict)
    requires ValidConfig(c) && PositiveEnergy(k)
    requires i < |e.trkpt|
    ensures v.Passed? <==> Passes(c, k, e, i)
    ensures v.Passed? ==> v.ediff == RelEnergyDiff(k, e, i)
    ensures v.Rejected? ==> FailsCut(c, k, e, i, v.cut)
    ensures v.Rejected? ==> forall cut: Cut :: cut.Order() < v.cut.Order() ==> !FailsCut(c, k, e, i, cut)
    ensures v.Thrown? ==> i >= |FieldValues(e, v.field)|
    ensures v == Thrown(TrkEta) <==> i >= |e.trketa|
    ensures v == Thrown(TrkChi2OverNdf) <==>
      i < |e.trketa| && !FailsCut(c, k, e, i, PtCut) && i >= |e.trkchi2overndf|
    ensures v == Thrown(TrkPhi) <==>
      && i < |e.trketa| && i < |e.trkchi2overndf|
      && !FailsCut(c, k, e, i, PtCut) && !FailsCut(c, k, e, i, Chi2Cut)
      && i >= |e.trkphi|
    ensures WellFormedAt(e, i) ==> !v.Thrown?
  {
    if i >= |e.trketa| then Thrown(TrkEta)
    else
      var r := RegionIndex(e.trketa[i]);
      if e.trkpt[i] < c.trackPtMin[r] then Rejected(PtCut)
      else if i >= |e.trkchi2overndf| then Thrown(TrkChi2OverNdf)
      else if e.trkchi2overndf[i] > c.trackChi2OverNdofMax[r] then Rejected(Chi2Cut)
      else if i >= |e.trkphi| then Thrown(TrkPhi)
      else if k.deltaPhi(e.phi, e.trkphi[i]) > c.deltaPhiMax[r] then Rejected(DeltaPhiCut)
      else
        var d := RelEnergyDiff(k, e, i);
        if d > c.relativeEnergyDifferenceMax[r] then Rejected(EnergyDifferenceCut)
        else Passed(d)
  }

  /** The two loop-carried variables: besttrkidx and besttrack_ediff. */
  datatype Best = Best(index: int, ediff: real)

  /** Their values before the electron loop. */
  const Initial: Best := Best(-1, DoubleMax)

  /** The producer aborts on the first failed checked access, naming the
      electron, the track and the vector. */
  datatype ProduceError = OutOfRange(electron: nat, track: nat, field: Field)

  /** One iteration of the inner loop, for track `i` of electron `j`. */
  function Step(c: Parameters, k: Kinematics, es: seq<Electron>, j: nat, i: nat,
                acc: Result<Best, ProduceError>): (r: Result<Best, ProduceError>)
    requires ValidConfig(c) && PositiveEnergy(k)
    requires j < |es| && i < |es[j].trkpt|
    ensures acc.Failure? ==> r == acc
    ensures acc.Success? && r.Failure? ==>
      r.error == OutOfRange(j, i, r.error.field) && EvalTrack(c, k, es[j], i) == Thrown(r.error.field)
    ensures acc.Success? && r.Success? && r.value != acc.value ==>
      && EvalTrack(c, k, es[j], i) == Passed(r.value.ediff)
      && r.value == Best(i, r.value.ediff)
      && r.value.ediff < acc.value.ediff
    ensures acc.Success? && EvalTrack(c, k, es[j], i).Passed? ==>
      r.Success? && r.value.ediff <= EvalTrack(c, k, es[j], i).ediff
  {
    match acc
    case Failure(_) => acc
    case Success(b) =>
      match EvalTrack(c, k, es[j], i)
      case Thrown(f) => Failure(OutOfRange(j, i, f))
      case Rejected(_) => acc
      case Passed(d) => if d < b.ediff then Success(Best(i, d)) else acc
  }

  /** The first `n` iterations of the inner loop over electron `j`, from `acc`. */
  function ScanTracks(c: Parameters, k: Kinematics, es: seq<Electron>, j: nat, n: nat,
                      acc: Result<Best, ProduceError>): (r: Result<Best, ProduceError>)
    requires ValidConfig(c) && PositiveEnergy(k)
    requires j < |es| && n <= |es[j].trkpt|
    ensures acc.Failure? ==> r == acc
    ensures r.Failure? && acc.Success? ==> r.error.electron == j && r.error.track < n
    ensures r.Success? ==> acc.Success? && r.value.ediff <= acc.value.ediff
    ensures r.Success? && r.value != acc.value ==>
      0 <= r.value.index < n && r.value.ediff < acc.value.ediff
    decreases n
  {
    if n == 0 then acc
    else Step(c, k, es, j, n - 1, ScanTracks(c, k, es, j, n - 1, acc))
  }

  /** The first `m` iterations of the electron loop; the running minimum is
      carried from one electron to the next. */
  function ScanElectrons(c: Parameters, k: Kinematics, es: seq<Electron>, m: nat): (r: Result<Best, ProduceError>)
    requires ValidConfig(c) && PositiveEnergy(k)
    requires m <= |es|
    ensures r.Failure? ==> r.error.electron < m && r.error.track < |es[r.error.electron].trkpt|
    ensures r.Success? ==> r.value.ediff <= DoubleMax
    ensures r.Success? && r.value != Initial ==> r.value.ediff < DoubleMax && r.value.index >= 0
    decreases m
  {
    if m == 0 then Success(Initial)
    else ScanTracks(c, k, es, m - 1, |es[m - 1].trkpt|, ScanElectrons(c, k, es, m - 1))
  }

  /** A best track other than the initial one is a track of one of the first m electrons. */
  lemma {:induction false} ScanElectronsIndexInRange(c: Parameters, k: Kinematics, es: seq<Electron>, m: nat)
    requires ValidConfig(c) && PositiveEnergy(k)
    requires m <= |es|
    ensures var r := ScanElectrons(c, k, es, m);
            r.Success? && r.value != Initial ==> exists j :: 0 <= j < m && r.value.index < |es[j].trkpt|
    decreases m
  {
    if m > 0 {
      ScanElectronsIndexInRange(c, k, es, m - 1);
      var prev := ScanElectrons(c, k, es, m - 1);
      var r := ScanElectrons(c, k, es, m);
      if r.Success? && r.value != Initial && r.value != prev.value {
        assert r.value.index < |es[m - 1].trkpt|;
      }
    }
  }

  /** The single integer the producer puts into the event: the best track index
      over all electrons, or -1. */
  function Produce(c: Parameters, k: Kinematics, es: seq<Electron>): (r: Result<int, ProduceError>)
    requires ValidConfig(c) && PositiveEnergy(k)
    ensures r.Failure? ==> r.error.electron < |es| && r.error.track < |es[r.error.electron].trkpt|
    ensures r.Success? ==> r.value >= -1
  {
    match ScanElectrons(c, k, es, |es|)
    case Success(b) => Success(b.index)
    case Failure(err) => Failure(err)
  }

  /** A non-negative output indexes a track of some electron of the event. */
  lemma ProduceIndexInRange(c: Parameters, k: Kinematics, es: seq<Electron>)
    requires ValidConfig(c) && PositiveEnergy(k)
    ensures var r := Produce(c, k, es);
            r.Success? && r.value >= 0 ==> exists j :: 0 <= j < |es| && r.value < |es[j].trkpt|
  {
    ScanElectronsIndexInRange(c, k, es, |es|);
  }

}
