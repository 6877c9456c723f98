/** What the selection computes, stated over positions (electron j, track i) of
    the event in iteration order, and proved for the fold in `Selection`. */
module SelectionProofs {
  import opened Results
  import opened Numerics
  import opened Config
  import opened Selection

  /** (j, i) names a track the inner loop visits: j is an electron of the event
      and i < trkpt().size() of that electron. */
  ghost predicate InEvent(es: seq<Electron>, j: nat, i: nat) {
    j < |es| && i < |es[j].trkpt|
  }

  /** Iteration order: electron order first, then track index. */
  predicate Before(j1: nat, i1: nat, j2: nat, i2: nat) {
    j1 < j2 || (j1 == j2 && i1 < i2)
  }

  /** A track that survives all four cuts and whose relative energy difference is
      below the running minimum's initial value, so that it can become the best. */
  ghost predicate Contender(c: Parameters, k: Kinematics, es: seq<Electron>, j: nat, i: nat)
    requires ValidConfig(c) && PositiveEnergy(k)
  {
    InEvent(es, j, i) && Passes(c, k, es[j], i) && RelEnergyDiff(k, es[j], i) < DoubleMax
  }

  /** No checked access made for a track before (m, n) is out of range. */
  ghost predicate NoThrowBefore(c: Parameters, k: Kinematics, es: seq<Electron>, m: nat, n: nat)
    requires ValidConfig(c) && PositiveEnergy(k)
  {
    forall j: nat, i: nat {:trigger EvalTrack(c, k, es[j], i)} ::
      InEvent(es, j, i) && Before(j, i, m, n) ==> !EvalTrack(c, k, es[j], i).Thrown?
  }

  /** No checked access made anywhere in the event is out of range. */
  ghost predicate NoThrow(c: Parameters, k: Kinematics, es: seq<Electron>)
    requires ValidConfig(c) && PositiveEnergy(k)
  {
    forall j: nat, i: nat {:trigger EvalTrack(c, k, es[j], i)} ::
      InEvent(es, j, i) ==> !EvalTrack(c, k, es[j], i).Thrown?
  }

  /** `err` names the first failing checked access in iteration order. */
  ghost predicate FirstThrow(c: Parameters, k: Kinematics, es: seq<Electron>, err: ProduceError)
    requires ValidConfig(c) && PositiveEnergy(k)
  {
    && InEvent(es, err.electron, err.track)
    && EvalTrack(c, k, es[err.electron], err.track) == Thrown(err.field)
    && NoThrowBefore(c, k, es, err.electron, err.track)
  }

  /** (j, i) is the first minimal contender among the tracks before (m, n). */
  ghost predicate FirstMinBefore(c: Parameters, k: Kinematics, es: seq<Electron>, m: nat, n: nat, j: nat, i: nat)
    requires ValidConfig(c) && PositiveEnergy(k)
  {
    && Before(j, i, m, n)
    && Contender(c, k, es, j, i)
    && (forall j': nat, i': nat {:trigger Contender(c, k, es, j', i')} ::
          Before(j', i', m, n) && Contender(c, k, es, j', i') ==>
          RelEnergyDiff(k, es[j], i) <= RelEnergyDiff(k, es[j'], i'))
    && (forall j': nat, i': nat {:trigger Contender(c, k, es, j', i')} ::
          Before(j', i', j, i) && Contender(c, k, es, j', i') ==>
          RelEnergyDiff(k, es[j], i) < RelEnergyDiff(k, es[j'], i'))
  }

  /** (j, i) is the track the event selects: the first contender, in iteration
      order, with the smallest relative energy difference. */
  ghost predicate Selected(c: Parameters, k: Kinematics, es: seq<Electron>, j: nat, i: nat)
    requires ValidConfig(c) && PositiveEnergy(k)
  {
    && Contender(c, k, es, j, i)
    && (forall j': nat, i': nat {:trigger Contender(c, k, es, j', i')} ::
          Contender(c, k, es, j', i') ==>
          RelEnergyDiff(k, es[j], i) <= RelEnergyDiff(k, es[j'], i'))
    && (forall j': nat, i': nat {:trigger Contender(c, k, es, j', i')} ::
          Before(j', i', j, i) && Contender(c, k, es, j', i') ==>
          RelEnergyDiff(k, es[j], i) < RelEnergyDiff(k, es[j'], i'))
  }

  /** The loop variables after every track before (m, n): either still initial
      with no contender seen, or the index and difference of the first minimal one. */
  ghost predicate BestSoFar(c: Parameters, k: Kinematics, es: seq<Electron>, m: nat, n: nat, b: Best)
    requires ValidConfig(c) && PositiveEnergy(k)
  {
    || (&& b == Initial
        && forall j: nat, i: nat {:trigger Contender(c, k, es, j, i)} ::
             Before(j, i, m, n) ==> !Contender(c, k, es, j, i))
    || (&& b.index >= 0
        && exists j: nat {:trigger FirstMinBefore(c, k, es, m, n, j, b.index)} ::
             FirstMinBefore(c, k, es, m, n, j, b.index) && b.ediff == RelEnergyDiff(k, es[j], b.index))
  }

  /** The loop invariant at frontier (m, n): a running state describes the tracks
      seen so far; an error is the first failing access, already passed. */
  ghost predicate Invariant(c: Parameters, k: Kinematics, es: seq<Electron>, m: nat, n: nat,
                            acc: Result<Best, ProduceError>)
    requires ValidConfig(c) && PositiveEnergy(k)
  {
    match acc
    case Success(b) => NoThrowBefore(c, k, es, m, n) && BestSoFar(c, k, es, m, n, b)
    case Failure(err) =>
      FirstThrow(c, k, es, err) && Before(err.electron, err.track, m, n)
  }

  lemma BestSoFarBound(c: Parameters, k: Kinematics, es: seq<Electron>, m: nat, n: nat, b: Best)
    requires ValidConfig(c) && PositiveEnergy(k)
    requires BestSoFar(c, k, es, m, n, b)
    ensures b.ediff <= DoubleMax
  {
    if b != Initial {
      var j: nat :| FirstMinBefore(c, k, es, m, n, j, b.index) && b.ediff == RelEnergyDiff(k, es[j], b.index);
    }
  }

  /** One inner-loop iteration keeps the invariant, moving the frontier by one track. */
  lemma {:induction false} StepKeepsInvariant(c: Parameters, k: Kinematics, es: seq<Electron>, m: nat, n: nat,
                                              acc: Result<Best, ProduceError>)
    requires ValidConfig(c) && PositiveEnergy(k)
    requires InEvent(es, m, n)
    requires Invariant(c, k, es, m, n, acc)
    ensures Invariant(c, k, es, m, n + 1, Step(c, k, es, m, n, acc))
  {
    match acc
    case Failure(err) =>
    case Success(b) =>
      var v := EvalTrack(c, k, es[m], n);
      match v
      case Thrown(f) =>
        assert FirstThrow(c, k, es, OutOfRange(m, n, f));
      case Rejected(_) =>
        NoThrowExtend(c, k, es, m, n);
        RejectedKeepsBest(c, k, es, m, n, b);
      case Passed(d) =>
        NoThrowExtend(c, k, es, m, n);
        BestSoFarBound(c, k, es, m, n, b);
        if d < b.ediff {
          NewBest(c, k, es, m, n, b);
        } else if b == Initial {
          RejectedKeepsBest(c, k, es, m, n, b);
        } else {
          var j: nat :| FirstMinBefore(c, k, es, m, n, j, b.index) && b.ediff == RelEnergyDiff(k, es[j], b.index);
          FirstMinExtend(c, k, es, m, n, j, b.index);
        }
  }

  lemma NoThrowExtend(c: Parameters, k: Kinematics, es: seq<Electron>, m: nat, n: nat)
    requires ValidConfig(c) && PositiveEnergy(k)
    requires InEvent(es, m, n) && !EvalTrack(c, k, es[m], n).Thrown?
    requires NoThrowBefore(c, k, es, m, n)
    ensures NoThrowBefore(c, k, es, m, n + 1)
  {
    forall j: nat, i: nat | InEvent(es, j, i) && Before(j, i, m, n + 1)
      ensures !EvalTrack(c, k, es[j], i).Thrown?
    {
      if j != m || i != n {
        assert Before(j, i, m, n);
      }
    }
  }

  lemma NoContenderExtend(c: Parameters, k: Kinematics, es: seq<Electron>, m: nat, n: nat)
    requires ValidConfig(c) && PositiveEnergy(k)
    requires !Contender(c, k, es, m, n)
    requires forall j: nat, i: nat :: Before(j, i, m, n) ==> !Contender(c, k, es, j, i)
    ensures forall j: nat, i: nat :: Before(j, i, m, n + 1) ==> !Contender(c, k, es, j, i)
  {
    forall j: nat, i: nat | Before(j, i, m, n + 1)
      ensures !Contender(c, k, es, j, i)
    {
      if j != m || i != n {
        assert Before(j, i, m, n);
      }
    }
  }

  lemma FirstMinExtend(c: Parameters, k: Kinematics, es: seq<Electron>, m: nat, n: nat, j: nat, i: nat)
    requires ValidConfig(c) && PositiveEnergy(k)
    requires FirstMinBefore(c, k, es, m, n, j, i)
    requires Contender(c, k, es, m, n) ==> RelEnergyDiff(k, es[j], i) <= RelEnergyDiff(k, es[m], n)
    ensures FirstMinBefore(c, k, es, m, n + 1, j, i)
  {
    forall j': nat, i': nat | Before(j', i', m, n + 1) && Contender(c, k, es, j', i')
      ensures RelEnergyDiff(k, es[j], i) <= RelEnergyDiff(k, es[j'], i')
    {
      if j' != m || i' != n {
        assert Before(j', i', m, n);
      }
    }
  }

  lemma RejectedKeepsBest(c: Parameters, k: Kinematics, es: seq<Electron>, m: nat, n: nat, b: Best)
    requires ValidConfig(c) && PositiveEnergy(k)
    requires !Contender(c, k, es, m, n)
    requires BestSoFar(c, k, es, m, n, b)
    ensures BestSoFar(c, k, es, m, n + 1, b)
  {
    if b == Initial {
      NoContenderExtend(c, k, es, m, n);
    } else {
      var j: nat :| FirstMinBefore(c, k, es, m, n, j, b.index) && b.ediff == RelEnergyDiff(k, es[j], b.index);
      FirstMinExtend(c, k, es, m, n, j, b.index);
    }
  }

  lemma NewBest(c: Parameters, k: Kinematics, es: seq<Electron>, m: nat, n: nat, b: Best)
    requires ValidConfig(c) && PositiveEnergy(k)
    requires Contender(c, k, es, m, n)
    requires RelEnergyDiff(k, es[m], n) < b.ediff
    requires BestSoFar(c, k, es, m, n, b)
    ensures BestSoFar(c, k, es, m, n + 1, Best(n, RelEnergyDiff(k, es[m], n)))
  {
    var d := RelEnergyDiff(k, es[m], n);
    if b == Initial {
      assert FirstMinBefore(c, k, es, m, n + 1, m, n);
    } else {
      var j: nat :| FirstMinBefore(c, k, es, m, n, j, b.index) && b.ediff == RelEnergyDiff(k, es[j], b.index);
      forall j': nat, i': nat | Before(j', i', m, n + 1) && Contender(c, k, es, j', i')
        ensures d <= RelEnergyDiff(k, es[j'], i')
      {
        if j' != m || i' != n {
          assert Before(j', i', m, n);
        }
      }
      assert FirstMinBefore(c, k, es, m, n + 1, m, n);
    }
  }

  /** The inner loop over electron m keeps the invariant from track 0 to track n. */
  lemma {:induction false} ScanTracksKeepsInvariant(c: Parameters, k: Kinematics, es: seq<Electron>, m: nat, n: nat,
                                                    acc: Result<Best, ProduceError>)
    requires ValidConfig(c) && PositiveEnergy(k)
    requires m < |es| && n <= |es[m].trkpt|
    requires Invariant(c, k, es, m, 0, acc)
    ensures Invariant(c, k, es, m, n, ScanTracks(c, k, es, m, n, acc))
    decreases n
  {
    if n > 0 {
      var prev := ScanTracks(c, k, es, m, n - 1, acc);
      ScanTracksKeepsInvariant(c, k, es, m, n - 1, acc);
      StepKeepsInvariant(c, k, es, m, n - 1, prev);
      assert ScanTracks(c, k, es, m, n, acc) == Step(c, k, es, m, n - 1, prev);
    }
  }

  /** Past the last track of electron m the frontier is the start of electron m + 1. */
  lemma NextElectron(c: Parameters, k: Kinematics, es: seq<Electron>, m: nat, acc: Result<Best, ProduceError>)
    requires ValidConfig(c) && PositiveEnergy(k)
    requires m < |es|
    requires Invariant(c, k, es, m, |es[m].trkpt|, acc)
    ensures Invariant(c, k, es, m + 1, 0, acc)
  {
    var t := |es[m].trkpt|;
    match acc
    case Failure(err) =>
    case Success(b) =>
      forall j: nat, i: nat | InEvent(es, j, i) && Before(j, i, m + 1, 0)
        ensures !EvalTrack(c, k, es[j], i).Thrown?
      {
        assert Before(j, i, m, t);
      }
      if b == Initial {
        forall j: nat, i: nat | Before(j, i, m + 1, 0)
          ensures !Contender(c, k, es, j, i)
        {
          if InEvent(es, j, i) {
            assert Before(j, i, m, t);
          }
        }
      } else {
        var j: nat :| FirstMinBefore(c, k, es, m, t, j, b.index) && b.ediff == RelEnergyDiff(k, es[j], b.index);
        forall j': nat, i': nat | Before(j', i', m + 1, 0) && Contender(c, k, es, j', i')
          ensures RelEnergyDiff(k, es[j], b.index) <= RelEnergyDiff(k, es[j'], i')
        {
          assert Before(j', i', m, t);
        }
        assert FirstMinBefore(c, k, es, m + 1, 0, j, b.index);
      }
  }

  /** The electron loop keeps the invariant from electron 0 to electron m. */
  lemma {:induction false} ScanElectronsKeepsInvariant(c: Parameters, k: Kinematics, es: seq<Electron>, m: nat)
    requires ValidConfig(c) && PositiveEnergy(k)
    requires m <= |es|
    ensures Invariant(c, k, es, m, 0, ScanElectrons(c, k, es, m))
    decreases m
  {
    if m > 0 {
      ScanElectronsKeepsInvariant(c, k, es, m - 1);
      var t := |es[m - 1].trkpt|;
      ScanTracksKeepsInvariant(c, k, es, m - 1, t, ScanElectrons(c, k, es, m - 1));
      NextElectron(c, k, es, m - 1, ScanElectrons(c, k, es, m));
    }
  }

  /** At most one track of the event is the selected one. */
  lemma SelectedUnique(c: Parameters, k: Kinematics, es: seq<Electron>, j1: nat, i1: nat, j2: nat, i2: nat)
    requires ValidConfig(c) && PositiveEnergy(k)
    requires Selected(c, k, es, j1, i1) && Selected(c, k, es, j2, i2)
    ensures j1 == j2 && i1 == i2
  {
  }

  /** The whole event: the invariant at the frontier past the last electron. */
  lemma EventInvariant(c: Parameters, k: Kinematics, es: seq<Electron>)
    requires ValidConfig(c) && PositiveEnergy(k)
    ensures Invariant(c, k, es, |es|, 0, ScanElectrons(c, k, es, |es|))
  {
    ScanElectronsKeepsInvariant(c, k, es, |es|);
  }

  /** The producer throws exactly when some checked access of the event is out
      of range, and then it reports the first one in iteration order. */
  lemma ProduceFailsIffOutOfRange(c: Parameters, k: Kinematics, es: seq<Electron>)
    requires ValidConfig(c) && PositiveEnergy(k)
    ensures Produce(c, k, es).Success? <==> NoThrow(c, k, es)
    ensures Produce(c, k, es).Failure? ==> FirstThrow(c, k, es, Produce(c, k, es).error)
  {
    EventInvariant(c, k, es);
    match ScanElectrons(c, k, es, |es|)
    case Success(b) =>
      forall j: nat, i: nat | InEvent(es, j, i)
        ensures !EvalTrack(c, k, es[j], i).Thrown?
      {
        assert Before(j, i, |es|, 0);
      }
    case Failure(err) =>
      assert InEvent(es, err.electron, err.track);
  }

  /** With parallel vectors at least as long as trkpt, the producer never throws. */
  lemma WellFormedNeverThrows(c: Parameters, k: Kinematics, es: seq<Electron>)
    requires ValidConfig(c) && PositiveEnergy(k)
    requires forall j :: 0 <= j < |es| ==> WellFormed(es[j])
    ensures Produce(c, k, es).Success?
  {
    ProduceFailsIffOutOfRange(c, k, es);
    forall j: nat, i: nat | InEvent(es, j, i)
      ensures !EvalTrack(c, k, es[j], i).Thrown?
    {
      assert WellFormedAt(es[j], i);
    }
  }

  /** The output is -1 exactly when nothing throws and no track of any electron
      is a contender. */
  lemma ProduceNoneIffNoContender(c: Parameters, k: Kinematics, es: seq<Electron>)
    requires ValidConfig(c) && PositiveEnergy(k)
    ensures Produce(c, k, es) == Success(-1) <==>
            NoThrow(c, k, es) && forall j: nat, i: nat :: !Contender(c, k, es, j, i)
  {
    EventInvariant(c, k, es);
    ProduceFailsIffOutOfRange(c, k, es);
    match ScanElectrons(c, k, es, |es|)
    case Failure(err) =>
    case Success(b) =>
      if b != Initial {
        var j: nat :| FirstMinBefore(c, k, es, |es|, 0, j, b.index) && b.ediff == RelEnergyDiff(k, es[j], b.index);
        assert Contender(c, k, es, j, b.index);
      } else {
        forall j: nat, i: nat ensures !Contender(c, k, es, j, i) {
          if InEvent(es, j, i) {
            assert Before(j, i, |es|, 0);
          }
        }
      }
  }

  /** The output is a track index `idx` exactly when nothing throws and `idx` is
      the selected track of some electron: it survives every cut, no contender
      of any electron has a smaller difference, and every earlier contender has a
      larger one. */
  lemma ProduceSelects(c: Parameters, k: Kinematics, es: seq<Electron>, idx: nat)
    requires ValidConfig(c) && PositiveEnergy(k)
    ensures Produce(c, k, es) == Success(idx) <==>
            NoThrow(c, k, es) && exists j: nat :: Selected(c, k, es, j, idx)
  {
    EventInvariant(c, k, es);
    ProduceFailsIffOutOfRange(c, k, es);
    match ScanElectrons(c, k, es, |es|)
    case Failure(err) =>
    case Success(b) =>
      if b != Initial {
        var j: nat :| FirstMinBefore(c, k, es, |es|, 0, j, b.index) && b.ediff == RelEnergyDiff(k, es[j], b.index);
        FirstMinIsSelected(c, k, es, j, b.index);
        if j2: nat :| Selected(c, k, es, j2, idx) {
          SelectedUnique(c, k, es, j, b.index, j2, idx);
        }
      } else {
        if j2: nat :| Selected(c, k, es, j2, idx) {
          assert Before(j2, idx, |es|, 0);
        }
      }
  }

  lemma FirstMinIsSelected(c: Parameters, k: Kinematics, es: seq<Electron>, j: nat, i: nat)
    requires ValidConfig(c) && PositiveEnergy(k)
    requires FirstMinBefore(c, k, es, |es|, 0, j, i)
    ensures Selected(c, k, es, j, i)
  {
    forall j': nat, i': nat | Contender(c, k, es, j', i')
      ensures RelEnergyDiff(k, es[j], i) <= RelEnergyDiff(k, es[j'], i')
    {
      assert Before(j', i', |es|, 0);
    }
  }

  /** With no tracks at all the output is -1, whatever the other vectors hold. */
  lemma NoTracksNoSelection(c: Parameters, k: Kinematics, es: seq<Electron>)
    requires ValidConfig(c) && PositiveEnergy(k)
    requires forall j :: 0 <= j < |es| ==> |es[j].trkpt| == 0
    ensures Produce(c, k, es) == Success(-1)
  {
    ProduceNoneIffNoContender(c, k, es);
  }

  /** When both energy-difference maxima are below the largest double, as in
      the defaults and the example job, every survivor of the four cuts is a
      contender. */
  lemma SurvivorsContend(c: Parameters, k: Kinematics, es: seq<Electron>, j: nat, i: nat)
    requires ValidConfig(c) && PositiveEnergy(k)
    requires c.relativeEnergyDifferenceMax[0] < DoubleMax && c.relativeEnergyDifferenceMax[1] < DoubleMax
    ensures Contender(c, k, es, j, i) <==> InEvent(es, j, i) && Passes(c, k, es[j], i)
  {
  }

  /** A failed access ends the inner loop: later tracks leave the error as it is. */
  lemma {:induction false} TrackFailureSticks(c: Parameters, k: Kinematics, es: seq<Electron>, j: nat,
                                              n1: nat, n2: nat, acc: Result<Best, ProduceError>)
    requires ValidConfig(c) && PositiveEnergy(k)
    requires j < |es| && n1 <= n2 <= |es[j].trkpt|
    requires ScanTracks(c, k, es, j, n1, acc).Failure?
    ensures ScanTracks(c, k, es, j, n2, acc) == ScanTracks(c, k, es, j, n1, acc)
    decreases n2
  {
    if n2 > n1 {
      TrackFailureSticks(c, k, es, j, n1, n2 - 1, acc);
    }
  }

  /** A failed access ends the electron loop as well. */
  lemma {:induction false} ElectronFailureSticks(c: Parameters, k: Kinematics, es: seq<Electron>, m1: nat, m2: nat)
    requires ValidConfig(c) && PositiveEnergy(k)
    requires m1 <= m2 <= |es|
    requires ScanElectrons(c, k, es, m1).Failure?
    ensures ScanElectrons(c, k, es, m2) == ScanElectrons(c, k, es, m1)
    decreases m2
  {
    if m2 > m1 {
      ElectronFailureSticks(c, k, es, m1, m2 - 1);
      AbortedScanStays(c, k, es, m2 - 1, |es[m2 - 1].trkpt|, ScanElectrons(c, k, es, m2 - 1));
    }
  }

  lemma {:induction false} AbortedScanStays(c: Parameters, k: Kinematics, es: seq<Electron>, j: nat, n: nat,
                                            acc: Result<Best, ProduceError>)
    requires ValidConfig(c) && PositiveEnergy(k)
    requires j < |es| && n <= |es[j].trkpt|
    requires acc.Failure?
    ensures ScanTracks(c, k, es, j, n, acc) == acc
    decreases n
  {
    if n > 0 {
      AbortedScanStays(c, k, es, j, n - 1, acc);
    }
  }

  /** The exception thrown at track i of electron j is what the event produces. */
  lemma AbortIsFinal(c: Parameters, k: Kinematics, es: seq<Electron>, j: nat, i: nat)
    requires ValidConfig(c) && PositiveEnergy(k)
    requires j < |es| && i < |es[j].trkpt|
    requires ScanTracks(c, k, es, j, i + 1, ScanElectrons(c, k, es, j)).Failure?
    ensures Produce(c, k, es) == Failure(ScanTracks(c, k, es, j, i + 1, ScanElectrons(c, k, es, j)).error)
  {
    var acc := ScanElectrons(c, k, es, j);
    TrackFailureSticks(c, k, es, j, i + 1, |es[j].trkpt|, acc);
    ElectronFailureSticks(c, k, es, j + 1, |es|);
  }

  /** `s` cut to at most `n` entries. */
  function Prefix(s: seq<real>, n: nat): (r: seq<real>)
    ensures |r| <= n && |r| <= |s|
    ensures |r| == n || r == s
    ensures forall i :: 0 <= i < |r| ==> r[i] == s[i]
  {
    if |s| <= n then s else s[..n]
  }

  /** The electron with every parallel vector cut to at most trkpt's length. */
  function Trim(e: Electron): (t: Electron)
    ensures t.trkpt == e.trkpt
    ensures WellFormed(e) ==> |t.trketa| == |t.trkchi2overndf| == |t.trkphi| == |t.trkpt|
  {
    var n := |e.trkpt|;
    e.(trketa := Prefix(e.trketa, n), trkphi := Prefix(e.trkphi, n), trkchi2overndf := Prefix(e.trkchi2overndf, n))
  }

  function TrimAll(es: seq<Electron>): (ts: seq<Electron>)
    ensures |ts| == |es|
    ensures forall j :: 0 <= j < |es| ==> ts[j] == Trim(es[j])
  {
    seq(|es|, j requires 0 <= j < |es| => Trim(es[j]))
  }

  lemma TrimKeepsVerdict(c: Parameters, k: Kinematics, e: Electron, i: nat)
    requires ValidConfig(c) && PositiveEnergy(k)
    requires i < |e.trkpt|
    ensures EvalTrack(c, k, Trim(e), i) == EvalTrack(c, k, e, i)
  {
    var t := Trim(e);
    assert i < |t.trketa| <==> i < |e.trketa|;
    assert i < |t.trkchi2overndf| <==> i < |e.trkchi2overndf|;
    assert i < |t.trkphi| <==> i < |e.trkphi|;
    if WellFormedAt(e, i) {
      assert RelEnergyDiff(k, t, i) == RelEnergyDiff(k, e, i);
    }
  }

  /** Two electrons with the same number of tracks and the same verdict on each. */
  ghost predicate SameElectronVerdicts(c: Parameters, k: Kinematics, e: Electron, t: Electron)
    requires ValidConfig(c) && PositiveEnergy(k)
  {
    && |t.trkpt| == |e.trkpt|
    && forall i :: 0 <= i < |e.trkpt| ==> EvalTrack(c, k, t, i) == EvalTrack(c, k, e, i)
  }

  /** Two events whose electrons pair up with the same verdicts. */
  ghost predicate SameVerdicts(c: Parameters, k: Kinematics, es: seq<Electron>, ts: seq<Electron>)
    requires ValidConfig(c) && PositiveEnergy(k)
  {
    && |ts| == |es|
    && forall j {:trigger SameElectronVerdicts(c, k, es[j], ts[j])} ::
         0 <= j < |es| ==> SameElectronVerdicts(c, k, es[j], ts[j])
  }

  lemma {:induction false} SameVerdictsSameTracks(c: Parameters, k: Kinematics, es: seq<Electron>,
                                                  ts: seq<Electron>, j: nat, n: nat,
                                                  acc: Result<Best, ProduceError>)
    requires ValidConfig(c) && PositiveEnergy(k)
    requires j < |es| == |ts| && SameElectronVerdicts(c, k, es[j], ts[j])
    requires n <= |es[j].trkpt|
    ensures ScanTracks(c, k, ts, j, n, acc) == ScanTracks(c, k, es, j, n, acc)
    decreases n
  {
    if n > 0 {
      SameVerdictsSameTracks(c, k, es, ts, j, n - 1, acc);
      assert EvalTrack(c, k, ts[j], n - 1) == EvalTrack(c, k, es[j], n - 1);
    }
  }

  lemma {:induction false} SameVerdictsSameScan(c: Parameters, k: Kinematics, es: seq<Electron>,
                                                ts: seq<Electron>, m: nat)
    requires ValidConfig(c) && PositiveEnergy(k)
    requires SameVerdicts(c, k, es, ts)
    requires m <= |es|
    ensures ScanElectrons(c, k, ts, m) == ScanElectrons(c, k, es, m)
    decreases m
  {
    if m > 0 {
      SameVerdictsSameScan(c, k, es, ts, m - 1);
      assert SameElectronVerdicts(c, k, es[m - 1], ts[m - 1]);
      SameVerdictsSameTracks(c, k, es, ts, m - 1, |es[m - 1].trkpt|, ScanElectrons(c, k, es, m - 1));
    }
  }

  /** Entries of trketa, trkphi and trkchi2overndf beyond trkpt's length are
      never read: cutting them off changes neither the output nor the error. */
  lemma ExtraEntriesIgnored(c: Parameters, k: Kinematics, es: seq<Electron>)
    requires ValidConfig(c) && PositiveEnergy(k)
    ensures Produce(c, k, TrimAll(es)) == Produce(c, k, es)
  {
    var ts := TrimAll(es);
    forall j | 0 <= j < |es|
      ensures SameElectronVerdicts(c, k, es[j], ts[j])
    {
      forall i | 0 <= i < |es[j].trkpt|
        ensures EvalTrack(c, k, ts[j], i) == EvalTrack(c, k, es[j], i)
      {
        TrimKeepsVerdict(c, k, es[j], i);
      }
    }
    SameVerdictsSameScan(c, k, es, ts, |es|);
  }

}
