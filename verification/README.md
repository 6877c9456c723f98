# ScoutingElectronBestTrack — a Dafny model of the best-track selection

`ScoutingElectronBestTrack` is a CMSSW stream producer. For each event it takes
the collection of Run-3 scouting electrons. Each electron has cluster kinematics
(pt, eta, phi) and parallel vectors for its associated tracks (`trkpt`, `trketa`,
`trkphi`, `trkchi2overndf`). The producer publishes a single integer,
`BestTrackIndex`.

This project models the producer's two pieces of logic:

- **Construction** (`Config`). The four threshold vectors `TrackPtMin`,
  `TrackChi2OverNdofMax`, `RelativeEnergyDifferenceMax` and `DeltaPhiMax` must
  each hold exactly two values: index 0 for the barrel (EB), index 1 for the
  endcap (EE). The constructor checks them in that order and throws on the first
  one of a different size.
- **Selection** (`Selection`, `Producer`). Each track of each electron gets a
  region index: 0 when |eta| < 1.479, otherwise 1. It then goes through four
  cuts: pt below the minimum, chi2/ndf above the maximum, deltaPhi above the
  maximum, and relative energy difference above the maximum. Each cut has an
  early `continue`. Among the survivors, a running minimum of the relative
  energy difference `|E_cluster − E_track| / E_cluster` is kept with a strict
  `<`. Its index starts at −1 and its value at the largest finite double.

Some results of the proofs are easy to misread, so they are listed here:

- The running minimum is set up once, before the electron loop. It therefore
  runs over the tracks of **all** electrons in the event.
- The published index refers to the track list of whichever electron supplied
  the winner, and the output does not say which electron that was.
- On equal differences, the first survivor wins. The order is electron order,
  then track index.
- Every cut bound is inclusive. A track with |eta| ≥ 1.479 is endcap. The
  track eta is stored in single precision, and the float nearest 1.479 lies
  just below it (12406751 / 2^23), so that value is barrel.
- `deltaPhi` is compared with `>` and without an absolute value.
- A survivor can only win if its difference is below the largest double. This is
  always true when both `RelativeEnergyDifferenceMax` values are below it, as
  they are in the defaults and in the example job (`SurvivorsContend`).
- `trketa`, `trkchi2overndf` and `trkphi` are read with `.at(i)`. The producer
  throws at the first of these reads that is out of range. A read happens only
  when the code reaches it: `trkchi2overndf` after the pt cut has passed, and
  `trkphi` after the chi2 cut has passed. Entries beyond `trkpt`'s length are
  never read.

`Selection.Produce` is a left fold over electrons, then tracks. `Producer.ProduceEvent`
and `Producer.ScanElectronTracks` write the same logic as the C++ outer and inner
loops, and their loop invariants prove that they equal the fold. `SelectionProofs` describes what the fold computes with
an independent definition: the first minimal survivor over all (electron, track)
positions, in iteration order.

The code divides by the cluster energy without a guard against zero, and it
publishes one integer per event, not one per electron.

## Model

| member | source | states |
|---|---|---|
| `Numerics.Abs` | ScoutingAnalysis/EGammaTools/plugins/ScoutingElectronBestTrack.cc:121 | the absolute value taken of eta and of the energy ratio is non-negative and equals x or −x |
| `Config.Construct` | ScoutingAnalysis/EGammaTools/plugins/ScoutingElectronBestTrack.cc:69-84 | construction succeeds iff every one of the four vectors has exactly 2 elements; on success the vectors are kept unchanged; on failure the error names a vector whose size is not 2, and every vector checked before it has size 2 |
| `Config.ConstructAcceptsIffValid` | ScoutingAnalysis/EGammaTools/plugins/ScoutingElectronBestTrack.cc:69-84 | the constructor accepts exactly the configurations that satisfy the 2-element invariant |
| `Config.Defaults` | ScoutingAnalysis/EGammaTools/plugins/ScoutingElectronBestTrack.cc:139-142 | the declared defaults (0, 0), (9999, 9999) ×3 satisfy the 2-element invariant |
| `Config.DefaultsAccepted` | ScoutingAnalysis/EGammaTools/plugins/ScoutingElectronBestTrack.cc:136-144 | the constructor accepts the declared defaults unchanged |
| `Selection.RegionIndex` | ScoutingAnalysis/EGammaTools/plugins/ScoutingElectronBestTrack.cc:109 | the region index is 0 or 1, so it is a valid index into every validated vector; it is 0 exactly when −1.479 < eta < 1.479, so an absolute eta of exactly 1.479 is endcap |
| `Selection.RelEnergyDiff` | ScoutingAnalysis/EGammaTools/plugins/ScoutingElectronBestTrack.cc:121 | the relative energy difference is non-negative, times the cluster energy it is the absolute energy difference, and it is 0 exactly when the two energies are equal |
| `Selection.EvalTrack` | ScoutingAnalysis/EGammaTools/plugins/ScoutingElectronBestTrack.cc:108-123 | a track passes iff it meets all four region cuts with inclusive bounds, and then carries its relative energy difference; a rejection names a cut that fails while the earlier cuts pass; a throw names a vector whose length is at most i; a throw on trketa happens iff trketa is too short; a throw on trkchi2overndf happens iff trketa is long enough, the pt cut passes and trkchi2overndf is too short; a throw on trkphi happens iff trketa and trkchi2overndf are long enough, the pt and chi2 cuts pass and trkphi is too short; a track whose parallel vectors reach index i never throws |
| `Selection.Step` | ScoutingAnalysis/EGammaTools/plugins/ScoutingElectronBestTrack.cc:125-128 | one inner iteration leaves an earlier error as it is; it throws only with the track's own out-of-range verdict and position; when it changes the loop variables, the track passed, the new index is that track and its difference is strictly smaller; a passing track never leaves a difference above its own (meaning stated by `SelectionProofs.StepKeepsInvariant`) |
| `Selection.ScanTracks` | ScoutingAnalysis/EGammaTools/plugins/ScoutingElectronBestTrack.cc:108-129 | the inner loop over one electron keeps an earlier error; a new error lies at a track of this electron; the running difference never grows; a changed best index is a track index of this electron below n with a strictly smaller difference (meaning stated by `SelectionProofs.ScanTracksKeepsInvariant`) |
| `Selection.ScanElectrons` | ScoutingAnalysis/EGammaTools/plugins/ScoutingElectronBestTrack.cc:105-130 | after m electrons an error names a visited track; the running difference is at most the largest double; a changed best has a difference below it and a non-negative index (meaning stated by `SelectionProofs.ScanElectronsKeepsInvariant`) |
| `Selection.ScanElectronsIndexInRange` | ScoutingAnalysis/EGammaTools/plugins/ScoutingElectronBestTrack.cc:105-128 | a changed best index is below the track count of some electron already visited, so it indexes a track of the event |
| `Selection.Produce` | ScoutingAnalysis/EGammaTools/plugins/ScoutingElectronBestTrack.cc:102-132 | the published value is at least −1; an error names a track of the event (meaning stated by `SelectionProofs.ProduceSelects`, `SelectionProofs.ProduceNoneIffNoContender` and `SelectionProofs.ProduceFailsIffOutOfRange`) |
| `Selection.ProduceIndexInRange` | ScoutingAnalysis/EGammaTools/plugins/ScoutingElectronBestTrack.cc:105-132 | a non-negative published value is below the track count of some electron of the event |
| `SelectionProofs.StepKeepsInvariant` | ScoutingAnalysis/EGammaTools/plugins/ScoutingElectronBestTrack.cc:108-128 | one inner iteration keeps the invariant: after it, the loop variables are initial with no contender seen, or they hold the first minimal contender among the tracks visited; an error is the first failed access |
| `SelectionProofs.ScanTracksKeepsInvariant` | ScoutingAnalysis/EGammaTools/plugins/ScoutingElectronBestTrack.cc:108-129 | the inner loop over one electron keeps that invariant from its first track to any later one |
| `SelectionProofs.NextElectron` | ScoutingAnalysis/EGammaTools/plugins/ScoutingElectronBestTrack.cc:102-105 | the loop variables are carried, not reset, from the end of one electron to the start of the next |
| `SelectionProofs.ScanElectronsKeepsInvariant` | ScoutingAnalysis/EGammaTools/plugins/ScoutingElectronBestTrack.cc:102-130 | the electron loop keeps the invariant over the first m electrons |
| `SelectionProofs.EventInvariant` | ScoutingAnalysis/EGammaTools/plugins/ScoutingElectronBestTrack.cc:102-130 | after all electrons, the invariant describes every track of the event |
| `SelectionProofs.ProduceFailsIffOutOfRange` | ScoutingAnalysis/EGammaTools/plugins/ScoutingElectronBestTrack.cc:108-116 | the producer throws iff some checked access of the event is out of range, and it reports the first such access in iteration order |
| `SelectionProofs.WellFormedNeverThrows` | ScoutingAnalysis/EGammaTools/plugins/ScoutingElectronBestTrack.cc:108-116 | if every electron's trketa, trkchi2overndf and trkphi are at least as long as trkpt, the producer does not throw |
| `SelectionProofs.ProduceNoneIffNoContender` | ScoutingAnalysis/EGammaTools/plugins/ScoutingElectronBestTrack.cc:102-132 | the output is −1 iff nothing throws and no track of any electron survives all cuts with a difference below the initial minimum |
| `SelectionProofs.ProduceSelects` | ScoutingAnalysis/EGammaTools/plugins/ScoutingElectronBestTrack.cc:105-132 | the output is idx ≥ 0 iff nothing throws and, for some electron j, idx < trkpt().size() of j, track idx of j survives every cut, its difference is ≤ that of every survivor of every electron, and every earlier survivor in iteration order has a strictly larger one |
| `SelectionProofs.SelectedUnique` | ScoutingAnalysis/EGammaTools/plugins/ScoutingElectronBestTrack.cc:125-128 | the first minimal survivor is unique, so strict `<` breaks ties deterministically |
| `SelectionProofs.NoTracksNoSelection` | ScoutingAnalysis/EGammaTools/plugins/ScoutingElectronBestTrack.cc:102-108 | with no electrons, or only empty trkpt vectors, the output is −1, whatever the other vectors hold |
| `SelectionProofs.SurvivorsContend` | ScoutingAnalysis/EGammaTools/plugins/ScoutingElectronBestTrack.cc:103-125 | when both energy-difference maxima are below the largest double, every survivor of the four cuts can win |
| `SelectionProofs.TrackFailureSticks` | ScoutingAnalysis/EGammaTools/plugins/ScoutingElectronBestTrack.cc:108-129 | after a failed access, later tracks of the same electron leave the error unchanged |
| `SelectionProofs.ElectronFailureSticks` | ScoutingAnalysis/EGammaTools/plugins/ScoutingElectronBestTrack.cc:105-130 | after a failed access, later electrons leave the error unchanged |
| `SelectionProofs.AbortIsFinal` | ScoutingAnalysis/EGammaTools/plugins/ScoutingElectronBestTrack.cc:108-132 | an exception thrown at track i of electron j is the outcome of the event, and nothing is put |
| `SelectionProofs.TrimKeepsVerdict` | ScoutingAnalysis/EGammaTools/plugins/ScoutingElectronBestTrack.cc:108-116 | cutting the parallel vectors to trkpt's length does not change any track's verdict |
| `SelectionProofs.ExtraEntriesIgnored` | ScoutingAnalysis/EGammaTools/plugins/ScoutingElectronBestTrack.cc:108-116 | entries of trketa, trkphi and trkchi2overndf beyond trkpt's length change neither the output nor the error |
| `Producer.ScanElectronTracks` | ScoutingAnalysis/EGammaTools/plugins/ScoutingElectronBestTrack.cc:106-129 | the inner loop with its early `continue`s and checked accesses, entered with the running best, computes exactly the fold `Selection.ScanTracks` over that electron's tracks, error included |
| `Producer.ProduceEvent` | ScoutingAnalysis/EGammaTools/plugins/ScoutingElectronBestTrack.cc:102-132 | the electron loop, carrying the running best across electrons and stopping at the first failed access, computes exactly the fold `Selection.Produce` |
| `Scenarios.JobConfig` | ScoutingAnalysis/EGammaTools/test/runScoutingElectronBestTrack_cfg.py:30-33 | the example job's thresholds are accepted unchanged by the constructor |
| `Scenarios.WinnerFromLaterElectron` | ScoutingAnalysis/EGammaTools/plugins/ScoutingElectronBestTrack.cc:105-132 | the index can come from a later electron's list, and it can point at a rejected track of an earlier electron |
| `Scenarios.MinimumNotResetBetweenElectrons` | ScoutingAnalysis/EGammaTools/plugins/ScoutingElectronBestTrack.cc:102-105 | an electron's own best track loses to a better track of an earlier electron |
| `Scenarios.FirstOfEqualWins` | ScoutingAnalysis/EGammaTools/plugins/ScoutingElectronBestTrack.cc:125-128 | of two survivors with equal differences, the first in iteration order wins |
| `Scenarios.EndcapBoundary` | ScoutingAnalysis/EGammaTools/plugins/ScoutingElectronBestTrack.cc:109-113 | at eta = ±1.479 the endcap chi2 maximum applies |
| `Scenarios.BarrelBelowBoundary` | ScoutingAnalysis/EGammaTools/plugins/ScoutingElectronBestTrack.cc:109-113 | just below 1.479, including the single-precision value nearest 1.479, the barrel chi2 maximum applies |
| `Scenarios.BoundsInclusive` | ScoutingAnalysis/EGammaTools/plugins/ScoutingElectronBestTrack.cc:110-123 | values equal to the pt minimum, the chi2, deltaPhi and difference maxima all pass |
| `Scenarios.DeltaPhiCutIsOneSided` | ScoutingAnalysis/EGammaTools/plugins/ScoutingElectronBestTrack.cc:118 | with a signed deltaPhi, a track 1 rad off on one side passes the 0.06 cut and on the other side fails it |
| `Scenarios.ChecksAreLazy` | ScoutingAnalysis/EGammaTools/plugins/ScoutingElectronBestTrack.cc:110-113 | a short trkchi2overndf throws only for a track that passes the pt cut |
| `Scenarios.PhiCheckIsLazy` | ScoutingAnalysis/EGammaTools/plugins/ScoutingElectronBestTrack.cc:110-116 | a short trkphi throws only for a track that passes the pt and chi2 cuts |
| `Scenarios.SingleTrackEvent` | ScoutingAnalysis/EGammaTools/plugins/ScoutingElectronBestTrack.cc:102-132 | an event of one electron with one track produces that track's verdict: the error, −1, or 0 |

## Left out

- Event access is not modelled. That covers `getByToken` and the path where the handle is invalid, which logs a warning and puts nothing. The model starts from the electron collection.
- Publishing is not modelled. That covers `iEvent.put`, the `produces`/`consumes` declarations, the `Run3ScoutingElectron` input tag default and `DEFINE_FWK_MODULE`. They are framework plumbing. The model returns the integer that would be put.
- Parameter-set parsing is not modelled. The four vectors are inputs to `Config.Construct`. The exception message text is reduced to the name of the offending parameter.
- The four-vector energy and `deltaPhi` are fields of `Numerics.Kinematics` and are otherwise unconstrained, because they are floating-point library code (`math::PtEtaPhiMLorentzVector`, `DataFormats/Math/interface/deltaPhi.h`). That library code is not part of this model. The one assumption is that the energy is positive at the electron mass 0.0005. Any phi normalisation done by the four-vector before `deltaPhi` is folded into that function.
- The unqualified `abs` at lines 109 and 121 is modelled as the real absolute value. This assumes that the floating-point overload is selected, not the integer `abs`, which would truncate.
- Integer widths are not modelled: indices are unbounded. Track lists longer than 2^31 − 1 are outside the model; there the `unsigned int` loop counter of line 108 and the `int` best index of line 127 would wrap.
- All quantities are `real`. Rounding, NaN and infinities in the comparisons are not modelled. `DoubleMax` is the exact value of the largest finite double.
- The other fields of `Run3ScoutingElectron` (d0, dz, charge and so on) are not read by the producer and are left out.
- The muon tag-and-probe analyzer (`DQMOffline/Scouting/plugins/ScoutingMuonTagProbeAnalyzer.cc` and `.h`) is not modelled. It only books and fills histograms, its mass-window logic is commented out, and its muon ID always returns true.
- The Python job configurations are not modelled. The thresholds of the example job appear only as test values in `Scenarios.JobConfig`.
- The scenarios use a stand-in kinematics: energy = pt when pt > 0 and 1 otherwise, and deltaPhi = the signed difference. They illustrate the selection rule and say nothing about the real four-vector numerics.
