/** Numeric building blocks of the best-track selector: the fixed electron mass,
    the largest finite double (the initial value of the running minimum), absolute
    value, and the floating-point four-vector helpers, which are kept uninterpreted. */
module Numerics {

  /** Mass (GeV) given to both the cluster and the track four-vectors. */
  const ElectronMass: real := 0.0005

  /** std::numeric_limits<double>::max(), that is (2 - 2^-52) * 2^1023 = 2^1024 - 2^971. */
  const DoubleMax: real := 179769313486231570814527423731704356798070567525844996598917476803157260780028538760589558632766878171540458953514382464234321326889464182768467546703537516986049910576551282076245490090389328944075868508455133942304583236903222948165808559332123348274797826204144723168738177180919299881250404026184124858368.0

  function Abs(x: real): (r: real)
    ensures r >= 0.0
    ensures r == x || r == -x
  {
    if x < 0.0 then -x else x
  }

  /** The library numerics the selector calls but does not define:
      `energy(pt, eta, phi, mass)` is the energy of a PtEtaPhiM four-vector and
      `deltaPhi(phi1, phi2)` is the azimuthal difference of two angles. Both are
      arbitrary functions here; in particular `deltaPhi` may be negative. */
  datatype Kinematics = Kinematics(
    energy: (real, real, real, real) -> real,
    deltaPhi: (real, real) -> real)

  /** The one fact assumed about the four-vector energy: with the positive
      electron mass it is positive, so dividing by the cluster energy is defined. */
  ghost predicate PositiveEnergy(k: Kinematics) {
    forall pt, eta, phi :: k.energy(pt, eta, phi, ElectronMass) > 0.0
  }

}
