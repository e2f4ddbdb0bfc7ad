/** Branch currents of the bridge circuit, recovered from the three mesh
    currents i1, i2, i3 that Gauss-Seidel returns. The dashboard
    (calcular_correntes_finais in sitefull.py) and the command-line script
    (module-level code of T2_q1.py) use different formulas for the third
    branch and for the total current; each is modelled as written. */
module Currents {

  /** The dictionary returned by calcular_correntes_finais. */
  datatype DashboardCurrents = DashboardCurrents(iR1: real, iR2: real, iR3: real, iR4: real, iR5: real, iTotal: real)

  /** calcular_correntes_finais: the resistor values and the source voltage
      are accepted but do not enter any formula. */
  function DashboardBranchCurrents(i1: real, i2: real, i3: real,
                                   r1: real, r2: real, r3: real, r4: real, r5: real, e: real): (c: DashboardCurrents)
    // the mesh currents can be read back from the branch currents
    ensures c.iR1 == i1 && c.iR2 == i2 && c.iR1 - c.iR4 == i3
    // current is conserved where R1 meets R2 and R5, and where R4 meets R3 and R5
    ensures c.iR1 == c.iR2 + c.iR5
    ensures c.iR4 == c.iR3 + c.iR5
    // the reported total is the sum of the R1 and R4 branches
    ensures c.iTotal == c.iR1 + c.iR4 && c.iTotal == 2.0 * i1 - i3
  {
    var iR1 := i1;
    var iR2 := i2;
    var iR3 := i2 - i3;
    var iR4 := i1 - i3;
    var iR5 := i1 - i2;
    DashboardCurrents(iR1, iR2, iR3, iR4, iR5, iR1 + iR4)
  }

  /** The variables I1..I6 computed at the end of the script. */
  datatype ScriptCurrents = ScriptCurrents(I1: real, I2: real, I3: real, I4: real, I5: real, I6: real)

  function ScriptBranchCurrents(i1: real, i2: real, i3: real): (c: ScriptCurrents)
    // the mesh currents can be read back from the branch currents
    ensures c.I1 == i1 && c.I2 == i2 && c.I6 == i3
    ensures c.I1 - c.I4 == c.I6
    // current is conserved at the two inner nodes
    ensures c.I1 == c.I2 + c.I5
    ensures c.I5 == c.I3 + c.I4
  {
    ScriptCurrents(i1, i2, i3 - i2, i1 - i3, i1 - i2, i3)
  }

  /** The resistor and voltage arguments of the dashboard formula are unused. */
  lemma DashboardIgnoresCircuit(i1: real, i2: real, i3: real,
                                r1: real, r2: real, r3: real, r4: real, r5: real, e: real,
                                s1: real, s2: real, s3: real, s4: real, s5: real, f: real)
    ensures DashboardBranchCurrents(i1, i2, i3, r1, r2, r3, r4, r5, e)
         == DashboardBranchCurrents(i1, i2, i3, s1, s2, s3, s4, s5, f)
  {
  }

  /** The two front ends agree on R1, R2, R4 and R5, report opposite signs for
      R3, and agree on the total current exactly when i1 == i3. */
  lemma FrontEndsCompared(i1: real, i2: real, i3: real,
                          r1: real, r2: real, r3: real, r4: real, r5: real, e: real)
    ensures var d := DashboardBranchCurrents(i1, i2, i3, r1, r2, r3, r4, r5, e);
            var s := ScriptBranchCurrents(i1, i2, i3);
            d.iR1 == s.I1 && d.iR2 == s.I2 && d.iR4 == s.I4 && d.iR5 == s.I5 &&
            d.iR3 == -s.I3 &&
            (d.iTotal == s.I6 <==> i1 == i3)
  {
  }
}
