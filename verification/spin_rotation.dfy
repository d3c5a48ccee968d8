/** The spin-2 rotation between the Fourier modes of the two shear components and the
    E/B modes, cell by cell over an n x (n/2+1) real-FFT layout
    (lenstools/shear.py: `fromEBmodes` lines 129-130, `decompose` lines 284-288). */
module SpinRotation {
  import opened ComplexNumbers
  import opened Arrays
  import opened Frequencies

  /** Fourier-space E and B modes. */
  datatype EBModes = EBModes(e: Array2<Complex>, b: Array2<Complex>)

  /** Fourier modes of the two shear components gamma1, gamma2. */
  datatype ShearModes = ShearModes(g1: Array2<Complex>, g2: Array2<Complex>)

  /** One cell of the forward rotation, E = c g1 + s g2 and B = -s g1 + c g2, with the
      real factors multiplied into both parts of each complex mode. A unit
      rotation (c^2 + s^2 = 1) conserves power: |E|^2 + |B|^2 = |g1|^2 + |g2|^2. */
  function RotateCell(c: real, s: real, g1: Complex, g2: Complex): (r: (Complex, Complex))
    ensures Sq(c) + Sq(s) == 1.0 ==> NormSq(r.0) + NormSq(r.1) == NormSq(g1) + NormSq(g2)
  {
    var e := Complex(c * g1.re + s * g2.re, c * g1.im + s * g2.im);
    var b := Complex(-1.0 * s * g1.re + c * g2.re, -1.0 * s * g1.im + c * g2.im);
    RealNorm(c, s, g1.re, g2.re, e.re, b.re);
    RealNorm(c, s, g1.im, g2.im, e.im, b.im);
    (e, b)
  }

  /** One cell of the inverse rotation: g1 = c E - s B, g2 = s E + c B. For a unit
      (c, s) the forward rotation undoes it; the zero rotation (c, s) = (0, 0), which
      `fromEBmodes` uses at the zero cell, sends every E/B pair to 0. */
  function UnrotateCell(c: real, s: real, e: Complex, b: Complex): (r: (Complex, Complex))
    ensures Sq(c) + Sq(s) == 1.0 ==> RotateCell(c, s, r.0, r.1) == (e, b)
    ensures c == 0.0 && s == 0.0 ==> r == (Zero, Zero)
  {
    var g1 := Complex(c * e.re - s * b.re, c * e.im - s * b.im);
    var g2 := Complex(s * e.re + c * b.re, s * e.im + c * b.im);
    RotateComponents(c, s, g1, g2);
    RealUnrotateRotate(c, s, e.re, b.re, g1.re, g2.re);
    RealUnrotateRotate(c, s, e.im, b.im, g1.im, g2.im);
    (g1, g2)
  }

  /** The components of one un-rotated cell. */
  lemma UnrotateComponents(c: real, s: real, e: Complex, b: Complex)
    ensures UnrotateCell(c, s, e, b).0 == Complex(c * e.re - s * b.re, c * e.im - s * b.im)
    ensures UnrotateCell(c, s, e, b).1 == Complex(s * e.re + c * b.re, s * e.im + c * b.im)
  {
  }

  /** The components of one rotated cell. */
  lemma RotateComponents(c: real, s: real, g1: Complex, g2: Complex)
    ensures RotateCell(c, s, g1, g2).0 == Complex(c * g1.re + s * g2.re, c * g1.im + s * g2.im)
    ensures RotateCell(c, s, g1, g2).1 == Complex(-1.0 * s * g1.re + c * g2.re, -1.0 * s * g1.im + c * g2.im)
  {
  }

  /** c^2 + s^2 = 1, with the squares written out. */
  lemma UnitSquares(c: real, s: real)
    requires Sq(c) + Sq(s) == 1.0
    ensures c * c + s * s == 1.0
  {
    calc {
      c * c + s * s;
      Sq(c) + Sq(s);
      1.0;
    }
  }

  /** A real 2-vector (x, y) un-rotated to (u, v) and rotated back is unchanged when c^2 + s^2 = 1. */
  lemma RealUnrotateRotate(c: real, s: real, x: real, y: real, u: real, v: real)
    ensures Sq(c) + Sq(s) == 1.0 && u == c * x - s * y && v == s * x + c * y ==>
      c * u + s * v == x && -1.0 * s * u + c * v == y
  {
    if Sq(c) + Sq(s) == 1.0 && u == c * x - s * y && v == s * x + c * y {
      UnitSquares(c, s);
      assert c * u + s * v == (c * c + s * s) * x;
      assert -1.0 * s * u + c * v == (c * c + s * s) * y;
    }
  }

  /** A real 2-vector (x, y) rotated to (u, v) and un-rotated back is unchanged when c^2 + s^2 = 1. */
  lemma RealRotateUnrotate(c: real, s: real, x: real, y: real, u: real, v: real)
    ensures Sq(c) + Sq(s) == 1.0 && u == c * x + s * y && v == -1.0 * s * x + c * y ==>
      c * u - s * v == x && s * u + c * v == y
  {
    if Sq(c) + Sq(s) == 1.0 && u == c * x + s * y && v == -1.0 * s * x + c * y {
      UnitSquares(c, s);
      assert c * u - s * v == (c * c + s * s) * x;
      assert s * u + c * v == (c * c + s * s) * y;
    }
  }

  /** The rotation [[c, s], [-s, c]] keeps the squared length of a real 2-vector when c^2 + s^2 = 1. */
  lemma RealNorm(c: real, s: real, x: real, y: real, u: real, v: real)
    ensures Sq(c) + Sq(s) == 1.0 && u == c * x + s * y && v == -1.0 * s * x + c * y ==>
      u * u + v * v == x * x + y * y
  {
    if Sq(c) + Sq(s) == 1.0 && u == c * x + s * y && v == -1.0 * s * x + c * y {
      UnitSquares(c, s);
      assert u * u + v * v == (c * c + s * s) * (x * x + y * y);
    }
  }

  /** With cos^2 + sin^2 = 1, un-rotating after rotating gives back the shear pair. */
  lemma UnrotateRotate(c: real, s: real, g1: Complex, g2: Complex)
    requires Sq(c) + Sq(s) == 1.0
    ensures var m := RotateCell(c, s, g1, g2); UnrotateCell(c, s, m.0, m.1) == (g1, g2)
  {
    var m := RotateCell(c, s, g1, g2);
    RotateComponents(c, s, g1, g2);
    UnrotateComponents(c, s, m.0, m.1);
    RealRotateUnrotate(c, s, g1.re, g2.re, m.0.re, m.1.re);
    RealRotateUnrotate(c, s, g1.im, g2.im, m.0.im, m.1.im);
  }

  /** Both arrays of a pair are well-formed n x (n/2+1) real-FFT layouts. */
  predicate IsLayoutPair(n: nat, x: Array2<Complex>, y: Array2<Complex>) {
    && n > 0
    && x.Valid() && y.Valid()
    && x.rows == n && x.cols == n / 2 + 1
    && y.SameShape(x)
  }

  /** `decompose`: E/B modes from the shear modes, using the rotation fields without the
      zero-cell override, then forcing E[0,0] = B[0,0] = 0. */
  function Forward(n: nat, g1: Array2<Complex>, g2: Array2<Complex>): (r: EBModes)
    requires IsLayoutPair(n, g1, g2)
    ensures IsLayoutPair(n, r.e, r.b) && r.e.SameShape(g1)
    ensures r.e.at[0][0] == Zero && r.b.at[0][0] == Zero
  {
    var cols := n / 2 + 1;
    EBModes(
      Array2(Complex128, n, cols, seq(n, i requires 0 <= i < n => seq(cols, j requires 0 <= j < cols =>
        if i == 0 && j == 0 then Zero
        else RotateCell(RawCos2Phi(n, i, j), RawSin2Phi(n, i, j), g1.at[i][j], g2.at[i][j]).0))),
      Array2(Complex128, n, cols, seq(n, i requires 0 <= i < n => seq(cols, j requires 0 <= j < cols =>
        if i == 0 && j == 0 then Zero
        else RotateCell(RawCos2Phi(n, i, j), RawSin2Phi(n, i, j), g1.at[i][j], g2.at[i][j]).1))))
  }

  /** `fromEBmodes`: shear modes from E/B modes, using the rotation fields with the
      zero-cell override (which makes the zero cell of both shear modes vanish, see
      `ZeroCellOfInverse`). */
  function Inverse(n: nat, e: Array2<Complex>, b: Array2<Complex>): (r: ShearModes)
    requires IsLayoutPair(n, e, b)
    ensures IsLayoutPair(n, r.g1, r.g2) && r.g1.SameShape(e)
  {
    var cols := n / 2 + 1;
    ShearModes(
      Array2(Complex128, n, cols, seq(n, i requires 0 <= i < n => seq(cols, j requires 0 <= j < cols =>
        UnrotateCell(Cos2Phi(n, i, j), Sin2Phi(n, i, j), e.at[i][j], b.at[i][j]).0))),
      Array2(Complex128, n, cols, seq(n, i requires 0 <= i < n => seq(cols, j requires 0 <= j < cols =>
        UnrotateCell(Cos2Phi(n, i, j), Sin2Phi(n, i, j), e.at[i][j], b.at[i][j]).1))))
  }

  /** The cell (i, j) of the forward rotation. */
  lemma ForwardCell(n: nat, g1: Array2<Complex>, g2: Array2<Complex>, i: nat, j: nat)
    requires IsLayoutPair(n, g1, g2) && InLayout(n, i, j) && (i, j) != (0, 0)
    ensures var r := Forward(n, g1, g2);
      var m := RotateCell(RawCos2Phi(n, i, j), RawSin2Phi(n, i, j), g1.at[i][j], g2.at[i][j]);
      r.e.at[i][j] == m.0 && r.b.at[i][j] == m.1
  {
  }

  /** The cell (i, j) of the inverse rotation. */
  lemma InverseCell(n: nat, e: Array2<Complex>, b: Array2<Complex>, i: nat, j: nat)
    requires IsLayoutPair(n, e, b) && InLayout(n, i, j)
    ensures var r := Inverse(n, e, b);
      var g := UnrotateCell(Cos2Phi(n, i, j), Sin2Phi(n, i, j), e.at[i][j], b.at[i][j]);
      r.g1.at[i][j] == g.0 && r.g2.at[i][j] == g.1
  {
  }

  /** At a cell (i, j) other than the zero cell, the rotation `decompose` applies undoes
      the one `fromEBmodes` applies. */
  lemma {:induction false} CellRotateUnrotate(n: nat, i: nat, j: nat, e: Complex, b: Complex)
    requires InLayout(n, i, j) && (i, j) != (0, 0)
    ensures var g := UnrotateCell(Cos2Phi(n, i, j), Sin2Phi(n, i, j), e, b);
      RotateCell(RawCos2Phi(n, i, j), RawSin2Phi(n, i, j), g.0, g.1) == (e, b)
  {
    RotationIsOrthogonal(n, i, j);
  }

  /** At a cell (i, j) other than the zero cell, the rotation `fromEBmodes` applies undoes
      the one `decompose` applies. */
  lemma {:induction false} CellUnrotateRotate(n: nat, i: nat, j: nat, g1: Complex, g2: Complex)
    requires InLayout(n, i, j) && (i, j) != (0, 0)
    ensures var m := RotateCell(RawCos2Phi(n, i, j), RawSin2Phi(n, i, j), g1, g2);
      UnrotateCell(Cos2Phi(n, i, j), Sin2Phi(n, i, j), m.0, m.1) == (g1, g2)
  {
    RotationIsOrthogonal(n, i, j);
    UnrotateRotate(Cos2Phi(n, i, j), Sin2Phi(n, i, j), g1, g2);
  }

  /** `fromEBmodes` followed by `decompose`, at one cell away from the zero cell. */
  lemma {:induction false} InverseThenForwardCell(n: nat, m: EBModes, i: nat, j: nat)
    requires IsLayoutPair(n, m.e, m.b) && InLayout(n, i, j) && (i, j) != (0, 0)
    ensures var s := Inverse(n, m.e, m.b);
      var r := Forward(n, s.g1, s.g2);
      CellIs(r.e, i, j, m.e.at[i][j]) && CellIs(r.b, i, j, m.b.at[i][j])
  {
    var e, b := m.e.at[i][j], m.b.at[i][j];
    var s := Inverse(n, m.e, m.b);
    InverseCell(n, m.e, m.b, i, j);
    ForwardCell(n, s.g1, s.g2, i, j);
    CellRotateUnrotate(n, i, j, e, b);
  }

  /** `fromEBmodes` applied to E/B modes that hold the forward rotation of (g1, g2) at a
      cell other than the zero cell gives back (g1, g2) there. */
  lemma {:induction false} InverseOfRotatedCell(n: nat, e: Array2<Complex>, b: Array2<Complex>, i: nat, j: nat, g1: Complex, g2: Complex)
    requires IsLayoutPair(n, e, b) && InLayout(n, i, j) && (i, j) != (0, 0)
    requires var m := RotateCell(RawCos2Phi(n, i, j), RawSin2Phi(n, i, j), g1, g2);
      e.at[i][j] == m.0 && b.at[i][j] == m.1
    ensures var r := Inverse(n, e, b); CellIs(r.g1, i, j, g1) && CellIs(r.g2, i, j, g2)
  {
    InverseCell(n, e, b, i, j);
    CellUnrotateRotate(n, i, j, g1, g2);
  }

  /** `decompose` followed by `fromEBmodes`, at one cell away from the zero cell. */
  lemma {:induction false} ForwardThenInverseCell(n: nat, s: ShearModes, i: nat, j: nat)
    requires IsLayoutPair(n, s.g1, s.g2) && InLayout(n, i, j) && (i, j) != (0, 0)
    ensures var m := Forward(n, s.g1, s.g2);
      var r := Inverse(n, m.e, m.b);
      CellIs(r.g1, i, j, s.g1.at[i][j]) && CellIs(r.g2, i, j, s.g2.at[i][j])
  {
    var g1, g2 := s.g1.at[i][j], s.g2.at[i][j];
    var m := Forward(n, s.g1, s.g2);
    var fm := RotateCell(RawCos2Phi(n, i, j), RawSin2Phi(n, i, j), g1, g2);
    assert m.e.at[i][j] == fm.0 && m.b.at[i][j] == fm.1 by {
      ForwardCell(n, s.g1, s.g2, i, j);
    }
    InverseOfRotatedCell(n, m.e, m.b, i, j, g1, g2);
  }

  /** The value `fromEBmodes` followed by `decompose` leaves at cell (i, j) of a mode
      array: the original value, except 0 at the zero-frequency cell. */
  function WithoutDc(a: Array2<Complex>, i: nat, j: nat): Complex
    requires a.Valid() && i < a.rows && j < a.cols
  {
    if i == 0 && j == 0 then Zero else a.at[i][j]
  }

  /** `fromEBmodes` followed by `decompose` at any cell of the layout. */
  lemma {:induction false} InverseThenForwardAt(n: nat, m: EBModes, i: nat, j: nat)
    requires IsLayoutPair(n, m.e, m.b) && InLayout(n, i, j)
    ensures var s := Inverse(n, m.e, m.b);
      var r := Forward(n, s.g1, s.g2);
      CellIs(r.e, i, j, WithoutDc(m.e, i, j)) && CellIs(r.b, i, j, WithoutDc(m.b, i, j))
  {
    if (i, j) != (0, 0) {
      InverseThenForwardCell(n, m, i, j);
    }
  }

  /** `decompose` followed by `fromEBmodes` at any cell of the layout. */
  lemma {:induction false} ForwardThenInverseAt(n: nat, s: ShearModes, i: nat, j: nat)
    requires IsLayoutPair(n, s.g1, s.g2) && InLayout(n, i, j)
    ensures var m := Forward(n, s.g1, s.g2);
      var r := Inverse(n, m.e, m.b);
      CellIs(r.g1, i, j, WithoutDc(s.g1, i, j)) && CellIs(r.g2, i, j, WithoutDc(s.g2, i, j))
  {
    if (i, j) != (0, 0) {
      ForwardThenInverseCell(n, s, i, j);
    } else {
      ZeroCellOfInverse(n, Forward(n, s.g1, s.g2));
    }
  }

  /** `fromEBmodes` leaves the zero cell of both shear modes at 0. */
  lemma ZeroCellOfInverse(n: nat, m: EBModes)
    requires IsLayoutPair(n, m.e, m.b)
    ensures var r := Inverse(n, m.e, m.b); CellIs(r.g1, 0, 0, Zero) && CellIs(r.g2, 0, 0, Zero)
  {
    var e, b := m.e.at[0][0], m.b.at[0][0];
    assert Cos2Phi(n, 0, 0) == 0.0 && Sin2Phi(n, 0, 0) == 0.0;
    InverseCell(n, m.e, m.b, 0, 0);
  }

  /** `fromEBmodes` followed by `decompose`, at the Fourier level: every E/B mode comes
      back unchanged except the zero-frequency cell, which comes back as 0. */
  lemma {:induction false} InverseThenForward(n: nat, m: EBModes)
    requires IsLayoutPair(n, m.e, m.b)
    ensures var s := Inverse(n, m.e, m.b);
      var r := Forward(n, s.g1, s.g2);
      forall i, j | InLayout(n, i, j) ::
        CellIs(r.e, i, j, WithoutDc(m.e, i, j)) && CellIs(r.b, i, j, WithoutDc(m.b, i, j))
  {
    forall i, j | InLayout(n, i, j) {
      InverseThenForwardAt(n, m, i, j);
    }
  }

  /** A pure E-mode input stays pure E through `fromEBmodes` then `decompose`. */
  lemma {:induction false} PureEStaysPureE(n: nat, m: EBModes)
    requires IsLayoutPair(n, m.e, m.b)
    requires forall i, j | InLayout(n, i, j) :: m.b.at[i][j] == Zero
    ensures var s := Inverse(n, m.e, m.b);
      var r := Forward(n, s.g1, s.g2);
      forall i, j | InLayout(n, i, j) :: CellIs(r.b, i, j, Zero)
  {
    InverseThenForward(n, m);
  }

  /** `decompose` followed by `fromEBmodes`, at the Fourier level: the shear modes come
      back unchanged except the zero-frequency cell (the mean shear), which is lost. */
  lemma {:induction false} ForwardThenInverse(n: nat, s: ShearModes)
    requires IsLayoutPair(n, s.g1, s.g2)
    ensures var m := Forward(n, s.g1, s.g2);
      var r := Inverse(n, m.e, m.b);
      forall i, j | InLayout(n, i, j) ::
        CellIs(r.g1, i, j, WithoutDc(s.g1, i, j)) && CellIs(r.g2, i, j, WithoutDc(s.g2, i, j))
  {
    forall i, j | InLayout(n, i, j) {
      ForwardThenInverseAt(n, s, i, j);
    }
  }

  /** The forward rotation conserves power at every cell but the zero cell. */
  lemma {:induction false} ForwardPreservesPower(n: nat, g1: Array2<Complex>, g2: Array2<Complex>, i: nat, j: nat)
    requires IsLayoutPair(n, g1, g2)
    requires InLayout(n, i, j) && (i, j) != (0, 0)
    ensures var r := Forward(n, g1, g2);
      NormSq(r.e.at[i][j]) + NormSq(r.b.at[i][j]) == NormSq(g1.at[i][j]) + NormSq(g2.at[i][j])
  {
    RawRotationIsOrthogonal(n, i, j);
    ForwardCell(n, g1, g2, i, j);
  }
}
