/** `ShearMap` from lenstools/shear.py: building a map from its E/B modes, decomposing a
    map into E/B power spectra, reconstructing the convergence, and the per-map cache of
    Fourier E/B modes those three operations share. */
module Shear {
  import opened Results
  import opened ComplexNumbers
  import opened Arrays
  import opened Frequencies
  import opened SpinRotation

  /** The numerical routines the map calls but does not define. numpy's `rfft2` and
      `irfft2` are given cell by cell (the value at each output cell is unknown; the output
      shape follows numpy's rule and is fixed below), and `_topology.rfft2_azimuthal`
      bins the product of two Fourier arrays into multipole bands. The binning routine is
      taken to be total: it never raises, whatever the edges. */
  datatype Externals = Externals(
    rfft2At: (Array2<real>, nat, nat) -> Complex,
    irfft2At: (Array2<Complex>, nat, nat) -> real,
    azimuthal: (Array2<Complex>, Array2<Complex>, real, seq<real>) -> seq<real>)

  /** The assertion failures and numpy errors the operations can raise. */
  datatype Error =
    | NotComplex128          // an E/B array is not complex128
    | NotRealFftLayoutE      // E.shape[1] != E.shape[0]/2 + 1 (true division)
    | NotRealFftLayoutB      // B.shape[1] != B.shape[0]/2 + 1 (true division)
    | ShapeMismatch          // E.shape != B.shape
    | ZeroFrequencyCount     // rfftfreq(0) divides by zero
    | EmptyFftAxis           // numpy refuses an FFT with 0 output points along an axis
    | FrequencyAxisMismatch  // len(lx) or len(ly) differs from the Fourier array's shape

  /** A shear map: the two shear components, the side angle in degrees, and the cached
      Fourier E/B modes (the `fourier_E`/`fourier_B` attributes, always set together). */
  datatype ShearMap = ShearMap(gamma1: Array2<real>, gamma2: Array2<real>, sideAngle: real, fourier: Option<EBModes>) {
    predicate Valid() {
      && gamma1.Valid() && gamma2.Valid() && gamma1.SameShape(gamma2)
      && (fourier.Some? ==> fourier.value.e.Valid() && fourier.value.b.Valid())
    }
  }

  /** A convergence map: one real field and the side angle of the map it came from. */
  datatype ConvergenceMap = ConvergenceMap(kappa: Array2<real>, sideAngle: real)

  /** What `decompose` returns: bin centres and the EE, BB and EB power in each bin. */
  datatype Spectra = Spectra(l: seq<real>, ee: seq<real>, bb: seq<real>, eb: seq<real>)

  /** The result of an operation together with the map as the operation leaves it. */
  datatype Updated<T> = Updated(out: T, state: ShearMap)

  /** The side angle `fromEBmodes` uses when none is given, in degrees. */
  const DefaultSideAngle: real := 3.14

  /** The bin edges `convergence` passes to `decompose` only to fill the cache. */
  const ConvergenceEdges: seq<real> := [200.0, 400.0]

  /** numpy's rfft2 needs at least one point along each axis. */
  predicate Rfft2Defined(g: Array2<real>) {
    g.rows > 0 && g.cols > 0
  }

  /** numpy.fft.rfft2: a rows x cols real array becomes a rows x (cols/2+1) complex128 array. */
  function Rfft2(ext: Externals, g: Array2<real>): (r: Array2<Complex>)
    requires Rfft2Defined(g)
    ensures r.Valid() && r.rows == g.rows && r.cols == g.cols / 2 + 1
  {
    var cols := g.cols / 2 + 1;
    Array2(Complex128, g.rows, cols, seq(g.rows, (i: int) requires 0 <= i => seq(cols, (j: int) requires 0 <= j => ext.rfft2At(g, i, j))))
  }

  /** numpy's irfft2 produces 2 (m - 1) columns from m, and needs at least one of them. */
  predicate Irfft2Defined(f: Array2<Complex>) {
    f.rows > 0 && f.cols > 1
  }

  /** numpy.fft.irfft2: a rows x m complex array becomes a rows x 2(m-1) real array. */
  function Irfft2(ext: Externals, f: Array2<Complex>): (r: Array2<real>)
    requires Irfft2Defined(f)
    ensures r.Valid() && r.rows == f.rows && r.cols == 2 * (f.cols - 1)
  {
    var cols := 2 * (f.cols - 1);
    Array2(Float64, f.rows, cols, seq(f.rows, (i: int) requires 0 <= i => seq(cols, (j: int) requires 0 <= j => ext.irfft2At(f, i, j))))
  }

  /** `shape[1] == shape[0]/2 + 1` under true division: the check `fromEBmodes` makes.
      It accepts exactly the even row counts with cols = rows/2 + 1, so a map with an odd
      side is always rejected. */
  function RealFftLayout(rows: nat, cols: nat): (ok: bool)
    ensures ok <==> rows % 2 == 0 && cols == rows / 2 + 1
  {
    TrueDivisionHalfPlusOne(rows, cols);
    cols as real == rows as real / 2.0 + 1.0
  }

  /** In exact arithmetic, cols = rows/2 + 1 holds exactly when rows is even and cols is
      rows/2 + 1 in integer division. */
  lemma TrueDivisionHalfPlusOne(rows: nat, cols: nat)
    ensures cols as real == rows as real / 2.0 + 1.0 <==> rows % 2 == 0 && cols == rows / 2 + 1
  {
    if cols as real == rows as real / 2.0 + 1.0 {
      assert 2 * cols == rows + 2 by {
        assert (2 * cols) as real == 2.0 * (cols as real) == (rows + 2) as real;
      }
    }
    if rows % 2 == 0 && cols == rows / 2 + 1 {
      assert rows == 2 * (rows / 2);
      assert rows as real / 2.0 == (rows / 2) as real;
    }
  }

  /** When the layout check passes, the frequency axes have exactly the array's shape, so
      the safety assertions that follow it in `fromEBmodes` never fail. */
  lemma LayoutMatchesFrequencyAxes(rows: nat, cols: nat)
    requires rows > 0 && RealFftLayout(rows, cols)
    ensures |RFftFreq(rows)| == cols && |FftFreq(rows)| == rows
  {
  }

  /** The map `fromEBmodes` builds once its checks pass: both shear components are the
      inverse transforms of the inversely rotated modes, an n x n real map, with E and B
      cached as given. */
  function Reconstruct(ext: Externals, n: nat, e: Array2<Complex>, b: Array2<Complex>, angle: real): (r: ShearMap)
    requires n % 2 == 0 && IsLayoutPair(n, e, b)
    ensures r.Valid() && r.sideAngle == angle && r.fourier == Some(EBModes(e, b))
    ensures r.gamma1.rows == r.gamma1.cols == n
    ensures var s := Inverse(n, e, b);
      Irfft2Defined(s.g1) && Irfft2Defined(s.g2)
      && r.gamma1 == Irfft2(ext, s.g1) && r.gamma2 == Irfft2(ext, s.g2)
  {
    assert n == 2 * (n / 2);
    var s := Inverse(n, e, b);
    assert Irfft2Defined(s.g1) && Irfft2Defined(s.g2);
    var g1 := Irfft2(ext, s.g1);
    var g2 := Irfft2(ext, s.g2);
    assert g1.rows == n && g1.cols == n;
    assert g1.Valid() && g2.Valid() && g1.SameShape(g2);
    ShearMap(g1, g2, angle, Some(EBModes(e, b)))
  }

  /** ShearMap.fromEBmodes: validate the E/B arrays, rotate them back to shear modes,
      invert the Fourier transforms, and cache exactly the given E and B on the new map. */
  function FromEBModes(ext: Externals, e: Array2<Complex>, b: Array2<Complex>, angle: real := DefaultSideAngle): (r: Result<ShearMap, Error>)
    requires e.Valid() && b.Valid()
    ensures r.Ok? <==>
      && e.dtype == Complex128 && b.dtype == Complex128
      && RealFftLayout(e.rows, e.cols) && RealFftLayout(b.rows, b.cols)
      && e.SameShape(b) && e.rows > 0
    ensures e.dtype != Complex128 || b.dtype != Complex128 ==> r == Err(NotComplex128)
    ensures
      (e.dtype == Complex128 && b.dtype == Complex128 && RealFftLayout(e.rows, e.cols)
       && RealFftLayout(b.rows, b.cols) && !e.SameShape(b)) ==> r == Err(ShapeMismatch)
    ensures r.Ok? ==>
      && r.value.Valid()
      && r.value.fourier == Some(EBModes(e, b))
      && r.value.sideAngle == angle
      && r.value.gamma1.rows == r.value.gamma1.cols == e.rows
      && r.value == Reconstruct(ext, e.rows, e, b, angle)
  {
    if !(e.dtype == Complex128 && b.dtype == Complex128) then Err(NotComplex128)
    else if !RealFftLayout(e.rows, e.cols) then Err(NotRealFftLayoutE)
    else if !RealFftLayout(b.rows, b.cols) then Err(NotRealFftLayoutB)
    else if !e.SameShape(b) then Err(ShapeMismatch)
    else if e.rows == 0 then Err(ZeroFrequencyCount)
    else
      var n := e.rows;
      LayoutMatchesFrequencyAxes(n, e.cols);
      if |RFftFreq(n)| != e.cols || |FftFreq(n)| != e.rows then Err(FrequencyAxisMismatch)
      else
        Ok(Reconstruct(ext, n, e, b, angle))
  }

  /** `decompose` gets past its assertions: both axes are non-empty and rfftfreq of the row
      count has as many entries as rfft2 produced columns. */
  predicate DecomposeDefined(m: ShearMap) {
    Rfft2Defined(m.gamma1) && m.gamma1.rows / 2 == m.gamma1.cols / 2
  }

  /** The Fourier E/B modes `decompose` computes for a map. */
  function ModesOf(ext: Externals, m: ShearMap): (r: EBModes)
    requires m.Valid() && DecomposeDefined(m)
    ensures IsLayoutPair(m.gamma1.rows, r.e, r.b)
    ensures r.e.at[0][0] == Zero && r.b.at[0][0] == Zero
  {
    Forward(m.gamma1.rows, Rfft2(ext, m.gamma1), Rfft2(ext, m.gamma2))
  }

  /** The band centres: the midpoint of each pair of consecutive bin edges. */
  function BinCentres(edges: seq<real>): (l: seq<real>)
    ensures |l| == if |edges| == 0 then 0 else |edges| - 1
    ensures forall k | 0 <= k < |l| :: l[k] - edges[k] == edges[k + 1] - l[k]
  {
    if |edges| == 0 then [] else seq(|edges| - 1, k requires 0 <= k < |edges| - 1 => 0.5 * (edges[k] + edges[k + 1]))
  }

  /** For strictly increasing edges, each band centre lies strictly between its two
      edges and the centres are strictly increasing. */
  lemma {:induction false} BinCentresInterleave(edges: seq<real>)
    requires StrictlyIncreasing(edges)
    ensures var l := BinCentres(edges);
      && (forall k | 0 <= k < |l| :: edges[k] < l[k] < edges[k + 1])
      && StrictlyIncreasing(l)
  {
    var l := BinCentres(edges);
    forall k | 0 <= k < |l| ensures edges[k] < l[k] < edges[k + 1] {
      assert edges[k] < edges[k + 1];
    }
    forall j, k | 0 <= j < k < |l| ensures l[j] < l[k] {
      assert l[j] < edges[j + 1] <= edges[k] < l[k];
    }
  }

  predicate StrictlyIncreasing(s: seq<real>) {
    forall j, k | 0 <= j < k < |s| :: s[j] < s[k]
  }

  /** ShearMap.decompose: transform both shear components, rotate to E/B modes with the
      zero cell forced to 0, bin the EE, BB and EB power, and cache the modes only when
      asked to. */
  function Decompose(ext: Externals, m: ShearMap, edges: seq<real>, keepFourier: bool := false): (r: Result<Updated<Spectra>, Error>)
    requires m.Valid()
    ensures r.Ok? <==> DecomposeDefined(m)
    ensures !Rfft2Defined(m.gamma1) ==> r == Err(EmptyFftAxis)
    ensures Rfft2Defined(m.gamma1) && !DecomposeDefined(m) ==> r == Err(FrequencyAxisMismatch)
    ensures r.Ok? ==>
      && r.value.state.Valid()
      && r.value.out.l == BinCentres(edges)
      && r.value.state == (if keepFourier then m.(fourier := Some(ModesOf(ext, m))) else m)
    ensures r.Ok? ==>
      var modes := ModesOf(ext, m);
      && r.value.out.ee == ext.azimuthal(modes.e, modes.e, m.sideAngle, edges)
      && r.value.out.bb == ext.azimuthal(modes.b, modes.b, m.sideAngle, edges)
      && r.value.out.eb == ext.azimuthal(modes.e, modes.b, m.sideAngle, edges)
  {
    if !Rfft2Defined(m.gamma1) then Err(EmptyFftAxis)
    else
      var ft1 := Rfft2(ext, m.gamma1);
      var n := ft1.rows;
      if |RFftFreq(n)| != ft1.cols || |FftFreq(n)| != ft1.rows then Err(FrequencyAxisMismatch)
      else
        var modes := ModesOf(ext, m);
        var spectra := Spectra(
          BinCentres(edges),
          ext.azimuthal(modes.e, modes.e, m.sideAngle, edges),
          ext.azimuthal(modes.b, modes.b, m.sideAngle, edges),
          ext.azimuthal(modes.e, modes.b, m.sideAngle, edges));
        Ok(Updated(spectra, if keepFourier then m.(fourier := Some(modes)) else m))
  }

  /** ShearMap.convergence: fill the cache with a throw-away `decompose` if no E mode is
      cached, then invert the cached E mode alone to real space. The map the call leaves
      behind is returned on every path: when the inverse transform fails after the
      cache was filled, the map keeps the filled cache, as `self` does in the source. */
  function Convergence(ext: Externals, m: ShearMap): (r: Updated<Result<ConvergenceMap, Error>>)
    requires m.Valid()
    ensures r.state.Valid()
    ensures r.out.Ok? ==>
      && r.state.fourier.Some?
      && Irfft2Defined(r.state.fourier.value.e)
      && r.out.value == ConvergenceMap(Irfft2(ext, r.state.fourier.value.e), m.sideAngle)
    ensures m.fourier.Some? ==> r.state == m && (r.out.Ok? <==> Irfft2Defined(m.fourier.value.e))
    ensures m.fourier.None? ==> (r.out.Ok? <==> DecomposeDefined(m) && m.gamma1.cols > 1)
    ensures m.fourier.None? && DecomposeDefined(m) ==> r.state == m.(fourier := Some(ModesOf(ext, m)))
    ensures m.fourier.None? && !DecomposeDefined(m) ==>
      r.state == m && r.out.Err? && Decompose(ext, m, ConvergenceEdges, true) == Err(r.out.error)
    ensures r.out.Err? && (m.fourier.Some? || DecomposeDefined(m)) ==> r.out == Err(EmptyFftAxis)
  {
    var filled :=
      if m.fourier.Some? then Ok(m)
      else match Decompose(ext, m, ConvergenceEdges, true)
        case Ok(u) => Ok(u.state)
        case Err(err) => Err(err);
    match filled
    case Err(err) => Updated(Err(err), m)
    case Ok(cached) =>
      var e := cached.fourier.value.e;
      if !Irfft2Defined(e) then Updated(Err(EmptyFftAxis), cached)
      else Updated(Ok(ConvergenceMap(Irfft2(ext, e), m.sideAngle)), cached)
  }

  /** A 1 x 1 map decomposes, but its E mode has a single column, which irfft2 cannot
      invert: `convergence` fails and still leaves the filled cache on the map. */
  lemma ConvergenceFailsAfterFillingCache(ext: Externals)
    ensures var r := Convergence(ext, Flat(1, 1));
      && r.out == Err(EmptyFftAxis)
      && r.state.fourier.Some?
      && Decompose(ext, Flat(1, 1), ConvergenceEdges, true).Ok?
  {
  }

  /** The convergence map is the inverse transform of the cached E mode alone: replacing
      the cached B mode changes neither whether it succeeds nor what it returns. */
  lemma ConvergenceIgnoresB(ext: Externals, m: ShearMap, b: Array2<Complex>)
    requires m.Valid() && m.fourier.Some? && b.Valid()
    ensures var other := m.(fourier := Some(EBModes(m.fourier.value.e, b)));
      var r := Convergence(ext, m);
      var q := Convergence(ext, other);
      && (r.out.Ok? <==> q.out.Ok?)
      && (r.out.Ok? ==> r.out.value == q.out.value)
  {
  }

  /** Calling `convergence` again on the map the first call left behind neither
      recomputes anything nor changes the result, whether the first call succeeded or
      failed: the cache only ever grows. */
  lemma ConvergenceIsIdempotent(ext: Externals, m: ShearMap)
    requires m.Valid()
    ensures var r := Convergence(ext, m);
      Convergence(ext, r.state) == r
  {
  }

  /** `decompose(..., keep_fourier=True)` with any bin edges (the binning routine being
      total) leaves the map in the state
      `convergence` would have put it in, so the convergence map afterwards is the one it
      would have produced anyway: the edges of that earlier call do not matter. */
  lemma DecomposeKeepingFourierThenConvergence(ext: Externals, m: ShearMap, edges: seq<real>)
    requires m.Valid() && m.fourier.None?
    ensures var d := Decompose(ext, m, edges, true);
      d.Ok? ==> d.value.state.fourier.Some? && Convergence(ext, d.value.state) == Convergence(ext, m)
  {
  }

  /** A map built from E/B modes reconstructs its convergence from the given E mode,
      without decomposing anything. */
  lemma FromEBModesThenConvergence(ext: Externals, e: Array2<Complex>, b: Array2<Complex>, angle: real)
    requires e.Valid() && b.Valid()
    ensures var m := FromEBModes(ext, e, b, angle);
      m.Ok? ==>
        var r := Convergence(ext, m.value);
        && r.out.Ok?
        && r.state == m.value
        && r.out.value == ConvergenceMap(Irfft2(ext, e), angle)
  {
  }

  /** The whole pipeline: a map built by `fromEBmodes` and decomposed again has, at every
      Fourier cell except the zero-frequency one, the E and B modes it was built from,
      provided numpy's forward transform undoes its inverse on the two shear modes. */
  lemma FromEBModesThenDecompose(ext: Externals, e: Array2<Complex>, b: Array2<Complex>, angle: real)
    requires e.Valid() && b.Valid()
    requires FromEBModes(ext, e, b, angle).Ok?
    requires var m := FromEBModes(ext, e, b, angle).value;
      var s := Inverse(e.rows, e, b);
      Rfft2Defined(m.gamma1) && Rfft2(ext, m.gamma1) == s.g1 && Rfft2(ext, m.gamma2) == s.g2
    ensures var m := FromEBModes(ext, e, b, angle).value;
      && DecomposeDefined(m)
      && forall i, j | InLayout(e.rows, i, j) ::
        CellIs(ModesOf(ext, m).e, i, j, WithoutDc(e, i, j)) && CellIs(ModesOf(ext, m).b, i, j, WithoutDc(b, i, j))
  {
    var m := FromEBModes(ext, e, b, angle).value;
    var n := e.rows;
    assert m.gamma1.rows == n && m.gamma1.cols == n;
    assert DecomposeDefined(m);
    InverseThenForward(n, EBModes(e, b));
  }

  /** A 4 x 4 complex E mode is not the half-plane layout of a 4 x 4 map (which has 3
      columns), so `fromEBmodes` rejects it before looking at B. */
  lemma FromEBModesRejectsFullPlaneE(ext: Externals)
    ensures var e := Filled(4, 4);
      var b := Filled(4, 3);
      FromEBModes(ext, e, b) == Err(NotRealFftLayoutE)
  {
  }

  /** Two modes that each have the half-plane layout but of different maps (4 x 3 and
      2 x 2) fail the shape-equality check. */
  lemma FromEBModesRejectsShapeMismatch(ext: Externals)
    ensures FromEBModes(ext, Filled(4, 3), Filled(2, 2)) == Err(ShapeMismatch)
  {
  }

  /** No map with an odd side is accepted: N = 5 would need 3.5 columns. */
  lemma FromEBModesRejectsOddSide(ext: Externals, e: Array2<Complex>, b: Array2<Complex>, angle: real)
    requires e.Valid() && b.Valid() && e.rows % 2 == 1
    ensures FromEBModes(ext, e, b, angle).Err?
  {
  }

  /** The empty map (shape (0, 1)) passes every shape check and then fails in rfftfreq. */
  lemma FromEBModesRejectsEmptyMap(ext: Externals)
    ensures FromEBModes(ext, Filled(0, 1), Filled(0, 1)) == Err(ZeroFrequencyCount)
  {
  }

  /** A complex128 array of the given shape with every entry zero. */
  function Filled(rows: nat, cols: nat): (r: Array2<Complex>)
    ensures r.Valid() && r.dtype == Complex128 && r.rows == rows && r.cols == cols
  {
    Array2(Complex128, rows, cols, seq(rows, _ => seq(cols, _ => Zero)))
  }

  /** `decompose` takes both frequency axes from the row count, and its length check only
      compares rows/2 with cols/2, so a 4 x 5 map gets past it (with the column
      frequencies of a 4-point transform) while a 4 x 6 map is refused. */
  lemma DecomposeAcceptsSomeNonSquareMaps(ext: Externals, edges: seq<real>)
    ensures Decompose(ext, Flat(4, 5), edges).Ok?
    ensures Decompose(ext, Flat(4, 6), edges) == Err(FrequencyAxisMismatch)
  {
  }

  /** A map whose two shear components are zero everywhere, with the default side angle
      and nothing cached. */
  function Flat(rows: nat, cols: nat): (m: ShearMap)
    ensures m.Valid() && m.gamma1.rows == rows && m.gamma1.cols == cols && m.fourier.None?
  {
    var g := Array2(Float64, rows, cols, seq(rows, _ => seq(cols, _ => 0.0)));
    ShearMap(g, g, DefaultSideAngle, None)
  }
}
