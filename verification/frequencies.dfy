/** The frequency grid of an n x (n/2+1) real-FFT layout and the spin-2 rotation
    fields sin(2 phi), cos(2 phi) built from it (lenstools/shear.py, ShearMap). */
module Frequencies {

  /** numpy.arange(lo, hi) scaled by `step`. */
  function Arange(lo: int, hi: int, step: real): seq<real> {
    seq(if lo <= hi then hi - lo else 0, k => (lo + k) as real * step)
  }

  /** numpy.fft.rfftfreq(n): the non-negative sample frequencies of a real FFT of
      length n, in cycles per pixel. numpy divides by n, so n = 0 is an error the
      callers model before calling this. */
  function RFftFreq(n: nat): (r: seq<real>)
    requires n > 0
    ensures |r| == n / 2 + 1
    ensures forall j | 0 <= j < |r| :: r[j] * n as real == j as real
    ensures forall j | 0 <= j < |r| :: 0.0 <= r[j]
    ensures forall j, k | 0 <= j < k < |r| :: r[j] < r[k]
  {
    var r := Arange(0, n / 2 + 1, 1.0 / n as real);
    forall j | 0 <= j < |r| ensures r[j] * n as real == j as real {
      ScaledIndex(r[j], j, n);
    }
    forall j, k | 0 <= j < k < |r| ensures r[j] < r[k] {
      assert r[j] * n as real < r[k] * n as real;
    }
    r
  }

  /** numpy.fft.fftfreq(n): the first (n-1)/2+1 entries count up from 0, the rest
      count up from -(n/2) towards 0, all divided by n. */
  function FftFreq(n: nat): (r: seq<real>)
    requires n > 0
    ensures |r| == n
    ensures forall i | 0 <= i < n :: r[i] * n as real == (if i <= (n - 1) / 2 then i else i - n) as real
  {
    var val := 1.0 / n as real;
    var r := Arange(0, (n - 1) / 2 + 1, val) + Arange(-(n / 2), 0, val);
    forall i | 0 <= i < n
      ensures r[i] * n as real == (if i <= (n - 1) / 2 then i else i - n) as real
    {
      if i <= (n - 1) / 2 {
        ScaledIndex(r[i], i, n);
      } else {
        assert r[i] == (-(n / 2) + (i - ((n - 1) / 2 + 1))) as real * val;
        assert -(n / 2) + (i - ((n - 1) / 2 + 1)) == i - n;
        ScaledIndex(r[i], i - n, n);
      }
    }
    r
  }

  /** An index scaled by 1/n, times n, is the index again. */
  lemma ScaledIndex(x: real, k: int, n: nat)
    requires n > 0
    ensures x == k as real * (1.0 / n as real) ==> x * n as real == k as real
  {
    assert (1.0 / n as real) * n as real == 1.0;
  }

  /** A frequency is determined by its multiple of 1/n. */
  lemma FrequencyOfMultiple(f: real, n: nat, k: int)
    requires n > 0
    requires f * n as real == k as real
    ensures f == k as real / n as real
  {
  }

  /** Every entry of fftfreq(n) is m/n for the unique integer m congruent to the
      index modulo n that lies in [-(n/2), (n-1)/2]: the standard FFT ordering. */
  lemma {:induction false} FftFreqIsCentredResidue(n: nat, i: nat)
    requires 0 <= i < n
    ensures var m := if i <= (n - 1) / 2 then i else i - n;
      && FftFreq(n)[i] == m as real / n as real
      && (m - i) % n == 0
      && -(n / 2) <= m <= (n - 1) / 2
  {
    var m := if i <= (n - 1) / 2 then i else i - n;
    var f := FftFreq(n)[i];
    assert f * n as real == m as real;
    FrequencyOfMultiple(f, n, m);
    CentredResidue(n, i, m);
  }

  lemma CentredResidue(n: nat, i: nat, m: int)
    requires 0 <= i < n && m == if i <= (n - 1) / 2 then i else i - n
    ensures (m - i) % n == 0 && -(n / 2) <= m <= (n - 1) / 2
  {
    if i > (n - 1) / 2 {
      var k: int := n;
      assert m - i == -k;
      assert (-k) % n == 0 by {
        assert -k == (-1) * n;
      }
    }
  }

  /** The non-negative half of fftfreq(n) is the start of rfftfreq(n). */
  lemma {:induction false} FftFreqAgreesWithRFftFreq(n: nat, i: nat)
    requires n > 0 && i <= (n - 1) / 2
    ensures FftFreq(n)[i] == RFftFreq(n)[i]
  {
    FrequencyOfMultiple(FftFreq(n)[i], n, i);
    FrequencyOfMultiple(RFftFreq(n)[i], n, i);
  }

  /** rfftfreq(n) ends at the Nyquist frequency 1/2 when n is even. */
  lemma {:induction false} RFftFreqEndsAtNyquist(n: nat)
    requires n > 0 && n % 2 == 0
    ensures RFftFreq(n)[n / 2] == 0.5
  {
    FrequencyOfMultiple(RFftFreq(n)[n / 2], n, n / 2);
  }

  /** Cell (i, j) of an n x (n/2+1) real-FFT layout: row i of fftfreq, column j of rfftfreq. */
  predicate InLayout(n: nat, i: int, j: int) {
    0 <= i < n && 0 <= j < n / 2 + 1
  }

  function Lx(n: nat, j: nat): (r: real)
    requires n > 0 && j < n / 2 + 1
    ensures r * n as real == j as real
  {
    RFftFreq(n)[j]
  }

  function Ly(n: nat, i: nat): (r: real)
    requires i < n
    ensures r * n as real == (if i <= (n - 1) / 2 then i else i - n) as real
  {
    FftFreq(n)[i]
  }

  /** Only the zero-frequency cell has both frequencies zero. */
  lemma {:induction false} OnlyDcHasZeroFrequency(n: nat, i: nat, j: nat)
    requires InLayout(n, i, j)
    ensures Lx(n, j) == 0.0 && Ly(n, i) == 0.0 <==> i == 0 && j == 0
  {
    var a, b := Lx(n, j), Ly(n, i);
    if a == 0.0 && b == 0.0 {
      assert j == 0;
      assert i == 0;
    }
  }

  /** x^2. Facts about squares are stated through this function so that they carry over
      from one proof to the next. */
  function Sq(x: real): real {
    x * x
  }

  /** A square is never negative, and it is zero only at zero. */
  lemma SquareSign(x: real)
    ensures Sq(x) >= 0.0
    ensures Sq(x) == 0.0 <==> x == 0.0
  {
    calc {
      Sq(x);
      x * x;
    >=
      0.0;
    }
    if x != 0.0 {
      calc {
        Sq(x);
        x * x;
      >
        0.0;
      }
    } else {
      calc {
        Sq(x);
        x * x;
        0.0 * 0.0;
        0.0;
      }
    }
  }

  /** a^2 + b^2. */
  function SumOfSquares(a: real, b: real): real {
    Sq(a) + Sq(b)
  }

  /** A sum of two squares is never negative, and it is zero only when both terms are. */
  lemma SumOfSquaresVanishing(a: real, b: real)
    ensures SumOfSquares(a, b) >= 0.0
    ensures SumOfSquares(a, b) == 0.0 <==> a == 0.0 && b == 0.0
  {
    SquareSign(a);
    SquareSign(b);
  }

  /** l_squared = lx^2 + ly^2, with the zero-frequency cell set to 1 before dividing. */
  function LSquared(n: nat, i: nat, j: nat): (r: real)
    requires InLayout(n, i, j)
    ensures r > 0.0
  {
    if i == 0 && j == 0 then 1.0
    else
      OnlyDcHasZeroFrequency(n, i, j);
      SumOfSquaresVanishing(Lx(n, j), Ly(n, i));
      SumOfSquares(Lx(n, j), Ly(n, i))
  }

  /** (a^2 - b^2) / l: cos(2 phi) of the wave vector (a, b) when l = a^2 + b^2. */
  function Cos2Of(a: real, b: real, l: real): (r: real)
    requires l != 0.0
    ensures r * l == Sq(a) - Sq(b)
  {
    (Sq(a) - Sq(b)) / l
  }

  /** 2ab / l: sin(2 phi) of the wave vector (a, b) when l = a^2 + b^2. */
  function Sin2Of(a: real, b: real, l: real): (r: real)
    requires l != 0.0
    ensures r * l == 2.0 * a * b
  {
    2.0 * a * b / l
  }

  /** sin(2 phi) as `decompose` computes it: the formula alone, no override at the zero
      cell. It is the r with r l^2 = 2 lx ly. */
  function RawSin2Phi(n: nat, i: nat, j: nat): (r: real)
    requires InLayout(n, i, j)
    ensures r * LSquared(n, i, j) == 2.0 * Lx(n, j) * Ly(n, i)
  {
    Sin2Of(Lx(n, j), Ly(n, i), LSquared(n, i, j))
  }

  /** cos(2 phi) as `decompose` computes it: the r with r l^2 = lx^2 - ly^2. */
  function RawCos2Phi(n: nat, i: nat, j: nat): (r: real)
    requires InLayout(n, i, j)
    ensures r * LSquared(n, i, j) == Sq(Lx(n, j)) - Sq(Ly(n, i))
  {
    Cos2Of(Lx(n, j), Ly(n, i), LSquared(n, i, j))
  }

  /** sin(2 phi) as `fromEBmodes` computes it: the zero cell is overwritten with 0, which
      is what the formula gives there anyway. */
  function Sin2Phi(n: nat, i: nat, j: nat): (r: real)
    requires InLayout(n, i, j)
    ensures i == 0 && j == 0 ==> r == 0.0
    ensures r == RawSin2Phi(n, i, j)
  {
    if i == 0 && j == 0 then
      OnlyDcHasZeroFrequency(n, 0, 0);
      0.0
    else
      RawSin2Phi(n, i, j)
  }

  /** cos(2 phi) as `fromEBmodes` computes it: the zero cell is overwritten with 0, which
      is what the formula gives there anyway. */
  function Cos2Phi(n: nat, i: nat, j: nat): (r: real)
    requires InLayout(n, i, j)
    ensures i == 0 && j == 0 ==> r == 0.0
    ensures r == RawCos2Phi(n, i, j)
  {
    if i == 0 && j == 0 then
      OnlyDcHasZeroFrequency(n, 0, 0);
      0.0
    else
      RawCos2Phi(n, i, j)
  }

  /** (a^2 - b^2)^2 + (2ab)^2 = (a^2 + b^2)^2: the polynomial identity behind the unit circle. */
  lemma SquaresIdentity(a: real, b: real)
    ensures Sq(Sq(a) - Sq(b)) + Sq(2.0 * a * b) == Sq(SumOfSquares(a, b))
  {
    calc {
      Sq(Sq(a) - Sq(b)) + Sq(2.0 * a * b);
      (a * a - b * b) * (a * a - b * b) + (2.0 * a * b) * (2.0 * a * b);
      (a * a + b * b) * (a * a + b * b);
      Sq(SumOfSquares(a, b));
    }
  }

  /** (p / l)^2 + (q / l)^2 = 1 when p^2 + q^2 = l^2 and l is not zero. */
  lemma ScaledUnitCircle(p: real, q: real, l: real)
    requires l != 0.0
    requires Sq(p) + Sq(q) == Sq(l)
    ensures Sq(p / l) + Sq(q / l) == 1.0
  {
    var c, s := p / l, q / l;
    SquareSign(l);
    calc {
      (Sq(c) + Sq(s)) * Sq(l);
      (c * l) * (c * l) + (s * l) * (s * l);
      p * p + q * q;
      Sq(p) + Sq(q);
      Sq(l);
      1.0 * Sq(l);
    }
  }

  /** The rotation fields of a non-zero wave vector (a, b) lie on the unit circle. */
  lemma UnitCircle(a: real, b: real)
    requires a != 0.0 || b != 0.0
    ensures SumOfSquares(a, b) > 0.0
    ensures var l := SumOfSquares(a, b);
      Sq(Cos2Of(a, b, l)) + Sq(Sin2Of(a, b, l)) == 1.0
  {
    SumOfSquaresVanishing(a, b);
    SquaresIdentity(a, b);
    ScaledUnitCircle(Sq(a) - Sq(b), 2.0 * a * b, SumOfSquares(a, b));
  }

  /** The raw rotation fields lie on the unit circle away from the zero cell. */
  lemma {:induction false} RawRotationIsOrthogonal(n: nat, i: nat, j: nat)
    requires InLayout(n, i, j) && (i, j) != (0, 0)
    ensures Sq(RawCos2Phi(n, i, j)) + Sq(RawSin2Phi(n, i, j)) == 1.0
  {
    var a, b := Lx(n, j), Ly(n, i);
    OnlyDcHasZeroFrequency(n, i, j);
    assert LSquared(n, i, j) == SumOfSquares(a, b);
    UnitCircle(a, b);
  }

  /** Away from the zero cell l^2 > 0 and the 2x2 rotation [[cos, sin], [-sin, cos]]
      is orthogonal: cos(2 phi)^2 + sin(2 phi)^2 = 1. */
  lemma {:induction false} RotationIsOrthogonal(n: nat, i: nat, j: nat)
    requires InLayout(n, i, j) && (i, j) != (0, 0)
    ensures SumOfSquares(Lx(n, j), Ly(n, i)) > 0.0
    ensures Sq(Cos2Phi(n, i, j)) + Sq(Sin2Phi(n, i, j)) == 1.0
  {
    OnlyDcHasZeroFrequency(n, i, j);
    UnitCircle(Lx(n, j), Ly(n, i));
    RawRotationIsOrthogonal(n, i, j);
  }
}
