/** Pixels and the 0..65535 space that absolute positions travel in: the truncating pair of the
    Go side, the rounding pair of the browser, and the agent's mapping onto the capture
    rectangle. The browser's numbers are modelled as reals. */
module Coordinates {
  import opened Basics

  const FULL: nat := 65535

  // ------------------------------------------------------------------- the Go pair

  function Clamp(p: int, size: int): (c: nat)
    requires size > 1
    ensures c < size
  {
    if p < 0 then 0 else if p > size - 1 then size - 1 else p
  }

  function Normalize(pixel: int, size: int): nat {
    if size <= 1 then 0 else Clamp(pixel, size) * FULL / (size - 1)
  }

  function Denormalize(norm: nat, size: int): int {
    if size <= 1 then 0 else (norm * (size - 1) + 32767) / FULL
  }

  lemma QuotientBounds(a: nat, m: nat, q: nat)
    requires m > 0 && q == a / m
    ensures q * m <= a < q * m + m && a % m == a - q * m
  {
  }

  lemma QuotientIs(a: nat, m: nat, q: nat)
    requires m > 0 && q * m <= a < q * m + m
    ensures a / m == q
  {
    var d := a / m;
    QuotientBounds(a, m, d);
    if d < q {
      MulGrows(d + 1, q, m);
    } else if d > q {
      MulGrows(q + 1, d, m);
    }
  }

  lemma MulGrows(x: int, y: int, m: nat)
    requires x <= y
    ensures x * m <= y * m
  {
    assert y * m - x * m == (y - x) * m;
  }

  // The Go pair gives a pixel back exactly when the division lost at most 32767 parts.
  lemma InvertsExactly(p: nat, size: nat)
    requires size >= 2 && p < size
    ensures Denormalize(Normalize(p, size), size) == p <==> p * FULL % (size - 1) <= 32767
  {
    var m := size - 1;
    var n := p * FULL / m;
    QuotientBounds(p * FULL, m, n);
    var r := p * FULL % m;
    assert n * m + 32767 == p * FULL - r + 32767;
    if r <= 32767 {
      QuotientIs(n * m + 32767, FULL, p);
    } else {
      QuotientBounds(n * m + 32767, FULL, (n * m + 32767) / FULL);
    }
  }

  // So every pixel of a surface up to 32769 wide comes back.
  lemma SmallSurfacesInvert(p: nat, size: nat)
    requires 2 <= size <= 32769 && p < size
    ensures Denormalize(Normalize(p, size), size) == p
  {
    InvertsExactly(p, size);
    QuotientBounds(p * FULL, size - 1, p * FULL / (size - 1));
  }

  // Three pixels wider that is no longer so.
  lemma WideSurfaceLosesAPixel()
    ensures Denormalize(Normalize(23408, 32772), 32772) == 23407
  {
    assert 23408 * 65535 / 32771 == 46810;
  }

  // Order is kept, out-of-range pixels included, and the result fits 16 bits.
  lemma NormalizeIsMonotone(p: int, q: int, size: int)
    requires p <= q
    ensures Normalize(p, size) <= Normalize(q, size) <= FULL
  {
    if size > 1 {
      var m := size - 1;
      var a, b := Clamp(p, size), Clamp(q, size);
      QuotientBounds(a * FULL, m, a * FULL / m);
      QuotientBounds(b * FULL, m, b * FULL / m);
      QuotientsOrdered(a * FULL, b * FULL, m);
      QuotientsOrdered(b * FULL, m * FULL, m);
      QuotientIs(m * FULL, m, FULL);
    }
  }

  lemma QuotientsOrdered(a: nat, b: nat, m: nat)
    requires a <= b && m > 0
    ensures a / m <= b / m
  {
    QuotientBounds(a, m, a / m);
    QuotientBounds(b, m, b / m);
    if a / m > b / m {
      MulGrows(b / m + 1, a / m, m);
    }
  }

  // ---------------------------------------------------------------- the browser's pair

  function ClampReal(x: real, size: int): real
    requires size > 1
  {
    if x < 0.0 then 0.0 else if x > (size - 1) as real then (size - 1) as real else x
  }

  function JsNormalize(pixel: real, size: int): int {
    if size <= 1 then 0 else Round(ClampReal(pixel, size) * 65535.0 / (size - 1) as real)
  }

  function JsDenormalize(norm: int, size: int): int {
    if size <= 1 then 0 else Round(norm as real * (size - 1) as real / 65535.0)
  }

  lemma Divide(a: real, m: real)
    requires m > 0.0
    ensures a / m * m == a
  {
  }

  lemma MulRealGrows(x: real, y: real, m: real)
    requires x <= y && m > 0.0
    ensures x * m <= y * m
  {
  }

  lemma MulRealGrowsStrictly(x: real, y: real, m: real)
    requires x < y && m > 0.0
    ensures x * m < y * m
  {
  }

  // Rounding a quotient is off by at most half the divisor.
  lemma RoundedQuotient(a: real, m: real)
    requires m > 0.0
    ensures var k := Round(a / m) as real; a - 0.5 * m < k * m <= a + 0.5 * m
  {
    hide Round;
    Divide(a, m);
    RoundIsNear(a / m);
    NearTimes(a / m, Round(a / m) as real, a, m);
  }

  lemma RoundIsNear(q: real)
    ensures -0.5 < Round(q) as real - q <= 0.5
  {
  }

  lemma Spread(x: real, y: real, m: real)
    ensures (x + y) * m == x * m + y * m
  {
  }

  lemma NearTimes(q: real, k: real, a: real, m: real)
    requires -0.5 < k - q <= 0.5 && m > 0.0 && q * m == a
    ensures a - 0.5 * m < k * m <= a + 0.5 * m
  {
    MulRealGrowsStrictly(q - 0.5, k, m);
    Spread(q, -0.5, m);
    MulRealGrows(k, q + 0.5, m);
    Spread(q, 0.5, m);
  }

  lemma QuotientSign(a: real, m: real)
    requires m > 0.0 && a >= 0.0
    ensures a / m >= 0.0
  {
    Divide(a, m);
  }

  lemma QuotientOfDifference(a: real, b: real, m: real)
    requires m > 0.0
    ensures (a - b) / m == a / m - b / m
  {
  }

  // What goes out fits 16 bits.
  lemma JsNormalizeFits(x: real, size: int)
    ensures 0 <= JsNormalize(x, size) <= 65535
  {
    if size > 1 {
      var m := (size - 1) as real;
      var a := ClampReal(x, size) * 65535.0;
      QuotientSign(a, m);
      QuotientSign(65535.0 * m - a, m);
      QuotientOfDifference(65535.0 * m, a, m);
      WholeQuotient(65535.0, m);
    }
  }

  // The browser's pair gives every pixel back on surfaces up to 65536 wide.
  lemma JsInverts(p: nat, size: nat)
    requires 2 <= size <= 65536 && p < size
    ensures JsDenormalize(JsNormalize(p as real, size), size) == p
  {
    hide Round, JsNormalize, JsDenormalize;
    var k := JsNormalize(p as real, size);
    var m := (size - 1) as real;
    var a := p as real * 65535.0;
    if size == 65536 {
      FullWidth(p);
      DenormalizesTo(k, size, p);
    } else {
      WholePixel(p, size);
      assert m <= 65534.0;
      RoundedQuotient(a, m);
      DenormalizesTo(k, size, p);
    }
  }

  // At full width pixels are numbered as they are.
  lemma FullWidth(p: nat)
    requires p < 65536
    ensures JsNormalize(p as real, 65536) == p
  {
    var x := p as real;
    assert ClampReal(x, 65536) == x;
    assert x * 65535.0 / (65536 - 1) as real == x;
  }

  lemma WholePixel(p: nat, size: nat)
    requires 2 <= size && p < size
    ensures JsNormalize(p as real, size) == Round(p as real * 65535.0 / (size - 1) as real)
  {
    hide Round;
    assert p as real <= (size - 1) as real;
  }

  lemma WholeQuotient(x: real, m: real)
    requires m > 0.0
    ensures x * m / m == x
  {
  }

  lemma DenormalizesTo(k: int, size: nat, p: int)
    requires size >= 2
    requires p as real * 65535.0 - 32767.5 <= k as real * (size - 1) as real < p as real * 65535.0 + 32767.5
    ensures JsDenormalize(k, size) == p
  {
  }

  // On wider ones some pixel does not come back: there are fewer numbers than pixels.
  ghost predicate JsInvertsAll(size: nat) { forall p: nat | p < size :: JsComesBack(p, size) }

  predicate JsComesBack(p: nat, size: nat) { JsDenormalize(JsNormalize(p as real, size), size) == p }

  lemma JsNormalizeIsMonotone(x: real, y: real, size: int)
    requires x <= y
    ensures JsNormalize(x, size) <= JsNormalize(y, size)
  {
    if size > 1 {
      var m := (size - 1) as real;
      var a, b := ClampReal(x, size) * 65535.0, ClampReal(y, size) * 65535.0;
      QuotientSign(b - a, m);
      QuotientOfDifference(b, a, m);
    }
  }

  lemma {:induction false} DistinctNumbers(size: nat, p: nat)
    requires JsInvertsAll(size) && p < size
    ensures JsNormalize(p as real, size) >= p
  {
    hide JsNormalize, JsDenormalize;
    JsNormalizeFits(p as real, size);
    if p > 0 {
      DistinctNumbers(size, p - 1);
      JsNormalizeIsMonotone((p - 1) as real, p as real, size);
      assert JsComesBack(p - 1, size) && JsComesBack(p, size);
    }
  }

  // The browser's pair gives every pixel of a surface back exactly up to 65536.
  lemma JsInvertsExactly(size: nat)
    requires size >= 2
    ensures JsInvertsAll(size) <==> size <= 65536
  {
    hide JsNormalize, JsDenormalize;
    if size <= 65536 {
      forall p: nat | p < size ensures JsComesBack(p, size) {
        JsInverts(p, size);
      }
    }
    if JsInvertsAll(size) {
      DistinctNumbers(size, size - 1);
      JsNormalizeFits((size - 1) as real, size);
    }
  }

  // ------------------------------------------------------ the agent's own mapping

  // The pixel of the capture rectangle that a position on the wire stands for.
  function Captured(left: int, width: nat, norm: nat): int
    requires width >= 1
  {
    left + norm * (width - 1) / FULL
  }

  // Never outside the rectangle, and in the same order.
  lemma CapturedInside(left: int, width: nat, norm: nat)
    requires width >= 1 && norm <= FULL
    ensures left <= Captured(left, width, norm) < left + width
  {
    QuotientsOrdered(norm * (width - 1), FULL * (width - 1), FULL) by {
      MulGrows(norm, FULL, width - 1);
    }
    QuotientIs(FULL * (width - 1), FULL, width - 1);
  }

  lemma WholeProduct(n: int, m: int)
    ensures (n * m) as real == n as real * m as real
  {
  }

  // Less than a pixel's worth either way, and whole.
  lemma WithinOne(y: int, p: int, c: real, m: real)
    requires c * 65535.0 - 0.5 * m < y as real <= c * 65535.0 + 0.5 * m && m <= 65535.0
    requires c - 0.5 < p as real <= c + 0.5
    ensures (p - 1) * FULL <= y < (p + 1) * FULL
  {
    assert ((p - 1) * FULL) as real == (p as real - 1.0) * 65535.0;
    assert ((p + 1) * FULL) as real == (p as real + 1.0) * 65535.0;
  }

  // Rounding to the wire is off by less than a pixel's worth.
  lemma NearTheNearest(width: nat, x: real)
    requires 2 <= width <= 65536
    ensures var n := JsNormalize(x, width); var nearest := Round(ClampReal(x, width));
      0 <= nearest && (nearest - 1) * FULL <= n * (width - 1) < (nearest + 1) * FULL
  {
    var m := width - 1;
    var n := JsNormalize(x, width);
    var c := ClampReal(x, width);
    JsNormalizeIs(x, width);
    hide Round, ClampReal, JsNormalize;
    Clamped(x, width);
    Rounded(c);
    RoundedQuotient(c * 65535.0, m as real);
    WholeProduct(n, m);
    WithinOne(n * m, Round(c), c, m as real);
  }

  lemma JsNormalizeIs(x: real, width: nat)
    requires width >= 2
    ensures JsNormalize(x, width) == Round(ClampReal(x, width) * 65535.0 / (width - 1) as real)
  {
    hide Round, ClampReal;
  }

  lemma Clamped(x: real, width: nat)
    requires width >= 2
    ensures 0.0 <= ClampReal(x, width) <= (width - 1) as real
  {
  }

  lemma Rounded(c: real)
    requires c >= 0.0
    ensures Round(c) >= 0 && c - 0.5 < Round(c) as real <= c + 0.5
  {
  }

  // The pixel of the picture nearest to a pointer.
  function Nearest(x: real, width: nat): int {
    if width <= 1 then 0 else Round(ClampReal(x, width))
  }

  // ---------------------------------------------------- whatever the stream's width

  function ClampUnit(f: real): real { if f < 0.0 then 0.0 else if f > 1.0 then 1.0 else f }

  // What goes out for a pointer that far across the picture.
  function Sent(f: real): int { Round(ClampUnit(f) * 65535.0) }

  lemma ScaledClamp(f: real, m: real, size: int)
    requires size > 1 && m == (size - 1) as real
    ensures ClampReal(f * m, size) == ClampUnit(f) * m
  {
    if f < 0.0 {
      MulRealGrowsStrictly(f, 0.0, m);
    } else if f > 1.0 {
      MulRealGrowsStrictly(1.0, f, m);
    } else {
      MulRealGrows(0.0, f, m);
      MulRealGrows(f, 1.0, m);
    }
  }

  lemma Swapped(x: real, y: real, z: real)
    ensures x * y * z == x * z * y
  {
  }

  // The position on the wire does not depend on the stream's width.
  lemma SameForEveryStream(f: real, stream: nat)
    requires stream >= 2
    ensures JsNormalize(f * (stream - 1) as real, stream) == Sent(f)
  {
    hide Round;
    var m := (stream - 1) as real;
    ScaledClamp(f, m, stream);
    hide ClampReal, ClampUnit;
    Swapped(ClampUnit(f), m, 65535.0);
    WholeQuotient(ClampUnit(f) * 65535.0, m);
  }

  lemma SentFits(f: real)
    ensures 0 <= Sent(f) <= FULL
  {
  }

  // The pixel of the rectangle nearest to a pointer that far across it.
  function NearestAcross(f: real, width: nat): int
    requires width >= 1
  {
    Nearest(f * (width - 1) as real, width)
  }

  // A pointer anywhere on the picture, however wide the stream it is shown at, lands on the pixel
  // of the capture rectangle nearest to it or on the one before, and on the nearest exactly when
  // the browser's rounding did not go below it.
  lemma LandsNextToTheNearest(left: int, width: nat, stream: nat, f: real)
    requires 1 <= width <= 65536 && stream >= 2
    ensures var n := JsNormalize(f * (stream - 1) as real, stream); var nearest := NearestAcross(f, width);
      && 0 <= n <= FULL
      && (Captured(left, width, n) == left + nearest || Captured(left, width, n) == left + nearest - 1)
      && (Captured(left, width, n) == left + nearest <==> n * (width - 1) >= nearest * FULL)
  {
    hide JsNormalize, Round, ClampReal, Sent;
    SameForEveryStream(f, stream);
    SentFits(f);
    var m, n, p := width - 1, Sent(f), NearestAcross(f, width);
    if width == 1 {
      assert n * m == 0;
    } else {
      SameForEveryStream(f, width);
      var x := f * (width - 1) as real;
      assert p == Round(ClampReal(x, width));
      NearTheNearest(width, x);
      if n * m >= p * FULL {
        QuotientIs(n * m, FULL, p);
      } else if p > 0 {
        QuotientIs(n * m, FULL, p - 1);
      }
    }
  }

  ghost predicate AlwaysLandsNear(width: nat)
    requires width >= 1
  {
    forall f: real, stream: nat | stream >= 2 :: LandsNear(f, stream, width)
  }

  predicate LandsNear(f: real, stream: nat, width: nat)
    requires width >= 1
  {
    var n := JsNormalize(f * (stream - 1) as real, stream);
    n >= 0 && NearestAcross(f, width) - 1 <= Captured(0, width, n) <= NearestAcross(f, width)
  }

  // That holds of every pointer and every stream exactly on rectangles up to 65536 wide; on wider
  // ones one half a step short of the far edge lands a pixel too far.
  lemma LandsNearExactly(width: nat)
    requires width >= 1
    ensures AlwaysLandsNear(width) <==> width <= 65536
  {
    if width <= 65536 {
      forall f: real, stream: nat | stream >= 2 ensures LandsNear(f, stream, width) {
        hide JsNormalize, NearestAcross, Captured;
        LandsNextToTheNearest(0, width, stream, f);
      }
    } else {
      var f := 65534.5 / 65535.0;
      HalfAStepShort(width, 2);
      assert !LandsNear(f, 2, width);
    }
  }

  lemma HalfAStepShort(width: nat, stream: nat)
    requires width > 65536 && stream >= 2
    ensures !LandsNear(65534.5 / 65535.0, stream, width)
  {
    var f := 65534.5 / 65535.0;
    SameForEveryStream(f, stream);
    assert Sent(f) == 65535;
    QuotientIs(FULL * (width - 1), FULL, width - 1);
    assert Captured(0, width, FULL) == width - 1;
    var m := (width - 1) as real;
    var x := f * m;
    assert m >= 65536.0;
    assert 0.0 <= x <= m && x + 0.5 < m;
    assert ClampReal(x, width) == x;
    assert NearestAcross(f, width) < width - 1;
  }
}
