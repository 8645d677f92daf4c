/** Colouring of one sector: every pixel's exponent is turned into an RGB colour, either
    by sign alone (binary colouring, also used for unknown modes and for non-finite
    exponents) or by linear interpolation between two neighbouring palette entries.
    Arithmetic is on reals; a failed `assert` of the source is `None`. */
module BlockRenderer {
  import opened Wrappers
  import opened LongDouble
  import opened Png
  import opened Structs
  import opened Sectors

  function MinReal(a: real, b: real): real { if b < a then b else a }
  function MaxReal(a: real, b: real): real { if a < b then b else a }

  /** `std::clamp(v, lo, hi)` */
  function Clamp(v: real, lo: real, hi: real): (r: real)
    ensures lo <= hi ==> lo <= r <= hi
    ensures lo <= v <= hi ==> r == v
  {
    if v < lo then lo else if hi < v then hi else v
  }

  function Ceil(x: real): (c: int)
    ensures x <= c as real < x + 1.0
  {
    if x.Floor as real == x then x.Floor else x.Floor + 1
  }

  /** The last entry of a palette, what `.back()` returns. */
  function Back(palette: seq<Rgb>): Rgb
    requires |palette| > 0
  {
    palette[|palette| - 1]
  }

  /** The sign-only colour: the last positive colour for an exponent `>= 0`, the last
      negative colour otherwise (NaN included). */
  function SignColor(e: Exp, npalette: seq<Rgb>, ppalette: seq<Rgb>): Rgb
    requires |npalette| > 0 && |ppalette| > 0
  {
    if GeZero(e) then Back(ppalette) else Back(npalette)
  }

  /** The normalised exponent: v clamped into its sign's clamp range, divided by the
      sign's normalisation factor (`min(max_pos, upper_pos_clamp)` or
      `max(min_neg, lower_neg_clamp)`). It is `None` where the source's range assertion
      fails: outside [0, 1], and whenever the factor is 0, because an IEEE division by 0
      gives an infinity or NaN. */
  function Normalised(v: real, maxPos: real, minNeg: real, rs: RenderSettings): (q: Option<real>)
    ensures q.Some? ==> 0.0 <= q.value <= 1.0
  {
    var negative := v < 0.0;
    var posFactor := MinReal(maxPos, rs.upperPosClamp);
    var negFactor := MaxReal(minNeg, rs.lowerNegClamp);
    var clamped := if !negative then Clamp(v, rs.lowerPosClamp, rs.upperPosClamp)
                   else Clamp(v, rs.lowerNegClamp, rs.upperNegClamp);
    var factor := if !negative then posFactor else negFactor;
    if factor == 0.0 then None
    else
      var normalised := clamped / factor;
      if 0.0 <= normalised <= 1.0 then Some(normalised) else None
  }

  /** `floor(q * (n - 1))` and `ceil(q * (n - 1)) % n`, the palette entries either side
      of position q along a palette of n colours. */
  function ColorIds(q: real, n: nat): (ids: (int, int))
    requires 0.0 <= q <= 1.0 && n > 0
    ensures 0 <= ids.0 <= ids.1 < n
  {
    var f := q * (n - 1) as real;
    ScaleInUnit(q, (n - 1) as real);
    assert 0 <= f.Floor <= Ceil(f) <= n - 1;
    assert Ceil(f) % n == Ceil(f);
    (f.Floor, Ceil(f) % n)
  }

  lemma ScaleInUnit(q: real, m: real)
    requires 0.0 <= q <= 1.0 && m >= 0.0
    ensures 0.0 <= q * m <= m
  {
  }

  /** One channel: `lower * lf + upper * uf` truncated to a byte. */
  function Mix(lower: Channel, upper: Channel, lf: real, uf: real): (c: Channel)
    requires 0.0 <= lf && 0.0 <= uf && lf + uf <= 1.0
  {
    var x := lower as real * lf + upper as real * uf;
    MixBound(lower as real, upper as real, lf, uf);
    assert x.Floor as real <= x < x.Floor as real + 1.0;
    x.Floor
  }

  lemma MixBound(a: real, b: real, lf: real, uf: real)
    requires 0.0 <= a <= 255.0 && 0.0 <= b <= 255.0
    requires 0.0 <= lf && 0.0 <= uf && lf + uf <= 1.0
    ensures 0.0 <= a * lf + b * uf <= 255.0
  {
    ProductNonNegative(255.0 - a, lf);
    ProductNonNegative(a, lf);
    ProductNonNegative(255.0 - b, uf);
    ProductNonNegative(b, uf);
  }

  /** The interpolation weights as the source computes them: `f - lower_id` for the lower
      colour and `upper_id - f` for the upper one. */
  function Weights(f: real, lowerId: int, upperId: int): (w: (real, real))
  {
    (f - lowerId as real, upperId as real - f)
  }

  /** The linear colour of a finite exponent at normalised position q in a palette. */
  function Interpolate(q: real, palette: seq<Rgb>): Rgb
    requires 0.0 <= q <= 1.0 && |palette| > 0
  {
    var f := q * (|palette| - 1) as real;
    var ids := ColorIds(q, |palette|);
    var w := Weights(f, ids.0, ids.1);
    InterpolationWeights(q, |palette|);
    var lower := palette[ids.0];
    var upper := palette[ids.1];
    Rgb(Mix(lower.red, upper.red, w.0, w.1),
        Mix(lower.green, upper.green, w.0, w.1),
        Mix(lower.blue, upper.blue, w.0, w.1))
  }

  /** The weights are non-negative. Away from palette entries they add up to 1, so the
      colour is a blend of the two neighbours; exactly on an entry both weights are 0. */
  lemma InterpolationWeights(q: real, n: nat)
    requires 0.0 <= q <= 1.0 && n > 0
    ensures var f := q * (n - 1) as real;
            var ids := ColorIds(q, n);
            var w := Weights(f, ids.0, ids.1);
            && 0.0 <= w.0 && 0.0 <= w.1
            && (f.Floor as real == f ==> w.0 == 0.0 && w.1 == 0.0)
            && (f.Floor as real != f ==> w.0 + w.1 == 1.0)
  {
    var f := q * (n - 1) as real;
    var ids := ColorIds(q, n);
    assert ids == (f.Floor, Ceil(f));
    assert f.Floor as real <= f < f.Floor as real + 1.0;
  }

  /** The colour of one pixel (`None` when the source aborts on a failed assertion). */
  function PixelColor(e: Exp, mode: ColoringMode, maxPos: real, minNeg: real, rs: RenderSettings,
                      npalette: seq<Rgb>, ppalette: seq<Rgb>): (c: Option<Rgb>)
    requires |npalette| > 0 && |ppalette| > 0
    ensures mode != Linear || !IsFinite(e) ==> c == Some(SignColor(e, npalette, ppalette))
    ensures mode == Linear && IsFinite(e) ==> (c.Some? <==> Normalised(e.v, maxPos, minNeg, rs).Some?)
  {
    if mode != Linear || !IsFinite(e) then Some(SignColor(e, npalette, ppalette))
    else
      match Normalised(e.v, maxPos, minNeg, rs)
      case None => None
      case Some(q) => Some(Interpolate(q, if e.v < 0.0 then npalette else ppalette))
  }

  // ----------------------------------------------------------------------------------
  // Properties of the linear colouring

  /** An exponent whose position falls exactly on a palette entry, such as one clamped
      to the top of its range or equal to 0, is painted black. */
  lemma OnEntryIsBlack(q: real, palette: seq<Rgb>)
    requires 0.0 <= q <= 1.0 && |palette| > 0
    requires var f := q * (|palette| - 1) as real; f.Floor as real == f
    ensures Interpolate(q, palette) == Black
  {
    InterpolationWeights(q, |palette|);
  }

  /** Between two entries each channel lies between the two neighbours' channels. */
  lemma BetweenEntries(q: real, palette: seq<Rgb>)
    requires 0.0 <= q <= 1.0 && |palette| > 0
    requires var f := q * (|palette| - 1) as real; f.Floor as real != f
    ensures var ids := ColorIds(q, |palette|);
            var c := Interpolate(q, palette);
            ids.1 == ids.0 + 1
            && Within(c.red, palette[ids.0].red, palette[ids.1].red)
            && Within(c.green, palette[ids.0].green, palette[ids.1].green)
            && Within(c.blue, palette[ids.0].blue, palette[ids.1].blue)
  {
    var f := q * (|palette| - 1) as real;
    InterpolationWeights(q, |palette|);
    ScaleInUnit(q, (|palette| - 1) as real);
    var ids := ColorIds(q, |palette|);
    var w := Weights(f, ids.0, ids.1);
    var lower := palette[ids.0];
    var upper := palette[ids.1];
    MixBetween(lower.red, upper.red, w.0, w.1);
    MixBetween(lower.green, upper.green, w.0, w.1);
    MixBetween(lower.blue, upper.blue, w.0, w.1);
  }

  predicate Within(c: int, a: int, b: int)
  {
    (a <= c <= b) || (b <= c <= a)
  }

  lemma MixBetween(a: Channel, b: Channel, lf: real, uf: real)
    requires 0.0 <= lf && 0.0 <= uf && lf + uf == 1.0
    ensures Within(Mix(a, b, lf, uf), a, b)
  {
    var x := a as real * lf + b as real * uf;
    assert x == a as real + (b - a) as real * uf by {
      assert lf == 1.0 - uf;
    }
    if a <= b {
      ProductNonNegative((b - a) as real, uf);
      ProductNonNegative((b - a) as real, 1.0 - uf);
    } else {
      ProductNonNegative((a - b) as real, uf);
      ProductNonNegative((a - b) as real, 1.0 - uf);
    }
    FloorWithin(x, a, b);
  }

  lemma ProductNonNegative(x: real, y: real)
    requires x >= 0.0 && y >= 0.0
    ensures x * y >= 0.0
  {
  }

  lemma FloorWithin(x: real, a: int, b: int)
    requires a as real <= x <= b as real || b as real <= x <= a as real
    ensures Within(x.Floor, a, b)
  {
  }

  /** The range assertion holds for every finite exponent between `min_neg` and
      `max_pos` when the clamp ranges are ordered around 0, the positive range starts
      below `max_pos` and the negative range ends above `min_neg`, and both
      normalisation factors are non-zero. */
  lemma NormalisedDefined(v: real, maxPos: real, minNeg: real, rs: RenderSettings)
    requires minNeg <= v <= maxPos && minNeg < 0.0 < maxPos
    requires 0.0 <= rs.lowerPosClamp <= rs.upperPosClamp && rs.lowerPosClamp <= maxPos && 0.0 < rs.upperPosClamp
    requires rs.lowerNegClamp <= rs.upperNegClamp <= 0.0 && minNeg <= rs.upperNegClamp && rs.lowerNegClamp < 0.0
    ensures Normalised(v, maxPos, minNeg, rs).Some?
  {
    if v < 0.0 {
      var factor := MaxReal(minNeg, rs.lowerNegClamp);
      var clamped := Clamp(v, rs.lowerNegClamp, rs.upperNegClamp);
      assert factor <= clamped <= 0.0;
      DivideNegativeInUnit(clamped, factor);
    } else {
      var factor := MinReal(maxPos, rs.upperPosClamp);
      var clamped := Clamp(v, rs.lowerPosClamp, rs.upperPosClamp);
      assert 0.0 <= clamped <= factor;
      DivideInUnit(clamped, factor);
    }
  }

  lemma DivideNegativeInUnit(a: real, b: real)
    requires b <= a <= 0.0 && b < 0.0
    ensures 0.0 <= a / b <= 1.0
  {
    assert a / b * b == a;
  }

  lemma DivideInUnit(a: real, b: real)
    requires 0.0 <= a <= b && b > 0.0
    ensures 0.0 <= a / b <= 1.0
  {
    assert a / b * b == a;
  }

  // ----------------------------------------------------------------------------------
  // The sector loop

  /** Whether every pixel of the sector has a colour (no assertion fails in it). */
  predicate SectorColors(sec: Sector, exps: array2<Exp>, mode: ColoringMode, maxPos: real, minNeg: real,
                         rs: RenderSettings, npalette: seq<Rgb>, ppalette: seq<Rgb>)
    requires |npalette| > 0 && |ppalette| > 0
    requires sec.endY <= exps.Length0 && sec.endX <= exps.Length1
    reads exps
  {
    forall y, x :: sec.startY <= y < sec.endY && sec.startX <= x < sec.endX ==>
      PixelColor(exps[y, x], mode, maxPos, minNeg, rs, npalette, ppalette).Some?
  }

  /** `block_renderer`: colours the pixels of the sector column by column. If a pixel's
      assertion fails it stops and reports it; otherwise every pixel of the sector holds
      its colour. No pixel outside the sector changes. Rows of both matrices are y,
      columns x. */
  method ColorSector(sec: Sector, maxPos: real, minNeg: real, exps: array2<Exp>, img: array2<Rgb>,
                     mode: ColoringMode, rs: RenderSettings, npalette: seq<Rgb>, ppalette: seq<Rgb>)
    returns (ok: bool)
    requires |npalette| > 0 && |ppalette| > 0
    requires sec.endY <= img.Length0 == exps.Length0 && sec.endX <= img.Length1 == exps.Length1
    modifies img
    ensures ok <==> SectorColors(sec, exps, mode, maxPos, minNeg, rs, npalette, ppalette)
    ensures ok ==> forall y, x :: Contains(sec, x, y) ==>
                     Some(img[y, x]) == PixelColor(exps[y, x], mode, maxPos, minNeg, rs, npalette, ppalette)
    ensures forall y, x :: 0 <= y < img.Length0 && 0 <= x < img.Length1 && !Contains(sec, x, y) ==>
              img[y, x] == old(img[y, x])
  {
    var x := sec.startX;
    while x < sec.endX
      invariant sec.startX <= x <= sec.endX || (sec.endX < sec.startX && x == sec.startX)
      invariant forall yy, xx :: Contains(sec, xx, yy) && xx < x ==>
                  Some(img[yy, xx]) == PixelColor(exps[yy, xx], mode, maxPos, minNeg, rs, npalette, ppalette)
      invariant forall yy, xx :: 0 <= yy < img.Length0 && 0 <= xx < img.Length1 && !(Contains(sec, xx, yy) && xx < x) ==>
                  img[yy, xx] == old(img[yy, xx])
    {
      var y := sec.startY;
      while y < sec.endY
        invariant sec.startY <= y <= sec.endY || (sec.endY < sec.startY && y == sec.startY)
        invariant forall yy, xx :: Contains(sec, xx, yy) && (xx < x || (xx == x && yy < y)) ==>
                    Some(img[yy, xx]) == PixelColor(exps[yy, xx], mode, maxPos, minNeg, rs, npalette, ppalette)
        invariant forall yy, xx :: 0 <= yy < img.Length0 && 0 <= xx < img.Length1
                                   && !(Contains(sec, xx, yy) && (xx < x || (xx == x && yy < y))) ==>
                    img[yy, xx] == old(img[yy, xx])
      {
        var currentPixel := PixelColor(exps[y, x], mode, maxPos, minNeg, rs, npalette, ppalette);
        if currentPixel.None? {
          return false;
        }
        img[y, x] := currentPixel.value;
        y := y + 1;
      }
      x := x + 1;
    }
    return true;
  }
}
