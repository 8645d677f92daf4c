/** The two sector phases of `render` and the specification of its outcome. Phase one
    fills the exponent matrix sector by sector with the exponents of the external
    calculator; phase two colours the image sector by sector from the matrix. The
    thread pool is replaced by a loop over the sector list in list order. */
module Rendering {
  import opened Wrappers
  import opened LongDouble
  import opened Png
  import opened Structs
  import opened Sectors
  import opened Statistics
  import opened BlockRenderer
  import opened Crosshair

  /** The exponent matrix the calculator defines for a width x height image: row y,
      column x holds `exponent(x, y)`. */
  function ExponentRows(width: nat, height: nat, exponent: (nat, nat) -> Exp): (rows: seq<seq<Exp>>)
    ensures |rows| == height && forall y :: 0 <= y < height ==> |rows[y]| == width
  {
    seq(height, (y: int) requires 0 <= y < height => seq(width, (x: int) requires 0 <= x < width => exponent(x, y)))
  }

  /** The rows of a matrix held in an array, as values. */
  function Rows(a: array2<Exp>): (rows: seq<seq<Exp>>)
    reads a
    ensures |rows| == a.Length0 && forall y :: 0 <= y < a.Length0 ==> |rows[y]| == a.Length1
    ensures forall y, x :: 0 <= y < a.Length0 && 0 <= x < a.Length1 ==> rows[y][x] == a[y, x]
  {
    seq(a.Length0, (y: int) requires 0 <= y < a.Length0 reads a =>
      seq(a.Length1, (x: int) requires 0 <= x < a.Length1 reads a => a[y, x]))
  }

  /** A matrix whose every cell holds its pixel's exponent has the calculator's rows. */
  lemma RowsOfComputed(a: array2<Exp>, width: nat, height: nat, exponent: (nat, nat) -> Exp)
    requires a.Length0 == height && a.Length1 == width
    requires forall y: nat, x: nat :: y < height && x < width ==> a[y, x] == exponent(x, y)
    ensures Rows(a) == ExponentRows(width, height, exponent)
  {
    var rows, expected := Rows(a), ExponentRows(width, height, exponent);
    forall y | 0 <= y < height
      ensures rows[y] == expected[y]
    {
      assert forall x :: 0 <= x < width ==> rows[y][x] == expected[y][x];
    }
  }

  /** The block exponent calculator on one sector: it writes the exponent of each pixel
      of the sector and nothing else. Its inner order is not part of this model. */
  method FillSector(sec: Sector, exps: array2<Exp>, exponent: (nat, nat) -> Exp)
    requires sec.endY <= exps.Length0 && sec.endX <= exps.Length1
    modifies exps
    ensures forall y, x :: 0 <= y < exps.Length0 && 0 <= x < exps.Length1 ==>
              exps[y, x] == if Contains(sec, x, y) then exponent(x, y) else old(exps[y, x])
  {
    forall y, x | 0 <= y < exps.Length0 && 0 <= x < exps.Length1 && Contains(sec, x, y) {
      exps[y, x] := exponent(x, y);
    }
  }

  /** The sectors lie inside a matrix of the given size. */
  predicate InsideAll(sectors: seq<Sector>, rows: nat, cols: nat)
  {
    forall k :: 0 <= k < |sectors| ==> sectors[k].endY <= rows && sectors[k].endX <= cols
  }

  /** A sector list with one more sector covers what the shorter list covers and that
      sector. */
  lemma CoverageSnoc(sectors: seq<Sector>, sec: Sector, x: nat, y: nat)
    ensures Coverage(sectors + [sec], x, y) > 0 <==> Coverage(sectors, x, y) > 0 || Contains(sec, x, y)
  {
    CoverageConcat(sectors, [sec], x, y);
    assert [sec][1..] == [];
  }

  /** A covered pixel lies in some sector of the list. */
  lemma {:induction false} CoveredBySome(sectors: seq<Sector>, x: nat, y: nat)
    requires Coverage(sectors, x, y) > 0
    ensures exists k :: 0 <= k < |sectors| && Contains(sectors[k], x, y)
  {
    if !Contains(sectors[0], x, y) {
      CoveredBySome(sectors[1..], x, y);
      var k :| 0 <= k < |sectors[1..]| && Contains(sectors[1..][k], x, y);
      assert Contains(sectors[k + 1], x, y);
    }
  }

  /** Phase one: the calculator run on every sector of the list. A pixel covered by some
      sector holds its exponent; every other cell keeps its value. */
  method ComputeExponents(sectors: seq<Sector>, exps: array2<Exp>, exponent: (nat, nat) -> Exp)
    requires InsideAll(sectors, exps.Length0, exps.Length1)
    modifies exps
    ensures forall y, x :: 0 <= y < exps.Length0 && 0 <= x < exps.Length1 ==>
              exps[y, x] == if Coverage(sectors, x, y) > 0 then exponent(x, y) else old(exps[y, x])
  {
    var k := 0;
    while k < |sectors|
      invariant 0 <= k <= |sectors|
      invariant forall y, x :: 0 <= y < exps.Length0 && 0 <= x < exps.Length1 ==>
                  exps[y, x] == if Coverage(sectors[..k], x, y) > 0 then exponent(x, y) else old(exps[y, x])
    {
      FillSector(sectors[k], exps, exponent);
      forall y: nat, x: nat | y < exps.Length0 && x < exps.Length1
        ensures Coverage(sectors[..k + 1], x, y) > 0 <==> Coverage(sectors[..k], x, y) > 0 || Contains(sectors[k], x, y)
      {
        assert sectors[..k + 1] == sectors[..k] + [sectors[k]];
        CoverageSnoc(sectors[..k], sectors[k], x, y);
      }
      k := k + 1;
    }
    assert sectors[..k] == sectors;
  }

  /** Steps zero and one of `render`: the exponent matrix allocated with zeros, the sector
      list built, and every sector's exponents computed. Since the sectors partition the
      image, every cell ends up holding its pixel's exponent. */
  method ComputeMatrix(width: nat, height: nat, maxSectorSize: nat, exponent: (nat, nat) -> Exp)
    returns (sectors: seq<Sector>, exps: array2<Exp>)
    requires maxSectorSize > 0
    ensures sectors == Grid(width, height, maxSectorSize) && InsideAll(sectors, height, width)
    ensures fresh(exps) && exps.Length0 == height && exps.Length1 == width
    ensures forall y: nat, x: nat :: y < height && x < width ==> exps[y, x] == exponent(x, y)
  {
    exps := new Exp[height, width]((y, x) => Fin(0.0));
    sectors := MakeSectors(width, height, maxSectorSize);
    GridWellFormed(width, height, maxSectorSize);
    ComputeExponents(sectors, exps, exponent);
    forall y: nat, x: nat | y < height && x < width
      ensures exps[y, x] == exponent(x, y)
    {
      GridPartitionsImage(width, height, maxSectorSize, x, y);
    }
  }

  /** Whether every sector of the list can be coloured. */
  predicate AllSectorsColor(sectors: seq<Sector>, exps: array2<Exp>, mode: ColoringMode, maxPos: real, minNeg: real,
                            rs: RenderSettings, npalette: seq<Rgb>, ppalette: seq<Rgb>)
    requires |npalette| > 0 && |ppalette| > 0
    requires InsideAll(sectors, exps.Length0, exps.Length1)
    reads exps
  {
    forall k :: 0 <= k < |sectors| ==> SectorColors(sectors[k], exps, mode, maxPos, minNeg, rs, npalette, ppalette)
  }

  /** Phase two: `block_renderer` run on every sector of the list. It fails as soon as
      one sector fails; when it succeeds every covered pixel holds its colour, and every
      pixel no sector covers is unchanged. */
  method ColorSectors(sectors: seq<Sector>, maxPos: real, minNeg: real, exps: array2<Exp>, img: array2<Rgb>,
                      mode: ColoringMode, rs: RenderSettings, npalette: seq<Rgb>, ppalette: seq<Rgb>)
    returns (ok: bool)
    requires |npalette| > 0 && |ppalette| > 0
    requires img.Length0 == exps.Length0 && img.Length1 == exps.Length1
    requires InsideAll(sectors, exps.Length0, exps.Length1)
    modifies img
    ensures ok <==> AllSectorsColor(sectors, exps, mode, maxPos, minNeg, rs, npalette, ppalette)
    ensures ok ==> forall y, x :: 0 <= y < img.Length0 && 0 <= x < img.Length1 && Coverage(sectors, x, y) > 0 ==>
                     Some(img[y, x]) == PixelColor(exps[y, x], mode, maxPos, minNeg, rs, npalette, ppalette)
    ensures forall y, x :: 0 <= y < img.Length0 && 0 <= x < img.Length1 && Coverage(sectors, x, y) == 0 ==>
              img[y, x] == old(img[y, x])
  {
    var k := 0;
    while k < |sectors|
      invariant 0 <= k <= |sectors|
      invariant forall j :: 0 <= j < k ==> SectorColors(sectors[j], exps, mode, maxPos, minNeg, rs, npalette, ppalette)
      invariant forall y, x :: 0 <= y < img.Length0 && 0 <= x < img.Length1 && Coverage(sectors[..k], x, y) > 0 ==>
                  Some(img[y, x]) == PixelColor(exps[y, x], mode, maxPos, minNeg, rs, npalette, ppalette)
      invariant forall y, x :: 0 <= y < img.Length0 && 0 <= x < img.Length1 && Coverage(sectors[..k], x, y) == 0 ==>
                  img[y, x] == old(img[y, x])
    {
      var done := ColorSector(sectors[k], maxPos, minNeg, exps, img, mode, rs, npalette, ppalette);
      if !done {
        forall y: nat, x: nat | y < img.Length0 && x < img.Length1 && Coverage(sectors, x, y) == 0
          ensures img[y, x] == old(img[y, x])
        {
          assert sectors == sectors[..k] + [sectors[k]] + sectors[k + 1..];
          CoverageConcat(sectors[..k] + [sectors[k]], sectors[k + 1..], x, y);
          CoverageSnoc(sectors[..k], sectors[k], x, y);
        }
        return false;
      }
      forall y: nat, x: nat | y < img.Length0 && x < img.Length1
        ensures Coverage(sectors[..k + 1], x, y) > 0 ==>
                  Some(img[y, x]) == PixelColor(exps[y, x], mode, maxPos, minNeg, rs, npalette, ppalette)
        ensures Coverage(sectors[..k + 1], x, y) == 0 ==> img[y, x] == old(img[y, x])
      {
        assert sectors[..k + 1] == sectors[..k] + [sectors[k]];
        CoverageSnoc(sectors[..k], sectors[k], x, y);
      }
      k := k + 1;
    }
    assert sectors[..k] == sectors;
    return true;
  }

  /** Over the sector grid of an image, every sector colours exactly when every pixel of
      the image does. */
  lemma GridColors(width: nat, height: nat, s: nat, exps: array2<Exp>, mode: ColoringMode, maxPos: real,
                   minNeg: real, rs: RenderSettings, npalette: seq<Rgb>, ppalette: seq<Rgb>)
    requires s > 0 && |npalette| > 0 && |ppalette| > 0
    requires exps.Length0 == height && exps.Length1 == width
    requires InsideAll(Grid(width, height, s), height, width)
    ensures AllSectorsColor(Grid(width, height, s), exps, mode, maxPos, minNeg, rs, npalette, ppalette)
            <==> forall y, x :: 0 <= y < height && 0 <= x < width ==>
                   PixelColor(exps[y, x], mode, maxPos, minNeg, rs, npalette, ppalette).Some?
  {
    var sectors := Grid(width, height, s);
    if AllSectorsColor(sectors, exps, mode, maxPos, minNeg, rs, npalette, ppalette) {
      forall y, x | 0 <= y < height && 0 <= x < width
        ensures PixelColor(exps[y, x], mode, maxPos, minNeg, rs, npalette, ppalette).Some?
      {
        GridPartitionsImage(width, height, s, x, y);
        CoveredBySome(sectors, x, y);
        var k :| 0 <= k < |sectors| && Contains(sectors[k], x, y);
        assert SectorColors(sectors[k], exps, mode, maxPos, minNeg, rs, npalette, ppalette);
      }
    }
  }

  // ----------------------------------------------------------------------------------
  // The outcome of `render`

  /** The outcome of the statistical pass over the image's exponents. */
  function ImageStats(width: nat, height: nat, exponent: (nat, nat) -> Exp): Stats
  {
    StatsOf(Flatten(ExponentRows(width, height, exponent)))
  }

  /** Whether `render` completes: both sign lists are non-empty (else `.back()` has no
      element) and no pixel's colouring assertion fails. */
  predicate Renders(width: nat, height: nat, exponent: (nat, nat) -> Exp, mode: ColoringMode, rs: RenderSettings,
                    npalette: seq<Rgb>, ppalette: seq<Rgb>)
    requires |npalette| > 0 && |ppalette| > 0
  {
    var st := ImageStats(width, height, exponent);
    && MaxPos(st).Some? && MinNeg(st).Some?
    && forall y: nat, x: nat :: y < height && x < width ==>
         PixelColor(exponent(x, y), mode, MaxPos(st).value, MinNeg(st).value, rs, npalette, ppalette).Some?
  }

  /** Once both sign lists have a last element, `render` completes exactly when every
      sector of the grid colours, over a matrix holding the calculator's exponents. */
  lemma RendersIffGridColors(width: nat, height: nat, s: nat, exps: array2<Exp>, exponent: (nat, nat) -> Exp,
                             mode: ColoringMode, rs: RenderSettings, npalette: seq<Rgb>, ppalette: seq<Rgb>)
    requires s > 0 && |npalette| > 0 && |ppalette| > 0
    requires exps.Length0 == height && exps.Length1 == width
    requires forall y: nat, x: nat :: y < height && x < width ==> exps[y, x] == exponent(x, y)
    requires InsideAll(Grid(width, height, s), height, width)
    requires MaxPos(ImageStats(width, height, exponent)).Some? && MinNeg(ImageStats(width, height, exponent)).Some?
    ensures var st := ImageStats(width, height, exponent);
            Renders(width, height, exponent, mode, rs, npalette, ppalette)
            <==> AllSectorsColor(Grid(width, height, s), exps, mode, MaxPos(st).value, MinNeg(st).value, rs, npalette, ppalette)
  {
    var st := ImageStats(width, height, exponent);
    GridColors(width, height, s, exps, mode, MaxPos(st).value, MinNeg(st).value, rs, npalette, ppalette);
  }

  /** The pixel of the finished image at (x, y): its colour, inverted when the crosshair
      is drawn across it. */
  function FinalPixel(width: nat, height: nat, exponent: (nat, nat) -> Exp, mode: ColoringMode, rs: RenderSettings,
                      npalette: seq<Rgb>, ppalette: seq<Rgb>, crosshair: bool, x: nat, y: nat): Rgb
    requires |npalette| > 0 && |ppalette| > 0
    requires Renders(width, height, exponent, mode, rs, npalette, ppalette)
    requires y < height && x < width
  {
    var st := ImageStats(width, height, exponent);
    var c := PixelColor(exponent(x, y), mode, MaxPos(st).value, MinNeg(st).value, rs, npalette, ppalette).value;
    if crosshair then Crossed(c, x, y, width, height) else c
  }

  /** An image with a finite non-negative exponent, as `render` needs, has at least one
      row and one column. */
  lemma RenderedImageNotEmpty(width: nat, height: nat, exponent: (nat, nat) -> Exp)
    requires MaxPos(ImageStats(width, height, exponent)).Some?
    ensures width >= 1 && height >= 1
  {
    var rows := ExponentRows(width, height, exponent);
    var es := Flatten(rows);
    assert |Positives(es)| > 0;
    BinsPartition(es);
    FlattenLength(rows, width);
    assert |es| == height * width && |es| > 0;
    PositiveProduct(height, width);
  }

  /** An image with no rows has no exponents, so `max_pos` has no value to read. */
  lemma NoRowsNoStats(width: nat, exponent: (nat, nat) -> Exp)
    ensures MaxPos(ImageStats(width, 0, exponent)).None?
    ensures MinNeg(ImageStats(width, 0, exponent)).None?
  {
    assert ExponentRows(width, 0, exponent) == [];
  }

  lemma PositiveProduct(a: nat, b: nat)
    requires a * b > 0
    ensures a >= 1 && b >= 1
  {
  }

  /** Linear colouring never fails at the default clamps as long as the image holds an
      exponent of each sign and its largest exponent is positive: the normalised value
      then always lies in [0, 1]. Binary colouring never fails at all. */
  lemma DefaultClampsRender(width: nat, height: nat, exponent: (nat, nat) -> Exp, mode: ColoringMode,
                            npalette: seq<Rgb>, ppalette: seq<Rgb>)
    requires |npalette| > 0 && |ppalette| > 0
    requires var st := ImageStats(width, height, exponent);
             MaxPos(st).Some? && MinNeg(st).Some? && MaxPos(st).value > 0.0
    ensures Renders(width, height, exponent, mode, DefaultRender, npalette, ppalette)
  {
    var rows := ExponentRows(width, height, exponent);
    var es := Flatten(rows);
    var st := ImageStats(width, height, exponent);
    var maxPos, minNeg := MaxPos(st).value, MinNeg(st).value;
    MaxPosIsMaximum(es);
    MinNegIsMinimum(es);
    forall y: nat, x: nat | y < height && x < width
      ensures PixelColor(exponent(x, y), mode, maxPos, minNeg, DefaultRender, npalette, ppalette).Some?
    {
      var e := exponent(x, y);
      if mode == Linear && IsFinite(e) {
        FlattenHolds(rows, y, x);
        assert e in es;
        NormalisedDefined(e.v, maxPos, minNeg, DefaultRender);
      }
    }
  }

  /** Step two of `render`: the exponents binned, both sign lists sorted, and `max_pos`
      and `min_neg` read from their backs. `found` is false when a list is empty. */
  method StatisticalPass(exps: array2<Exp>, width: nat, height: nat, exponent: (nat, nat) -> Exp)
    returns (found: bool, maxPos: real, minNeg: real)
    requires exps.Length0 == height && exps.Length1 == width
    requires forall y: nat, x: nat :: y < height && x < width ==> exps[y, x] == exponent(x, y)
    ensures found <==> MaxPos(ImageStats(width, height, exponent)).Some? && MinNeg(ImageStats(width, height, exponent)).Some?
    ensures found ==> MaxPos(ImageStats(width, height, exponent)) == Some(maxPos)
                      && MinNeg(ImageStats(width, height, exponent)) == Some(minNeg)
  {
    var rows := Rows(exps);
    RowsOfComputed(exps, width, height, exponent);
    var st := BinExponents(rows);
    var absPos := Sort(st.absPos);
    var absNeg := Sort(st.absNeg);
    if |absPos| == 0 || |absNeg| == 0 {
      return false, 0.0, 0.0;
    }
    maxPos := absPos[|absPos| - 1];
    minNeg := -absNeg[|absNeg| - 1];
    found := true;
  }

  /** Steps three and four of `render`: a black image allocated, every sector of the grid
      coloured, and the crosshair drawn over the result when it is enabled. */
  method ColorImage(width: nat, height: nat, s: nat, sectors: seq<Sector>, exps: array2<Exp>, maxPos: real,
                    minNeg: real, mode: ColoringMode, rs: RenderSettings, npalette: seq<Rgb>, ppalette: seq<Rgb>,
                    crosshair: bool)
    returns (ok: bool, img: array2<Rgb>)
    requires s > 0 && sectors == Grid(width, height, s) && InsideAll(sectors, height, width)
    requires width >= 1 && height >= 1
    requires |npalette| > 0 && |ppalette| > 0
    requires exps.Length0 == height && exps.Length1 == width
    ensures fresh(img) && img.Length0 == height && img.Length1 == width
    ensures ok <==> AllSectorsColor(sectors, exps, mode, maxPos, minNeg, rs, npalette, ppalette)
    ensures ok ==> forall y, x :: 0 <= y < height && 0 <= x < width ==>
                     PixelColor(exps[y, x], mode, maxPos, minNeg, rs, npalette, ppalette).Some?
                     && var c := PixelColor(exps[y, x], mode, maxPos, minNeg, rs, npalette, ppalette).value;
                        img[y, x] == if crosshair then Crossed(c, x, y, width, height) else c
  {
    img := new Rgb[height, width]((y, x) => Black);
    ok := ColorSectors(sectors, maxPos, minNeg, exps, img, mode, rs, npalette, ppalette);
    if !ok {
      return;
    }
    forall y: nat, x: nat | y < height && x < width
      ensures Some(img[y, x]) == PixelColor(exps[y, x], mode, maxPos, minNeg, rs, npalette, ppalette)
    {
      GridPartitionsImage(width, height, s, x, y);
    }
    if crosshair {
      DrawCrosshair(img, width, height);
    }
  }

  /** `render`: the image cut into sectors, the exponent of every pixel computed sector
      by sector, the statistical pass, every sector coloured, and the crosshair drawn
      when it is enabled. `exponent(x, y)` is what the block exponent calculator gives
      pixel (x, y). The outcome is `ok == false` exactly when the C++ program has no
      defined result: a sign list is empty when `.back()` reads it, or a colouring
      assertion fails. Otherwise the image is the specified one, pixel by pixel. */
  method RenderImage(width: nat, height: nat, rs: RenderSettings, mode: ColoringMode, crosshair: bool,
                     npalette: seq<Rgb>, ppalette: seq<Rgb>, exponent: (nat, nat) -> Exp)
    returns (ok: bool, img: array2<Rgb>)
    requires rs.maxSectorSize > 0 || height == 0
    requires |npalette| > 0 && |ppalette| > 0
    ensures ok <==> Renders(width, height, exponent, mode, rs, npalette, ppalette)
    ensures ok ==> fresh(img) && img.Length0 == height && img.Length1 == width
    ensures ok ==> forall y, x :: 0 <= y < img.Length0 && 0 <= x < img.Length1 ==>
              img[y, x] == FinalPixel(width, height, exponent, mode, rs,
                                      npalette, ppalette, crosshair, x, y)
  {
    if rs.maxSectorSize == 0 {
      // no rows: the sector loop ends at once and both sign lists stay empty
      var sectors := MakeSectors(width, height, rs.maxSectorSize);
      NoRowsNoStats(width, exponent);
      return false, new Rgb[0, 0];
    }
    var sectors, exps := ComputeMatrix(width, height, rs.maxSectorSize, exponent);

    var found, maxPos, minNeg := StatisticalPass(exps, width, height, exponent);
    if !found {
      return false, new Rgb[0, 0];
    }

    RenderedImageNotEmpty(width, height, exponent);
    ok, img := ColorImage(width, height, rs.maxSectorSize, sectors, exps, maxPos, minNeg, mode, rs, npalette, ppalette, crosshair);
    RendersIffGridColors(width, height, rs.maxSectorSize, exps, exponent, mode, rs, npalette, ppalette);
  }
}
