/** The division of the image into rectangular sectors, each later handed to one worker:
    bands of at most `s` rows from the top, each band cut into sectors of at most `s`
    columns from the left. A sector spans [startX, endX) x [startY, endY). */
module Sectors {

  datatype Sector = Sector(startX: nat, startY: nat, endX: nat, endY: nat)

  function Min(a: nat, b: nat): nat
  {
    if a < b then a else b
  }

  predicate Contains(sec: Sector, x: int, y: int)
  {
    sec.startX <= x < sec.endX && sec.startY <= y < sec.endY
  }

  /** The sector whose top-left corner is column j of row i. */
  function SectorAt(i: nat, j: nat, width: nat, height: nat, s: nat): Sector
    requires i < height && j < width
  {
    Sector(j, i, j + Min(s, width - j), i + Min(s, height - i))
  }

  /** The sectors of the band starting at row i, from column j to the right edge. */
  function BandFrom(i: nat, j: nat, width: nat, height: nat, s: nat): seq<Sector>
    requires i < height && s > 0
    decreases width - j
  {
    if j >= width then [] else [SectorAt(i, j, width, height, s)] + BandFrom(i, j + s, width, height, s)
  }

  /** The sectors of every band from row i down to the bottom edge. */
  function GridFrom(i: nat, width: nat, height: nat, s: nat): seq<Sector>
    requires s > 0
    decreases height - i
  {
    if i >= height then [] else BandFrom(i, 0, width, height, s) + GridFrom(i + s, width, height, s)
  }

  /** The sector list of an image of the given size. */
  function Grid(width: nat, height: nat, s: nat): seq<Sector>
    requires s > 0
  {
    GridFrom(0, width, height, s)
  }

  /** The inner sector loop of `render`: the sectors of the band at row i appended, left
      to right. */
  method AppendBand(sectors: seq<Sector>, i: nat, width: nat, height: nat, maxSectorSize: nat)
    returns (sectors': seq<Sector>)
    requires i < height && maxSectorSize > 0
    ensures sectors' == sectors + BandFrom(i, 0, width, height, maxSectorSize)
  {
    sectors' := sectors;
    var j := 0;
    while j < width
      invariant sectors' + BandFrom(i, j, width, height, maxSectorSize) == sectors + BandFrom(i, 0, width, height, maxSectorSize)
      decreases width - j
    {
      var startX := j;
      var startY := i;
      var endX := j + Min(maxSectorSize, width - j);
      var endY := i + Min(maxSectorSize, height - i);
      ghost var rest := BandFrom(i, j + maxSectorSize, width, height, maxSectorSize);
      assert BandFrom(i, j, width, height, maxSectorSize) == [Sector(startX, startY, endX, endY)] + rest;
      sectors' := sectors' + [Sector(startX, startY, endX, endY)];
      j := j + maxSectorSize;
    }
  }

  /** The sector loop of `render`. With a sector size of 0 and a positive image height
      the loop never advances, so a sector size of 0 is accepted only for an image with
      no rows, where the loop is never entered. */
  method MakeSectors(width: nat, height: nat, maxSectorSize: nat) returns (sectors: seq<Sector>)
    requires maxSectorSize > 0 || height == 0
    ensures height == 0 ==> sectors == []
    ensures maxSectorSize > 0 ==> sectors == Grid(width, height, maxSectorSize)
  {
    sectors := [];
    var i := 0;
    while i < height
      invariant maxSectorSize > 0 ==>
                  sectors + GridFrom(i, width, height, maxSectorSize) == Grid(width, height, maxSectorSize)
      invariant height == 0 ==> sectors == []
      decreases height - i
    {
      sectors := AppendBand(sectors, i, width, height, maxSectorSize);
      i := i + maxSectorSize;
    }
  }

  // ----------------------------------------------------------------------------------
  // Properties

  /** Every sector is non-empty, no larger than s in either direction, and inside the
      image. */
  predicate WellFormed(sec: Sector, width: nat, height: nat, s: nat)
  {
    && sec.startX < sec.endX <= width && sec.endX - sec.startX <= s
    && sec.startY < sec.endY <= height && sec.endY - sec.startY <= s
  }

  lemma {:induction false} BandWellFormed(i: nat, j: nat, width: nat, height: nat, s: nat)
    requires i < height && s > 0
    ensures forall k :: 0 <= k < |BandFrom(i, j, width, height, s)| ==>
              WellFormed(BandFrom(i, j, width, height, s)[k], width, height, s)
              && BandFrom(i, j, width, height, s)[k].startY == i
              && BandFrom(i, j, width, height, s)[k].startX >= j
    decreases width - j
  {
    if j < width {
      BandWellFormed(i, j + s, width, height, s);
    }
  }

  lemma {:induction false} GridFromWellFormed(i: nat, width: nat, height: nat, s: nat)
    requires s > 0
    ensures forall k :: 0 <= k < |GridFrom(i, width, height, s)| ==>
              WellFormed(GridFrom(i, width, height, s)[k], width, height, s)
    decreases height - i
  {
    if i < height {
      BandWellFormed(i, 0, width, height, s);
      GridFromWellFormed(i + s, width, height, s);
    }
  }

  /** Every sector of the grid lies inside the image and measures between 1 and s pixels
      along each side. */
  lemma GridWellFormed(width: nat, height: nat, s: nat)
    requires s > 0
    ensures forall k :: 0 <= k < |Grid(width, height, s)| ==> WellFormed(Grid(width, height, s)[k], width, height, s)
  {
    GridFromWellFormed(0, width, height, s);
  }

  /** How many sectors of the list contain the pixel. */
  function Coverage(sectors: seq<Sector>, x: nat, y: nat): nat
  {
    if |sectors| == 0 then 0
    else (if Contains(sectors[0], x, y) then 1 else 0) + Coverage(sectors[1..], x, y)
  }

  lemma {:induction false} CoverageConcat(a: seq<Sector>, b: seq<Sector>, x: nat, y: nat)
    ensures Coverage(a + b, x, y) == Coverage(a, x, y) + Coverage(b, x, y)
  {
    if |a| == 0 {
      assert a + b == b;
    } else {
      assert (a + b)[0] == a[0];
      assert (a + b)[1..] == a[1..] + b;
      CoverageConcat(a[1..], b, x, y);
    }
  }

  /** A band covers each pixel of its rows right of column j exactly once. */
  lemma {:induction false} BandCoverage(i: nat, j: nat, width: nat, height: nat, s: nat, x: nat, y: nat)
    requires i < height && s > 0
    ensures Coverage(BandFrom(i, j, width, height, s), x, y)
            == if j <= x < width && i <= y < i + Min(s, height - i) then 1 else 0
    decreases width - j
  {
    if j < width {
      var band := BandFrom(i, j, width, height, s);
      assert band[1..] == BandFrom(i, j + s, width, height, s);
      BandCoverage(i, j + s, width, height, s, x, y);
    }
  }

  lemma {:induction false} GridFromCoverage(i: nat, width: nat, height: nat, s: nat, x: nat, y: nat)
    requires s > 0
    ensures Coverage(GridFrom(i, width, height, s), x, y) == if x < width && i <= y < height then 1 else 0
    decreases height - i
  {
    if i < height {
      CoverageConcat(BandFrom(i, 0, width, height, s), GridFrom(i + s, width, height, s), x, y);
      BandCoverage(i, 0, width, height, s, x, y);
      GridFromCoverage(i + s, width, height, s, x, y);
    }
  }

  /** The sectors partition the image: each pixel of the image lies in exactly one
      sector, and no pixel outside it lies in any. */
  lemma GridPartitionsImage(width: nat, height: nat, s: nat, x: nat, y: nat)
    requires s > 0
    ensures x < width && y < height ==> Coverage(Grid(width, height, s), x, y) == 1
    ensures !(x < width && y < height) ==> Coverage(Grid(width, height, s), x, y) == 0
  {
    GridFromCoverage(0, width, height, s, x, y);
  }

  lemma MulAtLeast(d: int, s: int)
    requires d >= 1 && s > 0
    ensures d * s >= s
  {
  }

  /** Euclidean division is determined by any quotient and remainder that fit. */
  lemma DivUnique(x: int, s: int, q: int, r: int)
    requires s > 0 && 0 <= r < s && x == q * s + r
    ensures x / s == q && x % s == r
  {
    var q0, r0 := x / s, x % s;
    assert (q - q0) * s == r0 - r;
    if q > q0 {
      MulAtLeast(q - q0, s);
      assert false;
    } else if q < q0 {
      MulAtLeast(q0 - q, s);
      assert false;
    }
  }

  /** Adding s adds one to the quotient and keeps the remainder. */
  lemma DivPlusOne(x: nat, s: nat)
    requires s > 0
    ensures (x + s) / s == x / s + 1 && (x + s) % s == x % s
  {
    assert x == (x / s) * s + x % s;
    assert x + s == (x / s + 1) * s + x % s;
    DivUnique(x + s, s, x / s + 1, x % s);
  }

  /** How many steps of s the sector loop takes to cross a length of a pixels. */
  function Steps(a: nat, s: nat): nat
    requires s > 0
    decreases a
  {
    if a == 0 then 0 else if a <= s then 1 else 1 + Steps(a - s, s)
  }

  /** The number of steps is the ceiling of a / s. */
  lemma {:induction false} StepsIsCeiling(a: nat, s: nat)
    requires s > 0
    ensures Steps(a, s) == (a + s - 1) / s
    decreases a
  {
    if a == 0 {
      DivUnique(s - 1, s, 0, s - 1);
    } else if a <= s {
      DivUnique(a + s - 1, s, 1, a - 1);
    } else {
      StepsIsCeiling(a - s, s);
      DivPlusOne(a - s + s - 1, s);
    }
  }

  lemma {:induction false} BandCount(i: nat, j: nat, width: nat, height: nat, s: nat)
    requires i < height && s > 0
    ensures |BandFrom(i, j, width, height, s)| == if j < width then Steps(width - j, s) else 0
    decreases width - j
  {
    if j < width {
      BandCount(i, j + s, width, height, s);
    }
  }

  lemma {:induction false} GridFromCount(i: nat, width: nat, height: nat, s: nat)
    requires s > 0
    ensures |GridFrom(i, width, height, s)| == if i < height then Steps(width, s) * Steps(height - i, s) else 0
    decreases height - i
  {
    if i < height {
      BandCount(i, 0, width, height, s);
      GridFromCount(i + s, width, height, s);
      var band := Steps(width, s);
      if i + s < height {
        assert Steps(height - i, s) == 1 + Steps(height - i - s, s);
        assert band * (1 + Steps(height - i - s, s)) == band + band * Steps(height - i - s, s);
      }
    }
  }

  /** The sector loop emits ceil(width / s) * ceil(height / s) sectors. */
  lemma GridCount(width: nat, height: nat, s: nat)
    requires s > 0
    ensures |Grid(width, height, s)| == ((width + s - 1) / s) * ((height + s - 1) / s)
  {
    GridFromCount(0, width, height, s);
    StepsIsCeiling(width, s);
    StepsIsCeiling(height, s);
  }

  lemma {:induction false} BandStarts(i: nat, j: nat, width: nat, height: nat, s: nat)
    requires i < height && s > 0 && i % s == 0 && j % s == 0
    ensures forall k :: 0 <= k < |BandFrom(i, j, width, height, s)| ==>
              BandFrom(i, j, width, height, s)[k].startX % s == 0 && BandFrom(i, j, width, height, s)[k].startY == i
    decreases width - j
  {
    if j < width {
      DivPlusOne(j, s);
      BandStarts(i, j + s, width, height, s);
    }
  }

  lemma {:induction false} GridFromStarts(i: nat, width: nat, height: nat, s: nat)
    requires s > 0 && i % s == 0
    ensures forall k :: 0 <= k < |GridFrom(i, width, height, s)| ==>
              GridFrom(i, width, height, s)[k].startX % s == 0 && GridFrom(i, width, height, s)[k].startY % s == 0
    decreases height - i
  {
    if i < height {
      BandStarts(i, 0, width, height, s);
      DivPlusOne(i, s);
      GridFromStarts(i + s, width, height, s);
    }
  }

  /** Every sector starts at a column and a row that are multiples of s. */
  lemma GridStarts(width: nat, height: nat, s: nat)
    requires s > 0
    ensures forall k :: 0 <= k < |Grid(width, height, s)| ==>
              Grid(width, height, s)[k].startX % s == 0 && Grid(width, height, s)[k].startY % s == 0
  {
    GridFromStarts(0, width, height, s);
  }
}
