/** The optional crosshair: a vertical and a horizontal line through the centre of the
    image, drawn by inverting colours. On an even side the line is two pixels thick.
    Where the two lines cross, pixels are inverted twice. */
module Crosshair {
  import opened Png

  /** `invert_color` */
  function InvertColor(c: Rgb): (r: Rgb)
    ensures r.red + c.red == 255 && r.green + c.green == 255 && r.blue + c.blue == 255
  {
    Rgb(255 - c.red, 255 - c.green, 255 - c.blue)
  }

  /** Inverting twice gives the colour back. */
  lemma InvertInvolution(c: Rgb)
    ensures InvertColor(InvertColor(c)) == c
  {
  }

  /** The columns of the vertical line: the middle one, and the one before it when the
      width is even. */
  predicate InVertical(x: int, width: nat)
  {
    x == width / 2 || (width % 2 == 0 && x == width / 2 - 1)
  }

  /** The rows of the horizontal line, likewise. */
  predicate InHorizontal(y: int, height: nat)
  {
    y == height / 2 || (height % 2 == 0 && y == height / 2 - 1)
  }

  /** The colour a pixel ends with: inverted when it lies on exactly one of the two
      lines, unchanged otherwise. */
  function Crossed(c: Rgb, x: int, y: int, width: nat, height: nat): Rgb
  {
    if InVertical(x, width) != InHorizontal(y, height) then InvertColor(c) else c
  }

  /** `draw_crosshair` on an image of `height` rows and `width` columns. A side of 0
      makes the loops index outside the image unless both sides are 0. */
  method DrawCrosshair(img: array2<Rgb>, width: nat, height: nat)
    requires img.Length0 == height && img.Length1 == width
    requires (width >= 1 && height >= 1) || (width == 0 && height == 0)
    modifies img
    ensures forall y, x :: 0 <= y < height && 0 <= x < width ==>
              img[y, x] == Crossed(old(img[y, x]), x, y, width, height)
  {
    var halfWidth := width / 2;
    var evenWidth := width % 2 == 0;
    var halfHeight := height / 2;
    var evenHeight := height % 2 == 0;

    var i := 0;
    while i < height
      invariant 0 <= i <= height
      invariant forall y, x :: 0 <= y < height && 0 <= x < width ==>
                  img[y, x] == (if y < i && InVertical(x, width) then InvertColor(old(img[y, x])) else old(img[y, x]))
    {
      img[i, halfWidth] := InvertColor(img[i, halfWidth]);
      if evenWidth {
        img[i, halfWidth - 1] := InvertColor(img[i, halfWidth - 1]);
      }
      i := i + 1;
    }

    i := 0;
    while i < width
      invariant 0 <= i <= width
      invariant forall y, x :: 0 <= y < height && 0 <= x < width ==>
                  img[y, x] == (if x < i && InHorizontal(y, height) then Crossed(old(img[y, x]), x, y, width, height)
                                else if InVertical(x, width) then InvertColor(old(img[y, x])) else old(img[y, x]))
    {
      img[halfHeight, i] := InvertColor(img[halfHeight, i]);
      if evenHeight {
        img[halfHeight - 1, i] := InvertColor(img[halfHeight - 1, i]);
      }
      i := i + 1;
    }
  }

  /** Drawing the crosshair twice restores the image. */
  lemma CrosshairInvolution(c: Rgb, x: int, y: int, width: nat, height: nat)
    ensures Crossed(Crossed(c, x, y, width, height), x, y, width, height) == c
  {
  }
}
