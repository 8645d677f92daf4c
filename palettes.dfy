/** Loading of the two colour palettes from text files of one "red green blue" line per
    colour. A file that cannot be opened is replaced by a two-colour fallback; a line
    that does not hold three integers still adds a colour, and marks the load as
    failed. Reading a line's integers is the stream library's job and is a parameter
    here: it reports whether all three were read and the values the three integers
    then hold. */
module Palettes {
  import opened Png

  datatype LineRead = LineRead(ok: bool, red: int, green: int, blue: int)

  /** The text files by name; a missing name cannot be opened. */
  type TextFiles = map<string, seq<string>>

  /** `uint8_t(i)`: the value modulo 256. */
  function ToByte(i: int): (b: Channel)
    ensures 0 <= i <= 255 ==> b == i
    ensures (b - i) % 256 == 0
  {
    i % 256
  }

  function ColorOf(r: LineRead): Rgb
  {
    Rgb(ToByte(r.red), ToByte(r.green), ToByte(r.blue))
  }

  /** black, then yellow */
  const NegativeFallback: seq<Rgb> := [Black, Rgb(255, 255, 0)]

  /** black, then blue */
  const PositiveFallback: seq<Rgb> := [Black, Rgb(0, 0, 255)]

  /** One colour per line, in file order. */
  function PaletteOf(lines: seq<string>, parse: string -> LineRead): seq<Rgb>
  {
    if |lines| == 0 then [] else PaletteOf(lines[..|lines| - 1], parse) + [ColorOf(parse(lines[|lines| - 1]))]
  }

  predicate AllWellFormed(lines: seq<string>, parse: string -> LineRead)
  {
    forall k :: 0 <= k < |lines| ==> parse(lines[k]).ok
  }

  /** The palette a load produces: the file's colours, or the fallback when the file
      cannot be opened. */
  function LoadedPalette(name: string, files: TextFiles, parse: string -> LineRead, fallback: seq<Rgb>): seq<Rgb>
  {
    if name in files then PaletteOf(files[name], parse) else fallback
  }

  /** The return value after one palette: raised to at least 1 when the file cannot be
      opened, set to 2 when one of its lines is malformed, unchanged otherwise. */
  function AfterPalette(ret: int, name: string, files: TextFiles, parse: string -> LineRead): int
  {
    if name !in files then (if ret < 1 then 1 else ret)
    else if AllWellFormed(files[name], parse) then ret
    else 2
  }

  /** The return value of a whole load, starting from 0. */
  function ReturnCode(negName: string, posName: string, files: TextFiles, parse: string -> LineRead): int
  {
    AfterPalette(AfterPalette(0, negName, files, parse), posName, files, parse)
  }

  /** Loads one palette, line by line. */
  method LoadPalette(name: string, files: TextFiles, parse: string -> LineRead, fallback: seq<Rgb>, retIn: int)
    returns (palette: seq<Rgb>, ret: int)
    ensures palette == LoadedPalette(name, files, parse, fallback)
    ensures ret == AfterPalette(retIn, name, files, parse)
  {
    palette := [];
    ret := retIn;
    var lines: seq<string> := [];
    if name !in files {
      palette := fallback;
      if ret < 1 {
        ret := 1;
      }
    } else {
      lines := files[name];
    }
    ghost var start, ret0 := palette, ret;
    var k := 0;
    while k < |lines|
      invariant 0 <= k <= |lines|
      invariant palette == start + PaletteOf(lines[..k], parse)
      invariant ret == if AllWellFormed(lines[..k], parse) then ret0 else 2
    {
      var read := parse(lines[k]);
      if !read.ok {
        ret := 2;
      }
      assert lines[..k + 1][..k] == lines[..k];
      palette := palette + [Rgb(ToByte(read.red), ToByte(read.green), ToByte(read.blue))];
      k := k + 1;
    }
    assert lines[..k] == lines;
  }

  // ----------------------------------------------------------------------------------
  // Properties

  /** A loaded file gives one colour per line, each line's colour being its three
      integers reduced to bytes, whether or not the line was well formed. */
  lemma {:induction false} OneColorPerLine(lines: seq<string>, parse: string -> LineRead)
    ensures |PaletteOf(lines, parse)| == |lines|
    ensures forall k :: 0 <= k < |lines| ==> PaletteOf(lines, parse)[k] == ColorOf(parse(lines[k]))
  {
    if |lines| > 0 {
      OneColorPerLine(lines[..|lines| - 1], parse);
    }
  }

  /** A palette is empty exactly when its file opened and had no lines; the fallbacks
      hold two colours. */
  lemma EmptyPalette(name: string, files: TextFiles, parse: string -> LineRead)
    ensures |LoadedPalette(name, files, parse, NegativeFallback)| == 0 <==> name in files && |files[name]| == 0
    ensures |LoadedPalette(name, files, parse, PositiveFallback)| == 0 <==> name in files && |files[name]| == 0
    ensures name !in files ==> |LoadedPalette(name, files, parse, NegativeFallback)| == 2
  {
    if name in files {
      OneColorPerLine(files[name], parse);
    }
  }

  /** The return value of a whole load is 2 when a file that opened has a malformed
      line, otherwise 1 when a file could not be opened, otherwise 0. */
  lemma ReturnCodeMeaning(negName: string, posName: string, files: TextFiles, parse: string -> LineRead)
    ensures var malformed := (negName in files && !AllWellFormed(files[negName], parse))
                             || (posName in files && !AllWellFormed(files[posName], parse));
            var missing := negName !in files || posName !in files;
            ReturnCode(negName, posName, files, parse) == if malformed then 2 else if missing then 1 else 0
  {
  }

  /** Loading one palette never lowers the return value: it only moves 0 to 1 for a
      missing file and anything to 2 for a malformed line, and 2 stays 2. */
  lemma ReturnNeverDecreases(ret: int, name: string, files: TextFiles, parse: string -> LineRead)
    requires 0 <= ret <= 2
    ensures ret <= AfterPalette(ret, name, files, parse) <= 2
    ensures ret == 2 ==> AfterPalette(ret, name, files, parse) == 2
  {
  }
}
