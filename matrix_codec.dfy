/** The binary exponent-matrix file: three 8-byte little-endian header words (rows,
    columns, element size) followed by the cells row by row, each cell an opaque block of
    `sizeof(long double)` bytes. Files live in a name-indexed file system; a name missing
    from it is a file that cannot be opened. */
module MatrixCodec {
  import opened Wrappers

  /** `sizeof(size_t)` */
  const WordSize: nat := 8

  /** `sizeof(long double)` on the x86-64 System V ABI */
  const ElemSize: nat := 16

  /** `3 * sizeof(size_t)` */
  const HeaderSize: nat := 24

  /** 2^64: the values a `size_t` can hold are those below it */
  const SizeLimit: nat := 0x1_0000_0000_0000_0000

  /** The bytes of one matrix cell, copied verbatim. */
  type Cell = b: seq<bv8> | |b| == ElemSize
    witness [0, 0, 0, 0, 0, 0, 0, 0, 0, 0, 0, 0, 0, 0, 0, 0]

  const ZeroCell: Cell := [0, 0, 0, 0, 0, 0, 0, 0, 0, 0, 0, 0, 0, 0, 0, 0]

  type FileSystem = map<string, seq<bv8>>

  /** Both functions append the same extension to the name they are given. */
  function MatrixPath(filename: string): string
  {
    filename + ".expbin"
  }

  /** The file a name opens, if any. */
  function Open(fs: FileSystem, filename: string): Option<seq<bv8>>
  {
    if MatrixPath(filename) in fs then Some(fs[MatrixPath(filename)]) else None
  }

  // ----------------------------------------------------------------------------------
  // Header words

  function Pow256(k: nat): (p: nat)
    ensures p > 0
  {
    if k == 0 then 1 else 256 * Pow256(k - 1)
  }

  /** The k low-order bytes of n, least significant first. */
  function EncodeLE(n: nat, k: nat): (r: seq<bv8>)
    ensures |r| == k
  {
    if k == 0 then [] else [(n % 256) as bv8] + EncodeLE(n / 256, k - 1)
  }

  /** The number whose little-endian bytes are b. */
  function DecodeLE(b: seq<bv8>): nat
  {
    if |b| == 0 then 0 else b[0] as nat + 256 * DecodeLE(b[1..])
  }

  /** Decoding inverts encoding for every n that fits in k bytes. */
  lemma {:induction false} DecodeEncodeLE(n: nat, k: nat)
    requires n < Pow256(k)
    ensures DecodeLE(EncodeLE(n, k)) == n
  {
    if k > 0 {
      var b := EncodeLE(n, k);
      assert b[1..] == EncodeLE(n / 256, k - 1);
      assert ((n % 256) as bv8) as nat == n % 256;
      DecodeEncodeLE(n / 256, k - 1);
    }
  }

  /** A `size_t` written in native (little-endian) order. */
  function EncodeWord(n: nat): (r: seq<bv8>)
    requires n < SizeLimit
    ensures |r| == WordSize && DecodeLE(r) == n
  {
    assert Pow256(8) == SizeLimit;
    DecodeEncodeLE(n, 8);
    EncodeLE(n, 8)
  }

  function Header(rows: nat, cols: nat): (h: seq<bv8>)
    requires rows < SizeLimit && cols < SizeLimit
    ensures |h| == HeaderSize
  {
    EncodeWord(rows) + EncodeWord(cols) + EncodeWord(ElemSize)
  }

  function HeaderRows(f: seq<bv8>): nat requires |f| >= HeaderSize { DecodeLE(f[0..8]) }
  function HeaderCols(f: seq<bv8>): nat requires |f| >= HeaderSize { DecodeLE(f[8..16]) }
  function HeaderElemSize(f: seq<bv8>): nat requires |f| >= HeaderSize { DecodeLE(f[16..24]) }

  // ----------------------------------------------------------------------------------
  // Encoding

  /** The cells of one row, back to back. */
  function RowBytes(cells: seq<Cell>): (r: seq<bv8>)
    ensures |r| == |cells| * 16
  {
    if |cells| == 0 then [] else RowBytes(cells[..|cells| - 1]) + cells[|cells| - 1]
  }

  /** The first `cols` cells of every row, row after row. */
  function Body(m: seq<seq<Cell>>, cols: nat): seq<bv8>
    requires forall y :: 0 <= y < |m| ==> |m[y]| >= cols
  {
    if |m| == 0 then [] else Body(m[..|m| - 1], cols) + RowBytes(m[|m| - 1][..cols])
  }

  /** What `save_lyap_exp_matrix` can write: a matrix with a first row, every row at least
      as long as it, and dimensions that fit in a `size_t`. */
  predicate Saveable(m: seq<seq<Cell>>)
  {
    && 0 < |m| < SizeLimit
    && |m[0]| < SizeLimit
    && forall y :: 0 <= y < |m| ==> |m[y]| >= |m[0]|
  }

  /** The saved file: header, then the cells row-major. */
  function Serialize(m: seq<seq<Cell>>): seq<bv8>
    requires Saveable(m)
  {
    Header(|m|, |m[0]|) + Body(m, |m[0]|)
  }

  lemma {:induction false} BodyLength(m: seq<seq<Cell>>, cols: nat)
    requires forall y :: 0 <= y < |m| ==> |m[y]| >= cols
    ensures |Body(m, cols)| == |m| * cols * 16
  {
    if |m| > 0 {
      BodyLength(m[..|m| - 1], cols);
      assert |m| * cols * 16 == (|m| - 1) * cols * 16 + cols * 16;
    }
  }

  /** The saved file is 24 + R*C*E bytes long and starts with R, C and E. */
  lemma SerializeLayout(m: seq<seq<Cell>>)
    requires Saveable(m)
    ensures |Serialize(m)| == HeaderSize + |m| * |m[0]| * 16
    ensures HeaderRows(Serialize(m)) == |m|
    ensures HeaderCols(Serialize(m)) == |m[0]|
    ensures HeaderElemSize(Serialize(m)) == ElemSize
  {
    BodyLength(m, |m[0]|);
    var f := Serialize(m);
    assert f[0..8] == EncodeWord(|m|);
    assert f[8..16] == EncodeWord(|m[0]|);
    assert f[16..24] == EncodeWord(ElemSize);
  }

  // ----------------------------------------------------------------------------------
  // Decoding

  /** `(y * cols + x + 1) * E <= rows * cols * E` for a cell inside the matrix. */
  lemma CellInBounds(rows: nat, cols: nat, y: nat, x: nat)
    requires y < rows && x < cols
    ensures (y * cols + x + 1) * 16 <= rows * cols * 16
  {
    assert y * cols + cols <= rows * cols by {
      assert (y + 1) * cols <= rows * cols;
    }
  }

  /** The cell at row y, column x of a body of `rows` rows of `cols` cells. */
  function CellAt(body: seq<bv8>, rows: nat, cols: nat, y: nat, x: nat): Cell
    requires |body| == rows * cols * 16 && y < rows && x < cols
  {
    CellInBounds(rows, cols, y, x);
    body[(y * cols + x) * 16 .. (y * cols + x) * 16 + 16]
  }

  /** `rows` rows of `cols` cells read row-major from the body. */
  function DecodeBody(body: seq<bv8>, rows: nat, cols: nat): (m: seq<seq<Cell>>)
    requires |body| == rows * cols * 16
  {
    seq(rows, y requires 0 <= y < rows =>
      seq(cols, x requires 0 <= x < cols => CellAt(body, rows, cols, y, x)))
  }

  /** The element size the file declares is the one cells are read with; the loader
      never checks it, so the model demands it of every file long enough to hold it. */
  predicate DeclaresElemSize(f: seq<bv8>)
  {
    |f| >= HeaderSize ==> HeaderElemSize(f) == ElemSize
  }

  /** The length test on the exact byte count: the file holds the header and exactly
      rows * cols cells. */
  predicate SizeMatches(f: seq<bv8>)
    requires |f| >= HeaderSize
  {
    |f| == HeaderSize + HeaderRows(f) * HeaderCols(f) * HeaderElemSize(f)
  }

  /** The length test as the loader writes it: the right-hand side is computed in
      `size_t`, so it wraps modulo 2^64. */
  predicate SizeMatchesAsWritten(f: seq<bv8>)
    requires |f| >= HeaderSize
  {
    |f| == (HeaderSize + HeaderRows(f) * HeaderCols(f) * HeaderElemSize(f)) % SizeLimit
  }

  /** The header words of a header-only file read back as written. */
  lemma HeaderFields(rows: nat, cols: nat)
    requires rows < SizeLimit && cols < SizeLimit
    ensures var f := Header(rows, cols);
            HeaderRows(f) == rows && HeaderCols(f) == cols && HeaderElemSize(f) == ElemSize
  {
    var f := Header(rows, cols);
    assert f[0..8] == EncodeWord(rows);
    assert f[8..16] == EncodeWord(cols);
    assert f[16..24] == EncodeWord(ElemSize);
  }

  /** A 24-byte file whose header claims `rows * cols` cells filling exactly 2^64 bytes,
      such as 2^60 rows of one cell, passes the wrapped test, because the claimed length
      wraps to the header's own 24, although the file holds no cell at all; the exact
      test rejects it. */
  lemma WrappedSizeCheckAcceptsTruncatedFile(rows: nat, cols: nat)
    requires rows < SizeLimit && cols < SizeLimit && rows * cols * 16 == SizeLimit
    ensures var f := Header(rows, cols);
            |f| == HeaderSize && DeclaresElemSize(f) && rows * cols > 0
            && SizeMatchesAsWritten(f) && !SizeMatches(f)
  {
    HeaderFields(rows, cols);
  }

  /** The exact test is what makes every read land inside the file: each cell the loader
      reads lies wholly after the header and before the end of the file. */
  lemma SizeMatchesBoundsReads(f: seq<bv8>, y: nat, x: nat)
    requires |f| >= HeaderSize && DeclaresElemSize(f) && SizeMatches(f)
    requires y < HeaderRows(f) && x < HeaderCols(f)
    ensures HeaderSize + (y * HeaderCols(f) + x) * 16 + 16 <= |f|
  {
    CellInBounds(HeaderRows(f), HeaderCols(f), y, x);
  }

  /** What `load_lyap_exp_matrix` returns for a file: the empty matrix when the file cannot
      be opened, is shorter than the header, or is not exactly as long as its header
      says; otherwise `rows` rows of `cols` cells filled row-major from the body. */
  function Deserialize(file: Option<seq<bv8>>): (m: seq<seq<Cell>>)
    requires file.Some? ==> DeclaresElemSize(file.value)
    ensures file.None? ==> m == []
    ensures file.Some? && |file.value| < HeaderSize ==> m == []
    ensures file.Some? && |file.value| >= HeaderSize && !SizeMatches(file.value) ==> m == []
    ensures file.Some? && |file.value| >= HeaderSize && SizeMatches(file.value) ==>
              |m| == HeaderRows(file.value)
              && forall y :: 0 <= y < |m| ==> |m[y]| == HeaderCols(file.value)
  {
    match file
    case None => []
    case Some(f) =>
      if |f| < HeaderSize then []
      else if !SizeMatches(f) then []
      else DecodeBody(f[HeaderSize..], HeaderRows(f), HeaderCols(f))
  }

  // ----------------------------------------------------------------------------------
  // Round trip

  lemma {:induction false} RowBytesAt(cells: seq<Cell>, x: nat)
    requires x < |cells|
    ensures RowBytes(cells)[x * 16 .. x * 16 + 16] == cells[x]
  {
    var init := cells[..|cells| - 1];
    if x < |cells| - 1 {
      RowBytesAt(init, x);
      assert RowBytes(cells)[x * 16 .. x * 16 + 16]
          == RowBytes(init)[x * 16 .. x * 16 + 16];
    } else {
      assert |RowBytes(init)| == x * 16;
    }
  }

  lemma {:induction false} BodyAt(m: seq<seq<Cell>>, cols: nat, y: nat, x: nat)
    requires forall r :: 0 <= r < |m| ==> |m[r]| >= cols
    requires y < |m| && x < cols
    ensures |Body(m, cols)| == |m| * cols * 16
    ensures Body(m, cols)[(y * cols + x) * 16 .. (y * cols + x) * 16 + 16] == m[y][x]
  {
    BodyLength(m, cols);
    var init := m[..|m| - 1];
    var lo := (y * cols + x) * 16;
    BodyLength(init, cols);
    if y < |m| - 1 {
      BodyAt(init, cols, y, x);
      CellInBounds(|m| - 1, cols, y, x);
      assert Body(m, cols)[lo .. lo + 16] == Body(init, cols)[lo .. lo + 16];
    } else {
      var last := m[|m| - 1][..cols];
      assert lo == (|m| - 1) * cols * 16 + x * 16;
      RowBytesAt(last, x);
      assert Body(m, cols)[lo .. lo + 16] == RowBytes(last)[x * 16 .. x * 16 + 16];
    }
  }

  /** Reading the body back cell by cell gives the rows it was written from. */
  lemma DecodeBodyInverse(m: seq<seq<Cell>>, cols: nat)
    requires forall y :: 0 <= y < |m| ==> |m[y]| == cols
    ensures |Body(m, cols)| == |m| * cols * 16
    ensures DecodeBody(Body(m, cols), |m|, cols) == m
  {
    BodyLength(m, cols);
    var d := DecodeBody(Body(m, cols), |m|, cols);
    forall y | 0 <= y < |m|
      ensures d[y] == m[y]
    {
      forall x | 0 <= x < cols
        ensures d[y][x] == m[y][x]
      {
        BodyAt(m, cols, y, x);
      }
    }
  }

  /** Loading what was saved gives back the matrix: same dimensions, byte-identical
      cells, for every non-empty rectangular matrix. */
  lemma RoundTrip(m: seq<seq<Cell>>)
    requires Saveable(m) && forall y :: 0 <= y < |m| ==> |m[y]| == |m[0]|
    ensures DeclaresElemSize(Serialize(m))
    ensures Deserialize(Some(Serialize(m))) == m
  {
    var f := Serialize(m);
    SerializeLayout(m);
    assert f[HeaderSize..] == Body(m, |m[0]|);
    DecodeBodyInverse(m, |m[0]|);
  }

  /** The file system after a save, read back by a load of the same name, gives the
      matrix that was saved. */
  lemma SaveLoadSameFile(fs: FileSystem, filename: string, m: seq<seq<Cell>>)
    requires Saveable(m) && forall y :: 0 <= y < |m| ==> |m[y]| == |m[0]|
    ensures Open(fs[MatrixPath(filename) := Serialize(m)], filename) == Some(Serialize(m))
    ensures Deserialize(Open(fs[MatrixPath(filename) := Serialize(m)], filename)) == m
  {
    RoundTrip(m);
  }

  // ----------------------------------------------------------------------------------
  // The two functions

  lemma RowBytesSnoc(row: seq<Cell>, x: nat)
    requires x < |row|
    ensures RowBytes(row[..x + 1]) == RowBytes(row[..x]) + row[x]
  {
    assert row[..x + 1][..x] == row[..x];
  }

  lemma BodySnoc(m: seq<seq<Cell>>, cols: nat, y: nat)
    requires forall r :: 0 <= r < |m| ==> |m[r]| >= cols
    requires y < |m|
    ensures Body(m[..y + 1], cols) == Body(m[..y], cols) + RowBytes(m[y][..cols])
  {
    assert m[..y + 1][..y] == m[..y];
  }

  /** The inner write loop of `save_lyap_exp_matrix`: the first `cols` cells of a row
      appended to the output, one after another. */
  method WriteRow(out: seq<bv8>, row: seq<Cell>, cols: nat) returns (out': seq<bv8>)
    requires cols <= |row|
    ensures out' == out + RowBytes(row[..cols])
  {
    out' := out;
    var x := 0;
    while x < cols
      invariant 0 <= x <= cols
      invariant out' == out + RowBytes(row[..x])
    {
      RowBytesSnoc(row, x);
      out' := out' + row[x];
      x := x + 1;
    }
  }

  /** The outer write loop of `save_lyap_exp_matrix`: every row's first `cols` cells
      appended to the output, row after row. */
  method WriteRows(out: seq<bv8>, m: seq<seq<Cell>>, cols: nat) returns (out': seq<bv8>)
    requires forall y :: 0 <= y < |m| ==> |m[y]| >= cols
    ensures out' == out + Body(m, cols)
  {
    out' := out;
    var y := 0;
    while y < |m|
      invariant 0 <= y <= |m|
      invariant out' == out + Body(m[..y], cols)
    {
      out' := WriteRow(out', m[y], cols);
      BodySnoc(m, cols, y);
      y := y + 1;
    }
    assert m[..y] == m;
  }

  /** `save_lyap_exp_matrix`: 1 and the file system unchanged when the target cannot be
      opened; otherwise 0 and `<filename>.expbin` replaced by the header followed by the
      cells, streamed row by row. */
  method SaveLyapExpMatrix(matr: seq<seq<Cell>>, filename: string, fs: FileSystem, canOpen: bool)
    returns (code: int, fs': FileSystem)
    requires canOpen ==> Saveable(matr)
    ensures !canOpen ==> code == 1 && fs' == fs
    ensures canOpen ==> code == 0 && fs' == fs[MatrixPath(filename) := Serialize(matr)]
  {
    if !canOpen {
      return 1, fs;
    }
    var numRows := |matr|;
    var numCols := |matr[0]|;
    var out := EncodeWord(numRows) + EncodeWord(numCols) + EncodeWord(ElemSize);
    assert out == Header(numRows, numCols);
    out := WriteRows(out, matr, numCols);
    assert out == Serialize(matr);
    return 0, fs[MatrixPath(filename) := out];
  }

  /** The read loop of `load_lyap_exp_matrix`: a matrix of the given dimensions, filled
      row by row from consecutive cells of the body. */
  method ReadCells(body: seq<bv8>, rows: nat, cols: nat) returns (ret: seq<seq<Cell>>)
    requires |body| == rows * cols * 16
    ensures ret == DecodeBody(body, rows, cols)
  {
    ret := seq(rows, _ => seq(cols, _ => ZeroCell));
    var pos := 0;
    var y := 0;
    while y < rows
      invariant 0 <= y <= rows
      invariant pos == y * cols * 16
      invariant |ret| == rows && forall r :: 0 <= r < rows ==> |ret[r]| == cols
      invariant forall r :: 0 <= r < y ==> ret[r] == DecodeBody(body, rows, cols)[r]
    {
      var x := 0;
      while x < cols
        invariant 0 <= x <= cols
        invariant pos == (y * cols + x) * 16
        invariant |ret| == rows && forall r :: 0 <= r < rows ==> |ret[r]| == cols
        invariant forall r :: 0 <= r < y ==> ret[r] == DecodeBody(body, rows, cols)[r]
        invariant forall c :: 0 <= c < x ==> ret[y][c] == CellAt(body, rows, cols, y, c)
      {
        CellInBounds(rows, cols, y, x);
        var cell: Cell := body[pos .. pos + 16];
        var row: seq<Cell> := ret[y][x := cell];
        ret := ret[y := row];
        pos := pos + 16;
        x := x + 1;
      }
      assert ret[y] == DecodeBody(body, rows, cols)[y];
      assert pos == (y + 1) * cols * 16;
      y := y + 1;
    }
  }

  /** `load_lyap_exp_matrix`: the matrix `Deserialize` describes, read cell by cell into a
      pre-sized matrix. */
  method LoadLyapExpMatrix(filename: string, fs: FileSystem) returns (ret: seq<seq<Cell>>)
    requires Open(fs, filename).Some? ==> DeclaresElemSize(Open(fs, filename).value)
    ensures ret == Deserialize(Open(fs, filename))
  {
    ret := [];
    if MatrixPath(filename) !in fs {
      return;
    }
    var f := fs[MatrixPath(filename)];
    var fileSize := |f|;
    if fileSize < HeaderSize {
      return;
    }
    var numRows := DecodeLE(f[0..8]);
    var numCols := DecodeLE(f[8..16]);
    var sizeSingleElement := DecodeLE(f[16..24]);
    if fileSize != HeaderSize + numRows * numCols * sizeSingleElement {
      return;
    }
    ret := ReadCells(f[HeaderSize..], numRows, numCols);
  }
}
