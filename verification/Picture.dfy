/** What a capture shows: its rows of pixels, laid out in the raw bytes with room to spare after each row. */
module Picture {
  import opened Basics
  import opened Capture

  type Row = seq<seq<Byte>>

  /** A row of four-byte pixels, one after the other. */
  function Flat(row: Row): seq<Byte> {
    if row == [] then [] else row[0] + Flat(row[1..])
  }

  /** The rows one after the other, each followed by its filler. */
  function Raw(rows: seq<Row>, fillers: seq<seq<Byte>>): seq<Byte>
    requires |rows| == |fillers|
  {
    if rows == [] then [] else Flat(rows[0]) + fillers[0] + Raw(rows[1..], fillers[1..])
  }

  predicate IsRow(row: Row, width: int) {
    |row| == width && forall x :: 0 <= x < |row| ==> |row[x]| == 4
  }

  /** Rows of one width, each filled up to the same stride. */
  predicate Shaped(rows: seq<Row>, fillers: seq<seq<Byte>>, width: int, stride: int) {
    && |rows| == |fillers|
    && (forall y :: 0 <= y < |rows| ==> IsRow(rows[y], width))
    && forall y :: 0 <= y < |fillers| ==> 4 * width + |fillers[y]| == stride
  }

  /** The capture holds these rows, with any bytes after each of them. */
  ghost predicate LaidOut(b: ValidCapture, rows: seq<Row>) {
    exists fillers :: LaidOutWith(b, rows, fillers)
  }

  predicate LaidOutWith(b: ValidCapture, rows: seq<Row>, fillers: seq<seq<Byte>>) {
    && |rows| == b.contract.height
    && Shaped(rows, fillers, b.contract.width, b.stride)
    && b.raw == Raw(rows, fillers)
  }

  lemma {:induction false} FlatAt(row: Row, width: int)
    requires IsRow(row, width)
    ensures |Flat(row)| == 4 * width
    ensures forall x :: 0 <= x < width ==> Flat(row)[4 * x..4 * x + 4] == row[x]
  {
    if row != [] {
      var rest := row[1..];
      FlatAt(rest, width - 1);
      forall x | 0 <= x < width
        ensures Flat(row)[4 * x..4 * x + 4] == row[x]
      {
        if x > 0 {
          assert rest[x - 1] == row[x];
          assert Flat(row)[4 * x..4 * x + 4] == Flat(rest)[4 * (x - 1)..4 * (x - 1) + 4];
        }
      }
    }
  }

  lemma OneRow(rows: seq<Row>, fillers: seq<seq<Byte>>, width: int, stride: int)
    requires Shaped(rows, fillers, width, stride) && rows != []
    ensures |Flat(rows[0]) + fillers[0]| == stride && |Flat(rows[0])| == 4 * width
    ensures Shaped(rows[1..], fillers[1..], width, stride)
  {
    FlatAt(rows[0], width);
  }

  /** Row `y` and its filler take up the bytes from `y` strides on. */
  lemma {:induction false} RawRow(rows: seq<Row>, fillers: seq<seq<Byte>>, width: int, stride: int, y: int)
    requires Shaped(rows, fillers, width, stride) && 0 <= y < |rows|
    ensures 0 <= y * stride <= y * stride + stride <= |Raw(rows, fillers)|
    ensures Raw(rows, fillers)[y * stride..y * stride + stride] == Flat(rows[y]) + fillers[y]
  {
    OneRow(rows, fillers, width, stride);
    var head, tail := Flat(rows[0]) + fillers[0], Raw(rows[1..], fillers[1..]);
    if y == 0 {
      assert (head + tail)[..stride] == head;
    } else {
      RawRow(rows[1..], fillers[1..], width, stride, y - 1);
      var at := (y - 1) * stride;
      assert y * stride == at + stride;
      assert (head + tail)[at + stride..at + stride + stride] == tail[at..at + stride];
    }
  }

  /** The pixel read at `(x, y)` is the one the picture has there, whatever the stride and the fillers. */
  lemma PixelShows(b: ValidCapture, rows: seq<Row>, x: int, y: int)
    requires LaidOut(b, rows) && InArea(b.contract, Point(x, y))
    ensures Pixel(b, x, y) == rows[y][x]
  {
    var fillers :| LaidOutWith(b, rows, fillers);
    RawRow(rows, fillers, b.contract.width, b.stride, y);
    FlatAt(rows[y], b.contract.width);
    PixelInRange(b, x, y);
    SliceOfSlice(b.raw, y * b.stride, b.stride, Flat(rows[y]), fillers[y], x);
  }

  lemma SliceOfSlice(raw: seq<Byte>, at: nat, stride: nat, flat: seq<Byte>, filler: seq<Byte>, x: nat)
    requires at + stride <= |raw| && raw[at..at + stride] == flat + filler && 4 * x + 4 <= |flat|
    ensures raw[at + x * 4..at + x * 4 + 4] == flat[4 * x..4 * x + 4]
  {
    var m := x * 4;
    var row := raw[at..at + stride];
    var left, right := raw[at + m..at + m + 4], flat[m..m + 4];
    forall j | 0 <= j < 4
      ensures left[j] == right[j]
    {
      assert left[j] == raw[at + m + j] == row[m + j];
      assert right[j] == flat[m + j] == (flat + filler)[m + j];
    }
  }

  lemma PixelsShow(b: ValidCapture, rows: seq<Row>)
    requires LaidOut(b, rows)
    ensures |rows| == b.contract.height && forall y :: 0 <= y < |rows| ==> IsRow(rows[y], b.contract.width)
    ensures forall x, y :: InArea(b.contract, Point(x, y)) ==> Pixel(b, x, y) == rows[y][x]
  {
    forall x, y | InArea(b.contract, Point(x, y))
      ensures Pixel(b, x, y) == rows[y][x]
    {
      PixelShows(b, rows, x, y);
    }
  }

  // ----- Every capture shows one picture -------------------------------------------------------

  /** The first `n` pixels of a run of bytes. */
  function Pixels(bytes: seq<Byte>, n: nat): (row: Row)
    requires |bytes| >= 4 * n
    ensures IsRow(row, n)
  {
    seq(n, x requires 0 <= x < n => bytes[4 * x..4 * x + 4])
  }

  lemma {:induction false} FlatPixels(bytes: seq<Byte>, n: nat)
    requires |bytes| >= 4 * n
    ensures Flat(Pixels(bytes, n)) == bytes[..4 * n]
  {
    if n > 0 {
      FlatPixels(bytes[4..], n - 1);
      assert Pixels(bytes, n)[1..] == Pixels(bytes[4..], n - 1) by {
        forall x | 0 <= x < n - 1
          ensures Pixels(bytes, n)[1..][x] == Pixels(bytes[4..], n - 1)[x]
        {
          assert bytes[4..][4 * x..4 * x + 4] == bytes[4 * (x + 1)..4 * (x + 1) + 4];
        }
      }
      assert bytes[..4] + bytes[4..][..4 * (n - 1)] == bytes[..4 * n];
    }
  }

  lemma {:induction false} CutInRows(raw: seq<Byte>, width: nat, stride: nat, height: nat)
      returns (rows: seq<Row>, fillers: seq<seq<Byte>>)
    requires 4 * width <= stride && |raw| == stride * height
    ensures |rows| == height && Shaped(rows, fillers, width, stride) && Raw(rows, fillers) == raw
  {
    if height == 0 {
      rows, fillers := [], [];
    } else {
      StridesLeft(raw, stride, height);
      var more, rest := CutInRows(raw[stride..], width, stride, height - 1);
      var row, filler := Pixels(raw, width), raw[4 * width..stride];
      FlatPixels(raw, width);
      rows, fillers := [row] + more, [filler] + rest;
      RawCons(row, filler, more, rest, width, stride);
      FirstStride(raw, 4 * width, stride);
    }
  }

  lemma StridesLeft(raw: seq<Byte>, stride: nat, height: nat)
    requires |raw| == stride * height && height > 0
    ensures stride <= |raw| && |raw[stride..]| == stride * (height - 1)
  {
    assert stride * height == stride + stride * (height - 1);
  }

  lemma FirstStride(raw: seq<Byte>, m: nat, n: nat)
    requires m <= n <= |raw|
    ensures raw[..m] + raw[m..n] + raw[n..] == raw
  {
  }

  lemma RawCons(row: Row, filler: seq<Byte>, rows: seq<Row>, fillers: seq<seq<Byte>>, width: int, stride: int)
    requires Shaped(rows, fillers, width, stride) && IsRow(row, width) && 4 * width + |filler| == stride
    ensures Shaped([row] + rows, [filler] + fillers, width, stride)
    ensures Raw([row] + rows, [filler] + fillers) == Flat(row) + filler + Raw(rows, fillers)
  {
    assert ([row] + rows)[1..] == rows && ([filler] + fillers)[1..] == fillers;
  }

  /** Every capture is the layout of some rows. */
  lemma ShowsSome(b: ValidCapture) returns (rows: seq<Row>)
    ensures LaidOut(b, rows)
  {
    ghost var fillers;
    rows, fillers := CutInRows(b.raw, b.contract.width, b.stride, b.contract.height);
    assert LaidOutWith(b, rows, fillers);
  }

  /** Pictures are equal exactly when they agree pixel by pixel. */
  lemma SameRows(p: seq<Row>, q: seq<Row>, width: int, height: int)
    requires |p| == |q| == height && forall y :: 0 <= y < height ==> |p[y]| == |q[y]| == width
    requires forall x, y :: 0 <= x < width && 0 <= y < height ==> p[y][x] == q[y][x]
    ensures p == q
  {
    forall y | 0 <= y < height
      ensures p[y] == q[y]
    {
      assert forall x :: 0 <= x < width ==> p[y][x] == q[y][x];
    }
  }

  /** ... and of no others. */
  lemma ShowsOne(b: ValidCapture, p: seq<Row>, q: seq<Row>)
    requires LaidOut(b, p) && LaidOut(b, q)
    ensures p == q
  {
    forall x, y | 0 <= x < b.contract.width && 0 <= y < b.contract.height
      ensures p[y][x] == q[y][x]
    {
      PixelShows(b, p, x, y);
      PixelShows(b, q, x, y);
    }
    SameRows(p, q, b.contract.width, b.contract.height);
  }

  /** Every capture shows one picture. */
  lemma ShowsOnePicture(b: ValidCapture)
    ensures exists rows :: LaidOut(b, rows) && forall other :: LaidOut(b, other) ==> other == rows
  {
    var rows := ShowsSome(b);
    forall other | LaidOut(b, other)
      ensures other == rows
    {
      ShowsOne(b, other, rows);
    }
  }
}
