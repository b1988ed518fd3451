/**
 * The image crate's pixel buffers (`GrayImage`, `RgbImage`, `ImageBuffer`)
 * as values: a width, a height and the rows of pixels, top row first.
 * The crate stores dimensions as `u32`.
 */
module ImageBuf {

  const U32_LIMIT: nat := 0x1_0000_0000

  datatype Raster<T> = Raster(width: nat, height: nat, rows: seq<seq<T>>)

  /** Every row holds exactly w pixels. */
  predicate Rectangular<T>(rows: seq<seq<T>>, w: nat) {
    forall y :: 0 <= y < |rows| ==> |rows[y]| == w
  }

  /** The buffer's dimensions fit `u32` and agree with its rows. */
  predicate WellFormed<T>(img: Raster<T>) {
    img.width < U32_LIMIT && img.height < U32_LIMIT &&
    |img.rows| == img.height && Rectangular(img.rows, img.width)
  }

  /** The pixels in row-major order, as the buffer stores them. */
  function Flatten<T>(rows: seq<seq<T>>): seq<T> {
    if rows == [] then [] else Flatten(rows[..|rows| - 1]) + rows[|rows| - 1]
  }

  lemma {:induction false} FlattenLength<T>(rows: seq<seq<T>>, w: nat)
    requires Rectangular(rows, w)
    ensures |Flatten(rows)| == |rows| * w
  {
    if rows != [] {
      FlattenLength(rows[..|rows| - 1], w);
      assert (|rows| - 1) * w + w == |rows| * w;
    }
  }

  lemma RowOffsetBound(x: nat, y: nat, w: nat, n: nat)
    requires x < w && y < n
    ensures y * w + x < n * w
  {
    assert y * w + x < y * w + w == (y + 1) * w;
    assert (y + 1) * w <= n * w;
  }

  lemma AppendIndex<T>(a: seq<T>, b: seq<T>, k: nat)
    requires k < |a| + |b|
    ensures (a + b)[k] == if k < |a| then a[k] else b[k - |a|]
  {
  }

  /** Pixel (x, y) sits at position y * w + x of the row-major order. */
  lemma {:induction false} FlattenIndex<T>(rows: seq<seq<T>>, w: nat, x: nat, y: nat)
    requires Rectangular(rows, w) && y < |rows| && x < w
    ensures |Flatten(rows)| == |rows| * w
    ensures y * w + x < |Flatten(rows)|
    ensures Flatten(rows)[y * w + x] == rows[y][x]
  {
    FlattenLength(rows, w);
    RowOffsetBound(x, y, w, |rows|);
    var n := |rows| - 1;
    var init := rows[..n];
    assert Rectangular(init, w);
    FlattenLength(init, w);
    var k := y * w + x;
    var f := Flatten(init);
    assert Flatten(rows) == f + rows[n];
    if y == n {
      assert k == |f| + x;
      AppendIndex(f, rows[n], k);
    } else {
      RowOffsetBound(x, y, w, n);
      FlattenIndex(init, w, x, y);
      assert init[y] == rows[y];
      AppendIndex(f, rows[n], k);
    }
  }
}
