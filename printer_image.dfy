/**
 * The raw row packer of src/printer_image.rs: a bitmap already reduced to
 * black and white becomes the IMAGE_COMMAND_HEADER message, a three-byte
 * header (mode, width in bytes, height) and one message per pixel row,
 * eight pixels per byte with the leftmost pixel in the most significant bit;
 * `create_printer_command` wraps those messages in the fixed start and end
 * commands.
 */
module PrinterImage {
  import opened Hex
  import opened ImageBuf
  import opened Instruction
  import opened Dither

  const U16_LIMIT: nat := 0x1_0000

  /** `try_into::<u8>().unwrap_or(0)`: values that do not fit a byte become 0. */
  function NarrowOrZero(n: nat): byte {
    if n < 256 then n else 0
  }

  /** The header: mode 0, then `(w / 8) as u16` and h, each narrowed to a byte (a little-endian host). */
  function HeaderBytes(w: nat, h: nat): seq<byte> {
    [0, NarrowOrZero((w / 8) % U16_LIMIT), NarrowOrZero(h)]
  }

  /** `v as f64 / 255.0 < 0.5`, which for an integer luma is exactly 2 v < 255. */
  predicate Dark(v: byte) {
    2 * v < 255
  }

  /** The threshold separates 127 (dark) from 128 (light). */
  lemma DarkThreshold(v: byte)
    ensures Dark(v) <==> v <= 127
  {
  }

  function Pow2(k: nat): (p: nat)
    ensures p >= 1
  {
    if k == 0 then 1 else 2 * Pow2(k - 1)
  }

  function DarkBit(v: byte): nat {
    if Dark(v) then 1 else 0
  }

  /** The number whose binary digits, most significant first, are the dark bits of px. */
  function BitsValue(px: seq<byte>): (r: nat)
    ensures r < Pow2(|px|)
  {
    if px == [] then 0 else 2 * BitsValue(px[..|px| - 1]) + DarkBit(px[|px| - 1])
  }

  /** `this_byte |= 1` on a `u8`. */
  function Or1(b: byte): (r: byte)
    ensures r % 2 == 1 && r / 2 == b / 2
  {
    if b % 2 == 1 then b else b + 1
  }

  /** `this_byte <<= 1` on a `u8`: the top bit is lost. */
  function Shl1(b: byte): (r: byte)
    ensures r % 2 == 0 && r / 2 == b % 128
  {
    (2 * b) % 256
  }

  /** The bytes of one row: byte k packs pixels 8 k .. 8 k + 7. */
  function RowBytes(row: seq<byte>, n: nat): (r: seq<byte>)
    requires 8 * n <= |row|
    ensures |r| == n
  {
    seq(n, k requires 0 <= k < n => ByteAt(row, k))
  }

  function ByteAt(row: seq<byte>, k: nat): byte
    requires 8 * k + 8 <= |row|
  {
    Pow2Eight();
    BitsValue(row[8 * k..8 * k + 8])
  }

  lemma Pow2Eight()
    ensures Pow2(8) == 256 && Pow2(7) == 128
  {
  }

  /** The messages of `prep_image_data` for a black-and-white raster of width w and height h. */
  function ImageMessages(img: GrayImage): (r: seq<BleMessage>)
    requires WellFormed(img)
  {
    var n := img.width / 8;
    [BleMessage(IMAGE_COMMAND_HEADER), BleMessage(HeaderBytes(img.width, img.height))] +
    seq(img.height, y requires 0 <= y < img.height => BleMessage(RowBytes(img.rows[y], n)))
  }

  /** The full print job of `create_printer_command`. */
  function PrinterCommand(img: GrayImage): seq<BleMessage>
    requires WellFormed(img)
  {
    [BleMessage(ENABLE_PRINTER), BleMessage(SET_THICKNESS)] + ImageMessages(img) +
    [BleMessage(PRINTER_WAKE_MAGIC_END), BleMessage(PRINT_LINE_DOTS), BleMessage(STOP_PRINT_JOBS)]
  }

  lemma RowWidth(w: nat, k: nat)
    requires k < w / 8
    ensures 8 * k + 8 <= w
  {
  }

  /** The `i` loop: setting the low bit for a dark pixel and shifting after all but the last pixel. */
  method PackByte(row: seq<byte>, w: nat, head: nat) returns (thisByte: byte)
    requires |row| == w && head + 8 <= w
    ensures thisByte == BitsValue(row[head..head + 8])
  {
    Pow2Eight();
    thisByte := 0;
    var i := 0;
    while i < 8
      invariant 0 <= i <= 8
      invariant thisByte == if i == 8 then BitsValue(row[head..head + 8]) else 2 * BitsValue(row[head..head + i])
    {
      var x := head + i;
      if x > w {
        assert false;
      }
      ghost var px := row[head..head + i + 1];
      assert px[..i] == row[head..head + i] && px[i] == row[x];
      if Dark(row[x]) {
        thisByte := Or1(thisByte);
      }
      assert thisByte == BitsValue(px);
      if i < 7 {
        Pow2Monotone(i + 1, 7);
        thisByte := Shl1(thisByte);
      }
      i := i + 1;
    }
  }

  lemma {:induction false} Pow2Monotone(a: nat, b: nat)
    requires a <= b
    ensures Pow2(a) <= Pow2(b)
    decreases b
  {
    if a < b {
      Pow2Monotone(a, b - 1);
    }
  }

  /** The `scanner` loop: one byte per whole group of eight pixels. */
  method PackRow(row: seq<byte>, w: nat) returns (line: seq<byte>)
    requires |row| == w
    ensures line == RowBytes(row, w / 8)
  {
    line := [];
    var scanner := 0;
    while scanner < w / 8
      invariant scanner <= w / 8
      invariant line == RowBytes(row, w / 8)[..scanner]
    {
      var head := scanner * 8;
      RowWidth(w, scanner);
      var b := PackByte(row, w, head);
      line := line + [b];
      scanner := scanner + 1;
    }
  }

  /** `prep_image_data` on the raster the black-and-white effect produced. */
  method PrepImageData(img: GrayImage) returns (imageCommand: seq<BleMessage>)
    requires WellFormed(img)
    ensures imageCommand == ImageMessages(img)
  {
    imageCommand := [BleMessage(IMAGE_COMMAND_HEADER)];
    var w, h := img.width, img.height;
    var header: seq<byte> := [];
    var mode: byte := 0;
    header := header + [mode];
    header := header + [NarrowOrZero((w / 8) % U16_LIMIT)];
    header := header + [NarrowOrZero(h)];
    imageCommand := imageCommand + [BleMessage(header)];
    assert header == HeaderBytes(w, h);
    assert ImageMessages(img)[..2] == imageCommand;
    var y := 0;
    while y < h
      invariant y <= h
      invariant imageCommand == ImageMessages(img)[..2 + y]
    {
      var line := PackRow(img.rows[y], w);
      imageCommand := imageCommand + [BleMessage(line)];
      y := y + 1;
    }
  }

  /** `create_printer_command`: the start commands, the image messages, then the end commands. */
  method CreatePrinterCommand(img: GrayImage) returns (commands: seq<BleMessage>)
    requires WellFormed(img)
    ensures commands == PrinterCommand(img)
  {
    commands := [BleMessage(ENABLE_PRINTER), BleMessage(SET_THICKNESS)];
    var data := PrepImageData(img);
    commands := commands + data;
    commands := commands + [BleMessage(PRINTER_WAKE_MAGIC_END)];
    commands := commands + [BleMessage(PRINT_LINE_DOTS)];
    commands := commands + [BleMessage(STOP_PRINT_JOBS)];
  }

  // ---------------------------------------------------------------------
  // What the messages say
  // ---------------------------------------------------------------------

  /** There are 2 + h messages: the command header, the three-byte header and one row of w / 8 bytes per pixel row, top first. */
  lemma MessageShape(img: GrayImage)
    requires WellFormed(img)
    ensures var m := ImageMessages(img);
      |m| == 2 + img.height &&
      m[0].payload == IMAGE_COMMAND_HEADER && m[1].payload == HeaderBytes(img.width, img.height) &&
      |m[1].payload| == 3 &&
      forall y :: 0 <= y < img.height ==> m[2 + y].payload == RowBytes(img.rows[y], img.width / 8) && |m[2 + y].payload| == img.width / 8
  {
  }

  /** Below 2^19 pixels of width the `u16` cast is exact: the fields are w / 8 and h when they fit a byte, else 0. */
  lemma HeaderFields(w: nat, h: nat)
    requires w < 8 * U16_LIMIT
    ensures HeaderBytes(w, h) == [0, if w / 8 <= 255 then w / 8 else 0, if h <= 255 then h else 0]
  {
  }

  /** At the printer's 384 dots the width field is 48. */
  lemma PrinterWidthHeader(h: nat)
    ensures HeaderBytes(PRINTER_WIDTH, h)[1] == 48
  {
  }

  /** `(w / 8) as u16` drops the bits above 16: a width of 8 * 65537 yields a width field of 1. */
  lemma WidthFieldWraps()
    ensures HeaderBytes(8 * (U16_LIMIT + 1), 1)[1] == 1
  {
  }

  /** The `x > w` skip never fires: every pixel a byte reads lies inside the row. */
  lemma SkipNeverFires(w: nat, scanner: nat, i: nat)
    requires scanner < w / 8 && i < 8
    ensures scanner * 8 + i < w
  {
    RowWidth(w, scanner);
  }

  /** Bit k of v, counting from the least significant. */
  function BitOfValue(v: nat, k: nat): nat {
    if k == 0 then v % 2 else BitOfValue(v / 2, k - 1)
  }

  /** Digit j of px, counting from the most significant, is pixel j's dark bit. */
  lemma {:induction false} BitOf(px: seq<byte>, j: nat)
    requires j < |px|
    ensures BitOfValue(BitsValue(px), |px| - 1 - j) == DarkBit(px[j])
    decreases |px|
  {
    var n := |px|;
    var init := px[..n - 1];
    var a := BitsValue(init);
    var d := DarkBit(px[n - 1]);
    assert BitsValue(px) == 2 * a + d;
    if j < n - 1 {
      assert (2 * a + d) / 2 == a;
      BitOf(init, j);
      assert init[j] == px[j];
    }
  }

  /**
   * Pixel (x, y), for x below 8 * (w / 8), is bit 7 - x % 8 of byte x / 8
   * in row message y, and that bit is set exactly when the pixel is dark.
   */
  lemma PixelBit(img: GrayImage, x: nat, y: nat)
    requires WellFormed(img) && y < img.height && x < 8 * (img.width / 8)
    ensures var row := ImageMessages(img)[2 + y].payload;
      x / 8 < |row| && BitOfValue(row[x / 8], 7 - x % 8) == DarkBit(img.rows[y][x])
  {
    var k := x / 8;
    var r := img.rows[y];
    RowWidth(img.width, k);
    var px := r[8 * k..8 * k + 8];
    BitOf(px, x % 8);
    assert px[x % 8] == r[x];
  }

  /** Columns from 8 * (w / 8) on are not encoded: rows that agree before them give the same bytes. */
  lemma RowIgnoresTail(row: seq<byte>, other: seq<byte>, n: nat)
    requires 8 * n <= |row| && 8 * n <= |other| && row[..8 * n] == other[..8 * n]
    ensures RowBytes(row, n) == RowBytes(other, n)
  {
    forall k | 0 <= k < n
      ensures ByteAt(row, k) == ByteAt(other, k)
    {
      assert row[8 * k..8 * k + 8] == row[..8 * n][8 * k..8 * k + 8];
      assert other[8 * k..8 * k + 8] == other[..8 * n][8 * k..8 * k + 8];
    }
  }

  /**
   * The job is ENABLE_PRINTER, SET_THICKNESS, the 2 + h image messages, then
   * PRINTER_WAKE_MAGIC_END, PRINT_LINE_DOTS and STOP_PRINT_JOBS: 7 + h messages.
   */
  lemma CommandLayout(img: GrayImage)
    requires WellFormed(img)
    ensures var c := PrinterCommand(img);
      var h := img.height;
      |c| == 7 + h &&
      c[0].payload == ENABLE_PRINTER && c[1].payload == SET_THICKNESS &&
      c[2..4 + h] == ImageMessages(img) &&
      c[4 + h].payload == PRINTER_WAKE_MAGIC_END && c[5 + h].payload == PRINT_LINE_DOTS &&
      c[6 + h].payload == STOP_PRINT_JOBS
  {
    MessageShape(img);
  }
}
