/**
 * The hex bit packer of src/dither.rs: every pixel of a grayscale raster
 * becomes one bit (value 0 is ink), a fixed preamble of one set bit and
 * 318 clear bits goes in front, the string is left-padded with clear bits to
 * whole nibbles, and each nibble becomes one uppercase hex digit.
 */
module Dither {
  import opened Wrappers
  import opened Hex
  import opened Strings
  import opened ImageBuf

  type GrayImage = Raster<byte>

  const PREAMBLE_ZEROS: nat := 318
  const PREAMBLE_LENGTH: nat := PREAMBLE_ZEROS + 1

  predicate IsBits(s: string) {
    forall i :: 0 <= i < |s| ==> s[i] == '0' || s[i] == '1'
  }

  /** One pixel's bit: a zero sample is ink ('1'), anything brighter is not. */
  function InkBit(v: byte): char {
    if v > 0 then '0' else '1'
  }

  function InkBits(pixels: seq<byte>): (r: string)
    ensures |r| == |pixels| && IsBits(r)
  {
    seq(|pixels|, i requires 0 <= i < |pixels| => InkBit(pixels[i]))
  }

  /** The start bits: one set bit, then the clear bits of the reserved header space. */
  function Preamble(): (r: string)
    ensures |r| == PREAMBLE_LENGTH && IsBits(r)
  {
    "1" + Repeat('0', PREAMBLE_ZEROS)
  }

  /** The bit string before padding: preamble, then the pixels row by row. */
  function BitString(img: GrayImage): (r: string)
    requires WellFormed(img)
    ensures |r| == PREAMBLE_LENGTH + |Flatten(img.rows)| && IsBits(r)
  {
    Preamble() + InkBits(Flatten(img.rows))
  }

  /** Left padding with '0' up to a multiple of 4 bits. */
  function PadToNibbles(bits: string): (r: string)
    ensures |r| % 4 == 0 && |bits| <= |r| < |bits| + 4
    ensures r == Repeat('0', |r| - |bits|) + bits
    ensures IsBits(bits) ==> IsBits(r)
  {
    if |bits| % 4 != 0 then Repeat('0', 4 - |bits| % 4) + bits else bits
  }

  function Bit(c: char): nat {
    if c == '1' then 1 else 0
  }

  /** The number a four-bit string denotes, most significant bit first. */
  function NibbleValue(b: string): nat
    requires |b| == 4
  {
    8 * Bit(b[0]) + 4 * Bit(b[1]) + 2 * Bit(b[2]) + Bit(b[3])
  }

  function BitChar(on: bool): char {
    if on then '1' else '0'
  }

  /** The four bits of a value below 16, most significant first. */
  function BitsOfValue(v: nat): (r: string)
    requires v < 16
    ensures |r| == 4 && IsBits(r)
  {
    [BitChar(v / 8 == 1), BitChar((v / 4) % 2 == 1), BitChar((v / 2) % 2 == 1), BitChar(v % 2 == 1)]
  }

  /** The four bits of a hex digit. */
  function NibbleBits(c: char): (r: string)
    requires IsHexChar(c)
    ensures |r| == 4 && IsBits(r)
  {
    BitsOfValue(CharValue(c))
  }

  lemma BitsOfValueValue(v: nat)
    requires v < 16
    ensures NibbleValue(BitsOfValue(v)) == v
  {
    var h := v / 2;
    assert v == 2 * h + v % 2;
    var q := h / 2;
    assert h == 2 * q + h % 2;
    assert v / 4 == q;
    var e := q / 2;
    assert q == 2 * e + q % 2;
    assert v / 8 == e;
  }

  /** `to_hex`: the sixteen-row nibble table; `None` stands for the panic on any other input. */
  function ToHex(b: string): (r: Option<char>)
    ensures r.Some? ==> |b| == 4 && IsBits(b)
  {
    if b == "0000" then Some('0')
    else if b == "0001" then Some('1')
    else if b == "0010" then Some('2')
    else if b == "0011" then Some('3')
    else if b == "0100" then Some('4')
    else if b == "0101" then Some('5')
    else if b == "0110" then Some('6')
    else if b == "0111" then Some('7')
    else if b == "1000" then Some('8')
    else if b == "1001" then Some('9')
    else if b == "1010" then Some('A')
    else if b == "1011" then Some('B')
    else if b == "1100" then Some('C')
    else if b == "1101" then Some('D')
    else if b == "1110" then Some('E')
    else if b == "1111" then Some('F')
    else None
  }

  /** Every well-formed nibble has a table row, and the row's digit denotes the nibble's value. */
  lemma ToHexTotal(b: string)
    requires |b| == 4 && IsBits(b)
    ensures ToHex(b) == Some(DigitChar(NibbleValue(b)))
  {
    assert b == [b[0], b[1], b[2], b[3]];
    if b[0] == '0' {
      if b[1] == '0' { ToHexQuarter(b); } else { ToHexQuarter(b); }
    } else {
      if b[1] == '0' { ToHexQuarter(b); } else { ToHexQuarter(b); }
    }
  }

  lemma ToHexQuarter(b: string)
    requires |b| == 4 && IsBits(b) && b == [b[0], b[1], b[2], b[3]]
    ensures ToHex(b) == Some(DigitChar(NibbleValue(b)))
  {
    if b[2] == '0' && b[3] == '0' { }
    else if b[2] == '0' { }
    else if b[3] == '0' { }
    else { }
  }

  /** The digit's four bits are the nibble it was made from. */
  lemma NibbleBitsOfDigit(b: string)
    requires |b| == 4 && IsBits(b)
    ensures NibbleBits(DigitChar(NibbleValue(b))) == b
  {
    var v := NibbleValue(b);
    assert CharValue(DigitChar(v)) == v;
    var r := NibbleBits(DigitChar(v));
    assert r[0] == b[0] && r[1] == b[1] && r[2] == b[2] && r[3] == b[3];
  }

  /** `to_hex` answers exactly on the sixteen four-bit strings and panics on everything else. */
  lemma ToHexDefinedIff(b: string)
    ensures ToHex(b).Some? <==> |b| == 4 && IsBits(b)
  {
    if |b| == 4 && IsBits(b) {
      ToHexTotal(b);
    }
  }

  /** No two nibbles share a digit. */
  lemma ToHexInjective(a: string, b: string)
    requires ToHex(a).Some? && ToHex(a) == ToHex(b)
    ensures a == b
  {
    ToHexTotal(a);
    ToHexTotal(b);
    NibbleBitsOfDigit(a);
    NibbleBitsOfDigit(b);
  }

  /** The hex digits of a whole-nibble bit string: the reference packing, digit by nibble value. */
  function HexOfBits(bits: string): (r: string)
    requires |bits| % 4 == 0
    ensures |r| == |bits| / 4 && IsUpperHex(r)
    decreases |bits|
  {
    if bits == [] then [] else [DigitChar(NibbleValue(bits[..4]))] + HexOfBits(bits[4..])
  }

  /** The inverse expansion: every digit back to its four bits. */
  function HexToBits(h: string): (r: string)
    requires IsUpperHex(h)
    ensures |r| == 4 * |h| && IsBits(r)
  {
    if h == [] then [] else NibbleBits(h[0]) + HexToBits(h[1..])
  }

  /** Expanding the packed digits gives back the bits. */
  lemma {:induction false} HexThenBits(bits: string)
    requires |bits| % 4 == 0 && IsBits(bits)
    ensures HexToBits(HexOfBits(bits)) == bits
    decreases |bits|
  {
    if bits != [] {
      var h := HexOfBits(bits);
      NibbleBitsOfDigit(bits[..4]);
      HexThenBits(bits[4..]);
      assert h[1..] == HexOfBits(bits[4..]);
      assert bits == bits[..4] + bits[4..];
    }
  }

  lemma NibbleOfDigit(c: char)
    requires IsUpperHexChar(c)
    ensures NibbleValue(NibbleBits(c)) == CharValue(c)
    ensures DigitChar(CharValue(c)) == c
  {
    BitsOfValueValue(CharValue(c));
    if '0' <= c <= '9' { } else { }
  }

  /** Packing the expansion of an uppercase hex string gives back the string. */
  lemma {:induction false} BitsThenHex(h: string)
    requires IsUpperHex(h)
    ensures HexOfBits(HexToBits(h)) == h
  {
    if h != [] {
      var bits := HexToBits(h);
      assert bits[..4] == NibbleBits(h[0]);
      assert bits[4..] == HexToBits(h[1..]);
      NibbleOfDigit(h[0]);
      BitsThenHex(h[1..]);
      assert h == [h[0]] + h[1..];
    }
  }

  /** Digit k of the packing is the digit of the k-th group of four bits. */
  lemma {:induction false} HexOfBitsIndex(bits: string, k: nat)
    requires |bits| % 4 == 0 && k < |bits| / 4
    ensures 4 * k + 4 <= |bits|
    ensures HexOfBits(bits)[k] == DigitChar(NibbleValue(bits[4 * k..4 * k + 4]))
  {
    if k > 0 {
      HexOfBitsIndex(bits[4..], k - 1);
      assert bits[4..][4 * (k - 1)..4 * (k - 1) + 4] == bits[4 * k..4 * k + 4];
    }
  }

  lemma {:induction false} HexOfBitsAppend(a: string, b: string)
    requires |a| % 4 == 0 && |b| % 4 == 0
    ensures HexOfBits(a + b) == HexOfBits(a) + HexOfBits(b)
    decreases |a|
  {
    if a != [] {
      assert (a + b)[..4] == a[..4];
      assert (a + b)[4..] == a[4..] + b;
      HexOfBitsAppend(a[4..], b);
      var d := [DigitChar(NibbleValue(a[..4]))];
      calc {
        HexOfBits(a + b);
        d + HexOfBits(a[4..] + b);
        d + (HexOfBits(a[4..]) + HexOfBits(b));
        (d + HexOfBits(a[4..])) + HexOfBits(b);
        HexOfBits(a) + HexOfBits(b);
      }
    } else {
      assert a + b == b;
    }
  }

  lemma {:induction false} HexOfZeroBits(k: nat)
    ensures HexOfBits(Repeat('0', 4 * k)) == Repeat('0', k)
  {
    if k > 0 {
      var z := Repeat('0', 4 * k);
      assert z[..4] == "0000";
      assert z[4..] == Repeat('0', 4 * (k - 1));
      HexOfZeroBits(k - 1);
      assert Repeat('0', k) == ['0'] + Repeat('0', k - 1);
    }
  }

  lemma InkBitsAppend(a: seq<byte>, b: seq<byte>)
    ensures InkBits(a + b) == InkBits(a) + InkBits(b)
  {
    forall i | 0 <= i < |a + b|
      ensures InkBits(a + b)[i] == (InkBits(a) + InkBits(b))[i]
    {
      AppendIndex(a, b, i);
      AppendIndex(InkBits(a), InkBits(b), i);
    }
  }

  /** What `make_image_hex_str` returns for a buffer. */
  function ImageHex(img: GrayImage): (r: string)
    requires WellFormed(img)
    ensures IsUpperHex(r)
  {
    HexOfBits(PadToNibbles(BitString(img)))
  }

  lemma HexOfBitsStep(bin: string, c: nat)
    requires |bin| % 4 == 0 && c % 4 == 0 && c < |bin|
    ensures c + 4 <= |bin|
    ensures HexOfBits(bin[c..]) == [DigitChar(NibbleValue(bin[c..c + 4]))] + HexOfBits(bin[c + 4..])
  {
    assert bin[c..][..4] == bin[c..c + 4];
    assert bin[c..][4..] == bin[c + 4..];
  }

  lemma PixelStep(row: seq<byte>, x: nat)
    requires x < |row|
    ensures InkBits(row[..x]) + [InkBit(row[x])] == InkBits(row[..x + 1])
  {
    assert row[..x + 1] == row[..x] + [row[x]];
    InkBitsAppend(row[..x], [row[x]]);
  }

  lemma RowStep(rows: seq<seq<byte>>, y: nat)
    requires y < |rows|
    ensures InkBits(Flatten(rows[..y])) + InkBits(rows[y]) == InkBits(Flatten(rows[..y + 1]))
  {
    assert rows[..y + 1][..y] == rows[..y];
    InkBitsAppend(Flatten(rows[..y]), rows[y]);
  }

  /** The pixel loops of `make_image_hex_str`: rows top to bottom, each left to right. */
  method CollectInkBits(img: GrayImage) returns (bin: string)
    requires WellFormed(img)
    ensures bin == InkBits(Flatten(img.rows))
  {
    bin := "";
    var y := 0;
    while y < img.height
      invariant 0 <= y <= img.height
      invariant bin == InkBits(Flatten(img.rows[..y]))
    {
      var row := img.rows[y];
      ghost var done := bin;
      var x := 0;
      while x < img.width
        invariant 0 <= x <= img.width
        invariant bin == done + InkBits(row[..x])
      {
        var s := row[x];
        PixelStep(row, x);
        bin := bin + [if s > 0 then '0' else '1'];
        x := x + 1;
      }
      assert row[..x] == row;
      RowStep(img.rows, y);
      y := y + 1;
    }
    assert img.rows[..y] == img.rows;
  }

  /** The `step_by(4)` loop of `make_image_hex_str`: one `to_hex` digit per group of four bits. */
  method PackNibbles(bin: string) returns (hex: string)
    requires |bin| % 4 == 0 && IsBits(bin)
    ensures hex == HexOfBits(bin)
  {
    hex := "";
    var counter := 0;
    while counter < |bin|
      invariant 0 <= counter <= |bin| && counter % 4 == 0
      invariant hex + HexOfBits(bin[counter..]) == HexOfBits(bin)
      decreases |bin| - counter
    {
      HexOfBitsStep(bin, counter);
      var chunk := bin[counter..counter + 4];
      assert IsBits(chunk);
      ToHexTotal(chunk);
      var digit := ToHex(chunk);
      hex := hex + [digit.value];
      counter := counter + 4;
    }
    assert bin[counter..] == [];
  }

  /**
   * `make_image_hex_str`: one bit per pixel in row-major order, the
   * preamble in front, the left pad, then one table digit per nibble.
   */
  method MakeImageHexStr(img: GrayImage) returns (hex: string)
    requires WellFormed(img)
    ensures hex == ImageHex(img)
  {
    var bin := CollectInkBits(img);
    bin := "1" + Repeat('0', 318) + bin;
    if |bin| % 4 != 0 {
      bin := Repeat('0', 4 - |bin| % 4) + bin;
    }
    assert bin == PadToNibbles(BitString(img));
    hex := PackNibbles(bin);
  }

  /** Before padding: the preamble, then one bit per pixel. */
  lemma BitStringShape(img: GrayImage)
    requires WellFormed(img)
    ensures |BitString(img)| == PREAMBLE_LENGTH + img.width * img.height
    ensures BitString(img)[..PREAMBLE_LENGTH] == ['1'] + Repeat('0', PREAMBLE_ZEROS)
  {
    FlattenLength(img.rows, img.width);
    assert img.height * img.width == img.width * img.height;
    assert BitString(img)[..PREAMBLE_LENGTH] == Preamble();
  }

  /** Pixel (x, y) is bit 319 + y * w + x, before padding. */
  lemma InkBitPlacement(img: GrayImage, x: nat, y: nat)
    requires WellFormed(img) && x < img.width && y < img.height
    ensures PREAMBLE_LENGTH + y * img.width + x < |BitString(img)|
    ensures BitString(img)[PREAMBLE_LENGTH + y * img.width + x] == (if img.rows[y][x] == 0 then '1' else '0')
  {
    FlattenIndex(img.rows, img.width, x, y);
    var f := Flatten(img.rows);
    var k := y * img.width + x;
    AppendIndex(Preamble(), InkBits(f), PREAMBLE_LENGTH + k);
  }

  lemma CeilQuarter(m: nat, p: nat)
    requires p % 4 == 0 && m <= p < m + 4
    ensures p / 4 == (m + 3) / 4
  {
    var q := p / 4;
    assert p == 4 * q;
    assert 4 * q <= m + 3 < 4 * q + 4;
  }

  lemma PrinterWidthArithmetic(h: nat)
    ensures (PREAMBLE_LENGTH + 384 * h + 3) / 4 == 80 + 96 * h
    ensures (80 + 96 * h) / 96 == h
  {
    assert PREAMBLE_LENGTH + 384 * h + 3 == 4 * (80 + 96 * h) + 2;
    assert 80 + 96 * h == 96 * h + 80;
  }

  /** The hex text has ceil((319 + w * h) / 4) digits. */
  lemma ImageHexLength(img: GrayImage)
    requires WellFormed(img)
    ensures |ImageHex(img)| == (PREAMBLE_LENGTH + img.width * img.height + 3) / 4
  {
    FlattenLength(img.rows, img.width);
    assert img.height * img.width == img.width * img.height;
    var padded := PadToNibbles(BitString(img));
    CeilQuarter(|BitString(img)|, |padded|);
  }

  /** At the printer's 384 dots the text has 80 + 96 * h digits, so `L / 96` is the row count. */
  lemma PrinterWidthHexLength(img: GrayImage)
    requires WellFormed(img) && img.width == 384
    ensures |ImageHex(img)| == 80 + 96 * img.height
    ensures |ImageHex(img)| / 96 == img.height
  {
    ImageHexLength(img);
    PrinterWidthArithmetic(img.height);
  }

  /** Every digit is uppercase hex and denotes its group of four padded bits. */
  lemma ImageHexDigit(img: GrayImage, k: nat)
    requires WellFormed(img) && k < |ImageHex(img)|
    ensures IsUpperHexChar(ImageHex(img)[k])
    ensures 4 * k + 4 <= |PadToNibbles(BitString(img))|
    ensures CharValue(ImageHex(img)[k]) == NibbleValue(PadToNibbles(BitString(img))[4 * k..4 * k + 4])
  {
    HexOfBitsIndex(PadToNibbles(BitString(img)), k);
  }

  /**
   * Decoding the hex text: expanded back to bits, it is a pad of fewer than
   * four '0's, the preamble, and then the ink bits of the pixels.
   */
  lemma ImageHexRoundTrip(img: GrayImage)
    requires WellFormed(img)
    ensures var bits := HexToBits(ImageHex(img));
      var pad := |bits| - PREAMBLE_LENGTH - img.width * img.height;
      0 <= pad < 4 &&
      bits == Repeat('0', pad) + Preamble() + InkBits(Flatten(img.rows))
  {
    FlattenLength(img.rows, img.width);
    assert img.height * img.width == img.width * img.height;
    HexThenBits(PadToNibbles(BitString(img)));
  }

  /** The reading side: the last n bits of the expanded hex text, when there are that many. */
  function InkOf(hex: string, n: nat): (r: Option<string>)
    requires IsUpperHex(hex)
    ensures r.Some? <==> n <= 4 * |hex|
    ensures r.Some? ==> |r.value| == n && HexToBits(hex) == HexToBits(hex)[..4 * |hex| - n] + r.value
  {
    var bits := HexToBits(hex);
    if n <= |bits| then Some(bits[|bits| - n..]) else None
  }

  /** Reading the last w * h bits back gives exactly the ink bits of the pixels. */
  lemma ImageInkDecodes(img: GrayImage)
    requires WellFormed(img)
    ensures var n: nat := img.width * img.height; InkOf(ImageHex(img), n) == Some(InkBits(Flatten(img.rows)))
  {
    ImageHexRoundTrip(img);
    var n := img.width * img.height;
    var bits := HexToBits(ImageHex(img));
    var front := Repeat('0', |bits| - PREAMBLE_LENGTH - n) + Preamble();
    var ink := InkBits(Flatten(img.rows));
    assert bits == front + ink;
    assert |ink| == n;
    assert bits[|bits| - n..] == ink;
  }

  /** In the recovered ink bits, pixel (x, y) is bit y * w + x, and it is '1' exactly for a zero sample. */
  lemma InkRecovered(img: GrayImage, x: nat, y: nat)
    requires WellFormed(img) && x < img.width && y < img.height
    ensures var ink := InkBits(Flatten(img.rows));
      y * img.width + x < |ink| && (ink[y * img.width + x] == '1' <==> img.rows[y][x] == 0)
  {
    FlattenIndex(img.rows, img.width, x, y);
  }

  lemma HexOfOneNibble(b: string)
    requires |b| == 4
    ensures HexOfBits(b) == [DigitChar(NibbleValue(b))]
  {
    assert b[..4] == b;
    assert b[4..] == [];
  }

  lemma OneInkPixelBits()
    ensures WellFormed(Raster(1, 1, [[0]]))
    ensures BitString(Raster(1, 1, [[0]])) == "1000" + Repeat('0', 312) + "0001"
  {
    var img: GrayImage := Raster(1, 1, [[0]]);
    assert Flatten(img.rows) == [0] by {
      assert img.rows[..0] == [];
    }
    assert InkBits([0]) == "1";
  }

  lemma FirstAndLastNibble()
    ensures HexOfBits("1000") == "8" && HexOfBits("0001") == "1"
  {
    HexOfOneNibble("1000");
    HexOfOneNibble("0001");
  }

  lemma OneInkPixelDigits()
    ensures HexOfBits("1000" + Repeat('0', 312) + "0001") == "8" + Repeat('0', 78) + "1"
  {
    var first, zeros, last := "1000", Repeat('0', 4 * 78), "0001";
    HexOfZeroBits(78);
    FirstAndLastNibble();
    HexOfBitsAppend(first, zeros);
    HexOfBitsAppend(first + zeros, last);
    var front := HexOfBits(first + zeros);
    assert front == "8" + Repeat('0', 78);
    assert HexOfBits(first + zeros + last) == front + "1";
  }

  /** A single ink pixel packs to "8", seventy-eight "0"s and "1". */
  lemma OneInkPixel()
    ensures WellFormed(Raster(1, 1, [[0]]))
    ensures ImageHex(Raster(1, 1, [[0]])) == "8" + Repeat('0', 78) + "1"
  {
    var img: GrayImage := Raster(1, 1, [[0]]);
    OneInkPixelBits();
    var bits := "1000" + Repeat('0', 312) + "0001";
    assert |bits| == 320;
    assert PadToNibbles(bits) == bits;
    OneInkPixelDigits();
  }
}
