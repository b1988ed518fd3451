/**
 * The printer driver of src/printer.rs: finding the printer and its write
 * characteristic, the two setup writes, and a print job, which frames the
 * packed hex text of an image as one header frame and 256-digit chunks.
 *
 * The Bluetooth link is a `Link` object: it records every write issued, in
 * order, and asks an outcome oracle whether the n-th write succeeds. Each
 * operation is specified by a `Plan`, the writes it attempts when every one
 * succeeds; running a plan stops at the first rejected write (Rust's `?`).
 */
module Printer {
  import opened Wrappers
  import opened Hex
  import opened Strings
  import opened ImageBuf
  import opened Instruction
  import opened Dither

  /** Why an operation gives up. */
  datatype Failure =
    | NoPeripherals
    | PrinterNotFound
    | CharacteristicNotFound(uuid: nat)
    | WriteFailed
    | Panic

  datatype Characteristic = Characteristic(uuid: nat, service: nat)

  /** The advertised properties of a device; only the local name is consulted. */
  datatype Properties = Properties(localName: Option<string>)

  /**
   * A scanned device: its properties (`None` when `properties()` yields no
   * value, which the driver unwraps) and its characteristics in the order the Bluetooth library lists them.
   */
  datatype Peripheral = Peripheral(properties: Option<Properties>, characteristics: seq<Characteristic>)

  /** The connection to the printer's write characteristic. */
  class Link {
    /** Every write issued so far, oldest first, including a rejected last one. */
    var log: seq<seq<byte>>
    /** Whether the write with a given position in the log, carrying given data, succeeds. */
    const accepts: (nat, seq<byte>) -> bool

    constructor (accepts: (nat, seq<byte>) -> bool)
      ensures log == [] && this.accepts == accepts
    {
      log := [];
      this.accepts := accepts;
    }

    /** `write_ext`: one write with response. */
    method Write(data: seq<byte>) returns (ok: bool)
      modifies this
      ensures log == old(log) + [data]
      ensures ok == accepts(|old(log)|, data)
    {
      ok := accepts(|log|, data);
      log := log + [data];
    }
  }

  // ---------------------------------------------------------------------
  // Plans and their runs
  // ---------------------------------------------------------------------

  /** The writes an operation attempts in order, and how it ends if all of them succeed. */
  datatype Plan = Plan(writes: seq<seq<byte>>, tail: Option<Failure>)

  /** How many leading writes succeed, when the first of them is write number `start`. */
  function Accepted(writes: seq<seq<byte>>, start: nat, accepts: (nat, seq<byte>) -> bool): (k: nat)
    ensures k <= |writes|
    ensures forall j :: 0 <= j < k ==> accepts(start + j, writes[j])
    ensures k < |writes| ==> !accepts(start + k, writes[k])
    decreases |writes|
  {
    if writes == [] || !accepts(start, writes[0]) then 0
    else 1 + Accepted(writes[1..], start + 1, accepts)
  }

  /** The writes a run issues: the accepted ones and the first rejected one, nothing after it. */
  function Issued(plan: Plan, start: nat, accepts: (nat, seq<byte>) -> bool): seq<seq<byte>> {
    var k := Accepted(plan.writes, start, accepts);
    if k < |plan.writes| then plan.writes[..k + 1] else plan.writes
  }

  /** How a run ends: the first write error, else the plan's own ending. */
  function Outcome(plan: Plan, start: nat, accepts: (nat, seq<byte>) -> bool): Result<(), Failure> {
    if Accepted(plan.writes, start, accepts) < |plan.writes| then Err(WriteFailed)
    else if plan.tail.Some? then Err(plan.tail.value)
    else Ok(())
  }

  /** Every write of `sent`, the first of them write number `start`, succeeded. */
  predicate AllAccepted(sent: seq<seq<byte>>, start: nat, accepts: (nat, seq<byte>) -> bool) {
    forall j :: 0 <= j < |sent| ==> accepts(start + j, sent[j])
  }

  /** A run issues a prefix of the plan; all but its last write succeeded, and it stops early only after a rejection. */
  lemma IssuedStopsAtFirstFailure(plan: Plan, start: nat, accepts: (nat, seq<byte>) -> bool)
    ensures var issued := Issued(plan, start, accepts);
      issued <= plan.writes &&
      (forall j :: 0 <= j < |issued| - 1 ==> accepts(start + j, issued[j])) &&
      (|issued| < |plan.writes| ==> issued != [] && !accepts(start + |issued| - 1, issued[|issued| - 1])) &&
      (Outcome(plan, start, accepts).Ok? <==> plan.tail.None? && issued == plan.writes && forall j :: 0 <= j < |issued| ==> accepts(start + j, issued[j]))
  {
    var k := Accepted(plan.writes, start, accepts);
    if k < |plan.writes| {
      assert !accepts(start + k, plan.writes[k]);
    }
  }

  /** The number of accepted writes is pinned down by its characterisation. */
  lemma AcceptedIs(writes: seq<seq<byte>>, start: nat, accepts: (nat, seq<byte>) -> bool, m: nat)
    requires m <= |writes|
    requires forall j :: 0 <= j < m ==> accepts(start + j, writes[j])
    requires m < |writes| ==> !accepts(start + m, writes[m])
    ensures Accepted(writes, start, accepts) == m
  {
  }

  /** A run that has issued `sent`, all accepted, then a rejected `w`, ends there. */
  lemma RunRejects(plan: Plan, start: nat, accepts: (nat, seq<byte>) -> bool, sent: seq<seq<byte>>, w: seq<byte>)
    requires sent + [w] <= plan.writes
    requires forall j :: 0 <= j < |sent| ==> accepts(start + j, sent[j])
    requires !accepts(start + |sent|, w)
    ensures Issued(plan, start, accepts) == sent + [w]
    ensures Outcome(plan, start, accepts) == Err(WriteFailed)
  {
    assert plan.writes[|sent|] == w;
    assert forall j :: 0 <= j < |sent| ==> plan.writes[j] == sent[j];
    AcceptedIs(plan.writes, start, accepts, |sent|);
    assert plan.writes[..|sent| + 1] == sent + [w];
  }

  /** A run whose every write was accepted ends with the plan's own ending. */
  lemma RunCompletes(plan: Plan, start: nat, accepts: (nat, seq<byte>) -> bool)
    requires forall j :: 0 <= j < |plan.writes| ==> accepts(start + j, plan.writes[j])
    ensures Issued(plan, start, accepts) == plan.writes
    ensures Outcome(plan, start, accepts) == if plan.tail.Some? then Err(plan.tail.value) else Ok(())
  {
    AcceptedIs(plan.writes, start, accepts, |plan.writes|);
  }

  /** Putting one write in front of a plan. */
  lemma RunCons(w: seq<byte>, plan: Plan, start: nat, accepts: (nat, seq<byte>) -> bool)
    ensures var whole := Plan([w] + plan.writes, plan.tail);
      if accepts(start, w) then
        Issued(whole, start, accepts) == [w] + Issued(plan, start + 1, accepts) &&
        Outcome(whole, start, accepts) == Outcome(plan, start + 1, accepts)
      else
        Issued(whole, start, accepts) == [w] && Outcome(whole, start, accepts) == Err(WriteFailed)
  {
    var whole := Plan([w] + plan.writes, plan.tail);
    assert whole.writes[1..] == plan.writes;
    if accepts(start, w) {
      var k := Accepted(plan.writes, start + 1, accepts);
      assert Accepted(whole.writes, start, accepts) == k + 1;
      if k < |plan.writes| {
        assert whole.writes[..k + 2] == [w] + plan.writes[..k + 1];
      }
    }
  }

  // ---------------------------------------------------------------------
  // Framing of the packed image text
  // ---------------------------------------------------------------------

  /** `usize` values are below 2^64. */
  const USIZE_LIMIT: nat := 0x1_0000_0000_0000_0000

  /** Hex digits of the image text carried by the header frame. */
  const FIRST_FRAME_DIGITS: nat := 224
  /** Hex digits per continuation chunk. */
  const CHUNK_DIGITS: nat := 256
  /** The header is padded to this many hex digits (16 bytes). */
  const HEADER_DIGITS: nat := 32
  /** "GS v 0" (1D 76 30) with mode 0, then the fixed width field 30 00 (48 bytes). */
  const HEADER_PREFIX: string := "1D7630003000"

  /** Text that `decode_hex` turns into bytes: an even number of hex digits. */
  predicate IsFrameText(s: string) {
    |s| % 2 == 0 && AllHex(s)
  }

  /** The bytes of a frame's text. */
  function Frame(s: string): (r: seq<byte>)
    requires IsFrameText(s)
    ensures DecodeHex(s) == Some(r) && |r| == |s| / 2
  {
    DecodeWellFormed(s);
    DecodeHex(s).value
  }

  /** `format!("{:X}", len / 96 + 3)`: the line count field, in uppercase hex. */
  function CountDigits(len: nat): (d: string)
    ensures 1 <= |d| && IsUpperHex(d) && (forall i :: 0 <= i < |d| ==> IsHexChar(d[i]))
    ensures HexValue(d) == len / 96 + 3
  {
    UpperHex(len / 96 + 3)
  }

  /** The `front_hex`/`end_hex` split of the count digits. */
  function CountFields(d: string): (string, string)
    requires 1 <= |d|
  {
    if |d| > 2 then (d[1..], "0" + d[..1]) else (d, "00")
  }

  /** `format!("{:0<32}", "1D7630003000" + front + end)`. */
  function HeaderText(len: nat): string {
    var d := CountDigits(len);
    var (front, end) := CountFields(d);
    PadRight(HEADER_PREFIX + front + end, HEADER_DIGITS)
  }

  /** The first image frame: the header, then the first 224 digits of the text. */
  function FirstFrameText(payload: string): string
    requires FIRST_FRAME_DIGITS <= |payload|
  {
    HeaderText(|payload|) + payload[..FIRST_FRAME_DIGITS]
  }

  function Min(a: nat, b: nat): nat {
    if a <= b then a else b
  }

  /** The chunk at offset i: at most 256 digits of the text, right-padded with '0' to 256. */
  function ChunkText(payload: string, i: nat): (r: string)
    requires i < |payload|
    ensures |r| == CHUNK_DIGITS
  {
    PadRight(payload[i..Min(i + CHUNK_DIGITS, |payload|)], CHUNK_DIGITS)[..CHUNK_DIGITS]
  }

  /** The chunks at offsets i, i + 256, ... below the text's length, in ascending order. */
  function ChunkTexts(payload: string, i: nat): (r: seq<string>)
    ensures forall k :: 0 <= k < |r| ==> |r[k]| == CHUNK_DIGITS
    ensures IsUpperHex(payload) ==> forall k :: 0 <= k < |r| ==> IsFrameText(r[k])
    decreases |payload| - i
  {
    if i >= |payload| then []
    else
      var c := ChunkText(payload, i);
      assert IsUpperHex(payload) ==> IsFrameText(c) by {
        if IsUpperHex(payload) {
          ChunkTextIsHex(payload, i);
        }
      }
      [c] + ChunkTexts(payload, i + CHUNK_DIGITS)
  }

  lemma ChunkTextIsHex(payload: string, i: nat)
    requires IsUpperHex(payload) && i < |payload|
    ensures IsFrameText(ChunkText(payload, i))
  {
    var piece := payload[i..Min(i + CHUNK_DIGITS, |payload|)];
    var padded := PadRight(piece, CHUNK_DIGITS);
    forall k | 0 <= k < CHUNK_DIGITS
      ensures IsHexChar(padded[k])
    {
      if k < |piece| {
        assert padded[k] == piece[k] == payload[i + k];
      }
    }
  }

  /** The bytes of a list of frame texts, one write each. */
  function Frames(texts: seq<string>): (r: seq<seq<byte>>)
    requires forall k :: 0 <= k < |texts| ==> IsFrameText(texts[k])
    ensures |r| == |texts|
  {
    if texts == [] then [] else [Frame(texts[0])] + Frames(texts[1..])
  }

  /** The number of chunks: offsets 224 + 256 k below the text's length. */
  lemma {:induction false} ChunkCount(payload: string, i: nat)
    ensures |ChunkTexts(payload, i)| == if i >= |payload| then 0 else (|payload| - i + CHUNK_DIGITS - 1) / CHUNK_DIGITS
    decreases |payload| - i
  {
    if i < |payload| {
      ChunkCount(payload, i + CHUNK_DIGITS);
    }
  }

  /** The padding the final chunk carries when n digits remain from its offset on. */
  function ChunkPadding(n: nat): (p: nat)
    ensures p < CHUNK_DIGITS
  {
    if n == 0 then 0 else if n <= CHUNK_DIGITS then CHUNK_DIGITS - n else ChunkPadding(n - CHUNK_DIGITS)
  }

  /** The padding completes the last chunk: the digits sent after offset 224 fill whole 256-digit chunks. */
  lemma {:induction false} PaddingFillsChunk(n: nat)
    ensures (n + ChunkPadding(n)) % CHUNK_DIGITS == 0
  {
    if n > CHUNK_DIGITS {
      PaddingFillsChunk(n - CHUNK_DIGITS);
      ChunkShift(n - CHUNK_DIGITS + ChunkPadding(n - CHUNK_DIGITS));
    }
  }

  lemma ChunkShift(x: nat)
    ensures (x + CHUNK_DIGITS) % CHUNK_DIGITS == x % CHUNK_DIGITS
  {
  }

  /** The parts one after another: the frame texts joined, or the bytes of all writes. */
  function Concat<T>(parts: seq<seq<T>>): seq<T> {
    if parts == [] then [] else parts[0] + Concat(parts[1..])
  }

  /** A chunk with 256 digits left from its offset on is that exact slice. */
  lemma FullChunk(payload: string, i: nat)
    requires i + CHUNK_DIGITS <= |payload|
    ensures ChunkText(payload, i) == payload[i..i + CHUNK_DIGITS]
  {
  }

  /** The final, short chunk is the rest of the text and then '0's. */
  lemma LastChunk(payload: string, i: nat)
    requires i < |payload| < i + CHUNK_DIGITS
    ensures ChunkPadding(|payload| - i) == CHUNK_DIGITS - (|payload| - i)
    ensures ChunkText(payload, i) == payload[i..] + Repeat('0', ChunkPadding(|payload| - i))
  {
    var piece := payload[i..];
    var c := ChunkText(payload, i);
    assert c == PadRight(piece, CHUNK_DIGITS);
    assert c[..|piece|] == piece;
  }

  lemma PaddingStep(n: nat)
    requires CHUNK_DIGITS <= n
    ensures ChunkPadding(n - CHUNK_DIGITS) == ChunkPadding(n)
  {
  }

  /** Joining the chunks from offset i on gives the rest of the text, then fewer than 256 '0's. */
  lemma {:induction false} ChunksReassemble(payload: string, i: nat)
    requires i <= |payload|
    ensures ChunkPadding(|payload| - i) < CHUNK_DIGITS
    ensures Concat(ChunkTexts(payload, i)) == payload[i..] + Repeat('0', ChunkPadding(|payload| - i))
    decreases |payload| - i
  {
    var n := |payload| - i;
    if i == |payload| {
      assert payload[i..] == [];
    } else if i + CHUNK_DIGITS <= |payload| {
      ChunksReassemble(payload, i + CHUNK_DIGITS);
      FullChunk(payload, i);
      PaddingStep(n);
      var c := ChunkText(payload, i);
      var rest := ChunkTexts(payload, i + CHUNK_DIGITS);
      assert ChunkTexts(payload, i) == [c] + rest;
      assert ([c] + rest)[1..] == rest;
      assert payload[i..] == c + payload[i + CHUNK_DIGITS..];
    } else {
      LastChunk(payload, i);
      var c := ChunkText(payload, i);
      assert ChunkTexts(payload, i) == [c];
      assert Concat([c]) == c + Concat([]);
    }
  }

  /** The header frame's 224 digits and the unpadded chunks reproduce the packed text in order. */
  lemma PayloadReassembles(payload: string)
    requires FIRST_FRAME_DIGITS <= |payload|
    ensures var pad := ChunkPadding(|payload| - FIRST_FRAME_DIGITS);
      pad < CHUNK_DIGITS &&
      payload[..FIRST_FRAME_DIGITS] + Concat(ChunkTexts(payload, FIRST_FRAME_DIGITS)) == payload + Repeat('0', pad)
  {
    ChunksReassemble(payload, FIRST_FRAME_DIGITS);
    var pad := Repeat('0', ChunkPadding(|payload| - FIRST_FRAME_DIGITS));
    AppendAssoc(payload[..FIRST_FRAME_DIGITS], payload[FIRST_FRAME_DIGITS..], pad);
    assert payload[..FIRST_FRAME_DIGITS] + payload[FIRST_FRAME_DIGITS..] == payload;
  }

  /** Chunk k starts at offset i + 256 k; all but the last are exact 256-digit slices, unpadded. */
  lemma {:induction false} ChunkAt(payload: string, i: nat, k: nat)
    requires k < |ChunkTexts(payload, i)|
    ensures i + CHUNK_DIGITS * k < |payload|
    ensures ChunkTexts(payload, i)[k] == ChunkText(payload, i + CHUNK_DIGITS * k)
    ensures k + 1 < |ChunkTexts(payload, i)| ==>
      i + CHUNK_DIGITS * k + CHUNK_DIGITS <= |payload| &&
      ChunkTexts(payload, i)[k] == payload[i + CHUNK_DIGITS * k..i + CHUNK_DIGITS * k + CHUNK_DIGITS]
    decreases k
  {
    if k > 0 {
      ChunkAt(payload, i + CHUNK_DIGITS, k - 1);
      assert i + CHUNK_DIGITS + CHUNK_DIGITS * (k - 1) == i + CHUNK_DIGITS * k;
    } else if 1 < |ChunkTexts(payload, i)| {
      assert i + CHUNK_DIGITS < |payload|;
    }
  }

  lemma Pow16Sixteen()
    ensures Pow16(16) == USIZE_LIMIT
  {
    assert Pow16(4) == 0x1_0000;
    assert Pow16(8) == 16 * 16 * 16 * 16 * Pow16(4);
    assert Pow16(12) == 16 * 16 * 16 * 16 * Pow16(8);
    assert Pow16(16) == 16 * 16 * 16 * 16 * Pow16(12);
  }

  /** The front and end fields are hex digits, one more than the count has when it has more than two. */
  lemma FieldsHex(d: string)
    requires 1 <= |d| && AllHex(d)
    ensures AllHex(CountFields(d).0) && AllHex(CountFields(d).1)
    ensures |CountFields(d).0| + |CountFields(d).1| == if |d| > 2 then |d| + 1 else |d| + 2
  {
    if |d| > 2 {
      assert forall i :: 0 <= i < |d[1..]| ==> d[1..][i] == d[i + 1];
      assert ("0" + d[..1])[1] == d[0];
    }
  }

  /** Padding hex digits with '0' keeps them hex digits. */
  lemma PadRightHex(s: string, n: nat)
    requires AllHex(s)
    ensures AllHex(PadRight(s, n))
  {
    var r := PadRight(s, n);
    forall i | 0 <= i < |r|
      ensures IsHexChar(r[i])
    {
      if i < |s| {
        assert r[i] == r[..|s|][i];
      }
    }
  }

  /** For any `usize` length the count has at most 16 digits, so the header is exactly 32 hex digits. */
  lemma HeaderIsFrame(len: nat)
    requires len < USIZE_LIMIT
    ensures |CountDigits(len)| <= 16
    ensures |HeaderText(len)| == HEADER_DIGITS && IsFrameText(HeaderText(len))
  {
    var d := CountDigits(len);
    Pow16Sixteen();
    UpperHexLength(len / 96 + 3, 16);
    FieldsHex(d);
    var (front, end) := CountFields(d);
    assert AllHex(HEADER_PREFIX);
    AllHexAppend(HEADER_PREFIX, front);
    AllHexAppend(HEADER_PREFIX + front, end);
    var unpadded := HEADER_PREFIX + front + end;
    PadRightHex(unpadded, HEADER_DIGITS);
    assert HeaderText(len) == PadRight(unpadded, HEADER_DIGITS);
  }

  /** The first frame is 256 hex digits: 128 bytes. */
  lemma FirstFrameIsFrame(payload: string)
    requires IsUpperHex(payload) && FIRST_FRAME_DIGITS <= |payload| < USIZE_LIMIT
    ensures |FirstFrameText(payload)| == 256 && IsFrameText(FirstFrameText(payload))
  {
    HeaderIsFrame(|payload|);
    var h := HeaderText(|payload|);
    var f := FirstFrameText(payload);
    forall i | 0 <= i < |f|
      ensures IsHexChar(f[i])
    {
      if i >= |h| {
        assert f[i] == payload[i - |h|];
      }
    }
  }

  /** The fixed header bytes before the count field. */
  const HEADER_FIXED: seq<byte> := [0x1D, 0x76, 0x30, 0x00, 0x30, 0x00]

  lemma HeaderPrefixDecodes()
    ensures DecodeHex(HEADER_PREFIX) == Some(HEADER_FIXED)
  {
    DecodeWellFormed(HEADER_PREFIX);
    var v := DecodeHex(HEADER_PREFIX).value;
    assert v[0] == 0x1D && v[1] == 0x76 && v[2] == 0x30 && v[3] == 0x00 && v[4] == 0x30 && v[5] == 0x00;
    assert v == HEADER_FIXED;
  }

  /** A header whose four count-field digits are q decodes to the fixed bytes, q's two bytes and eight zeros. */
  lemma HeaderDecode(q: string)
    requires |q| == 4 && forall i :: 0 <= i < 4 ==> IsHexChar(q[i])
    ensures DecodeHex(HEADER_PREFIX + q + Repeat('0', 16)) ==
      Some(HEADER_FIXED + [16 * CharValue(q[0]) + CharValue(q[1]), 16 * CharValue(q[2]) + CharValue(q[3])] + Repeat<byte>(0, 8))
  {
    HeaderPrefixDecodes();
    FourDigitsDecode(q);
    DecodeZeroDigits(8);
    DecodeThree(HEADER_PREFIX, q, Repeat('0', 16));
  }

  lemma FourDigitsDecode(q: string)
    requires |q| == 4 && forall i :: 0 <= i < 4 ==> IsHexChar(q[i])
    ensures DecodeHex(q) == Some([16 * CharValue(q[0]) + CharValue(q[1]), 16 * CharValue(q[2]) + CharValue(q[3])])
  {
    DecodeWellFormed(q);
    var v := DecodeHex(q).value;
    assert |v| == 2;
    assert v[0] == 16 * CharValue(q[0]) + CharValue(q[1]);
    assert v[1] == 16 * CharValue(q[2]) + CharValue(q[3]);
    assert v == [v[0], v[1]];
  }

  lemma DecodeThree(a: string, b: string, c: string)
    requires |a| % 2 == 0 && |b| % 2 == 0
    requires DecodeHex(a).Some? && DecodeHex(b).Some? && DecodeHex(c).Some?
    ensures DecodeHex(a + b + c) == Some(DecodeHex(a).value + DecodeHex(b).value + DecodeHex(c).value)
  {
    var x, y, z := DecodeHex(a).value, DecodeHex(b).value, DecodeHex(c).value;
    DecodeAppend(b, c);
    DecodeAppend(a, b + c);
    AppendAssoc(a, b, c);
    AppendAssoc(x, y, z);
  }

  /**
   * For a two- or three-digit count (16..4095) the header's bytes 6 and 7
   * hold the count little-endian: low byte first, then high byte.
   */
  lemma HeaderCountLittleEndian(len: nat)
    requires 16 <= len / 96 + 3 < 4096
    ensures var c := len / 96 + 3;
      DecodeHex(HeaderText(len)) == Some(HEADER_FIXED + [c % 256, c / 256] + Repeat<byte>(0, 8))
  {
    if len / 96 + 3 < 256 {
      HeaderTwoDigitCount(len);
    } else {
      HeaderThreeDigitCount(len);
    }
  }

  lemma HeaderTwoDigitCount(len: nat)
    requires 16 <= len / 96 + 3 < 256
    ensures var c := len / 96 + 3;
      DecodeHex(HeaderText(len)) == Some(HEADER_FIXED + [c % 256, c / 256] + Repeat<byte>(0, 8))
  {
    var c := len / 96 + 3;
    var d := CountDigits(len);
    UpperHexTwoDigits(c);
    var q := d + "00";
    assert HeaderText(len) == HEADER_PREFIX + q + Repeat('0', 16);
    HeaderDecode(q);
  }

  lemma HeaderThreeDigitCount(len: nat)
    requires 256 <= len / 96 + 3 < 4096
    ensures var c := len / 96 + 3;
      DecodeHex(HeaderText(len)) == Some(HEADER_FIXED + [c % 256, c / 256] + Repeat<byte>(0, 8))
  {
    var c := len / 96 + 3;
    var d := CountDigits(len);
    UpperHexThreeDigits(c);
    var q := d[1..] + ("0" + d[..1]);
    assert HeaderText(len) == HEADER_PREFIX + q + Repeat('0', 16);
    HeaderDecode(q);
  }

  /**
   * A one-digit count (below 16, fewer than 13 rows at 384 dots) is not
   * little-endian: its digit lands in the high nibble, so byte 6 is 16 times the count.
   */
  lemma HeaderShortCount(len: nat)
    requires len / 96 + 3 < 16
    ensures var c := len / 96 + 3;
      DecodeHex(HeaderText(len)) == Some(HEADER_FIXED + [16 * c, 0] + Repeat<byte>(0, 8))
  {
    var c := len / 96 + 3;
    var d := CountDigits(len);
    assert d == [DigitChar(c)];
    var q := d + "000";
    assert HeaderText(len) == HEADER_PREFIX + d + "00" + Repeat('0', 17);
    assert HeaderText(len) == HEADER_PREFIX + q + Repeat('0', 16);
    HeaderDecode(q);
  }

  /**
   * A 384 x 10 image, which the file branch of `generate_image` makes from a
   * 3840 x 100 picture, has the count 13: one digit "D", so the header's count
   * bytes are D0 00 instead of 0D 00.
   */
  lemma TenRowHeader(img: GrayImage)
    requires WellFormed(img) && img.width == 384 && img.height == 10
    ensures |ImageHex(img)| == 1040 && |ImageHex(img)| / 96 + 3 == 13
    ensures DecodeHex(HeaderText(|ImageHex(img)|)) == Some(HEADER_FIXED + [0xD0, 0x00] + Repeat<byte>(0, 8))
  {
    PrinterWidthHexLength(img);
    HeaderShortCount(1040);
  }

  // ---------------------------------------------------------------------
  // A print job
  // ---------------------------------------------------------------------

  /**
   * The writes that carry packed text `hex`: the header frame, the chunks
   * in ascending offset, then STOP_PRINT_JOBS. Text shorter than 224 digits
   * makes the `[0..224]` slice panic before anything is written.
   */
  function FramePlan(hex: string): (p: Plan)
    requires IsUpperHex(hex) && |hex| < USIZE_LIMIT
    ensures |hex| < FIRST_FRAME_DIGITS ==> p == Plan([], Some(Panic))
    ensures FIRST_FRAME_DIGITS <= |hex| ==> p.tail.None? && 2 <= |p.writes| && p.writes[|p.writes| - 1] == STOP_PRINT_JOBS
  {
    if |hex| < FIRST_FRAME_DIGITS then Plan([], Some(Panic))
    else
      FirstFrameIsFrame(hex);
      Plan([Frame(FirstFrameText(hex))] + Frames(ChunkTexts(hex, FIRST_FRAME_DIGITS)) + [STOP_PRINT_JOBS], None)
  }

  /** `_call_printer` in src/printer.rs: the wake write, then the frames of the image's packed text. */
  function JobPlan(wake: seq<byte>, img: GrayImage): (p: Plan)
    requires WellFormed(img)
    ensures |p.writes| >= 1 && p.writes[0] == wake
  {
    ImageHexBound(img);
    var f := FramePlan(ImageHex(img));
    Plan([wake] + f.writes, f.tail)
  }

  /**
   * The frames go out as the header frame, then chunk k taken from offset
   * 224 + 256 k for k = 0, 1, ... in ascending order, then STOP_PRINT_JOBS.
   */
  lemma FrameOrder(hex: string)
    requires IsUpperHex(hex) && FIRST_FRAME_DIGITS <= |hex| < USIZE_LIMIT
    ensures var ws := FramePlan(hex).writes;
      var texts := JobTexts(hex);
      |ws| == |texts| + 1 && ws[|ws| - 1] == STOP_PRINT_JOBS &&
      texts[0] == FirstFrameText(hex) &&
      forall k :: 0 <= k < |texts| ==>
        ws[k] == Frame(texts[k]) &&
        (0 < k ==> FIRST_FRAME_DIGITS + CHUNK_DIGITS * (k - 1) < |hex| &&
                   texts[k] == ChunkText(hex, FIRST_FRAME_DIGITS + CHUNK_DIGITS * (k - 1)))
  {
    var ws := FramePlan(hex).writes;
    var texts := JobTexts(hex);
    FramePlanFrames(hex);
    forall k | 0 <= k < |texts|
      ensures ws[k] == Frame(texts[k])
      ensures 0 < k ==> FIRST_FRAME_DIGITS + CHUNK_DIGITS * (k - 1) < |hex| &&
                        texts[k] == ChunkText(hex, FIRST_FRAME_DIGITS + CHUNK_DIGITS * (k - 1))
    {
      FrameAt(texts, k);
      assert ws[k] == ws[..|ws| - 1][k];
      if 0 < k {
        ChunkAt(hex, FIRST_FRAME_DIGITS, k - 1);
      }
    }
  }

  lemma {:induction false} FrameAt(texts: seq<string>, k: nat)
    requires forall j :: 0 <= j < |texts| ==> IsFrameText(texts[j])
    requires k < |texts|
    ensures Frames(texts)[k] == Frame(texts[k])
    decreases k
  {
    if k > 0 {
      FrameAt(texts[1..], k - 1);
    }
  }

  lemma ImageHexBound(img: GrayImage)
    requires WellFormed(img)
    ensures IsUpperHex(ImageHex(img)) && |ImageHex(img)| < USIZE_LIMIT
  {
    ImageHexLength(img);
    ProductBound(img.width, img.height);
  }

  lemma ProductBound(w: nat, h: nat)
    requires w < U32_LIMIT && h < U32_LIMIT
    ensures (PREAMBLE_LENGTH + w * h + 3) / 4 < USIZE_LIMIT
  {
    assert w * h <= w * U32_LIMIT <= U32_LIMIT * U32_LIMIT;
  }

  /** The count field and header of `_call_printer`, built by updating `front_hex` and `end_hex`. */
  method BuildHeader(len: nat) returns (data: string)
    ensures data == HeaderText(len)
  {
    var hexLen := UpperHex(len / 96 + 3);
    var front := hexLen;
    var end := "0";
    if |hexLen| > 2 {
      front := hexLen[1..];
      end := end + hexLen[0..1];
    } else {
      end := end + "0";
    }
    data := PadRight(HEADER_PREFIX + front + end, HEADER_DIGITS);
  }

  /** The bytes of the chunk at offset i: `format!("{:0<256}", ...)`, cut to 256 digits, then `decode_hex`. */
  method ChunkFrame(hex: string, i: nat) returns (frame: seq<byte>)
    requires IsUpperHex(hex) && i < |hex|
    ensures IsFrameText(ChunkText(hex, i)) && frame == Frame(ChunkText(hex, i))
    ensures var fs := Frames(ChunkTexts(hex, i));
      fs != [] && fs[0] == frame && fs[1..] == Frames(ChunkTexts(hex, i + CHUNK_DIGITS))
  {
    var text := PadRight(hex[i..Min(i + CHUNK_DIGITS, |hex|)], CHUNK_DIGITS)[..CHUNK_DIGITS];
    ChunkStep(hex, i);
    frame := Frame(text);
    var fs := Frames(ChunkTexts(hex, i));
    assert fs[1..] == Frames(ChunkTexts(hex, i + CHUNK_DIGITS));
  }

  /** The writes after the header frame: the chunks from offset 224 on, then STOP_PRINT_JOBS. */
  function ChunkPlan(hex: string): Plan
    requires IsUpperHex(hex)
  {
    Plan(Frames(ChunkTexts(hex, FIRST_FRAME_DIGITS)) + [STOP_PRINT_JOBS], None)
  }

  /**
   * The `step_by(256)` loop: the chunk frames in ascending offset, stopping
   * at the first rejected write, which ends the whole run.
   */
  method SendChunkLoop(link: Link, hex: string) returns (ok: bool)
    requires IsUpperHex(hex)
    modifies link
    ensures var fs := Frames(ChunkTexts(hex, FIRST_FRAME_DIGITS));
      var start := |old(link.log)|;
      if ok then
        link.log == old(link.log) + fs && AllAccepted(fs, start, link.accepts)
      else
        link.log == old(link.log) + Issued(ChunkPlan(hex), start, link.accepts) &&
        Outcome(ChunkPlan(hex), start, link.accepts) == Err(WriteFailed)
  {
    ghost var start := |link.log|;
    ghost var plan := ChunkPlan(hex);
    ghost var acc := link.accepts;
    ghost var sent: seq<seq<byte>> := [];
    var i := FIRST_FRAME_DIGITS;
    ghost var todo := Frames(ChunkTexts(hex, i));
    while i < |hex|
      invariant link.log == old(link.log) + sent
      invariant AllAccepted(sent, start, acc)
      invariant todo == Frames(ChunkTexts(hex, i))
      invariant plan.writes == sent + todo + [STOP_PRINT_JOBS]
      decreases |hex| - i
    {
      var frame := ChunkFrame(hex, i);
      ok := link.Write(frame);
      assert ok == acc(start + |sent|, frame);
      ChunkWritten(plan, start, acc, sent, todo, frame);
      if !ok {
        AppendAssoc(old(link.log), sent, [frame]);
        return;
      }
      sent := sent + [frame];
      todo := todo[1..];
      i := i + CHUNK_DIGITS;
    }
    assert todo == [];
    ghost var fs := Frames(ChunkTexts(hex, FIRST_FRAME_DIGITS));
    assert sent == (sent + [STOP_PRINT_JOBS])[..|sent|];
    assert fs == (fs + [STOP_PRINT_JOBS])[..|fs|];
    ok := true;
  }

  /** The chunk loop, then the final STOP_PRINT_JOBS write. */
  method SendChunks(link: Link, hex: string) returns (r: Result<(), Failure>)
    requires IsUpperHex(hex)
    modifies link
    ensures link.log == old(link.log) + Issued(ChunkPlan(hex), |old(link.log)|, link.accepts)
    ensures r == Outcome(ChunkPlan(hex), |old(link.log)|, link.accepts)
  {
    ghost var start := |link.log|;
    ghost var plan := ChunkPlan(hex);
    ghost var sent := Frames(ChunkTexts(hex, FIRST_FRAME_DIGITS));
    var done := SendChunkLoop(link, hex);
    if !done {
      return Err(WriteFailed);
    }
    var ok := link.Write(STOP_PRINT_JOBS);
    if !ok {
      RunRejects(plan, start, link.accepts, sent, STOP_PRINT_JOBS);
      AppendAssoc(old(link.log), sent, [STOP_PRINT_JOBS]);
      return Err(WriteFailed);
    }
    AcceptedStep(sent, STOP_PRINT_JOBS, start, link.accepts);
    RunCompletes(plan, start, link.accepts);
    AppendAssoc(old(link.log), sent, [STOP_PRINT_JOBS]);
    r := Ok(());
  }

  /** One turn of the chunk loop: the next planned write w is either rejected, ending the run, or accepted. */
  lemma ChunkWritten(plan: Plan, start: nat, accepts: (nat, seq<byte>) -> bool,
                     sent: seq<seq<byte>>, todo: seq<seq<byte>>, w: seq<byte>)
    requires AllAccepted(sent, start, accepts)
    requires todo != [] && todo[0] == w && plan.writes == sent + todo + [STOP_PRINT_JOBS]
    ensures !accepts(start + |sent|, w) ==>
      Issued(plan, start, accepts) == sent + [w] && Outcome(plan, start, accepts) == Err(WriteFailed)
    ensures accepts(start + |sent|, w) ==>
      AllAccepted(sent + [w], start, accepts) && plan.writes == sent + [w] + todo[1..] + [STOP_PRINT_JOBS]
  {
    SplitFirst(todo);
    AppendAssoc(sent, [w], todo[1..]);
    if accepts(start + |sent|, w) {
      AcceptedStep(sent, w, start, accepts);
    } else {
      RunRejects(plan, start, accepts, sent, w);
    }
  }

  /**
   * Frames `hex` and writes the frames, stopping at the first rejected write:
   * the framing shared by `_call_printer` in src/printer.rs and
   * `call_printer` in src/main.rs.
   */
  method SendFrames(link: Link, hex: string) returns (r: Result<(), Failure>)
    requires IsUpperHex(hex) && |hex| < USIZE_LIMIT
    modifies link
    ensures link.log == old(link.log) + Issued(FramePlan(hex), |old(link.log)|, link.accepts)
    ensures r == Outcome(FramePlan(hex), |old(link.log)|, link.accepts)
  {
    ghost var start := |link.log|;
    var data := BuildHeader(|hex|);
    if |hex| < FIRST_FRAME_DIGITS {
      return Err(Panic);
    }
    data := data + hex[0..FIRST_FRAME_DIGITS];
    FirstFrameIsFrame(hex);
    var frame := Frame(data);
    ghost var rest := ChunkPlan(hex);
    assert FramePlan(hex) == Plan([frame] + rest.writes, rest.tail);
    RunCons(frame, rest, start, link.accepts);
    var ok := link.Write(frame);
    if !ok {
      return Err(WriteFailed);
    }
    r := SendChunks(link, hex);
    AppendAssoc(old(link.log), [frame], Issued(rest, start + 1, link.accepts));
  }

  /** The chunk frames from offset i on are chunk i's frame, then those from i + 256 on. */
  lemma ChunkStep(hex: string, i: nat)
    requires IsUpperHex(hex) && i < |hex|
    ensures IsFrameText(ChunkText(hex, i))
    ensures Frames(ChunkTexts(hex, i)) == [Frame(ChunkText(hex, i))] + Frames(ChunkTexts(hex, i + CHUNK_DIGITS))
  {
    ChunkTextIsHex(hex, i);
    var texts := ChunkTexts(hex, i);
    assert texts[0] == ChunkText(hex, i);
    assert texts[1..] == ChunkTexts(hex, i + CHUNK_DIGITS);
  }

  /**
   * `_call_printer` in src/printer.rs, once the link is up: the wake write,
   * the image packed by `make_image_hex_str`, then its frames. The wake
   * bytes are a parameter; the image is the one `generate_image` rendered.
   */
  method CallPrinter(link: Link, wake: seq<byte>, img: GrayImage) returns (r: Result<(), Failure>)
    requires WellFormed(img)
    modifies link
    ensures link.log == old(link.log) + Issued(JobPlan(wake, img), |old(link.log)|, link.accepts)
    ensures r == Outcome(JobPlan(wake, img), |old(link.log)|, link.accepts)
  {
    ghost var start := |link.log|;
    ImageHexBound(img);
    ghost var frames := FramePlan(ImageHex(img));
    assert JobPlan(wake, img) == Plan([wake] + frames.writes, frames.tail);
    RunCons(wake, frames, start, link.accepts);
    var ok := link.Write(wake);
    if !ok {
      return Err(WriteFailed);
    }
    var hex := MakeImageHexStr(img);
    r := SendFrames(link, hex);
    ghost var rest := Issued(frames, start + 1, link.accepts);
    AppendAssoc(old(link.log), [wake], rest);
  }

  lemma AcceptedStep(sent: seq<seq<byte>>, w: seq<byte>, start: nat, accepts: (nat, seq<byte>) -> bool)
    requires AllAccepted(sent, start, accepts)
    requires accepts(start + |sent|, w)
    ensures AllAccepted(sent + [w], start, accepts)
  {
  }

  lemma SplitFirst<T>(s: seq<T>)
    requires s != []
    ensures s == [s[0]] + s[1..]
  {
  }

  lemma {:induction false} FramesJoin(texts: seq<string>)
    requires forall k :: 0 <= k < |texts| ==> IsFrameText(texts[k])
    ensures DecodeHex(Concat(texts)) == Some(Concat(Frames(texts)))
  {
    if texts != [] {
      FramesJoin(texts[1..]);
      assert Frames(texts)[1..] == Frames(texts[1..]);
      DecodeAppend(texts[0], Concat(texts[1..]));
    }
  }

  /**
   * The frames of a job, before STOP_PRINT_JOBS, carry in order the
   * decoded 32-digit header and then the packed text followed by fewer than
   * 256 '0' digits, which complete the last 256-digit chunk; the only
   * padding is at the very end.
   */
  lemma FramesCarryPayload(hex: string)
    requires IsUpperHex(hex) && FIRST_FRAME_DIGITS <= |hex| < USIZE_LIMIT
    ensures var ws := FramePlan(hex).writes;
      var pad := ChunkPadding(|hex| - FIRST_FRAME_DIGITS);
      pad < CHUNK_DIGITS && (|hex| - FIRST_FRAME_DIGITS + pad) % CHUNK_DIGITS == 0 &&
      |HeaderText(|hex|)| == HEADER_DIGITS &&
      DecodeHex(HeaderText(|hex|) + (hex + Repeat('0', pad))) == Some(Concat(ws[..|ws| - 1]))
  {
    var texts := JobTexts(hex);
    FramePlanFrames(hex);
    FramesJoin(texts);
    JobTextsConcat(hex);
    HeaderIsFrame(|hex|);
    PaddingFillsChunk(|hex| - FIRST_FRAME_DIGITS);
  }

  /** The texts of a job's frames before STOP_PRINT_JOBS. */
  function JobTexts(hex: string): (r: seq<string>)
    requires IsUpperHex(hex) && FIRST_FRAME_DIGITS <= |hex| < USIZE_LIMIT
    ensures forall k :: 0 <= k < |r| ==> IsFrameText(r[k])
  {
    FirstFrameIsFrame(hex);
    [FirstFrameText(hex)] + ChunkTexts(hex, FIRST_FRAME_DIGITS)
  }

  lemma FramePlanFrames(hex: string)
    requires IsUpperHex(hex) && FIRST_FRAME_DIGITS <= |hex| < USIZE_LIMIT
    ensures var ws := FramePlan(hex).writes; ws[..|ws| - 1] == Frames(JobTexts(hex))
  {
    var texts := JobTexts(hex);
    var chunks := ChunkTexts(hex, FIRST_FRAME_DIGITS);
    assert texts[1..] == chunks;
    assert Frames(texts)[1..] == Frames(chunks);
  }

  lemma JobTextsConcat(hex: string)
    requires IsUpperHex(hex) && FIRST_FRAME_DIGITS <= |hex| < USIZE_LIMIT
    ensures Concat(JobTexts(hex)) == HeaderText(|hex|) + (hex + Repeat('0', ChunkPadding(|hex| - FIRST_FRAME_DIGITS)))
  {
    var texts := JobTexts(hex);
    var chunks := ChunkTexts(hex, FIRST_FRAME_DIGITS);
    PayloadReassembles(hex);
    assert texts[1..] == chunks;
    assert Concat(texts) == FirstFrameText(hex) + Concat(chunks);
    AppendAssoc(HeaderText(|hex|), hex[..FIRST_FRAME_DIGITS], Concat(chunks));
  }

  // ---------------------------------------------------------------------
  // Finding the printer and its write characteristic
  // ---------------------------------------------------------------------

  /** The name test of `find_printer`: an advertised local name containing "LuckP_D1". */
  predicate NameMatches(props: Properties) {
    props.localName.Some? && Contains(props.localName.value, PRINTER_NAME_PREFIX)
  }

  /** Every peripheral before index k reported its properties and is not the printer. */
  predicate Skipped(ps: seq<Peripheral>, k: nat)
    requires k <= |ps|
  {
    forall j :: 0 <= j < k ==> ps[j].properties.Some? && !NameMatches(ps[j].properties.value)
  }

  /** The outcome of scanning `ps` in list order; unwrapping missing properties panics. */
  function FirstPrinter(ps: seq<Peripheral>): Result<Peripheral, Failure> {
    if ps == [] then Err(PrinterNotFound)
    else if ps[0].properties.None? then Err(Panic)
    else if NameMatches(ps[0].properties.value) then Ok(ps[0])
    else FirstPrinter(ps[1..])
  }

  /**
   * The scan stops at the first peripheral that is the printer or has no
   * properties; it reports "not found" only when every peripheral was skipped.
   */
  lemma {:induction false} FirstPrinterSpec(ps: seq<Peripheral>, k: nat)
    requires k <= |ps| && Skipped(ps, k)
    ensures k == |ps| ==> FirstPrinter(ps) == Err(PrinterNotFound)
    ensures k < |ps| && ps[k].properties.None? ==> FirstPrinter(ps) == Err(Panic)
    ensures k < |ps| && ps[k].properties.Some? && NameMatches(ps[k].properties.value) ==> FirstPrinter(ps) == Ok(ps[k])
  {
    if k > 0 {
      assert Skipped(ps[1..], k - 1) by {
        forall j | 0 <= j < k - 1
          ensures ps[1..][j].properties.Some? && !NameMatches(ps[1..][j].properties.value)
        {
          assert ps[1..][j] == ps[j + 1];
        }
      }
      FirstPrinterSpec(ps[1..], k - 1);
    }
  }

  /** `find_printer`: a loop over the peripherals with an early return. */
  method FindPrinter(ps: seq<Peripheral>) returns (r: Result<Peripheral, Failure>)
    ensures r == FirstPrinter(ps)
  {
    var i := 0;
    while i < |ps|
      invariant i <= |ps| && FirstPrinter(ps[i..]) == FirstPrinter(ps)
    {
      var p := ps[i];
      assert ps[i..][0] == p && ps[i..][1..] == ps[i + 1..];
      if p.properties.None? {
        return Err(Panic);
      }
      if NameMatches(p.properties.value) {
        return Ok(p);
      }
      i := i + 1;
    }
    assert ps[i..] == [];
    return Err(PrinterNotFound);
  }

  /** The position of the first characteristic with the given UUID, or the length when there is none. */
  function CharIndex(chars: seq<Characteristic>, uuid: nat): (k: nat)
    ensures k <= |chars|
    ensures forall j :: 0 <= j < k ==> chars[j].uuid != uuid
    ensures k < |chars| ==> chars[k].uuid == uuid
  {
    if chars == [] then 0
    else if chars[0].uuid == uuid then 0
    else 1 + CharIndex(chars[1..], uuid)
  }

  /** `find_char`: the first characteristic with the given UUID. */
  function FindChar(chars: seq<Characteristic>, uuid: nat): (r: Option<Characteristic>)
    ensures r.None? <==> forall j :: 0 <= j < |chars| ==> chars[j].uuid != uuid
    ensures r.Some? ==> r.value.uuid == uuid && r.value in chars
  {
    var k := CharIndex(chars, uuid);
    if k < |chars| then Some(chars[k]) else None
  }

  /** A characteristic found is the first one with its UUID. */
  lemma FindCharFirst(chars: seq<Characteristic>, uuid: nat, k: nat)
    requires k < |chars| && chars[k].uuid == uuid
    requires forall j :: 0 <= j < k ==> chars[j].uuid != uuid
    ensures FindChar(chars, uuid) == Some(chars[k])
  {
    var i := CharIndex(chars, uuid);
    assert !(i < k) && !(k < i);
  }

  // ---------------------------------------------------------------------
  // Start-up
  // ---------------------------------------------------------------------

  /** The setup writes: first DISABLE_SHUTDOWN, then SET_THICKNESS. */
  const SETUP_PLAN: Plan := Plan([DISABLE_SHUTDOWN, SET_THICKNESS], None)

  /** What the scan finds before any write: the printer and its write characteristic, or why not. */
  function Discovery(ps: seq<Peripheral>): Result<(Peripheral, Characteristic), Failure> {
    if ps == [] then Err(NoPeripherals)
    else match FirstPrinter(ps)
      case Err(e) => Err(e)
      case Ok(p) =>
        match FindChar(p.characteristics, WRITE_UUID)
        case None => Err(CharacteristicNotFound(WRITE_UUID))
        case Some(c) => Ok((p, c))
  }

  /** A successful discovery yields the first printer in list order and its first WRITE_UUID characteristic. */
  lemma DiscoveryFinds(ps: seq<Peripheral>, k: nat, m: nat)
    requires k < |ps| && Skipped(ps, k)
    requires ps[k].properties.Some? && NameMatches(ps[k].properties.value)
    requires m < |ps[k].characteristics| && ps[k].characteristics[m].uuid == WRITE_UUID
    requires forall j :: 0 <= j < m ==> ps[k].characteristics[j].uuid != WRITE_UUID
    ensures Discovery(ps) == Ok((ps[k], ps[k].characteristics[m]))
  {
    FirstPrinterSpec(ps, k);
    FindCharFirst(ps[k].characteristics, WRITE_UUID, m);
  }

  /** A setup run writes DISABLE_SHUTDOWN, and SET_THICKNESS only once that write has succeeded. */
  lemma SetupOrder(start: nat, accepts: (nat, seq<byte>) -> bool)
    ensures Issued(SETUP_PLAN, start, accepts) ==
      if accepts(start, DISABLE_SHUTDOWN) then [DISABLE_SHUTDOWN, SET_THICKNESS] else [DISABLE_SHUTDOWN]
    ensures Outcome(SETUP_PLAN, start, accepts).Ok? <==>
      accepts(start, DISABLE_SHUTDOWN) && accepts(start + 1, SET_THICKNESS)
  {
    var ws: seq<seq<byte>> := SETUP_PLAN.writes;
    var tail: seq<seq<byte>> := ws[1..];
    assert tail == [SET_THICKNESS] && tail[1..] == [];
    if accepts(start, DISABLE_SHUTDOWN) {
      if !accepts(start + 1, SET_THICKNESS) {
        assert ws[..2] == ws;
      }
    } else {
      assert ws[..1] == [DISABLE_SHUTDOWN];
    }
  }

  /**
   * `init_printer`: reject an empty scan, find the printer and its WRITE_UUID
   * characteristic, then run the setup writes. Nothing is written unless the
   * characteristic was found.
   */
  method InitPrinter(link: Link, ps: seq<Peripheral>) returns (r: Result<(Peripheral, Characteristic), Failure>)
    modifies link
    ensures Discovery(ps).Err? ==> link.log == old(link.log) && r == Discovery(ps)
    ensures Discovery(ps).Ok? ==>
      link.log == old(link.log) + Issued(SETUP_PLAN, |old(link.log)|, link.accepts) &&
      r == if Outcome(SETUP_PLAN, |old(link.log)|, link.accepts).Ok? then Discovery(ps) else Err(WriteFailed)
  {
    if |ps| == 0 {
      return Err(NoPeripherals);
    }
    var found := FindPrinter(ps);
    if found.Err? {
      return Err(found.error);
    }
    var printer := found.value;
    var cmd := FindChar(printer.characteristics, WRITE_UUID);
    if cmd.None? {
      return Err(CharacteristicNotFound(WRITE_UUID));
    }
    var done := Setup(link);
    if done.Err? {
      return Err(done.error);
    }
    r := Ok((printer, cmd.value));
  }

  /** The two setup writes, stopping at the first rejection. */
  method Setup(link: Link) returns (r: Result<(), Failure>)
    modifies link
    ensures link.log == old(link.log) + Issued(SETUP_PLAN, |old(link.log)|, link.accepts)
    ensures r == Outcome(SETUP_PLAN, |old(link.log)|, link.accepts)
  {
    SetupOrder(|link.log|, link.accepts);
    var ok := link.Write(DISABLE_SHUTDOWN);
    if !ok {
      return Err(WriteFailed);
    }
    ok := link.Write(SET_THICKNESS);
    if !ok {
      return Err(WriteFailed);
    }
    return Ok(());
  }
}
