/**
 * Hexadecimal text: the digit alphabet, the value of a digit string, the
 * uppercase rendering of a number (Rust's `format!("{:X}", n)`) and the
 * decoding of hex pairs into bytes (the crate's `decode_hex`, whose source
 * is not part of this model; this is the standard pairwise decoding).
 */
module Hex {
  import opened Wrappers
  import opened Strings

  /** An unsigned 8-bit value. */
  type byte = x: int | 0 <= x < 256

  predicate IsHexChar(c: char) {
    ('0' <= c <= '9') || ('A' <= c <= 'F') || ('a' <= c <= 'f')
  }

  predicate IsUpperHexChar(c: char) {
    ('0' <= c <= '9') || ('A' <= c <= 'F')
  }

  predicate IsUpperHex(s: string) {
    forall i :: 0 <= i < |s| ==> IsUpperHexChar(s[i])
  }

  /** Every character is a hex digit of either case. */
  predicate AllHex(s: string) {
    forall i :: 0 <= i < |s| ==> IsHexChar(s[i])
  }

  lemma AllHexAppend(a: string, b: string)
    requires AllHex(a) && AllHex(b)
    ensures AllHex(a + b)
  {
    forall i | 0 <= i < |a + b|
      ensures IsHexChar((a + b)[i])
    {
      if i < |a| {
        assert (a + b)[i] == a[i];
      } else {
        assert (a + b)[i] == b[i - |a|];
      }
    }
  }

  /** The value 0..15 of one hex digit, either case. */
  function CharValue(c: char): (v: nat)
    requires IsHexChar(c)
    ensures v < 16
  {
    if '0' <= c <= '9' then c as int - '0' as int
    else if 'A' <= c <= 'F' then c as int - 'A' as int + 10
    else c as int - 'a' as int + 10
  }

  /** The uppercase digit of a value 0..15. */
  function DigitChar(n: nat): (c: char)
    requires n < 16
    ensures IsUpperHexChar(c) && IsHexChar(c)
    ensures CharValue(c) == n
  {
    if n < 10 then ('0' as int + n) as char else ('A' as int + n - 10) as char
  }

  function Pow16(k: nat): (p: nat)
    ensures p >= 1
  {
    if k == 0 then 1 else 16 * Pow16(k - 1)
  }

  /** The number a digit string denotes, most significant digit first. */
  function HexValue(s: string): nat
    requires forall i :: 0 <= i < |s| ==> IsHexChar(s[i])
  {
    if s == [] then 0 else 16 * HexValue(s[..|s| - 1]) + CharValue(s[|s| - 1])
  }

  /** `format!("{:X}", n)`: uppercase digits, no leading zero, denoting n. */
  function UpperHex(n: nat): (s: string)
    ensures 1 <= |s|
    ensures IsUpperHex(s) && (forall i :: 0 <= i < |s| ==> IsHexChar(s[i]))
    ensures HexValue(s) == n
    ensures 1 < |s| ==> s[0] != '0'
    decreases n
  {
    if n < 16 then [DigitChar(n)]
    else
      var high := UpperHex(n / 16);
      var s := high + [DigitChar(n % 16)];
      assert s[..|s| - 1] == high;
      s
  }

  /** A number below 16^k needs at most k digits. */
  lemma {:induction false} UpperHexLength(n: nat, k: nat)
    requires 1 <= k && n < Pow16(k)
    ensures |UpperHex(n)| <= k
    decreases k
  {
    if n >= 16 {
      assert k > 1;
      UpperHexLength(n / 16, k - 1);
    }
  }

  /** Standard hex-pair decoding: two digits per byte, high digit first. */
  function DecodeHex(s: string): Option<seq<byte>>
    decreases |s|
  {
    if s == [] then Some([])
    else if |s| < 2 || !IsHexChar(s[0]) || !IsHexChar(s[1]) then None
    else
      match DecodeHex(s[2..])
      case None => None
      case Some(rest) => Some([16 * CharValue(s[0]) + CharValue(s[1])] + rest)
  }

  /** An even-length string of hex digits decodes, pair k giving byte k. */
  lemma {:induction false} DecodeWellFormed(s: string)
    requires |s| % 2 == 0 && forall i :: 0 <= i < |s| ==> IsHexChar(s[i])
    ensures DecodeHex(s).Some?
    ensures |DecodeHex(s).value| == |s| / 2
    ensures forall k :: 0 <= k < |s| / 2 ==>
      DecodeHex(s).value[k] == 16 * CharValue(s[2 * k]) + CharValue(s[2 * k + 1])
    decreases |s|
  {
    if s != [] {
      DecodeWellFormed(s[2..]);
      var rest := DecodeHex(s[2..]).value;
      assert DecodeHex(s).value == [16 * CharValue(s[0]) + CharValue(s[1])] + rest;
      forall k | 1 <= k < |s| / 2
        ensures DecodeHex(s).value[k] == 16 * CharValue(s[2 * k]) + CharValue(s[2 * k + 1])
      {
        assert s[2 * k] == s[2..][2 * (k - 1)];
        assert s[2 * k + 1] == s[2..][2 * (k - 1) + 1];
      }
    }
  }

  /** Decoding a concatenation of even-length pieces decodes each piece. */
  lemma {:induction false} DecodeAppend(a: string, b: string)
    requires |a| % 2 == 0
    requires DecodeHex(a).Some? && DecodeHex(b).Some?
    ensures DecodeHex(a + b) == Some(DecodeHex(a).value + DecodeHex(b).value)
    decreases |a|
  {
    if a == [] {
      assert a + b == b;
      assert DecodeHex(a).value == [];
      assert DecodeHex(a).value + DecodeHex(b).value == DecodeHex(b).value;
    } else {
      var ab := a + b;
      assert ab[2..] == a[2..] + b;
      assert ab[0] == a[0] && ab[1] == a[1];
      var x := 16 * CharValue(a[0]) + CharValue(a[1]);
      var ra := DecodeHex(a[2..]).value;
      DecodeAppend(a[2..], b);
      var rb := DecodeHex(b).value;
      assert DecodeHex(ab) == Some([x] + (ra + rb));
      assert DecodeHex(a).value == [x] + ra;
      AppendAssoc([x], ra, rb);
    }
  }

  lemma HexValueOne(s: string)
    requires |s| == 1 && IsHexChar(s[0])
    ensures HexValue(s) == CharValue(s[0])
  {
    assert s[..0] == [];
  }

  lemma HexValueTwo(s: string)
    requires |s| == 2 && IsHexChar(s[0]) && IsHexChar(s[1])
    ensures HexValue(s) == 16 * CharValue(s[0]) + CharValue(s[1])
  {
    HexValueOne(s[..1]);
  }

  lemma HexValueThree(s: string)
    requires |s| == 3 && IsHexChar(s[0]) && IsHexChar(s[1]) && IsHexChar(s[2])
    ensures HexValue(s) == 256 * CharValue(s[0]) + 16 * CharValue(s[1]) + CharValue(s[2])
  {
    HexValueTwo(s[..2]);
  }

  /** A number 16..255 has two digits. */
  lemma UpperHexTwoDigits(n: nat)
    requires 16 <= n < 256
    ensures |UpperHex(n)| == 2
    ensures n == 16 * CharValue(UpperHex(n)[0]) + CharValue(UpperHex(n)[1])
  {
    var s := UpperHex(n);
    UpperHexLength(n, 2);
    if |s| == 1 {
      HexValueOne(s);
    }
    HexValueTwo(s);
  }

  /** A number 256..4095 has three digits: the first is n / 256, the other two n % 256. */
  lemma UpperHexThreeDigits(n: nat)
    requires 256 <= n < 4096
    ensures |UpperHex(n)| == 3
    ensures n / 256 == CharValue(UpperHex(n)[0])
    ensures n % 256 == 16 * CharValue(UpperHex(n)[1]) + CharValue(UpperHex(n)[2])
  {
    var s := UpperHex(n);
    UpperHexLength(n, 3);
    if |s| == 1 {
      HexValueOne(s);
    } else if |s| == 2 {
      HexValueTwo(s);
    }
    HexValueThree(s);
  }

  /** Decoding 2n '0' digits gives n zero bytes. */
  lemma {:induction false} DecodeZeroDigits(n: nat)
    ensures DecodeHex(Repeat('0', 2 * n)) == Some(Repeat<byte>(0, n))
  {
    if n > 0 {
      DecodeZeroDigits(n - 1);
      var s := Repeat('0', 2 * n);
      assert s[2..] == Repeat('0', 2 * (n - 1));
      assert Repeat<byte>(0, n) == [0] + Repeat<byte>(0, n - 1);
    }
  }
}
