/**
 * The device's constant tables (src/instruction.rs): the advertised name
 * prefix, the print width, the three characteristic UUIDs and the control
 * commands, each written as spaced hex text and decoded once by `to_hex`.
 */
module Instruction {
  import opened Wrappers
  import opened Hex
  import opened Strings

  const PRINTER_NAME_PREFIX: string := "LuckP_D1"
  const PRINTER_WIDTH: nat := 384

  /** The Bluetooth base UUID 00000000-0000-1000-8000-00805F9B34FB. */
  const BLUETOOTH_BASE_UUID: nat := 0x0000_0000_0000_1000_8000_0080_5F9B_34FB

  /** `uuid_from_u16`: the 16-bit short form placed in bits 96..111 of the base UUID. */
  function UuidFromU16(short: nat): (u: nat)
    requires short < 0x1_0000
    ensures u % 0x1_0000_0000_0000_0000_0000_0000 == BLUETOOTH_BASE_UUID
    ensures u / 0x1_0000_0000_0000_0000_0000_0000 == short
  {
    short * 0x1_0000_0000_0000_0000_0000_0000 + BLUETOOTH_BASE_UUID
  }

  const READ_UUID_1: nat := UuidFromU16(0xFF01)
  const READ_UUID_2: nat := UuidFromU16(0xFF03)
  const WRITE_UUID: nat := UuidFromU16(0xFF02)

  /** Different short forms give different UUIDs. */
  lemma UuidFromU16Injective(a: nat, b: nat)
    requires a < 0x1_0000 && b < 0x1_0000
    ensures UuidFromU16(a) == UuidFromU16(b) ==> a == b
  {
  }

  lemma UuidsDistinct()
    ensures WRITE_UUID != READ_UUID_1 && WRITE_UUID != READ_UUID_2 && READ_UUID_1 != READ_UUID_2
  {
    UuidFromU16Injective(0xFF02, 0xFF01);
    UuidFromU16Injective(0xFF02, 0xFF03);
    UuidFromU16Injective(0xFF01, 0xFF03);
  }

  /** `replace(' ', "")`: every space removed, everything else kept in order. */
  function StripSpaces(s: string): string
    decreases |s|
  {
    if s == [] then []
    else (if s[0] == ' ' then [] else [s[0]]) + StripSpaces(s[1..])
  }

  /** The stripped text holds no space and is no longer than the original. */
  lemma {:induction false} StripSpacesRemovesAll(s: string)
    ensures forall i :: 0 <= i < |StripSpaces(s)| ==> StripSpaces(s)[i] != ' '
    ensures |StripSpaces(s)| <= |s|
    decreases |s|
  {
    if s != [] {
      StripSpacesRemovesAll(s[1..]);
    }
  }

  /** A string without spaces is left as it is. */
  lemma {:induction false} StripSpacesNone(s: string)
    requires forall i :: 0 <= i < |s| ==> s[i] != ' '
    ensures StripSpaces(s) == s
    decreases |s|
  {
    if s != [] {
      StripSpacesNone(s[1..]);
    }
  }

  /** Stripping distributes over concatenation, so no character is reordered. */
  lemma {:induction false} StripSpacesAppend(a: string, b: string)
    ensures StripSpaces(a + b) == StripSpaces(a) + StripSpaces(b)
    decreases |a|
  {
    if a == [] {
      assert a + b == b;
    } else {
      assert (a + b)[1..] == a[1..] + b;
      StripSpacesAppend(a[1..], b);
    }
  }

  /** `EnhanceString::to_hex`: strip the spaces, then decode hex pairs. */
  function ToHex(s: string): Option<seq<byte>> {
    DecodeHex(StripSpaces(s))
  }

  const CHECK_MAC_ADDRESS_HEX: string := "10 FF 30 12"
  const DISABLE_SHUTDOWN_HEX: string := "10 FF 12 00 00"
  const ENABLE_PRINTER_HEX: string := "10 FF F1 03"
  const SET_THICKNESS_HEX: string := "10 FF 10 00 03"
  const PRINT_LINE_DOTS_HEX: string := "1B 4A 40"
  const STOP_PRINT_JOBS_HEX: string := "10 FF F1 45"
  const IMAGE_COMMAND_HEADER_HEX: string := "1D 76 30"
  const WAKE_MAGIC_END_ZEROS: nat := 3096

  /** One write to the printer: its bytes. */
  datatype BleMessage = BleMessage(payload: seq<byte>)

  const CHECK_MAC_ADDRESS: seq<byte> := [0x10, 0xFF, 0x30, 0x12]
  const DISABLE_SHUTDOWN: seq<byte> := [0x10, 0xFF, 0x12, 0x00, 0x00]
  const ENABLE_PRINTER: seq<byte> := [0x10, 0xFF, 0xF1, 0x03]
  const SET_THICKNESS: seq<byte> := [0x10, 0xFF, 0x10, 0x00, 0x03]
  const PRINT_LINE_DOTS: seq<byte> := [0x1B, 0x4A, 0x40]
  const STOP_PRINT_JOBS: seq<byte> := [0x10, 0xFF, 0xF1, 0x45]
  const IMAGE_COMMAND_HEADER: seq<byte> := [0x1D, 0x76, 0x30]
  const PRINTER_WAKE_MAGIC_END: seq<byte> := Repeat<byte>(0, WAKE_MAGIC_END_ZEROS)

  /** Each spaced hex text of the table decodes (the `unwrap` never fails) to its bytes. */
  lemma CommandTableDecodes()
    ensures ToHex(CHECK_MAC_ADDRESS_HEX) == Some(CHECK_MAC_ADDRESS)
    ensures ToHex(DISABLE_SHUTDOWN_HEX) == Some(DISABLE_SHUTDOWN)
    ensures ToHex(ENABLE_PRINTER_HEX) == Some(ENABLE_PRINTER)
    ensures ToHex(SET_THICKNESS_HEX) == Some(SET_THICKNESS)
    ensures ToHex(PRINT_LINE_DOTS_HEX) == Some(PRINT_LINE_DOTS)
    ensures ToHex(STOP_PRINT_JOBS_HEX) == Some(STOP_PRINT_JOBS)
    ensures ToHex(IMAGE_COMMAND_HEADER_HEX) == Some(IMAGE_COMMAND_HEADER)
  {
    CheckMacAddressStripped();
    CheckMacAddressPacked();
    StripThenDecode(CHECK_MAC_ADDRESS_HEX, "10FF3012", CHECK_MAC_ADDRESS);
    DisableShutdownStripped();
    DisableShutdownPacked();
    StripThenDecode(DISABLE_SHUTDOWN_HEX, "10FF120000", DISABLE_SHUTDOWN);
    EnablePrinterStripped();
    EnablePrinterPacked();
    StripThenDecode(ENABLE_PRINTER_HEX, "10FFF103", ENABLE_PRINTER);
    SetThicknessStripped();
    SetThicknessPacked();
    StripThenDecode(SET_THICKNESS_HEX, "10FF100003", SET_THICKNESS);
    PrintLineDotsStripped();
    PrintLineDotsPacked();
    StripThenDecode(PRINT_LINE_DOTS_HEX, "1B4A40", PRINT_LINE_DOTS);
    StopPrintJobsStripped();
    StopPrintJobsPacked();
    StripThenDecode(STOP_PRINT_JOBS_HEX, "10FFF145", STOP_PRINT_JOBS);
    ImageCommandHeaderStripped();
    ImageCommandHeaderPacked();
    StripThenDecode(IMAGE_COMMAND_HEADER_HEX, "1D7630", IMAGE_COMMAND_HEADER);
  }

  lemma StripThenDecode(spaced: string, packed: string, b: seq<byte>)
    requires StripSpaces(spaced) == packed && DecodeHex(packed) == Some(b)
    ensures ToHex(spaced) == Some(b)
  {
  }

  // Removing the spaces of each table entry leaves its digit string; the
  // longer entries are taken apart into pieces and reassembled.

  lemma StripPieces(s: string, a: string, b: string, c: string, r: string)
    requires s == a + b + c && r == StripSpaces(a) + StripSpaces(b) + StripSpaces(c)
    ensures StripSpaces(s) == r
  {
    StripSpacesAppend(a, b);
    StripSpacesAppend(a + b, c);
  }

  lemma CheckMacAddressStripped()
    ensures StripSpaces(CHECK_MAC_ADDRESS_HEX) == "10FF3012"
  {
    StripPieces(CHECK_MAC_ADDRESS_HEX, "10 FF", " 30", " 12", "10FF3012");
  }

  lemma DisableShutdownStripped()
    ensures StripSpaces(DISABLE_SHUTDOWN_HEX) == "10FF120000"
  {
    StripPieces(DISABLE_SHUTDOWN_HEX, "10 FF", " 12", " 00 00", "10FF120000");
  }

  lemma EnablePrinterStripped()
    ensures StripSpaces(ENABLE_PRINTER_HEX) == "10FFF103"
  {
    StripPieces(ENABLE_PRINTER_HEX, "10 FF", " F1", " 03", "10FFF103");
  }

  lemma SetThicknessStripped()
    ensures StripSpaces(SET_THICKNESS_HEX) == "10FF100003"
  {
    StripPieces(SET_THICKNESS_HEX, "10 FF", " 10", " 00 03", "10FF100003");
  }

  lemma PrintLineDotsStripped()
    ensures StripSpaces(PRINT_LINE_DOTS_HEX) == "1B4A40"
  {
  }

  lemma StopPrintJobsStripped()
    ensures StripSpaces(STOP_PRINT_JOBS_HEX) == "10FFF145"
  {
    StripPieces(STOP_PRINT_JOBS_HEX, "10 FF", " F1", " 45", "10FFF145");
  }

  lemma ImageCommandHeaderStripped()
    ensures StripSpaces(IMAGE_COMMAND_HEADER_HEX) == "1D7630"
  {
  }

  lemma CheckMacAddressPacked()
    ensures DecodeHex("10FF3012") == Some(CHECK_MAC_ADDRESS)
  {
    DecodeWellFormed("10FF3012");
    var v := DecodeHex("10FF3012").value;
    assert v[0] == 0x10 && v[1] == 0xFF && v[2] == 0x30 && v[3] == 0x12;
    assert v == CHECK_MAC_ADDRESS;
  }

  lemma DisableShutdownPacked()
    ensures DecodeHex("10FF120000") == Some(DISABLE_SHUTDOWN)
  {
    DecodeWellFormed("10FF120000");
    var v := DecodeHex("10FF120000").value;
    assert v[0] == 0x10 && v[1] == 0xFF && v[2] == 0x12 && v[3] == 0x00 && v[4] == 0x00;
    assert v == DISABLE_SHUTDOWN;
  }

  lemma EnablePrinterPacked()
    ensures DecodeHex("10FFF103") == Some(ENABLE_PRINTER)
  {
    DecodeWellFormed("10FFF103");
    var v := DecodeHex("10FFF103").value;
    assert v[0] == 0x10 && v[1] == 0xFF && v[2] == 0xF1 && v[3] == 0x03;
    assert v == ENABLE_PRINTER;
  }

  lemma SetThicknessPacked()
    ensures DecodeHex("10FF100003") == Some(SET_THICKNESS)
  {
    DecodeWellFormed("10FF100003");
    var v := DecodeHex("10FF100003").value;
    assert v[0] == 0x10 && v[1] == 0xFF && v[2] == 0x10 && v[3] == 0x00 && v[4] == 0x03;
    assert v == SET_THICKNESS;
  }

  lemma PrintLineDotsPacked()
    ensures DecodeHex("1B4A40") == Some(PRINT_LINE_DOTS)
  {
    DecodeWellFormed("1B4A40");
    var v := DecodeHex("1B4A40").value;
    assert v[0] == 0x1B && v[1] == 0x4A && v[2] == 0x40;
    assert v == PRINT_LINE_DOTS;
  }

  lemma StopPrintJobsPacked()
    ensures DecodeHex("10FFF145") == Some(STOP_PRINT_JOBS)
  {
    DecodeWellFormed("10FFF145");
    var v := DecodeHex("10FFF145").value;
    assert v[0] == 0x10 && v[1] == 0xFF && v[2] == 0xF1 && v[3] == 0x45;
    assert v == STOP_PRINT_JOBS;
  }

  lemma ImageCommandHeaderPacked()
    ensures DecodeHex("1D7630") == Some(IMAGE_COMMAND_HEADER)
  {
    DecodeWellFormed("1D7630");
    var v := DecodeHex("1D7630").value;
    assert v[0] == 0x1D && v[1] == 0x76 && v[2] == 0x30;
    assert v == IMAGE_COMMAND_HEADER;
  }

  /** `"00".repeat(n).to_hex()` is n zero bytes. */
  lemma {:induction false} ZeroPairsDecode(n: nat)
    ensures ToHex(RepeatStr("00", n)) == Some(Repeat<byte>(0, n))
  {
    StripSpacesNone(RepeatStr("00", n));
    ZeroPairsDecodeHex(n);
  }

  lemma {:induction false} ZeroPairsDecodeHex(n: nat)
    ensures DecodeHex(RepeatStr("00", n)) == Some(Repeat<byte>(0, n))
  {
    if n > 0 {
      ZeroPairsDecodeHex(n - 1);
      var s := RepeatStr("00", n);
      assert s[2..] == RepeatStr("00", n - 1);
      assert Repeat<byte>(0, n) == [0] + Repeat<byte>(0, n - 1);
    }
  }

  /** PRINTER_WAKE_MAGIC_END is exactly the decoding of 3096 "00" pairs. */
  lemma WakeMagicEndDecodes()
    ensures ToHex(RepeatStr("00", WAKE_MAGIC_END_ZEROS)) == Some(PRINTER_WAKE_MAGIC_END)
    ensures |PRINTER_WAKE_MAGIC_END| == 3096
  {
    ZeroPairsDecode(WAKE_MAGIC_END_ZEROS);
  }
}
