/** Byte-level helpers: little-endian integers and the SDK's hexadecimal text. */
module Bytes {
  import opened Common

  function Pow256(n: nat): nat {
    if n == 0 then 1 else 256 * Pow256(n - 1)
  }

  function FromLe(s: seq<byte>): nat {
    if s == [] then 0 else s[0] + 256 * FromLe(s[1..])
  }

  function ToLe(n: nat, width: nat): (s: seq<byte>)
    ensures |s| == width
  {
    if width == 0 then [] else [n % 256] + ToLe(n / 256, width - 1)
  }

  lemma {:induction false} LeRoundTrip(n: nat, width: nat)
    requires n < Pow256(width)
    ensures FromLe(ToLe(n, width)) == n
  {
    if width > 0 {
      assert ToLe(n, width)[1..] == ToLe(n / 256, width - 1);
      LeRoundTrip(n / 256, width - 1);
    }
  }

  lemma {:induction false} LeBytes(s: seq<byte>)
    ensures FromLe(s) < Pow256(|s|) && ToLe(FromLe(s), |s|) == s
  {
    if s != [] {
      LeBytes(s[1..]);
      LowByte(s[0], FromLe(s[1..]));
      assert s == [s[0]] + s[1..];
    }
  }

  lemma LowByte(b: byte, rest: nat)
    ensures (b + 256 * rest) % 256 == b && (b + 256 * rest) / 256 == rest
  {
  }

  lemma {:induction false} FromLeAppend(s: seq<byte>, b: byte)
    ensures FromLe(s + [b]) == FromLe(s) + Pow256(|s|) * b
  {
    if s == [] {
      assert s + [b] == [b];
      assert FromLe([b]) == b + 256 * FromLe([]);
    } else {
      assert (s + [b])[1..] == s[1..] + [b];
      FromLeAppend(s[1..], b);
      Scale(Pow256(|s| - 1), b);
    }
  }

  lemma Scale(p: nat, b: nat)
    ensures 256 * (p * b) == (256 * p) * b
  {
  }

  /** The first byte is the lowest. */
  lemma LeDigits(s: seq<byte>)
    ensures |s| == 2 ==> FromLe(s) == (s[0] as int) + 256 * (s[1] as int)
    ensures |s| == 3 ==> FromLe(s) == (s[0] as int) + 256 * (s[1] as int) + 65536 * (s[2] as int)
  {
    if |s| == 2 || |s| == 3 {
      assert FromLe(s) == s[0] + 256 * FromLe(s[1..]);
      assert FromLe(s[1..]) == s[1] + 256 * FromLe(s[1..][1..]);
      if |s| == 3 {
        assert s[1..][1..] == [s[2]];
        assert FromLe([s[2]]) == s[2] + 256 * FromLe([]);
      }
    }
  }

  /** Two and three byte fields. */
  lemma Widths()
    ensures Pow256(2) == 0x10000 && Pow256(3) == 0x1000000
  {
    assert Pow256(1) == 256 * Pow256(0);
    assert Pow256(2) == 256 * Pow256(1);
  }

  /** `read_little_endian`; `ok` is false when the field runs past the buffer. */
  method ReadLittleEndian(buffer: seq<byte>, offset: nat, count: nat) returns (ok: bool, value: nat)
    ensures ok <==> offset + count <= |buffer|
    ensures ok ==> value == FromLe(buffer[offset..offset + count])
  {
    value := 0;
    if offset + count > |buffer| {
      return false, 0;
    }
    var scale: nat := 1;
    for i := 0 to count
      invariant value == FromLe(buffer[offset..offset + i]) && scale == Pow256(i)
    {
      assert buffer[offset..offset + i + 1] == buffer[offset..offset + i] + [buffer[offset + i]];
      FromLeAppend(buffer[offset..offset + i], buffer[offset + i]);
      value := value + scale * buffer[offset + i];
      scale := 256 * scale;
    }
    ok := true;
  }

  // ---------------------------------------------------------------------------
  // Hexadecimal
  // ---------------------------------------------------------------------------

  const DIGITS := "0123456789abcdef"

  function HexByte(b: byte): string { [DIGITS[b / 16], DIGITS[b % 16]] }

  function ToHex(data: seq<byte>): (s: string)
    ensures |s| == 2 * |data|
  {
    if data == [] then "" else ToHex(data[..|data| - 1]) + HexByte(data[|data| - 1])
  }

  /** The value of a hexadecimal digit, or -1. */
  function DigitValue(c: char): int {
    if '0' <= c <= '9' then c as int - '0' as int
    else if 'a' <= c <= 'f' then c as int - 'a' as int + 10
    else if 'A' <= c <= 'F' then c as int - 'A' as int + 10
    else -1
  }

  function Digits(s: string, sofar: nat): nat {
    if s == "" || DigitValue(s[0]) < 0 then sofar else Digits(s[1..], 16 * sofar + DigitValue(s[0]))
  }

  predicate IsSpace(c: char) { c == ' ' || '\t' as int <= c as int <= '\r' as int }

  /** `strtol(s, nullptr, 16)`: white space, a sign, an optional 0x before a digit, then digits. */
  function Strtol16(s: string): int {
    if s == "" then 0
    else if IsSpace(s[0]) then Strtol16(s[1..])
    else if s[0] == '-' then 0 - Magnitude(s[1..])
    else if s[0] == '+' then Magnitude(s[1..])
    else Magnitude(s)
  }

  function Magnitude(s: string): nat {
    if |s| >= 3 && s[0] == '0' && (s[1] == 'x' || s[1] == 'X') && DigitValue(s[2]) >= 0 then Digits(s[2..], 0)
    else Digits(s, 0)
  }

  /** The bytes `hex_string_to_bytes` makes of a string, two characters at a time. */
  function FromHex(hex: string): seq<byte> {
    if hex == "" then []
    else if |hex| == 1 then [Strtol16(hex) % 256]
    else [Strtol16(hex[..2]) % 256] + FromHex(hex[2..])
  }

  method HexStringToBytes(hex: string) returns (bytes: seq<byte>)
    ensures bytes == FromHex(hex)
  {
    hide Strtol16;
    bytes := [];
    var i := 0;
    while i < |hex|
      invariant i <= |hex| + 1
      invariant i <= |hex| ==> bytes + FromHex(hex[i..]) == FromHex(hex)
      invariant i > |hex| ==> bytes == FromHex(hex)
    {
      var pair := hex[i..Min(i + 2, |hex|)];
      if i + 2 <= |hex| {
        assert hex[i..][..2] == pair && hex[i..][2..] == hex[i + 2..];
      } else {
        assert hex[i..] == pair;
      }
      bytes := bytes + [Strtol16(pair) % 256];
      i := i + 2;
    }
  }

  method ToHexString(data: seq<byte>) returns (s: string)
    ensures s == ToHex(data)
  {
    s := "";
    for i := 0 to |data|
      invariant s == ToHex(data[..i])
    {
      assert data[..i + 1][..i] == data[..i];
      s := s + HexByte(data[i]);
    }
    assert data[..|data|] == data;
  }

  /** Where the digits of a byte stand, and which they are. */
  lemma {:induction false} HexAt(data: seq<byte>, i: nat)
    requires i < |data|
    ensures ToHex(data)[2 * i] == "0123456789abcdef"[data[i] / 16] && ToHex(data)[2 * i + 1] == "0123456789abcdef"[data[i] % 16]
  {
    if i < |data| - 1 {
      HexAt(data[..|data| - 1], i);
    }
  }

  /** Letters count in either case. */
  lemma DigitTable(n: nat)
    requires n < 16
    ensures DigitValue("0123456789abcdef"[n]) == n && DigitValue("0123456789ABCDEF"[n]) == n
  {
  }

  predicate AllDigits(hex: string) { forall k :: 0 <= k < |hex| ==> DigitValue(hex[k]) >= 0 }

  /** What is read from a text of digits: each pair is one byte, the higher digit first. */
  lemma {:induction false} FromHexAt(hex: string, i: nat)
    requires AllDigits(hex) && |hex| % 2 == 0 && 2 * i < |hex|
    ensures |FromHex(hex)| == |hex| / 2 && FromHex(hex)[i] == 16 * DigitValue(hex[2 * i]) + DigitValue(hex[2 * i + 1])
  {
    hide Strtol16;
    PairReads(hex[0], hex[1]);
    assert hex[..2] == [hex[0], hex[1]];
    var rest := hex[2..];
    if rest == [] {
      assert FromHex(rest) == [];
    } else {
      assert AllDigits(rest);
      FromHexAt(rest, if i == 0 then 0 else i - 1);
    }
  }

  lemma PairReads(a: char, b: char)
    requires DigitValue(a) >= 0 && DigitValue(b) >= 0
    ensures 0 <= 16 * DigitValue(a) + DigitValue(b) < 256 && Strtol16([a, b]) == 16 * DigitValue(a) + DigitValue(b)
  {
    var s := [a, b];
    assert s[1..] == [b] && [b][1..] == [];
    assert Digits(s, 0) == Digits(s[1..], DigitValue(a));
    assert Digits([b], DigitValue(a)) == Digits([b][1..], 16 * DigitValue(a) + DigitValue(b));
  }

  lemma DigitOf(n: nat)
    requires n < 16
    ensures DigitValue(DIGITS[n]) == n && !IsSpace(DIGITS[n]) && DIGITS[n] != '-' && DIGITS[n] != '+'
  {
  }

  lemma HexByteRoundTrip(b: byte)
    ensures Strtol16(HexByte(b)) == b
  {
    var s := HexByte(b);
    DigitOf(b / 16);
    DigitOf(b % 16);
    assert s[1..] == [DIGITS[b % 16]] && s[1..][1..] == "";
    assert Digits(s[1..], b / 16) == Digits(s[1..][1..], 16 * (b / 16) + b % 16);
    assert Digits(s, 0) == Digits(s[1..], 16 * 0 + b / 16);
  }

  lemma {:induction false} FromHexAppend(s: string, t: string)
    requires |s| % 2 == 0
    ensures FromHex(s + t) == FromHex(s) + FromHex(t)
  {
    if s == "" {
      assert s + t == t;
    } else {
      assert (s + t)[..2] == s[..2] && (s + t)[2..] == s[2..] + t;
      FromHexAppend(s[2..], t);
    }
  }

  /** Reading back what `to_hex_string` writes gives the bytes again. */
  lemma {:induction false} HexRoundTrip(data: seq<byte>)
    ensures FromHex(ToHex(data)) == data
  {
    if data != [] {
      hide FromHex, HexByte;
      var front, b := data[..|data| - 1], data[|data| - 1];
      HexRoundTrip(front);
      FromHexAppend(ToHex(front), HexByte(b));
      HexOneByte(b);
    }
  }

  lemma HexOneByte(b: byte)
    ensures FromHex(HexByte(b)) == [b]
  {
    hide Strtol16;
    HexByteRoundTrip(b);
    var s := HexByte(b);
    assert s[..2] == s && s[2..] == "";
    assert FromHex(s) == [Strtol16(s[..2]) % 256] + FromHex(s[2..]);
  }
}
