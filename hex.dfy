/**
 * Lower-case hexadecimal text for byte arrays: the encoding
 * `Array.from(bytes).map((b) => b.toString(16).padStart(2, '0')).join('')`
 * used for every stored hash, and the decoding
 * `new Uint8Array(hex.match(/.{1,2}/g)!.map((byte) => parseInt(byte, 16)))`
 * used to read a session's hash back.
 */
module Hex {
  import opened Wrappers
  import opened Text

  const Digits := "0123456789abcdef"

  /** `b.toString(16)`: one digit below 16, two digits otherwise, no leading zero. */
  function ToHexString(b: byte): string
  {
    if b < 16 then [Digits[b]] else [Digits[b / 16], Digits[b % 16]]
  }

  /** `s.padStart(2, '0')`. */
  function PadStart2(s: string): string
  {
    if |s| < 2 then seq(2 - |s|, _ => '0') + s else s
  }

  /** One byte as exactly two lower-case digits, the high nibble first. */
  function ByteToHex(b: byte): (r: string)
    ensures |r| == 2 && r[0] == Digits[b / 16] && r[1] == Digits[b % 16]
  {
    PadStart2(ToHexString(b))
  }

  /** The `map(...).join('')` pipeline: two digits per byte, in order. */
  function HexEncode(bytes: seq<byte>): (r: string)
    ensures |r| == 2 * |bytes|
    ensures forall i :: 0 <= i < |bytes| ==> r[2 * i..2 * i + 2] == ByteToHex(bytes[i])
  {
    if bytes == [] then ""
    else
      var rest := HexEncode(bytes[1..]);
      var r := ByteToHex(bytes[0]) + rest;
      assert forall i :: 1 <= i < |bytes| ==> r[2 * i..2 * i + 2] == rest[2 * (i - 1)..2 * (i - 1) + 2];
      r
  }

  /**
   * `s.match(/.{1,2}/g)`: the successive matches of one or two characters
   * other than a line terminator (which `.` does not match). An empty list
   * stands for the `null` that `match` returns when nothing matches.
   */
  function Chunks(s: string): (r: seq<string>)
    ensures forall i :: 0 <= i < |r| ==> 1 <= |r[i]| <= 2
    ensures forall i, k :: 0 <= i < |r| && 0 <= k < |r[i]| ==> !IsLineTerminator(r[i][k])
    decreases |s|
  {
    if s == [] then []
    else if IsLineTerminator(s[0]) then Chunks(s[1..])
    else if |s| >= 2 && !IsLineTerminator(s[1]) then [s[..2]] + Chunks(s[2..])
    else [s[..1]] + Chunks(s[1..])
  }

  /** The value of one digit in base 16, either case; `None` for any other character. */
  function HexDigitValue(c: char): (r: Option<nat>)
    ensures r.Some? ==> r.value < 16
  {
    if '0' <= c <= '9' then Some(c as int - '0' as int)
    else if 'a' <= c <= 'f' then Some(c as int - 'a' as int + 10)
    else if 'A' <= c <= 'F' then Some(c as int - 'A' as int + 10)
    else None
  }

  /** Every character of `d` is a base-16 digit. */
  predicate AllHexDigits(d: string)
  {
    forall k :: 0 <= k < |d| ==> HexDigitValue(d[k]).Some?
  }

  /** The longest prefix of `s` made of base-16 digits. */
  function LeadingHexDigits(s: string): (r: string)
    ensures |r| <= |s| && r == s[..|r|]
    ensures AllHexDigits(r)
  {
    if s != [] && HexDigitValue(s[0]).Some? then [s[0]] + LeadingHexDigits(s[1..]) else ""
  }

  /** The number a string of base-16 digits denotes. */
  function HexValue(d: string): nat
    requires AllHexDigits(d)
  {
    if d == [] then 0 else 16 * HexValue(d[..|d| - 1]) + HexDigitValue(d[|d| - 1]).value
  }

  /**
   * `parseInt(s, 16)`: skip leading whitespace, read an optional sign, drop a
   * `0x` / `0X` prefix, then read the longest run of base-16 digits. `None`
   * stands for `NaN`, the result when that run is empty.
   */
  function ParseIntRadix16(s: string): (r: Option<int>)
    ensures Blank(s) ==> r == None
    ensures r.Some? ==> TrimStart(s) != [] && (r.value < 0 ==> TrimStart(s)[0] == '-')
    ensures (TrimStart(s) != [] && TrimStart(s)[0] != '-' && TrimStart(s)[0] != '+'
             && HexDigitValue(TrimStart(s)[0]).None?) ==> r == None
  {
    var t := TrimStart(s);
    if t != [] && t[0] == '-' then
      match ParseMagnitude(t[1..])
      case None => None
      case Some(n) => Some(0 - n as int)
    else if t != [] && t[0] == '+' then ParseMagnitude(t[1..])
    else ParseMagnitude(t)
  }

  /**
   * The unsigned part of `parseInt(s, 16)`: an optional `0x` / `0X`, then the
   * digits. Nothing is read unless the first character is a digit.
   */
  function ParseMagnitude(u: string): (r: Option<nat>)
    ensures r.Some? ==> u != [] && HexDigitValue(u[0]).Some?
  {
    var v := if |u| >= 2 && u[0] == '0' && (u[1] == 'x' || u[1] == 'X') then u[2..] else u;
    var z := LeadingHexDigits(v);
    if z == [] then None else Some(HexValue(z))
  }

  /**
   * Storing a number into a `Uint8Array`: `NaN` becomes 0, anything else the
   * byte congruent to it modulo 256, which is the number itself when it
   * already fits.
   */
  function ToUint8(v: Option<int>): (r: byte)
    ensures v.None? ==> r == 0
    ensures v.Some? ==> (v.value - r) % 256 == 0
    ensures v.Some? && 0 <= v.value < 256 ==> r == v.value
  {
    match v
    case None => 0
    case Some(n) => n % 256
  }

  /**
   * The decoding pipeline. `None` is the `TypeError` thrown when `match`
   * returns `null` (the string has no character outside line terminators)
   * and the non-null assertion lets `.map` run on it.
   */
  function HexDecode(s: string): (r: Option<seq<byte>>)
    ensures r.Some? <==> Chunks(s) != []
    ensures r.Some? ==> |r.value| == |Chunks(s)|
  {
    var chunks := Chunks(s);
    if chunks == [] then None
    else Some(seq(|chunks|, i requires 0 <= i < |chunks| => DecodeChunk(chunks[i])))
  }

  /**
   * `parseInt(chunk, 16)` stored into a `Uint8Array` element: a chunk of
   * digits gives the number they denote, modulo 256; a blank chunk gives 0.
   */
  function DecodeChunk(chunk: string): (r: byte)
    ensures chunk != [] && AllHexDigits(chunk) ==>
              r == HexValue(chunk) % 256
    ensures Blank(chunk) ==> r == 0
  {
    if chunk != [] && AllHexDigits(chunk) then
      ParseDigits(chunk);
      ToUint8(ParseIntRadix16(chunk))
    else
      ToUint8(ParseIntRadix16(chunk))
  }

  lemma DigitValues(n: nat)
    requires n < 16
    ensures HexDigitValue(Digits[n]) == Some(n)
  {
    if n < 10 {
      assert Digits[n] as int == '0' as int + n;
    } else {
      assert Digits[n] as int == 'a' as int + n - 10;
    }
  }

  /** A string of base-16 digits is its own longest digit prefix. */
  lemma {:induction false} AllDigitsPrefix(d: string)
    requires AllHexDigits(d)
    ensures LeadingHexDigits(d) == d
  {
    if d != [] {
      AllDigitsPrefix(d[1..]);
    }
  }

  /** `parseInt(d, 16)` of a non-empty string of digits is the number those digits denote. */
  lemma ParseDigits(d: string)
    requires d != []
    requires AllHexDigits(d)
    ensures ParseIntRadix16(d) == Some(HexValue(d))
  {
    DigitIsNotSignOrSpace(d[0]);
    assert SkipBlank(d, 0) == 0;
    assert TrimStart(d) == d;
    ParseMagnitudeDigits(d);
    assert ParseIntRadix16(d) == ParseMagnitude(d);
  }

  /** Without a sign, the digits are read as they stand (a digit is never the `x` of a `0x` prefix). */
  lemma ParseMagnitudeDigits(d: string)
    requires d != []
    requires AllHexDigits(d)
    ensures ParseMagnitude(d) == Some(HexValue(d))
  {
    assert !(|d| >= 2 && d[0] == '0' && (d[1] == 'x' || d[1] == 'X')) by {
      if |d| >= 2 {
        DigitIsNotSignOrSpace(d[1]);
      }
    }
    AllDigitsPrefix(d);
    assert LeadingHexDigits(d) == d;
  }

  lemma DigitIsNotSignOrSpace(c: char)
    requires HexDigitValue(c).Some?
    ensures !IsTrimmable(c) && c != '-' && c != '+' && c != 'x' && c != 'X'
  {
  }

  /** The two digits written for a byte parse back to that byte. */
  lemma ParseByteToHex(b: byte)
    ensures DecodeChunk(ByteToHex(b)) == b
  {
    DigitValues(b / 16);
    DigitValues(b % 16);
    DecodePair(ByteToHex(b));
  }

  /** Two digits `hi` and `lo` decode to the byte `16 * hi + lo`. */
  lemma DecodePair(s: string)
    requires |s| == 2 && HexDigitValue(s[0]).Some? && HexDigitValue(s[1]).Some?
    ensures DecodeChunk(s) == 16 * HexDigitValue(s[0]).value + HexDigitValue(s[1]).value
  {
    var v := 16 * HexDigitValue(s[0]).value + HexDigitValue(s[1]).value;
    assert HexValue(s) == v < 256 by {
      assert s[..1][..0] == [];
      assert HexValue(s[..1]) == HexDigitValue(s[0]).value;
    }
    assert ParseIntRadix16(s) == Some(v) by {
      assert AllHexDigits(s);
      ParseDigits(s);
    }
  }

  /** Matching one- or two-character chunks in a hex encoding splits it back into its byte pairs. */
  lemma {:induction false} ChunksOfHexEncode(bytes: seq<byte>)
    ensures Chunks(HexEncode(bytes)) == seq(|bytes|, i requires 0 <= i < |bytes| => ByteToHex(bytes[i]))
  {
    if bytes != [] {
      var s := HexEncode(bytes);
      var rest := HexEncode(bytes[1..]);
      assert s == ByteToHex(bytes[0]) + rest;
      DigitValues(bytes[0] / 16);
      DigitValues(bytes[0] % 16);
      ChunksStep(s);
      assert s[..2] == ByteToHex(bytes[0]);
      assert s[2..] == rest;
      ChunksOfHexEncode(bytes[1..]);
      var tail := seq(|bytes| - 1, i requires 0 <= i < |bytes| - 1 => ByteToHex(bytes[1..][i]));
      assert Chunks(s) == [ByteToHex(bytes[0])] + tail;
    }
  }

  /** Two leading characters other than line terminators form the first chunk. */
  lemma ChunksStep(s: string)
    requires |s| >= 2 && !IsLineTerminator(s[0]) && !IsLineTerminator(s[1])
    ensures Chunks(s) == [s[..2]] + Chunks(s[2..])
  {
  }

  /**
   * Decoding an encoding gives the bytes back, except for the empty array:
   * its encoding is the empty string, on which the decoding pipeline throws.
   */
  lemma HexRoundTrip(bytes: seq<byte>)
    ensures HexDecode(HexEncode(bytes)) == if bytes == [] then None else Some(bytes)
  {
    var chunks := Chunks(HexEncode(bytes));
    ChunksOfHexEncode(bytes);
    if bytes != [] {
      var d := seq(|chunks|, i requires 0 <= i < |chunks| => DecodeChunk(chunks[i]));
      assert HexDecode(HexEncode(bytes)) == Some(d);
      forall i | 0 <= i < |bytes| ensures d[i] == bytes[i] {
        ParseByteToHex(bytes[i]);
      }
      assert d == bytes;
    }
  }
}
