/**
 * Standard base64 (section 4 of RFC 4648), as `btoa` produces it for a byte
 * string, and the rewriting into the URL-safe alphabet of section 5 of
 * RFC 4648 that invite signatures use: `+` to `-`, `/` to `_`, trailing `=`
 * dropped.
 */
module Base64 {
  import opened Text

  /** The characters of the URL-safe alphabet of section 5 of RFC 4648. */
  predicate IsUrlSafe(c: char)
  {
    ('A' <= c <= 'Z') || ('a' <= c <= 'z') || ('0' <= c <= '9') || c == '-' || c == '_'
  }

  /** The characters of the standard alphabet of section 4 of RFC 4648: the URL-safe letters and digits, `+` and `/`. */
  predicate IsStandard(c: char)
  {
    ('A' <= c <= 'Z') || ('a' <= c <= 'z') || ('0' <= c <= '9') || c == '+' || c == '/'
  }

  /** The character for a 6-bit value: `A`-`Z`, `a`-`z`, `0`-`9`, `+`, `/`. */
  function Digit(v: nat): (c: char)
    requires v < 64
    ensures IsStandard(c)
  {
    if v < 26 then ('A' as int + v) as char
    else if v < 52 then ('a' as int + v - 26) as char
    else if v < 62 then ('0' as int + v - 52) as char
    else if v == 62 then '+'
    else '/'
  }

  /** The number of `=` characters that pad the encoding of `n` bytes. */
  function Padding(n: nat): nat
  {
    (3 - n % 3) % 3
  }

  /** Three bytes as four characters. */
  function EncodeGroup(b0: byte, b1: byte, b2: byte): (g: string)
    ensures |g| == 4 && forall i :: 0 <= i < 4 ==> IsStandard(g[i])
  {
    [Digit(b0 / 4), Digit((b0 % 4) * 16 + b1 / 16), Digit((b1 % 16) * 4 + b2 / 64), Digit(b2 % 64)]
  }

  /** A final one or two bytes, padded to four characters. */
  function EncodeTail(b: seq<byte>): (g: string)
    requires 1 <= |b| <= 2
    ensures |g| == 4
    ensures forall i :: 0 <= i < 4 - Padding(|b|) ==> IsStandard(g[i])
    ensures forall i :: 4 - Padding(|b|) <= i < 4 ==> g[i] == '='
  {
    if |b| == 1 then [Digit(b[0] / 4), Digit((b[0] % 4) * 16), '=', '=']
    else [Digit(b[0] / 4), Digit((b[0] % 4) * 16 + b[1] / 16), Digit((b[1] % 16) * 4), '=']
  }

  /**
   * Each group of three bytes becomes four characters of the alphabet; a
   * final group of one or two bytes becomes two or three characters and is
   * padded with `=` to four.
   */
  function Encode(b: seq<byte>): (r: string)
    ensures |r| == 4 * ((|b| + 2) / 3)
    ensures forall i :: 0 <= i < |r| - Padding(|b|) ==> IsStandard(r[i])
    ensures forall i :: |r| - Padding(|b|) <= i < |r| ==> r[i] == '='
  {
    if |b| == 0 then ""
    else if |b| <= 2 then EncodeTail(b)
    else
      var group := EncodeGroup(b[0], b[1], b[2]);
      var rest := Encode(b[3..]);
      EncodeSizes(|b|);
      assert forall i :: 4 <= i < 4 + |rest| ==> (group + rest)[i] == rest[i - 4];
      group + rest
  }

  lemma EncodeSizes(n: nat)
    requires n >= 3
    ensures (n + 2) / 3 == (n - 3 + 2) / 3 + 1
    ensures Padding(n) == Padding(n - 3)
  {
  }

  /** `s.replace(/x/g, y)` for one-character `x` and `y`. */
  function ReplaceAll(s: string, from: char, to: char): (r: string)
    ensures |r| == |s|
    ensures forall i :: 0 <= i < |s| ==> r[i] == if s[i] == from then to else s[i]
  {
    seq(|s|, i requires 0 <= i < |s| => if s[i] == from then to else s[i])
  }

  /** `s.replace(/c+$/, '')`: the run of `c` at the very end is removed, nothing else. */
  function StripTrailing(s: string, c: char): (r: string)
    ensures |r| <= |s| && r == s[..|r|]
    ensures r != [] ==> r[|r| - 1] != c
    ensures forall i :: |r| <= i < |s| ==> s[i] == c
  {
    if s != [] && s[|s| - 1] == c then StripTrailing(s[..|s| - 1], c) else s
  }

  /** The URL-safe form: the three `replace` calls of `createInviteSignature`. */
  function ToBase64Url(s: string): (r: string)
    ensures forall i :: 0 <= i < |r| ==> r[i] != '+' && r[i] != '/'
    ensures r != [] ==> r[|r| - 1] != '='
  {
    StripTrailing(ReplaceAll(ReplaceAll(s, '+', '-'), '/', '_'), '=')
  }

  /**
   * The URL-safe encoding of 32 bytes (an HMAC-SHA-256) is 43 characters of
   * the URL-safe alphabet: the standard encoding has 44, the last being the
   * single `=` of padding.
   */
  lemma UrlEncodingOf32Bytes(b: seq<byte>)
    requires |b| == 32
    ensures var e := Encode(b);
            |e| == 44 && e[43] == '=' && forall i :: 0 <= i < 43 ==> e[i] != '='
    ensures var r := ToBase64Url(Encode(b));
            |r| == 43 && forall i :: 0 <= i < |r| ==> IsUrlSafe(r[i])
  {
    var e := Encode(b);
    assert Padding(32) == 1;
    var u := ReplaceAll(ReplaceAll(e, '+', '-'), '/', '_');
    assert forall i :: 0 <= i < 43 ==> IsUrlSafe(u[i]);
    assert u[43] == '=' && u[42] != '=';
    assert u[..43][..42] == u[..42];
    assert StripTrailing(u, '=') == StripTrailing(u[..43], '=');
    assert StripTrailing(u[..43], '=') == u[..43];
  }
}
