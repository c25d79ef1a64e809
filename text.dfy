/**
 * The JavaScript string and number primitives the server code relies on:
 * ASCII lower-casing, the whitespace set of `String.prototype.trim`, and the
 * bitwise operators `|`, `^` and `>>` on non-negative operands.
 *
 * A string is a sequence of Unicode scalar values. JavaScript's `length`
 * counts UTF-16 code units instead, so a character outside the Basic
 * Multilingual Plane counts twice there; `Utf16Length` computes that count
 * wherever the server code compares a length.
 */
module Text {

  /** One element of a `Uint8Array`. */
  type byte = x: int | 0 <= x < 256

  predicate IsUpper(c: char) { 'A' <= c <= 'Z' }

  function LowerChar(c: char): char
  {
    if IsUpper(c) then (c as int + 32) as char else c
  }

  /**
   * `String.prototype.toLowerCase`, on the ASCII letters: every upper-case
   * letter becomes its lower-case form, every other character is kept.
   */
  function ToLowerCase(s: string): (r: string)
    ensures |r| == |s|
    ensures forall i :: 0 <= i < |r| ==> !IsUpper(r[i])
    ensures forall i :: 0 <= i < |s| && !IsUpper(s[i]) ==> r[i] == s[i]
    ensures forall i :: 0 <= i < |s| && IsUpper(s[i]) ==> r[i] as int == s[i] as int + 32
  {
    seq(|s|, i requires 0 <= i < |s| => LowerChar(s[i]))
  }

  /** Lower-casing twice is lower-casing once. */
  lemma LowerCaseIdempotent(s: string)
    ensures ToLowerCase(ToLowerCase(s)) == ToLowerCase(s)
  {
  }

  /** ECMAScript LineTerminator. */
  predicate IsLineTerminator(c: char)
  {
    c == '\n' || c == '\r' || c == '\U{2028}' || c == '\U{2029}'
  }

  /** ECMAScript WhiteSpace: tab, vertical tab, form feed, BOM and the Zs characters. */
  predicate IsWhiteSpace(c: char)
  {
    || c == '\t' || c == '\U{000B}' || c == '\U{000C}' || c == '\U{FEFF}'
    || c == ' ' || c == '\U{00A0}' || c == '\U{1680}'
    || ('\U{2000}' <= c <= '\U{200A}')
    || c == '\U{202F}' || c == '\U{205F}' || c == '\U{3000}'
  }

  /** The characters `trim` removes and `parseInt` skips: WhiteSpace and LineTerminator. */
  predicate IsTrimmable(c: char)
  {
    IsWhiteSpace(c) || IsLineTerminator(c)
  }

  /** `s` is made of whitespace only (the empty string included). */
  predicate Blank(s: string)
  {
    forall k :: 0 <= k < |s| ==> IsTrimmable(s[k])
  }

  /** The index of the first character at or after `i` that is not whitespace, or `|s|` if there is none. */
  function SkipBlank(s: string, i: nat): (j: nat)
    requires i <= |s|
    ensures i <= j <= |s|
    ensures forall k :: i <= k < j ==> IsTrimmable(s[k])
    ensures j < |s| ==> !IsTrimmable(s[j])
    decreases |s| - i
  {
    if i < |s| && IsTrimmable(s[i]) then SkipBlank(s, i + 1) else i
  }

  /** The end of `s[lo..j]` once its trailing whitespace is cut away. */
  function BackBlank(s: string, lo: nat, j: nat): (e: nat)
    requires lo <= j <= |s|
    ensures lo <= e <= j
    ensures forall k :: e <= k < j ==> IsTrimmable(s[k])
    ensures lo < e ==> !IsTrimmable(s[e - 1])
    decreases j
  {
    if lo < j && IsTrimmable(s[j - 1]) then BackBlank(s, lo, j - 1) else j
  }

  /** Drops the leading trimmable characters, as `parseInt` does before reading a number. */
  function TrimStart(s: string): (r: string)
    ensures |r| <= |s| && r == s[|s| - |r|..]
    ensures forall k :: 0 <= k < |s| - |r| ==> IsTrimmable(s[k])
    ensures r != [] ==> !IsTrimmable(r[0])
  {
    s[SkipBlank(s, 0)..]
  }

  /** `r` is `s[i..i + |r|]` and everything outside that slice is trimmable. */
  ghost predicate IsTrimmedSlice(s: string, r: string, i: int)
  {
    && 0 <= i <= |s| - |r|
    && r == s[i..i + |r|]
    && (forall k :: 0 <= k < i ==> IsTrimmable(s[k]))
    && (forall k :: i + |r| <= k < |s| ==> IsTrimmable(s[k]))
  }

  /**
   * `String.prototype.trim`: the result is the slice of `s` left once the
   * whitespace on both ends is cut away. It is empty exactly when `s` is
   * whitespace only, and otherwise starts and ends with a non-whitespace
   * character.
   */
  function Trim(s: string): (r: string)
    ensures |r| <= |s|
    ensures exists i :: IsTrimmedSlice(s, r, i)
    ensures r == [] <==> Blank(s)
    ensures r != [] ==> !IsTrimmable(r[0]) && !IsTrimmable(r[|r| - 1])
  {
    var i := SkipBlank(s, 0);
    var e := BackBlank(s, i, |s|);
    assert IsTrimmedSlice(s, s[i..e], i);
    assert Blank(s) ==> i == |s|;
    s[i..e]
  }

  /** Whitespace around a string that starts and ends with a non-whitespace character is exactly what `trim` removes. */
  lemma TrimOfPadded(pre: string, s: string, post: string)
    requires Blank(pre) && Blank(post)
    requires s != [] && !IsTrimmable(s[0]) && !IsTrimmable(s[|s| - 1])
    ensures Trim(pre + s + post) == s
  {
    var p := pre + s + post;
    var i := SkipBlank(p, 0);
    assert p[|pre|] == s[0];
    assert forall k :: 0 <= k < |pre| ==> p[k] == pre[k];
    assert i == |pre|;
    var e := BackBlank(p, i, |p|);
    assert p[|pre| + |s| - 1] == s[|s| - 1];
    assert forall k :: |pre| + |s| <= k < |p| ==> p[k] == post[k - |pre| - |s|];
    assert e == |pre| + |s|;
    assert p[i..e] == s;
  }

  /** Trimming a trimmed string changes nothing. */
  lemma TrimIdempotent(s: string)
    ensures Trim(Trim(s)) == Trim(s)
  {
    var r := Trim(s);
    if r != [] {
      TrimOfPadded("", r, "");
      assert "" + r + "" == r;
    }
  }

  /**
   * JavaScript's `a ^ b` for operands in 0 .. 2^31 - 1, bit by bit from the
   * least significant one. It is zero exactly when the operands are equal.
   */
  function BitXor(a: nat, b: nat): (r: nat)
    ensures r == 0 <==> a == b
    decreases a + b
  {
    if a == 0 && b == 0 then 0
    else 2 * BitXor(a / 2, b / 2) + (if a % 2 == b % 2 then 0 else 1)
  }

  /** JavaScript's `a | b` for operands in 0 .. 2^31 - 1: zero exactly when both operands are zero. */
  function BitOr(a: nat, b: nat): (r: nat)
    ensures r == 0 <==> a == 0 && b == 0
    decreases a + b
  {
    if a == 0 && b == 0 then 0
    else 2 * BitOr(a / 2, b / 2) + (if a % 2 == 1 || b % 2 == 1 then 1 else 0)
  }

  /**
   * JavaScript's `a >> n` for a non-negative operand: halve `n` times,
   * rounding down. A shift by at least one position at least halves the value.
   */
  function ShiftRight(a: nat, n: nat): (r: nat)
    ensures r <= a
    ensures n > 0 ==> r <= a / 2
  {
    if n == 0 then a else ShiftRight(a / 2, n - 1)
  }

  /** `b >> 3` of a byte is its quotient by 8, so it is below 32. */
  lemma ShiftRightByte(b: byte)
    ensures ShiftRight(b, 3) == b / 8 < 32
  {
    assert ShiftRight(b, 3) == ShiftRight(b / 2, 2) == ShiftRight(b / 2 / 2, 1) == b / 2 / 2 / 2;
  }

  /** The number of UTF-16 code units of one character: two for a character outside the Basic Multilingual Plane. */
  function Utf16Units(c: char): nat
  {
    if c as int >= 0x10000 then 2 else 1
  }

  /**
   * JavaScript's `s.length`: the number of UTF-16 code units of `s`. It lies
   * between `|s|` and `2 * |s|`, is zero only for the empty string, and is
   * `|s|` when every character is in the Basic Multilingual Plane.
   */
  function Utf16Length(s: string): (n: nat)
    ensures |s| <= n <= 2 * |s|
    ensures n == 0 <==> s == []
    ensures (forall k :: 0 <= k < |s| ==> s[k] as int < 0x10000) ==> n == |s|
  {
    if s == [] then 0 else Utf16Units(s[0]) + Utf16Length(s[1..])
  }

  /** A string of `n` characters outside the Basic Multilingual Plane is `2 * n` code units long. */
  lemma {:induction false} Utf16LengthAstral(s: string)
    requires forall k :: 0 <= k < |s| ==> s[k] as int >= 0x10000
    ensures Utf16Length(s) == 2 * |s|
  {
    if s != [] {
      Utf16LengthAstral(s[1..]);
    }
  }
}
