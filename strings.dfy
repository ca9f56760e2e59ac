/**
 * The byte-string primitives the blog relies on: PHP's `trim`, `rtrim`,
 * `strtolower`, digit tests and the byte-wise order `ksort`/`krsort` use for
 * non-numeric string keys. Strings are sequences of characters, one
 * character per byte (ASCII input).
 */
module Strings {

  /** The characters `trim()` strips by default: space, \t, \n, \r, \0 and \x0B. */
  predicate IsTrimmable(c: char)
  {
    c == ' ' || c == '\t' || c == '\n' || c == '\r' || c as int == 0 || c as int == 0x0B
  }

  /** Drops the leading characters satisfying `drop`. */
  function TrimStart(s: string, drop: char -> bool): (r: string)
    ensures |r| <= |s| && r == s[|s| - |r|..]
    ensures forall k :: 0 <= k < |s| - |r| ==> drop(s[k])
    ensures r != [] ==> !drop(r[0])
  {
    if |s| > 0 && drop(s[0]) then TrimStart(s[1..], drop) else s
  }

  /** Drops the trailing characters satisfying `drop`. */
  function TrimEnd(s: string, drop: char -> bool): (r: string)
    ensures |r| <= |s| && r == s[..|r|]
    ensures forall k :: |r| <= k < |s| ==> drop(s[k])
    ensures r != [] ==> !drop(r[|r| - 1])
  {
    if |s| > 0 && drop(s[|s| - 1]) then TrimEnd(s[..|s| - 1], drop) else s
  }

  /**
   * PHP `trim($s, $chars)`: both ends. The result is the slice of `s` that
   * starts after the dropped prefix, and only dropped characters follow it.
   */
  function TrimWith(s: string, drop: char -> bool): (r: string)
    ensures |r| <= |s|
    ensures r != [] ==> !drop(r[0]) && !drop(r[|r| - 1])
    ensures var i := |s| - |TrimStart(s, drop)|;
      && i + |r| <= |s| && r == s[i..i + |r|]
      && (forall k :: 0 <= k < i ==> drop(s[k]))
      && (forall k :: i + |r| <= k < |s| ==> drop(s[k]))
  {
    TrimEnd(TrimStart(s, drop), drop)
  }

  /**
   * PHP `trim($s)`: the slice of `s` left once the blanks at both ends are
   * removed.
   */
  function Trim(s: string): (r: string)
    ensures |r| <= |s|
    ensures r != [] ==> !IsTrimmable(r[0]) && !IsTrimmable(r[|r| - 1])
    ensures var i := |s| - |TrimStart(s, IsTrimmable)|;
      && i + |r| <= |s| && r == s[i..i + |r|]
      && (forall k :: 0 <= k < i ==> IsTrimmable(s[k]))
      && (forall k :: i + |r| <= k < |s| ==> IsTrimmable(s[k]))
  {
    TrimWith(s, IsTrimmable)
  }

  /**
   * The trimmed string is determined by where the blanks end and start again:
   * a slice `s[i..j]` with only blanks around it and none at its own ends is
   * what `trim` gives.
   */
  lemma TrimExact(s: string, i: nat, j: nat)
    requires i <= j <= |s|
    requires forall k :: 0 <= k < i ==> IsTrimmable(s[k])
    requires forall k :: j <= k < |s| ==> IsTrimmable(s[k])
    requires i < j ==> !IsTrimmable(s[i]) && !IsTrimmable(s[j - 1])
    ensures Trim(s) == s[i..j]
  {
  }

  /** PHP `rtrim($s)`: the longest prefix of `s` not ending in a blank, with only blanks after it. */
  function TrimRight(s: string): (r: string)
    ensures |r| <= |s| && r == s[..|r|]
    ensures forall k :: |r| <= k < |s| ==> IsTrimmable(s[k])
    ensures r != [] ==> !IsTrimmable(r[|r| - 1])
  {
    TrimEnd(s, IsTrimmable)
  }

  predicate IsUpper(c: char) { 'A' <= c <= 'Z' }
  predicate IsLower(c: char) { 'a' <= c <= 'z' }
  predicate IsDigit(c: char) { '0' <= c <= '9' }

  /** PHP 8 `strtolower` on one byte: only A-Z change. */
  function LowerChar(c: char): (r: char)
    ensures IsUpper(c) ==> IsLower(r)
    ensures !IsUpper(c) ==> r == c
  {
    if IsUpper(c) then (c as int + 32) as char else c
  }

  /** PHP 8 `strtolower`: byte by byte. */
  function ToLower(s: string): (r: string)
    ensures |r| == |s|
    ensures forall k :: 0 <= k < |s| ==> r[k] == LowerChar(s[k])
  {
    if s == [] then [] else [LowerChar(s[0])] + ToLower(s[1..])
  }

  function DigitValue(c: char): nat
    requires IsDigit(c)
  {
    c as int - '0' as int
  }

  function DigitChar(d: nat): (c: char)
    requires d < 10
    ensures IsDigit(c) && DigitValue(c) == d
  {
    ('0' as int + d) as char
  }

  predicate AllDigits(s: string)
  {
    forall k :: 0 <= k < |s| ==> IsDigit(s[k])
  }

  /** The number an all-digit string spells, most significant digit first. */
  function DigitsValue(s: string): nat
    requires AllDigits(s)
  {
    if s == [] then 0 else 10 * DigitsValue(s[..|s| - 1]) + DigitValue(s[|s| - 1])
  }

  /** `sprintf('%0Nd', n)`: at least `width` digits, zero-padded on the left. */
  function PadNat(n: nat, width: nat): (r: string)
    ensures AllDigits(r) && |r| >= width && |r| >= 1
    decreases n + width
  {
    if n < 10 && width <= 1 then [DigitChar(n)]
    else PadNat(n / 10, if width > 0 then width - 1 else 0) + [DigitChar(n % 10)]
  }

  /** Reading a zero-padded numeral back gives the number. */
  lemma {:induction false} PadNatValue(n: nat, width: nat)
    ensures DigitsValue(PadNat(n, width)) == n
    decreases n + width
  {
    var r := PadNat(n, width);
    if n < 10 && width <= 1 {
    } else {
      var w := if width > 0 then width - 1 else 0;
      PadNatValue(n / 10, w);
      assert r[..|r| - 1] == PadNat(n / 10, w);
    }
  }

  /** A numeral of `n < 10^width` takes exactly `width` digits. */
  lemma {:induction false} PadNatLength(n: nat, width: nat)
    requires width >= 1 && n < Pow10(width)
    ensures |PadNat(n, width)| == width
    decreases n + width
  {
    if n < 10 && width <= 1 {
    } else if width > 1 {
      PadNatLength(n / 10, width - 1);
    }
  }

  /** A numeral of `n >= 10^width` takes more than `width` digits. */
  lemma {:induction false} PadNatLonger(n: nat, width: nat)
    requires n >= Pow10(width)
    ensures |PadNat(n, width)| > width
    decreases n + width
  {
    if width > 0 {
      PadNatLonger(n / 10, width - 1);
    }
  }

  function Pow10(k: nat): (r: nat)
    ensures r >= 1
  {
    if k == 0 then 1 else 10 * Pow10(k - 1)
  }

  /**
   * The byte-wise order of `strcmp`, used by `ksort`/`krsort` for keys that
   * are not numeric strings: the first differing byte decides, and a proper
   * prefix comes first.
   */
  predicate StrLe(a: string, b: string)
  {
    a == [] || (b != [] && (a[0] < b[0] || (a[0] == b[0] && StrLe(a[1..], b[1..]))))
  }

  lemma {:induction false} StrLeTotal(a: string, b: string)
    ensures StrLe(a, b) || StrLe(b, a)
  {
    if a != [] && b != [] && a[0] == b[0] {
      StrLeTotal(a[1..], b[1..]);
    }
  }

  lemma {:induction false} StrLeTransitive(a: string, b: string, c: string)
    requires StrLe(a, b) && StrLe(b, c)
    ensures StrLe(a, c)
  {
    if a != [] && a[0] == b[0] && b[0] == c[0] {
      StrLeTransitive(a[1..], b[1..], c[1..]);
    }
  }

  lemma {:induction false} StrLeAntisymmetric(a: string, b: string)
    requires StrLe(a, b) && StrLe(b, a)
    ensures a == b
  {
    if a != [] {
      StrLeAntisymmetric(a[1..], b[1..]);
      assert a == [a[0]] + a[1..] && b == [b[0]] + b[1..];
    }
  }
}
