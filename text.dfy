/**
 * String primitives of the .NET base library that the logging core relies on:
 * `Trim`, ordinal `IndexOf`, `StartsWith`, `Replace("\r\n", " ")`, and the
 * invariant-culture rendering of integers in decimal and in fixed-width hex.
 */
module Text {

  /** `char.IsWhiteSpace`: the Unicode separators plus U+0009..U+000D and U+0085. */
  predicate IsWhiteSpace(c: char) {
    c == ' ' || ('\t' <= c <= '\r') || c == '\U{0085}' || c == '\U{00A0}' || c == '\U{1680}'
    || ('\U{2000}' <= c <= '\U{200A}') || c == '\U{2028}' || c == '\U{2029}'
    || c == '\U{202F}' || c == '\U{205F}' || c == '\U{3000}'
  }

  predicate AllWhiteSpace(s: string) {
    forall i :: 0 <= i < |s| ==> IsWhiteSpace(s[i])
  }

  /** No white space at either end, as `Trim` leaves a string. */
  predicate Trimmed(s: string) {
    |s| == 0 || (!IsWhiteSpace(s[0]) && !IsWhiteSpace(s[|s| - 1]))
  }

  /** `t` occurs in `s` as a contiguous piece, as a `Substring` result does. */
  ghost predicate IsSlice(t: string, s: string) {
    exists i, j :: 0 <= i <= j <= |s| && t == s[i..j]
  }

  lemma SliceOfSlice(u: string, t: string, s: string)
    requires IsSlice(u, t) && IsSlice(t, s)
    ensures IsSlice(u, s)
  {
    var i, j :| 0 <= i <= j <= |t| && u == t[i..j];
    var k, l :| 0 <= k <= l <= |s| && t == s[k..l];
    forall m | 0 <= m < j - i
      ensures u[m] == s[k + i..k + j][m]
    {
      assert u[m] == t[i + m] == s[k + i + m];
    }
    assert u == s[k + i..k + j];
  }

  /** `TrimStart()`: drops the leading white space and nothing else. */
  function TrimStart(s: string): (r: string)
    ensures |r| <= |s| && r == s[|s| - |r|..]
    ensures AllWhiteSpace(s[..|s| - |r|])
    ensures |r| == 0 || !IsWhiteSpace(r[0])
  {
    if |s| > 0 && IsWhiteSpace(s[0]) then TrimStart(s[1..]) else s
  }

  /** `TrimEnd()`: drops the trailing white space and nothing else. */
  function TrimEnd(s: string): (r: string)
    ensures |r| <= |s| && r == s[..|r|]
    ensures AllWhiteSpace(s[|r|..])
    ensures |r| == 0 || !IsWhiteSpace(r[|r| - 1])
  {
    if |s| > 0 && IsWhiteSpace(s[|s| - 1]) then TrimEnd(s[..|s| - 1]) else s
  }

  /** `Trim()`: the longest piece of `s` without white space at either end. */
  function Trim(s: string): (r: string)
    ensures Trimmed(r)
  {
    TrimEnd(TrimStart(s))
  }

  /** What `Trim` removes is white space on both sides of a contiguous piece of `s`. */
  lemma {:induction false} TrimSlice(s: string)
    ensures exists i, j :: 0 <= i <= j <= |s| && Trim(s) == s[i..j] && AllWhiteSpace(s[..i]) && AllWhiteSpace(s[j..])
  {
    var t := TrimStart(s);
    var r := TrimEnd(t);
    var i := |s| - |t|;
    var j := i + |r|;
    assert t == s[i..];
    assert r == s[i..j];
    assert s[j..] == t[|r|..];
  }

  lemma TrimIsSlice(s: string)
    ensures IsSlice(Trim(s), s)
  {
    TrimSlice(s);
  }

  /** Trimming what follows position `i` keeps a piece of the whole. */
  lemma TrimOfSuffixIsSlice(s: string, i: nat)
    requires i <= |s|
    ensures IsSlice(Trim(s[i..]), s)
  {
    var t := s[i..];
    assert IsSlice(t, s) by { assert t == s[i..|s|]; }
    TrimIsSlice(t);
    SliceOfSlice(Trim(t), t, s);
  }

  /** Every character of a white-space prefix is white space. */
  lemma WhitePrefixAt(s: string, a: nat, b: nat)
    requires a <= |s| && b < |s| && AllWhiteSpace(s[..a])
    ensures b < a ==> IsWhiteSpace(s[b])
  {
    if b < a { assert s[..a][b] == s[b]; }
  }

  /** Every character of a white-space suffix is white space. */
  lemma WhiteSuffixAt(s: string, a: nat, b: nat)
    requires a <= |s| && b < |s| && AllWhiteSpace(s[a..])
    ensures a <= b ==> IsWhiteSpace(s[b])
  {
    if a <= b { assert s[a..][b - a] == s[b]; }
  }

  /**
   * Two trimmed pieces of `s`, each with only white space around it, are the
   * same piece.
   */
  lemma SameTrimmedPiece(s: string, i: nat, j: nat, i': nat, j': nat)
    requires i <= j <= |s| && i' <= j' <= |s|
    requires AllWhiteSpace(s[..i]) && AllWhiteSpace(s[j..]) && Trimmed(s[i..j])
    requires AllWhiteSpace(s[..i']) && AllWhiteSpace(s[j'..]) && Trimmed(s[i'..j'])
    ensures s[i..j] == s[i'..j']
  {
    if i < j && i' < j' {
      assert s[i..j][0] == s[i] && s[i..j][j - i - 1] == s[j - 1];
      assert s[i'..j'][0] == s[i'] && s[i'..j'][j' - i' - 1] == s[j' - 1];
      WhitePrefixAt(s, i', i);
      WhitePrefixAt(s, i, i');
      WhiteSuffixAt(s, j', j - 1);
      WhiteSuffixAt(s, j, j' - 1);
    } else if i' < j' {
      assert s[i'..j'][0] == s[i'];
      WhitePrefixAt(s, i, i');
      WhiteSuffixAt(s, j, i');
    } else if i < j {
      assert s[i..j][0] == s[i];
      WhitePrefixAt(s, i', i);
      WhiteSuffixAt(s, j', i);
    }
  }

  lemma WhiteSpaceAppend(a: string, b: string)
    requires AllWhiteSpace(a) && AllWhiteSpace(b)
    ensures AllWhiteSpace(a + b)
  {
    forall k | 0 <= k < |a + b|
      ensures IsWhiteSpace((a + b)[k])
    {
      if k < |a| { assert (a + b)[k] == a[k]; } else { assert (a + b)[k] == b[k - |a|]; }
    }
  }

  /** Where `Trim` cuts `s`. */
  lemma TrimBounds(s: string) returns (i: nat, j: nat)
    ensures i <= j <= |s| && Trim(s) == s[i..j] && AllWhiteSpace(s[..i]) && AllWhiteSpace(s[j..])
  {
    TrimSlice(s);
    i, j :| 0 <= i <= j <= |s| && Trim(s) == s[i..j] && AllWhiteSpace(s[..i]) && AllWhiteSpace(s[j..]);
  }

  /**
   * `Trim` is the only trimmed piece of `s` with nothing but white space
   * around it.
   */
  lemma TrimUnique(s: string, i: nat, j: nat)
    requires i <= j <= |s|
    requires AllWhiteSpace(s[..i]) && AllWhiteSpace(s[j..]) && Trimmed(s[i..j])
    ensures Trim(s) == s[i..j]
  {
    var i', j' := TrimBounds(s);
    SameTrimmedPiece(s, i, j, i', j');
  }

  /** Dropping trailing white space first does not change what `Trim` keeps. */
  lemma TrimOfTrimEnd(s: string)
    ensures Trim(TrimEnd(s)) == Trim(s)
  {
    TrimOfWhiteTail(s, |TrimEnd(s)|);
  }

  /** Cutting off trailing white space does not change what `Trim` keeps. */
  lemma TrimOfWhiteTail(s: string, n: nat)
    requires n <= |s| && AllWhiteSpace(s[n..])
    ensures Trim(s[..n]) == Trim(s)
  {
    var i, j := TrimBounds(s[..n]);
    PieceBeforeWhiteTail(s, n, i, j);
    TrimUnique(s, i, j);
  }

  lemma PieceBeforeWhiteTail(s: string, n: nat, i: nat, j: nat)
    requires i <= j <= n <= |s| && AllWhiteSpace(s[n..])
    requires AllWhiteSpace(s[..n][..i]) && AllWhiteSpace(s[..n][j..]) && Trimmed(s[..n][i..j])
    ensures AllWhiteSpace(s[..i]) && AllWhiteSpace(s[j..]) && Trimmed(s[i..j]) && s[..n][i..j] == s[i..j]
  {
    var t := s[..n];
    assert s[..i] == t[..i];
    assert s[i..j] == t[i..j];
    assert s[j..] == t[j..] + s[n..];
    WhiteSpaceAppend(t[j..], s[n..]);
  }

  /**
   * Trimming text that starts and ends with something other than white space,
   * followed by more text, keeps the head whole and trims only the tail's end.
   */
  lemma {:induction false} TrimOfPrefixed(head: string, tail: string)
    requires |head| > 0 && !IsWhiteSpace(head[0]) && !IsWhiteSpace(head[|head| - 1])
    ensures Trim(head + tail) == head + TrimEnd(tail)
  {
    var s := head + tail;
    var t := TrimEnd(tail);
    assert s[..|head| + |t|] == head + t;
    assert s[|head| + |t|..] == tail[|t|..];
    assert Trimmed(head + t) by {
      assert (head + t)[0] == head[0];
      if |t| > 0 { assert (head + t)[|head| + |t| - 1] == t[|t| - 1]; }
    }
    assert s[..0] == [];
    TrimUnique(s, 0, |head| + |t|);
  }

  /** Trimming a trimmed string changes nothing. */
  lemma {:induction false} TrimIdempotent(s: string)
    ensures Trim(Trim(s)) == Trim(s)
  {
    var r := Trim(s);
    assert Trimmed(r);
    TrimOfTrimmed(r);
  }

  lemma TrimOfTrimmed(s: string)
    requires Trimmed(s)
    ensures Trim(s) == s
  {
  }

  /** `s.StartsWith(p)` with ordinal comparison. */
  predicate StartsWith(s: string, p: string) {
    |p| <= |s| && s[..|p|] == p
  }

  /** Ordinal `s.IndexOf(c, from)`: the first position at or after `from` holding `c`, or -1. */
  function IndexOf(s: string, c: char, from: nat): (r: int)
    requires from <= |s|
    ensures r == -1 || from <= r < |s|
    ensures r == -1 <==> (forall k :: from <= k < |s| ==> s[k] != c)
    ensures r != -1 ==> s[r] == c && forall k :: from <= k < r ==> s[k] != c
    decreases |s| - from
  {
    if from == |s| then -1 else if s[from] == c then from else IndexOf(s, c, from + 1)
  }

  /** `s.Replace("\r\n", " ")`, scanning left to right. */
  function ReplaceCrLf(s: string): (r: string)
    ensures |r| <= |s|
  {
    if |s| >= 2 && s[0] == '\r' && s[1] == '\n' then " " + ReplaceCrLf(s[2..])
    else if |s| == 0 then ""
    else [s[0]] + ReplaceCrLf(s[1..])
  }

  predicate HasCrLf(s: string) {
    exists k :: 0 <= k < |s| - 1 && s[k] == '\r' && s[k + 1] == '\n'
  }

  /** After the replacement no carriage return is followed by a line feed. */
  lemma {:induction false} ReplaceCrLfRemovesAll(s: string)
    ensures !HasCrLf(ReplaceCrLf(s))
  {
    if |s| >= 2 && s[0] == '\r' && s[1] == '\n' {
      ReplaceCrLfRemovesAll(s[2..]);
      var r := ReplaceCrLf(s);
      assert r == " " + ReplaceCrLf(s[2..]);
      forall k | 0 <= k < |r| - 1
        ensures !(r[k] == '\r' && r[k + 1] == '\n')
      {
        if k > 0 {
          assert r[k] == ReplaceCrLf(s[2..])[k - 1];
          assert r[k + 1] == ReplaceCrLf(s[2..])[k];
        }
      }
    } else if |s| > 0 {
      var t := s[1..];
      ReplaceCrLfRemovesAll(t);
      var r := ReplaceCrLf(s);
      assert r == [s[0]] + ReplaceCrLf(t);
      forall k | 0 <= k < |r| - 1
        ensures !(r[k] == '\r' && r[k + 1] == '\n')
      {
        if k > 0 {
          assert r[k] == ReplaceCrLf(t)[k - 1];
          assert r[k + 1] == ReplaceCrLf(t)[k];
        } else if s[0] == '\r' {
          // s does not start with "\r\n", so t does not start with '\n'
          assert |t| == 0 || t[0] != '\n';
          ReplaceCrLfHead(t);
        }
      }
    }
  }

  /** The replacement never produces a line feed at the front unless the input starts with one. */
  lemma {:induction false} ReplaceCrLfHead(t: string)
    requires |t| == 0 || t[0] != '\n'
    ensures |ReplaceCrLf(t)| == 0 || ReplaceCrLf(t)[0] != '\n'
  {
  }

  /** A string without "\r\n" is left as it is. */
  lemma {:induction false} ReplaceCrLfIdentity(s: string)
    requires !HasCrLf(s)
    ensures ReplaceCrLf(s) == s
  {
    if |s| > 0 {
      forall k | 0 <= k < |s[1..]| - 1
        ensures !(s[1..][k] == '\r' && s[1..][k + 1] == '\n')
      {
        assert s[1..][k] == s[k + 1] && s[1..][k + 1] == s[k + 2];
      }
      ReplaceCrLfIdentity(s[1..]);
      if |s| >= 2 {
        assert !(s[0] == '\r' && s[1] == '\n');
      }
    }
  }

  // ---------------- decimal rendering of integers ----------------

  const Digits10: string := "0123456789"

  /** The decimal digits of `n`, most significant first, without leading zeros. */
  function NatDigits(n: nat): (r: string)
    ensures |r| >= 1
    ensures forall k :: 0 <= k < |r| ==> '0' <= r[k] <= '9'
    ensures |r| > 1 ==> r[0] != '0'
  {
    if n < 10 then [Digits10[n]] else NatDigits(n / 10) + [Digits10[n % 10]]
  }

  /** `int.ToString(CultureInfo.InvariantCulture)`: a leading '-' for negative values. */
  function DecimalString(n: int): (r: string)
    ensures |r| >= 1
  {
    if n < 0 then "-" + NatDigits(-n) else NatDigits(n)
  }

  function DigitValue(c: char): nat
  {
    if '0' <= c <= '9' then (c as int - '0' as int) as nat else 0
  }

  function ParseNat(s: string): nat
  {
    if |s| == 0 then 0 else 10 * ParseNat(s[..|s| - 1]) + DigitValue(s[|s| - 1])
  }

  /** Reads back what `DecimalString` renders. */
  function ParseDecimal(s: string): int
  {
    if |s| > 0 && s[0] == '-' then 0 - ParseNat(s[1..]) else ParseNat(s) as int
  }

  lemma {:induction false} NatDigitsRoundTrip(n: nat)
    ensures ParseNat(NatDigits(n)) == n
  {
    if n >= 10 {
      NatDigitsRoundTrip(n / 10);
      var r := NatDigits(n);
      assert r[..|r| - 1] == NatDigits(n / 10);
    }
  }

  lemma DecimalRoundTrip(n: int)
    ensures ParseDecimal(DecimalString(n)) == n
  {
    if n < 0 {
      NatDigitsRoundTrip(-n);
      var r := "-" + NatDigits(-n);
      assert r[0] == '-' && r[1..] == NatDigits(-n);
    } else {
      NatDigitsRoundTrip(n);
      var r := NatDigits(n);
      assert r[0] != '-';
    }
  }

  /** Different integers never render the same. */
  lemma DecimalInjective(m: int, n: int)
    requires DecimalString(m) == DecimalString(n)
    ensures m == n
  {
    DecimalRoundTrip(m);
    DecimalRoundTrip(n);
  }

  // ---------------- fixed-width upper-case hexadecimal ----------------

  const HexDigits: string := "0123456789ABCDEF"

  predicate IsUpperHexDigit(c: char) {
    ('0' <= c <= '9') || ('A' <= c <= 'F')
  }

  function Pow16(n: nat): (r: nat)
    ensures r >= 1
  {
    if n == 0 then 1 else 16 * Pow16(n - 1)
  }

  /** The `n` lowest hex digits of `u`, most significant first (format specifier `X<n>`). */
  function HexString(u: nat, n: nat): (r: string)
    ensures |r| == n
    ensures forall k :: 0 <= k < |r| ==> IsUpperHexDigit(r[k])
  {
    if n == 0 then "" else HexString(u / 16, n - 1) + [HexDigits[u % 16]]
  }

  function HexDigitValue(c: char): nat
  {
    if '0' <= c <= '9' then (c as int - '0' as int) as nat
    else if 'A' <= c <= 'F' then (c as int - 'A' as int + 10) as nat
    else 0
  }

  function ParseHex(s: string): nat
  {
    if |s| == 0 then 0 else 16 * ParseHex(s[..|s| - 1]) + HexDigitValue(s[|s| - 1])
  }

  /** `n` hex digits hold every value below 16^n exactly. */
  lemma {:induction false} HexRoundTrip(u: nat, n: nat)
    requires u < Pow16(n)
    ensures ParseHex(HexString(u, n)) == u
  {
    if n > 0 {
      assert u / 16 < Pow16(n - 1);
      HexRoundTrip(u / 16, n - 1);
      var r := HexString(u, n);
      assert r[..|r| - 1] == HexString(u / 16, n - 1);
      assert HexDigitValue(HexDigits[u % 16]) == u % 16;
    }
  }

  // ---------------- 32-bit integers ----------------

  const TwoTo32: int := 0x1_0000_0000

  type Int32 = x: int | -0x8000_0000 <= x < 0x8000_0000

  /** The unchecked cast `(uint)x` of a 32-bit signed integer. */
  function ToUInt32(x: Int32): (r: nat)
    ensures r < TwoTo32
    ensures r % TwoTo32 == x % TwoTo32
  {
    if x < 0 then x + TwoTo32 else x
  }

  /** The reverse cast `(int)u`. */
  function ToInt32(u: nat): Int32
    requires u < TwoTo32
  {
    if u >= 0x8000_0000 then u - TwoTo32 else u
  }

  lemma UInt32RoundTrip(x: Int32)
    ensures ToInt32(ToUInt32(x)) == x
  {
  }
}
