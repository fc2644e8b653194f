/**
 * The pieces of Go's `strings` and `fmt` packages the migration tool relies on:
 * decimal formatting (`%d`), decimal scanning (`fmt.Sscanf` with `%d`),
 * prefix/suffix trimming, substring search, splitting and joining on a
 * separator, ASCII lower-casing and `strings.TrimSpace`.
 * Strings are sequences of runes.
 */
module Text {
  import opened Wrappers

  // ---------------------------------------------------------------------------
  // Decimal digits
  // ---------------------------------------------------------------------------

  predicate IsDigit(c: char) { '0' <= c <= '9' }

  predicate AllDigits(s: string) { forall i :: 0 <= i < |s| ==> IsDigit(s[i]) }

  function DigitChar(d: nat): (c: char)
    requires d < 10
    ensures IsDigit(c)
  {
    ('0' as int + d) as char
  }

  function DigitValue(c: char): (d: nat)
    requires IsDigit(c)
    ensures d < 10 && DigitChar(d) == c
  {
    c as int - '0' as int
  }

  /** The text `%d` prints for a natural number: no sign, no leading zeros. */
  function Dec(n: nat): (s: string)
    ensures |s| > 0 && AllDigits(s)
    ensures |s| > 1 ==> s[0] != '0'
  {
    if n < 10 then [DigitChar(n)] else Dec(n / 10) + [DigitChar(n % 10)]
  }

  /** The text `%d` prints for any integer. */
  function IntText(v: int): (s: string)
    ensures |s| > 0
    ensures v >= 0 <==> IsDigit(s[0])
  {
    if v < 0 then "-" + Dec(-v) else Dec(v)
  }

  /** The number a string of decimal digits denotes, read left to right. */
  function DigitsValue(ds: string): nat
  {
    if |ds| == 0 then 0
    else DigitsValue(ds[..|ds| - 1]) * 10 + (if IsDigit(ds[|ds| - 1]) then DigitValue(ds[|ds| - 1]) else 0)
  }

  /** Reading back what `Dec` wrote gives the number. */
  lemma {:induction false} DecValue(n: nat)
    ensures DigitsValue(Dec(n)) == n
  {
    if n >= 10 {
      var d := Dec(n);
      assert d[..|d| - 1] == Dec(n / 10);
      DecValue(n / 10);
    }
  }

  /** The number of decimal digits at the start of `s`. */
  function LeadingDigits(s: string): (n: nat)
    ensures n <= |s|
    ensures n > 0 ==> IsDigit(s[n - 1])
    ensures n < |s| ==> !IsDigit(s[n])
  {
    if |s| == 0 || !IsDigit(s[0]) then 0
    else 1 + LeadingDigits(s[1..])
  }

  lemma {:induction false} LeadingDigitsAppend(ds: string, rest: string)
    requires AllDigits(ds)
    requires rest == [] || !IsDigit(rest[0])
    ensures LeadingDigits(ds + rest) == |ds|
  {
    if |ds| > 0 {
      assert (ds + rest)[1..] == ds[1..] + rest;
      LeadingDigitsAppend(ds[1..], rest);
    }
  }

  /** The run of decimal digits at the start of `s`: its value and length, None when there is none. */
  function ScanDigits(s: string): (r: Option<(nat, nat)>)
    ensures r.Some? ==> 0 < r.value.1 <= |s| && IsDigit(s[r.value.1 - 1])
    ensures r.Some? && r.value.1 < |s| ==> !IsDigit(s[r.value.1])
  {
    var n := LeadingDigits(s);
    if n == 0 then None else Some((DigitsValue(s[..n]), n))
  }

  /** An optional sign followed by digits. */
  function ScanSigned(s: string): (r: Option<(int, nat)>)
    ensures r.Some? ==> 0 < r.value.1 <= |s| && IsDigit(s[r.value.1 - 1])
    ensures r.Some? && r.value.1 < |s| ==> !IsDigit(s[r.value.1])
  {
    var signed := |s| > 0 && (s[0] == '+' || s[0] == '-');
    var digits := if signed then s[1..] else s;
    var r := ScanDigits(digits);
    if r.None? then None
    else
      var m: int := r.value.0;
      var k := if signed then 1 else 0;
      assert s[k..][r.value.1 - 1] == s[k + r.value.1 - 1];
      Some((if signed && s[0] == '-' then -m else m, k + r.value.1))
  }

  /**
   * The white space `fmt.Sscanf` skips before a conversion: every
   * `unicode.IsSpace` rune but the newline, at which the scan fails.
   */
  predicate ScanBlank(c: char)
  {
    IsSpace(c) && c != '\n'
  }

  /**
   * One `%d` conversion of `fmt.Sscanf`: blanks, an optional sign, then at
   * least one decimal digit. The result is the value and the number of runes
   * consumed; None is the scanner's "expected integer" error (a newline among
   * the blanks ends in that error too, since it is neither a sign nor a digit).
   */
  function ScanInt(s: string): (r: Option<(int, nat)>)
    ensures r.Some? ==> 0 < r.value.1 <= |s|
    ensures r.Some? ==> IsDigit(s[r.value.1 - 1])
    ensures r.Some? && r.value.1 < |s| ==> !IsDigit(s[r.value.1])
    decreases |s|
  {
    if |s| > 0 && ScanBlank(s[0]) then
      match ScanInt(s[1..])
      case None => None
      case Some((v, n)) => assert s[1..][n - 1] == s[n]; Some((v, n + 1))
    else ScanSigned(s)
  }

  /** Scanning a run of digits followed by a non-digit. */
  lemma ScanDigitsOf(d: string, rest: string)
    requires |d| > 0 && AllDigits(d)
    requires rest == [] || !IsDigit(rest[0])
    ensures ScanDigits(d + rest) == Some((DigitsValue(d), |d|))
  {
    LeadingDigitsAppend(d, rest);
    assert (d + rest)[..|d|] == d;
  }

  lemma ScanSignedOf(d: string, rest: string)
    requires |d| > 0 && AllDigits(d)
    requires rest == [] || !IsDigit(rest[0])
    ensures ScanSigned(d + rest) == Some((DigitsValue(d), |d|))
  {
    ScanDigitsOf(d, rest);
    var s := d + rest;
    assert s[0] == d[0];
    assert IsDigit(s[0]);
  }

  lemma ScanNegativeOf(s: string, d: string, rest: string)
    requires |d| > 0 && AllDigits(d)
    requires rest == [] || !IsDigit(rest[0])
    requires |s| > 0 && s[0] == '-' && s[1..] == d + rest
    ensures ScanSigned(s) == Some((-(DigitsValue(d) as int), |d| + 1))
  {
    ScanDigitsOf(d, rest);
    var signed := |s| > 0 && (s[0] == '+' || s[0] == '-');
    assert signed;
    var digits := if signed then s[1..] else s;
    assert digits == d + rest;
    assert ScanDigits(digits) == Some((DigitsValue(d), |d|));
  }

  /** With no leading blank, `%d` scanning is the signed scan itself. */
  lemma ScanIntUnblanked(s: string)
    requires |s| > 0 && !ScanBlank(s[0])
    ensures ScanInt(s) == ScanSigned(s)
  {
  }

  /** Blanks before the number are consumed and counted, and change nothing else. */
  lemma {:induction false} ScanIntSkipsBlanks(b: string, s: string)
    requires forall i :: 0 <= i < |b| ==> ScanBlank(b[i])
    ensures ScanInt(s).None? ==> ScanInt(b + s).None?
    ensures ScanInt(s).Some? ==> ScanInt(b + s) == Some((ScanInt(s).value.0, ScanInt(s).value.1 + |b|))
    decreases |b|
  {
    if |b| > 0 {
      assert (b + s)[0] == b[0];
      assert (b + s)[1..] == b[1..] + s;
      ScanIntSkipsBlanks(b[1..], s);
    } else {
      assert b + s == s;
    }
  }

  lemma DropSign(d: string, rest: string)
    ensures ("-" + d + rest)[0] == '-' && ("-" + d + rest)[1..] == d + rest
  {
    assert "-" + d + rest == "-" + (d + rest);
  }

  /** Scanning what `%d` printed gives back the integer and stops right after it. */
  lemma ScanIntText(v: int, rest: string)
    requires rest == [] || !IsDigit(rest[0])
    ensures ScanInt(IntText(v) + rest) == Some((v, |IntText(v)|))
  {
    var t := IntText(v);
    var s := t + rest;
    var m: nat := if v < 0 then -v else v;
    var d := Dec(m);
    DecValue(m);
    if v < 0 {
      assert t == "-" + d;
      DropSign(d, rest);
      ScanNegativeOf(s, d, rest);
      assert ScanSigned(s) == Some((v, |t|));
    } else {
      assert t == d && s == d + rest;
      ScanSignedOf(d, rest);
      assert ScanSigned(s) == Some((v, |t|));
    }
    ScanIntUnblanked(s);
  }

  // ---------------------------------------------------------------------------
  // Prefixes, suffixes and substrings
  // ---------------------------------------------------------------------------

  predicate HasPrefix(s: string, p: string) { |p| <= |s| && s[..|p|] == p }

  predicate HasSuffix(s: string, p: string) { |p| <= |s| && s[|s| - |p|..] == p }

  /** `strings.TrimPrefix`: drops `p` once, when `s` starts with it. */
  function TrimPrefix(s: string, p: string): (r: string)
    ensures HasPrefix(s, p) ==> p + r == s
    ensures !HasPrefix(s, p) ==> r == s
  {
    if HasPrefix(s, p) then s[|p|..] else s
  }

  /** `strings.TrimSuffix`: drops `p` once, when `s` ends with it. */
  function TrimSuffix(s: string, p: string): (r: string)
    ensures HasSuffix(s, p) ==> r + p == s
    ensures !HasSuffix(s, p) ==> r == s
  {
    if HasSuffix(s, p) then s[..|s| - |p|] else s
  }

  /** `strings.Contains`. */
  predicate Contains(s: string, sub: string)
    decreases |s|
  {
    HasPrefix(s, sub) || (|s| > 0 && Contains(s[1..], sub))
  }

  /** `strings.ReplaceAll` with a one-rune pattern and a one-rune replacement. */
  function ReplaceChar(s: string, from: char, to: char): (r: string)
    ensures |r| == |s|
    ensures forall i :: 0 <= i < |s| ==> r[i] == (if s[i] == from then to else s[i])
  {
    seq(|s|, i requires 0 <= i < |s| => if s[i] == from then to else s[i])
  }

  // ---------------------------------------------------------------------------
  // Split and Join on a one-rune separator
  // ---------------------------------------------------------------------------

  /** Index of the first occurrence of `c` in `s`. */
  function IndexOf(s: string, c: char): (i: nat)
    requires c in s
    ensures i < |s| && s[i] == c && c !in s[..i]
  {
    if s[0] == c then 0
    else
      var k := IndexOf(s[1..], c);
      assert s[..k + 1] == [s[0]] + s[1..][..k];
      k + 1
  }

  /** How many times `c` occurs in `s`. */
  function Count(s: string, c: char): nat
  {
    if |s| == 0 then 0 else (if s[0] == c then 1 else 0) + Count(s[1..], c)
  }

  /**
   * `strings.Split(s, sep)` for a one-rune separator: the maximal runs between
   * separators, in order; the empty string splits into one empty part.
   */
  function Split(s: string, c: char): (parts: seq<string>)
    ensures |parts| > 0
    ensures forall k :: 0 <= k < |parts| ==> c !in parts[k]
    decreases |s|
  {
    if c !in s then [s]
    else
      var i := IndexOf(s, c);
      var rest := Split(s[i + 1..], c);
      assert forall k :: 1 <= k <= |rest| ==> ([s[..i]] + rest)[k] == rest[k - 1];
      [s[..i]] + rest
  }

  /** `strings.Join(parts, sep)` for a one-rune separator. */
  function Join(parts: seq<string>, c: char): string
  {
    if |parts| == 0 then ""
    else if |parts| == 1 then parts[0]
    else parts[0] + [c] + Join(parts[1..], c)
  }

  lemma {:induction false} CountAppend(a: string, b: string, c: char)
    ensures Count(a + b, c) == Count(a, c) + Count(b, c)
  {
    if |a| > 0 {
      assert (a + b)[1..] == a[1..] + b;
      CountAppend(a[1..], b, c);
    } else {
      assert a + b == b;
    }
  }

  lemma {:induction false} CountAbsent(s: string, c: char)
    requires c !in s
    ensures Count(s, c) == 0
  {
    if |s| > 0 { CountAbsent(s[1..], c); }
  }

  /** Splitting yields one more part than there are separators. */
  lemma {:induction false} SplitCount(s: string, c: char)
    ensures |Split(s, c)| == Count(s, c) + 1
    decreases |s|
  {
    if c !in s {
      CountAbsent(s, c);
    } else {
      var i := IndexOf(s, c);
      assert s == s[..i] + ([c] + s[i + 1..]);
      CountAppend(s[..i], [c] + s[i + 1..], c);
      CountAbsent(s[..i], c);
      assert ([c] + s[i + 1..])[1..] == s[i + 1..];
      SplitCount(s[i + 1..], c);
    }
  }

  /** Joining the parts of a split restores the string. */
  lemma {:induction false} JoinSplit(s: string, c: char)
    ensures Join(Split(s, c), c) == s
    decreases |s|
  {
    if c in s {
      var i := IndexOf(s, c);
      JoinSplit(s[i + 1..], c);
      assert s == s[..i] + [c] + s[i + 1..];
    }
  }

  /** Splitting a join of separator-free parts gives the parts back. */
  lemma {:induction false} SplitJoin(parts: seq<string>, c: char)
    requires |parts| > 0
    requires forall k :: 0 <= k < |parts| ==> c !in parts[k]
    ensures Split(Join(parts, c), c) == parts
  {
    if |parts| > 1 {
      var s := Join(parts, c);
      var rest := Join(parts[1..], c);
      assert s == parts[0] + ([c] + rest);
      assert c in s by { assert s[|parts[0]|] == c; }
      assert IndexOf(s, c) == |parts[0]|;
      assert s[..|parts[0]|] == parts[0];
      assert s[|parts[0]| + 1..] == rest;
      SplitJoin(parts[1..], c);
    }
  }

  // ---------------------------------------------------------------------------
  // Case and white space
  // ---------------------------------------------------------------------------

  function LowerChar(c: char): (r: char)
    ensures 'A' <= c <= 'Z' ==> r as int == c as int + 32
    ensures !('A' <= c <= 'Z') ==> r == c
  {
    if 'A' <= c <= 'Z' then (c as int + 32) as char else c
  }

  /** `strings.ToLower`, restricted to the ASCII letters. */
  function ToLower(s: string): (r: string)
    ensures |r| == |s|
    ensures forall i :: 0 <= i < |s| ==> r[i] == LowerChar(s[i])
  {
    seq(|s|, i requires 0 <= i < |s| => LowerChar(s[i]))
  }

  /** `unicode.IsSpace`, the white space `strings.TrimSpace` removes. */
  predicate IsSpace(c: char)
  {
    c == ' ' || c == '\t' || c == '\n' || c == '\U{0B}' || c == '\U{0C}' || c == '\r'
    || c == '\U{85}' || c == '\U{A0}' || c == '\U{1680}'
    || ('\U{2000}' <= c <= '\U{200A}')
    || c == '\U{2028}' || c == '\U{2029}' || c == '\U{202F}' || c == '\U{205F}' || c == '\U{3000}'
  }

  function TrimLeftSpace(s: string): (r: string)
    ensures |r| <= |s| && r == s[|s| - |r|..]
    ensures r == [] || !IsSpace(r[0])
  {
    if |s| > 0 && IsSpace(s[0]) then
      var r := TrimLeftSpace(s[1..]);
      assert s[1..][|s| - 1 - |r|..] == s[|s| - |r|..];
      r
    else s
  }

  function TrimRightSpace(s: string): (r: string)
    ensures |r| <= |s| && r == s[..|r|]
    ensures r == [] || !IsSpace(r[|r| - 1])
  {
    if |s| > 0 && IsSpace(s[|s| - 1]) then TrimRightSpace(s[..|s| - 1]) else s
  }

  /** `strings.TrimSpace`: drops leading and trailing white space. */
  function TrimSpace(s: string): (r: string)
  {
    TrimRightSpace(TrimLeftSpace(s))
  }
}
