/**
 * The parts of Go's `strings` package, `unicode.IsSpace`, the RE2 `\s` class and
 * `fmt`'s `%d` verb that the modelled code relies on. Go strings are modelled as
 * sequences of Unicode scalar values.
 */
module Text {
  import opened Wrappers

  /** `p` occurs in `s` starting at index `i`. */
  predicate HasPrefixAt(s: string, i: nat, p: string) {
    i + |p| <= |s| && s[i..i + |p|] == p
  }

  /** strings.HasPrefix */
  predicate HasPrefix(s: string, p: string) {
    HasPrefixAt(s, 0, p)
  }

  /** strings.HasSuffix */
  predicate HasSuffix(s: string, p: string) {
    |p| <= |s| && s[|s| - |p|..] == p
  }

  /** The first occurrence of `p` in `s` at or after index `i` (strings.Index on s[i:]). */
  function IndexFrom(s: string, p: string, i: nat): (r: Option<nat>)
    ensures r.Some? ==> i <= r.value && HasPrefixAt(s, r.value, p)
    ensures r.Some? ==> forall k :: i <= k < r.value ==> !HasPrefixAt(s, k, p)
    ensures r.None? ==> forall k :: i <= k ==> !HasPrefixAt(s, k, p)
    decreases |s| - i
  {
    if i + |p| > |s| then None
    else if s[i..i + |p|] == p then Some(i)
    else IndexFrom(s, p, i + 1)
  }

  /** strings.Contains */
  predicate Contains(s: string, p: string) {
    IndexFrom(s, p, 0).Some?
  }

  /** Every character of an occurring pattern occurs in the string. */
  lemma ContainsChar(s: string, p: string, k: nat)
    requires Contains(s, p) && k < |p|
    ensures p[k] in s
  {
    var i := IndexFrom(s, p, 0).value;
    assert s[i..i + |p|][k] == p[k];
  }

  /** Contains holds exactly when some occurrence exists. */
  lemma ContainsAt(s: string, p: string, i: nat)
    requires HasPrefixAt(s, i, p)
    ensures Contains(s, p)
  {
  }

  /** unicode.IsSpace: the Latin-1 spaces and the Unicode White_Space property. */
  predicate IsSpace(c: char) {
    || c == '\t' || c == '\n' || c == '\U{B}' || c == '\U{C}' || c == '\r' || c == ' '
    || c == '\U{85}' || c == '\U{A0}' || c == '\U{1680}'
    || ('\U{2000}' <= c <= '\U{200A}')
    || c == '\U{2028}' || c == '\U{2029}' || c == '\U{202F}' || c == '\U{205F}' || c == '\U{3000}'
  }

  /** The RE2 class `\s`, which is `[\t\n\f\r ]` (ASCII only, and without `\v`). */
  predicate IsReSpace(c: char) {
    c == '\t' || c == '\n' || c == '\U{C}' || c == '\r' || c == ' '
  }

  /** No character of s[a..b] is a line feed (the RE2 `.` refuses only `\n`). */
  predicate NoNewline(s: string, a: nat, b: nat)
    requires a <= b <= |s|
  {
    forall k :: a <= k < b ==> s[k] != '\n'
  }

  /** The end of the maximal run of `\s` characters that starts at `i`. */
  function SkipReSpace(s: string, i: nat): (j: nat)
    requires i <= |s|
    ensures i <= j <= |s|
    ensures forall k :: i <= k < j ==> IsReSpace(s[k])
    ensures j < |s| ==> !IsReSpace(s[j])
    decreases |s| - i
  {
    if i < |s| && IsReSpace(s[i]) then SkipReSpace(s, i + 1) else i
  }

  /** The index of the first line feed at or after `i`, or |s|: where a greedy `.+` stops. */
  function LineEnd(s: string, i: nat): (j: nat)
    requires i <= |s|
    ensures i <= j <= |s| && NoNewline(s, i, j)
    ensures j < |s| ==> s[j] == '\n'
    decreases |s| - i
  {
    if i < |s| && s[i] != '\n' then LineEnd(s, i + 1) else i
  }

  /** The number of leading space characters. */
  function LeadingSpaces(s: string): (n: nat)
    ensures n <= |s|
    ensures forall k :: 0 <= k < n ==> IsSpace(s[k])
    ensures n < |s| ==> !IsSpace(s[n])
  {
    if |s| > 0 && IsSpace(s[0]) then 1 + LeadingSpaces(s[1..]) else 0
  }

  /** The length of `s` once its trailing space characters are cut off. */
  function TrimmedLength(s: string): (n: nat)
    ensures n <= |s|
    ensures forall k :: n <= k < |s| ==> IsSpace(s[k])
    ensures n > 0 ==> !IsSpace(s[n - 1])
  {
    if |s| > 0 && IsSpace(s[|s| - 1]) then TrimmedLength(s[..|s| - 1]) else |s|
  }

  /** strings.TrimSpace: `s` without its leading and trailing space characters. */
  function TrimSpace(s: string): (r: string)
    ensures LeadingSpaces(s) + |r| <= |s|
    ensures r == s[LeadingSpaces(s)..LeadingSpaces(s) + |r|]
    ensures forall k :: LeadingSpaces(s) + |r| <= k < |s| ==> IsSpace(s[k])
    ensures r != [] ==> !IsSpace(r[0]) && !IsSpace(r[|r| - 1])
  {
    var lead := LeadingSpaces(s);
    var t := s[lead..];
    var n := TrimmedLength(t);
    TrimmedSlice(s, lead, n);
    t[..n]
  }

  /** Cutting a suffix of length n off s[lead..] leaves s[lead..lead + n], and what was cut is s[lead + n..]. */
  lemma TrimmedSlice(s: string, lead: nat, n: nat)
    requires lead <= |s| && n <= |s| - lead
    ensures s[lead..][..n] == s[lead..lead + n]
    ensures forall k :: n <= k < |s| - lead ==> s[lead..][k] == s[lead + k]
  {
  }

  /** Trimming removes exactly an all-space margin around a core that neither starts nor ends with a space. */
  lemma {:induction false} TrimSpaceOf(lead: string, core: string, trail: string)
    requires forall k :: 0 <= k < |lead| ==> IsSpace(lead[k])
    requires forall k :: 0 <= k < |trail| ==> IsSpace(trail[k])
    requires core != [] ==> !IsSpace(core[0]) && !IsSpace(core[|core| - 1])
    ensures TrimSpace(lead + core + trail) == core
  {
    var s := lead + core + trail;
    if core == [] {
      assert forall k :: 0 <= k < |s| ==> IsSpace(s[k]) by {
        forall k | 0 <= k < |s| ensures IsSpace(s[k]) {
          if k < |lead| { assert s[k] == lead[k]; } else { assert s[k] == trail[k - |lead|]; }
        }
      }
      LeadingSpacesOf(s, []);
      assert s + [] == s;
      return;
    }
    LeadingSpacesOf(lead, core + trail);
    assert s == lead + (core + trail);
    var t := s[|lead|..];
    assert t == core + trail;
    TrimmedLengthOf(core, trail);
  }

  lemma {:induction false} LeadingSpacesOf(lead: string, rest: string)
    requires forall k :: 0 <= k < |lead| ==> IsSpace(lead[k])
    requires rest != [] ==> !IsSpace(rest[0])
    ensures LeadingSpaces(lead + rest) == |lead|
  {
    if lead != [] {
      assert (lead + rest)[1..] == lead[1..] + rest;
      LeadingSpacesOf(lead[1..], rest);
    }
  }

  lemma {:induction false} TrimmedLengthOf(core: string, trail: string)
    requires forall k :: 0 <= k < |trail| ==> IsSpace(trail[k])
    requires core != [] ==> !IsSpace(core[|core| - 1])
    ensures TrimmedLength(core + trail) == |core|
  {
    if trail != [] {
      var last := |trail| - 1;
      assert (core + trail)[..|core + trail| - 1] == core + trail[..last];
      TrimmedLengthOf(core, trail[..last]);
    }
  }

  /** The decimal digit for 0 <= d < 10. */
  function Digit(d: nat): (c: char)
    requires d < 10
    ensures '0' <= c <= '9' && (c as int) - ('0' as int) == d
  {
    ['0', '1', '2', '3', '4', '5', '6', '7', '8', '9'][d]
  }

  /** The value of a string of decimal digits. */
  function DecimalValue(s: string): nat
    requires forall k :: 0 <= k < |s| ==> '0' <= s[k] <= '9'
  {
    if s == [] then 0
    else 10 * DecimalValue(s[..|s| - 1]) + ((s[|s| - 1] as int) - ('0' as int))
  }

  /** fmt's `%d` for a non-negative int: decimal digits without leading zeros. */
  function NatToDecimal(n: nat): (r: string)
    ensures |r| > 0 && forall k :: 0 <= k < |r| ==> '0' <= r[k] <= '9'
    ensures |r| > 1 ==> r[0] != '0'
  {
    if n < 10 then [Digit(n)] else NatToDecimal(n / 10) + [Digit(n % 10)]
  }

  /** Reading the digits back gives the number: `%d` is injective on naturals. */
  lemma {:induction false} NatToDecimalRoundTrip(n: nat)
    ensures DecimalValue(NatToDecimal(n)) == n
  {
    if n >= 10 {
      var r := NatToDecimal(n);
      assert r[..|r| - 1] == NatToDecimal(n / 10);
      NatToDecimalRoundTrip(n / 10);
    }
  }

  /** fmt's `%d` for an int: a minus sign before the digits of a negative value. */
  function IntToDecimal(i: int): (r: string)
    ensures |r| > 0 && (r[0] == '-' <==> i < 0)
    ensures i < 0 ==> r[1..] == NatToDecimal(-i)
    ensures i >= 0 ==> r == NatToDecimal(i)
  {
    if i < 0 then "-" + NatToDecimal(-i) else NatToDecimal(i)
  }
}
