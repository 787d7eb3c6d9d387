/** The string primitives the bot applies to chat text: JavaScript's `trim()`
    and `\s` (one whitespace class), ASCII lower-casing, `String.includes`,
    and the `\d+` digit runs that `match` extracts and `Number` converts. */
module Text {

  import opened Common

  /** JavaScript `\s`, which is also exactly what `String.prototype.trim`
      removes: WhiteSpace and LineTerminator code points. */
  predicate IsSpace(c: char) {
    c == ' ' || c == '\t' || c == '\n' || c == '\r' || c == '\U{B}' || c == '\U{C}'
    || c == '\U{A0}' || c == '\U{1680}' || ('\U{2000}' <= c <= '\U{200A}')
    || c == '\U{2028}' || c == '\U{2029}' || c == '\U{202F}' || c == '\U{205F}'
    || c == '\U{3000}' || c == '\U{FEFF}'
  }

  /** JavaScript `\d` without the `u` flag: ASCII digits only. */
  predicate IsDigit(c: char) { '0' <= c <= '9' }

  predicate AllSpace(s: string) { forall i :: 0 <= i < |s| ==> IsSpace(s[i]) }

  predicate AllDigits(s: string) { forall i :: 0 <= i < |s| ==> IsDigit(s[i]) }

  /** Number of leading whitespace characters. */
  function LeadingSpace(s: string): (k: nat)
    ensures k <= |s|
    ensures AllSpace(s[..k])
    ensures k == |s| || !IsSpace(s[k])
  {
    if s == [] || !IsSpace(s[0]) then 0
    else
      var k := 1 + LeadingSpace(s[1..]);
      assert s[..k] == [s[0]] + s[1..][..k - 1];
      k
  }

  /** Number of trailing whitespace characters. */
  function TrailingSpace(s: string): (k: nat)
    ensures k <= |s|
    ensures AllSpace(s[|s| - k..])
    ensures k == |s| || !IsSpace(s[|s| - k - 1])
  {
    if s == [] || !IsSpace(s[|s| - 1]) then 0
    else
      var k := 1 + TrailingSpace(s[..|s| - 1]);
      assert s[|s| - k..] == s[..|s| - 1][|s| - k..] + [s[|s| - 1]];
      k
  }

  /** `String.prototype.trim`. */
  function Trim(s: string): string {
    var t := s[LeadingSpace(s)..];
    t[..|t| - TrailingSpace(t)]
  }

  /** The trailing whitespace `trim` removes. */
  function TrimTail(s: string): (r: string)
    ensures AllSpace(r)
  {
    var t := s[LeadingSpace(s)..];
    t[|t| - TrailingSpace(t)..]
  }

  /** A text is its leading whitespace, its trimmed text and its trailing
      whitespace, one after the other. */
  lemma TrimParts(s: string)
    ensures s == s[..LeadingSpace(s)] + Trim(s) + TrimTail(s)
  {
    var k := LeadingSpace(s);
    var t := s[k..];
    var m := |t| - TrailingSpace(t);
    assert Trim(s) == t[..m] && TrimTail(s) == t[m..];
    Split3(s, k, k + m);
    assert s[k..k + m] == t[..m] && s[k + m..] == t[m..];
  }

  /** A text is its three pieces cut at two positions. */
  lemma Split3(s: string, i: nat, j: nat)
    requires i <= j <= |s|
    ensures s == s[..i] + s[i..j] + s[j..]
  {
  }

  /** Padding made of whitespace around a text that neither starts nor ends
      with whitespace is exactly what `trim` removes. */
  lemma TrimPadded(pre: string, x: string, post: string)
    requires AllSpace(pre) && AllSpace(post)
    requires x != [] ==> !IsSpace(x[0]) && !IsSpace(x[|x| - 1])
    ensures Trim(pre + x + post) == x
  {
    var s := pre + x + post;
    var k := LeadingSpace(s);
    if x != [] {
      assert s[|pre|] == x[0];
      assert forall i :: 0 <= i < k ==> IsSpace(s[i]) by {
        forall i | 0 <= i < k ensures IsSpace(s[i]) { assert s[..k][i] == s[i]; }
      }
      assert k == |pre|;
      var t := s[k..];
      assert t == x + post;
      var j := TrailingSpace(t);
      assert t[|x| - 1] == x[|x| - 1];
      assert forall i :: |t| - j <= i < |t| ==> IsSpace(t[i]) by {
        forall i | |t| - j <= i < |t| ensures IsSpace(t[i]) { assert t[|t| - j..][i - (|t| - j)] == t[i]; }
      }
      assert j == |post|;
      assert t[..|t| - j] == x;
    } else {
      assert AllSpace(s);
      assert k == |s|;
    }
  }

  /** Whitespace alone trims to nothing. */
  lemma TrimBlank(s: string)
    ensures AllSpace(s) ==> Trim(s) == []
  {
    if AllSpace(s) {
      TrimPadded(s, [], []);
      assert s + [] + [] == s;
    }
  }

  function LowerChar(c: char): char {
    if 'A' <= c <= 'Z' then (c as int + 32) as char else c
  }

  /** `String.prototype.toLowerCase`, on the ASCII letters. */
  function ToLower(s: string): string {
    seq(|s|, i requires 0 <= i < |s| => LowerChar(s[i]))
  }

  /** Lower-casing leaves a text without upper-case ASCII letters as it is. */
  lemma LowerOfLower(s: string)
    requires forall i :: 0 <= i < |s| ==> !('A' <= s[i] <= 'Z')
    ensures ToLower(s) == s
  {
  }

  /** `t.includes(pat)`. */
  predicate Contains(t: string, pat: string) {
    exists i :: 0 <= i <= |t| - |pat| && pat <= t[i..]
  }

  /** The value of a run of decimal digits, as `Number` reads it. */
  function DigitsValue(d: string): nat
    requires AllDigits(d)
  {
    if d == [] then 0
    else 10 * DigitsValue(d[..|d| - 1]) + (d[|d| - 1] as int - '0' as int)
  }

  function DigitChar(v: nat): char
    requires v < 10
  {
    ('0' as int + v) as char
  }

  /** Decimal notation of a natural number, as `String(n)` writes it. */
  function NatToDigits(n: nat): (d: string)
    ensures |d| > 0 && AllDigits(d)
    ensures d[|d| - 1] == DigitChar(n % 10)
  {
    if n < 10 then [DigitChar(n)] else NatToDigits(n / 10) + [DigitChar(n % 10)]
  }

  /** Reading back what `String(n)` writes gives `n`. */
  lemma {:induction false} DigitsRoundTrip(n: nat)
    ensures DigitsValue(NatToDigits(n)) == n
  {
    if n >= 10 {
      DigitsRoundTrip(n / 10);
      var d := NatToDigits(n);
      assert d[..|d| - 1] == NatToDigits(n / 10);
    }
  }

  /** Length of the run of digits at the start of `s`. */
  function DigitRun(s: string): (k: nat)
    ensures k <= |s|
    ensures AllDigits(s[..k])
    ensures k == |s| || !IsDigit(s[k])
  {
    if s == [] || !IsDigit(s[0]) then 0
    else
      var k := 1 + DigitRun(s[1..]);
      assert s[..k] == [s[0]] + s[1..][..k - 1];
      k
  }

  /** The values of all maximal digit runs, left to right: `t.match(/\d+/g)`
      mapped through `Number`. */
  function DigitRuns(t: string): (ns: seq<nat>)
    ensures ns == [] <==> forall i :: 0 <= i < |t| ==> !IsDigit(t[i])
  {
    if t == [] then []
    else if !IsDigit(t[0]) then
      var ns := DigitRuns(t[1..]);
      assert forall i :: 0 < i < |t| ==> t[i] == t[1..][i - 1];
      ns
    else
      var k := DigitRun(t);
      [DigitsValue(t[..k])] + DigitRuns(t[k..])
  }

  /** A leading non-digit starts no run. */
  lemma DigitRunsSkip(c: char, rest: string)
    requires !IsDigit(c)
    ensures DigitRuns([c] + rest) == DigitRuns(rest)
  {
    assert ([c] + rest)[1..] == rest;
  }

  /** The runs of a text made of a digit-free prefix, a digit run and a
      remainder that does not continue the run. */
  lemma {:induction false} DigitRunsSplit(pre: string, d: string, rest: string)
    requires forall i :: 0 <= i < |pre| ==> !IsDigit(pre[i])
    requires d != [] && AllDigits(d)
    requires rest != [] ==> !IsDigit(rest[0])
    ensures DigitRuns(pre + d + rest) == [DigitsValue(d)] + DigitRuns(rest)
  {
    if pre != [] {
      assert (pre + d + rest)[1..] == pre[1..] + d + rest;
      DigitRunsSplit(pre[1..], d, rest);
    } else {
      var s := d + rest;
      assert s == pre + d + rest;
      var k := DigitRun(s);
      assert forall i :: 0 <= i < k ==> IsDigit(s[i]) by {
        forall i | 0 <= i < k ensures IsDigit(s[i]) { assert s[..k][i] == s[i]; }
      }
      assert forall i :: 0 <= i < |d| ==> IsDigit(s[i]) by {
        forall i | 0 <= i < |d| ensures IsDigit(s[i]) { assert s[i] == d[i]; }
      }
      assert rest != [] ==> s[|d|] == rest[0];
      assert k == |d|;
      assert s[..k] == d && s[k..] == rest;
    }
  }

  /** A text that `String(n)` wrote, followed by a non-digit, starts with the
      single run `n`. */
  lemma DigitRunsOfNumber(n: nat, rest: string)
    requires rest != [] ==> !IsDigit(rest[0])
    ensures DigitRuns(NatToDigits(n) + rest) == [n] + DigitRuns(rest)
  {
    DigitsRoundTrip(n);
    DigitRunsSplit([], NatToDigits(n), rest);
    assert [] + NatToDigits(n) + rest == NatToDigits(n) + rest;
  }

  /** `t.match(/(\d+)/)` read through `Number`: the first digit run, if any. */
  function FirstDigitRun(t: string): (r: Option<nat>)
    ensures r.None? <==> forall i :: 0 <= i < |t| ==> !IsDigit(t[i])
  {
    var ns := DigitRuns(t);
    if ns == [] then None else Some(ns[0])
  }
}
