/** Giveaway durations: `parseDurationToMs` (index.js:219-231) accepts
    `<digits><optional spaces><m|h|d>` after trimming and lower-casing. */
module Durations {

  import opened Common
  import opened Text

  const MinuteMs: nat := 60 * 1000
  const HourMs: nat := 60 * 60 * 1000
  const DayMs: nat := 24 * 60 * 60 * 1000

  predicate IsUnit(c: char) { c == 'm' || c == 'h' || c == 'd' }

  /** `n` units in milliseconds; one branch per unit letter. */
  function ToMs(n: nat, u: char): nat {
    if u == 'm' then n * MinuteMs else if u == 'h' then n * HourMs else if u == 'd' then n * DayMs else 0
  }

  /** Milliseconds denoted by a duration text, or `None` (JavaScript `null`)
      when the text is not of the form `^(\d+)\s*([mhd])$` or the amount is 0. */
  function ParseDurationToMs(input: string): (r: Option<nat>)
    ensures r.Some? ==> r.value > 0 && r.value % MinuteMs == 0
  {
    ParseNormalized(ToLower(Trim(input)))
  }

  /** The match on the trimmed, lower-cased text. */
  function ParseNormalized(t: string): (r: Option<nat>)
    ensures r.Some? ==> r.value > 0 && r.value % MinuteMs == 0
  {
    if |t| < 2 || !IsUnit(t[|t| - 1]) then None
    else
      var body := t[..|t| - 1];
      var digits := body[..|body| - TrailingSpace(body)];
      if digits == [] || !AllDigits(digits) then None
      else
        var n := DigitsValue(digits);
        if n == 0 then None
        else Some(ToMs(n, t[|t| - 1]))
  }

  lemma LowerOfDurationText(d: string, spaces: string, unit: char)
    requires AllDigits(d) && AllSpace(spaces)
    ensures ToLower(d + spaces + [unit]) == d + spaces + [LowerChar(unit)]
  {
    var x := d + spaces + [unit];
    forall i | 0 <= i < |x| - 1 ensures LowerChar(x[i]) == x[i] {
      if i < |d| { assert IsDigit(x[i]); } else { assert IsSpace(spaces[i - |d|]); }
    }
  }

  /** Dropping the whitespace between the amount and the unit leaves the amount. */
  lemma StripSpacesAfterDigits(d: string, spaces: string)
    requires d != [] && AllDigits(d) && AllSpace(spaces)
    ensures var body := d + spaces; body[..|body| - TrailingSpace(body)] == d
  {
    var body := d + spaces;
    var k := TrailingSpace(body);
    assert !IsSpace(body[|d| - 1]) by { assert body[|d| - 1] == d[|d| - 1]; assert IsDigit(d[|d| - 1]); }
    assert forall i :: |body| - k <= i < |body| ==> IsSpace(body[i]) by {
      forall i | |body| - k <= i < |body| ensures IsSpace(body[i]) {
        assert body[|body| - k..][i - (|body| - k)] == body[i];
      }
    }
    assert forall i :: |d| <= i < |body| ==> IsSpace(body[i]) by {
      forall i | |d| <= i < |body| ensures IsSpace(body[i]) { assert body[i] == spaces[i - |d|]; }
    }
    assert k == |spaces|;
    assert body[..|body| - k] == d;
  }

  /** Trimming and lower-casing a padded amount-and-unit text leaves the
      amount, the inner spaces and the lower-case unit. */
  lemma NormalizeOf(pre: string, d: string, spaces: string, unit: char, post: string)
    requires AllSpace(pre) && AllSpace(spaces) && AllSpace(post)
    requires d != [] && AllDigits(d) && !IsSpace(unit)
    ensures ToLower(Trim(pre + d + spaces + [unit] + post)) == d + spaces + [LowerChar(unit)]
  {
    var x := d + spaces + [unit];
    assert pre + d + spaces + [unit] + post == pre + x + post;
    assert !IsSpace(x[0]) by { assert x[0] == d[0]; assert IsDigit(d[0]); }
    assert x[|x| - 1] == unit;
    TrimPadded(pre, x, post);
    LowerOfDurationText(d, spaces, unit);
  }

  /** The match on a normalized amount-and-unit text. */
  lemma ParseNormalizedOf(d: string, spaces: string, u: char)
    requires d != [] && AllDigits(d) && AllSpace(spaces) && IsUnit(u)
    ensures ParseNormalized(d + spaces + [u])
            == (if DigitsValue(d) == 0 then None else Some(ToMs(DigitsValue(d), u)))
  {
    var t := d + spaces + [u];
    assert t[..|t| - 1] == d + spaces;
    StripSpacesAfterDigits(d, spaces);
  }

  /** Every text of the accepted shape, with any whitespace around it and the
      unit in either case, denotes its amount times the unit's length. */
  lemma DurationAccepted(pre: string, d: string, spaces: string, unit: char, post: string)
    requires AllSpace(pre) && AllSpace(spaces) && AllSpace(post)
    requires d != [] && AllDigits(d) && DigitsValue(d) > 0
    requires IsUnit(LowerChar(unit))
    ensures ParseDurationToMs(pre + d + spaces + [unit] + post) == Some(ToMs(DigitsValue(d), LowerChar(unit)))
  {
    assert !IsSpace(unit);
    NormalizeOf(pre, d, spaces, unit, post);
    ParseNormalizedOf(d, spaces, LowerChar(unit));
  }

  /** The pieces of a trimmed duration text as the match sees them: the
      amount, the spaces before the unit, and the unit letter as typed. */
  function AmountParts(x: string): (string, string, char)
    requires x != []
  {
    var body := ToLower(x)[..|x| - 1];
    var j := |body| - TrailingSpace(body);
    (x[..j], x[j..|x| - 1], x[|x| - 1])
  }

  /** The pieces of a duration text: the leading whitespace, the pieces of
      the trimmed text, and the trailing whitespace. */
  function DurationParts(s: string): (string, string, string, char, string)
    requires Trim(s) != []
  {
    var (d, spaces, unit) := AmountParts(Trim(s));
    (s[..LeadingSpace(s)], d, spaces, unit, TrimTail(s))
  }

  /** Lower-casing never makes a digit out of anything else. */
  lemma LowerOfDigits(z: string)
    requires AllDigits(ToLower(z))
    ensures ToLower(z) == z
  {
  }

  /** Lower-casing never makes whitespace out of anything else. */
  lemma LowerOfSpaces(z: string)
    requires AllSpace(ToLower(z))
    ensures ToLower(z) == z
  {
  }

  /** Lower-casing commutes with taking a slice. */
  lemma LowerSlice(x: string, i: nat, j: nat)
    requires i <= j <= |x|
    ensures ToLower(x)[i..j] == ToLower(x[i..j])
  {
  }

  /** What an accepted normalized text is made of: the amount, the spaces
      before the unit, and the unit. */
  lemma ParseNormalizedShape(y: string)
    requires ParseNormalized(y).Some?
    ensures |y| >= 2
    ensures var j := |y| - 1 - TrailingSpace(y[..|y| - 1]);
      && 1 <= j
      && AllDigits(y[..j]) && DigitsValue(y[..j]) > 0
      && AllSpace(y[j..|y| - 1])
      && IsUnit(y[|y| - 1])
      && ParseNormalized(y) == Some(ToMs(DigitsValue(y[..j]), y[|y| - 1]))
  {
    var body := y[..|y| - 1];
    var j := |body| - TrailingSpace(body);
    assert body[..j] == y[..j];
    assert body[j..] == y[j..|y| - 1];
  }

  /** A trimmed text the match accepts is a positive amount, spaces and a
      unit letter in either case. */
  lemma AmountShape(x: string)
    requires ParseNormalized(ToLower(x)).Some?
    ensures x != []
    ensures var (d, spaces, unit) := AmountParts(x);
      && AllSpace(spaces)
      && d != [] && AllDigits(d) && DigitsValue(d) > 0
      && IsUnit(LowerChar(unit))
      && x == d + spaces + [unit]
      && ParseNormalized(ToLower(x)) == Some(ToMs(DigitsValue(d), LowerChar(unit)))
  {
    var y := ToLower(x);
    ParseNormalizedShape(y);
    var j := |y| - 1 - TrailingSpace(y[..|y| - 1]);
    var (d, spaces, unit) := AmountParts(x);
    assert d == x[..j] && spaces == x[j..|x| - 1] && unit == x[|x| - 1] by {
      assert ToLower(x)[..|x| - 1] == y[..|y| - 1];
    }
    assert d == y[..j] by {
      LowerSlice(x, 0, j);
      LowerOfDigits(d);
    }
    assert spaces == y[j..|y| - 1] by {
      LowerSlice(x, j, |x| - 1);
      LowerOfSpaces(spaces);
    }
    assert LowerChar(unit) == y[|y| - 1];
    assert x == d + spaces + [unit] by {
      Split3(x, j, |x| - 1);
    }
  }

  /** Conversely, `parseDurationToMs` returns `null` for everything but the
      accepted shape: a text it accepts is whitespace, a positive amount,
      spaces, a unit letter in either case and whitespace, and denotes the
      amount times the unit's length. */
  lemma DurationParsedShape(s: string)
    requires ParseDurationToMs(s).Some?
    ensures Trim(s) != []
    ensures var (pre, d, spaces, unit, post) := DurationParts(s);
      && AllSpace(pre) && AllSpace(spaces) && AllSpace(post)
      && d != [] && AllDigits(d) && DigitsValue(d) > 0
      && IsUnit(LowerChar(unit))
      && s == pre + d + spaces + [unit] + post
      && ParseDurationToMs(s) == Some(ToMs(DigitsValue(d), LowerChar(unit)))
  {
    var x := Trim(s);
    AmountShape(x);
    TrimParts(s);
    var (pre, d, spaces, unit, post) := DurationParts(s);
    Rejoin(s, pre, x, post, d, spaces, unit);
  }

  lemma Rejoin(s: string, pre: string, x: string, post: string, d: string, spaces: string, unit: char)
    requires s == pre + x + post && x == d + spaces + [unit]
    ensures s == pre + d + spaces + [unit] + post
  {
  }

  /** A bare amount directly followed by a lower-case unit. */
  lemma DurationOfDigits(d: string, unit: char)
    requires d != [] && AllDigits(d) && DigitsValue(d) > 0 && IsUnit(unit)
    ensures ParseDurationToMs(d + [unit]) == Some(ToMs(DigitsValue(d), unit))
  {
    var e: string := [];
    assert LowerChar(unit) == unit;
    assert d + [unit] == e + d + e + [unit] + e by {
      assert e + d == d && d + e == d && (d + [unit]) + e == d + [unit];
    }
    DurationAccepted(e, d, e, unit, e);
  }

  /** The same text in `String(n)` notation, for every positive `n`. */
  lemma DurationRoundTrip(n: nat, unit: char)
    requires n > 0 && IsUnit(unit)
    ensures ParseDurationToMs(NatToDigits(n) + [unit]) == Some(ToMs(n, unit))
  {
    DigitsRoundTrip(n);
    DurationOfDigits(NatToDigits(n), unit);
  }

  /** A zero amount ("0m", "00 h") is refused. */
  lemma ZeroDurationRejected(pre: string, d: string, spaces: string, unit: char, post: string)
    requires AllSpace(pre) && AllSpace(spaces) && AllSpace(post)
    requires d != [] && AllDigits(d) && DigitsValue(d) == 0
    ensures ParseDurationToMs(pre + d + spaces + [unit] + post) == None
  {
    if IsSpace(unit) {
      // the unit is whitespace itself: the text ends with a digit and has no unit
      assert AllSpace(spaces + [unit] + post);
      assert pre + d + spaces + [unit] + post == pre + d + (spaces + [unit] + post);
      MissingUnitRejected(pre, d, spaces + [unit] + post);
    } else {
      NormalizeOf(pre, d, spaces, unit, post);
      if IsUnit(LowerChar(unit)) {
        ParseNormalizedOf(d, spaces, LowerChar(unit));
      }
    }
  }

  /** A bare number without a unit ("30") is refused. */
  lemma MissingUnitRejected(pre: string, d: string, post: string)
    requires AllSpace(pre) && AllSpace(post)
    requires d != [] && AllDigits(d)
    ensures ParseDurationToMs(pre + d + post) == None
  {
    assert !IsSpace(d[0]) by { assert IsDigit(d[0]); }
    assert !IsSpace(d[|d| - 1]) by { assert IsDigit(d[|d| - 1]); }
    TrimPadded(pre, d, post);
    assert forall i :: 0 <= i < |d| ==> LowerChar(d[i]) == d[i] by {
      forall i | 0 <= i < |d| ensures LowerChar(d[i]) == d[i] { assert IsDigit(d[i]); }
    }
    assert ToLower(d) == d;
    assert IsDigit(d[|d| - 1]);
  }
}
