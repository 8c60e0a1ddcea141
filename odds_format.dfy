/**
 * The scraper's loose recogniser for odds text (`isOdds`, server.js) and the
 * removal of the "Up"/"Down" trend label that the odds buttons carry.
 */
module OddsFormat {
  import opened Text

  predicate IsSign(c: char) { c == '+' || c == '-' }

  /** `/^[+-]\d+$/`: American odds such as `+500` or `-150`. */
  predicate IsAmerican(t: string)
  {
    |t| >= 2 && IsSign(t[0]) && AllDigits(t[1..])
  }

  /** `/^\d+<sep>\d+$/`: two digit runs around one separator, as in `5/1` or `5.5`. */
  predicate IsDigitsAround(t: string, sep: char)
  {
    exists k :: 0 < k < |t| - 1 && t[k] == sep && AllDigits(t[..k]) && AllDigits(t[k + 1..])
  }

  /**
   * `isOdds`: a signed integer, a fraction, a decimal, or any text holding a
   * `+` or a `-` together with some digit. Whatever it accepts holds a digit.
   */
  function IsOdds(t: string): (r: bool)
    ensures r ==> t != [] && HasDigit(t)
  {
    var shaped := IsAmerican(t) || IsDigitsAround(t, '/') || IsDigitsAround(t, '.');
    assert shaped ==> IsDigit(t[|t| - 1]);
    t != [] && (shaped || ('+' in t && HasDigit(t)) || ('-' in t && HasDigit(t)))
  }

  /** No text without a digit is odds, so neither the empty text nor `N/A` is. */
  lemma NoDigitNoOdds(t: string)
    requires !HasDigit(t)
    ensures !IsOdds(t)
  {
  }

  /** The four notations the recogniser is written for are all accepted. */
  lemma {:induction false} NotationsAreOdds(a: string, b: string)
    requires AllDigits(a) && AllDigits(b)
    ensures IsOdds("+" + a) && IsOdds("-" + a)
    ensures IsOdds(a + "/" + b) && IsOdds(a + "." + b)
  {
    assert ("+" + a)[1..] == a && ("-" + a)[1..] == a;
    assert IsAmerican("+" + a) && IsAmerican("-" + a);
    var f, d := a + "/" + b, a + "." + b;
    assert f[..|a|] == a && f[|a| + 1..] == b && f[|a|] == '/';
    assert d[..|a|] == a && d[|a| + 1..] == b && d[|a|] == '.';
    assert IsDigitsAround(f, '/');
    assert IsDigitsAround(d, '.');
  }

  /** `t` begins with the lower-case word `w`, ignoring the case of `t`. */
  predicate StartsWithIgnoringCase(t: string, w: string)
    decreases |w|
  {
    w == [] || (t != [] && LowerChar(t[0]) == w[0] && StartsWithIgnoringCase(t[1..], w[1..]))
  }

  /** `replace(/^(Up|Down)\s*\/i, '')`: a leading trend label, in any case, and the blanks after it. */
  function DropTrend(t: string): string
  {
    if StartsWithIgnoringCase(t, "up") then TrimStart(t[2..])
    else if StartsWithIgnoringCase(t, "down") then TrimStart(t[4..])
    else t
  }

  /** The odds label with its trend prefix removed and trimmed. */
  function StripTrend(t: string): string
  {
    Trim(DropTrend(t))
  }

  lemma {:induction false} IgnoringCaseLetters(t: string, w: string)
    requires StartsWithIgnoringCase(t, w)
    requires forall i :: 0 <= i < |w| ==> IsLower(w[i])
    ensures |w| <= |t|
    ensures forall i :: 0 <= i < |w| ==> !IsDigit(t[i]) && !IsSign(t[i])
    decreases |w|
  {
    if w != [] {
      IgnoringCaseLetters(t[1..], w[1..]);
      forall i | 0 <= i < |w| ensures !IsDigit(t[i]) && !IsSign(t[i]) {
        if i > 0 { assert t[i] == t[1..][i - 1]; }
      }
    }
  }

  /** A word of letters followed by blanks, removed from the front of `t`. */
  lemma WordPrefix(t: string, w: string) returns (p: nat)
    requires StartsWithIgnoringCase(t, w)
    requires forall i :: 0 <= i < |w| ==> IsLower(w[i])
    ensures p <= |t| && |w| <= |t| && TrimStart(t[|w|..]) == t[p..]
    ensures forall i :: 0 <= i < p ==> !IsDigit(t[i]) && !IsSign(t[i])
  {
    IgnoringCaseLetters(t, w);
    var n := |w|;
    var u := t[n..];
    var d := TrimStart(u);
    TrimStartShape(u);
    p := n + (|u| - |d|);
    assert d == u[|u| - |d|..] == t[p..];
    forall i | 0 <= i < p ensures !IsDigit(t[i]) && !IsSign(t[i]) {
      if i >= n { assert IsSpace(u[i - n]); }
    }
  }

  /** The trend label is a prefix of letters and whitespace. */
  lemma DropTrendSuffix(t: string) returns (p: nat)
    ensures p <= |t| && DropTrend(t) == t[p..]
    ensures forall i :: 0 <= i < p ==> !IsDigit(t[i]) && !IsSign(t[i])
  {
    if StartsWithIgnoringCase(t, "up") {
      p := WordPrefix(t, "up");
    } else if StartsWithIgnoringCase(t, "down") {
      p := WordPrefix(t, "down");
    } else {
      p := 0;
    }
  }

  /** Stripping only removes letters and whitespace from the two ends of the text. */
  lemma StripTrendSlice(t: string) returns (a: nat, b: nat)
    ensures a <= b <= |t| && StripTrend(t) == t[a..b]
    ensures forall i :: 0 <= i < |t| && (i < a || b <= i) ==> !IsDigit(t[i]) && !IsSign(t[i])
  {
    var p := DropTrendSuffix(t);
    a, b := TrimOfSuffix(t, DropTrend(t), p);
  }

  /** The three exact notations begin with a sign or a digit and end with a digit. */
  lemma ShapedEnds(t: string)
    requires IsAmerican(t) || IsDigitsAround(t, '/') || IsDigitsAround(t, '.')
    ensures IsDigit(t[0]) || IsSign(t[0])
    ensures IsDigit(t[|t| - 1])
  {
    if !IsAmerican(t) {
      var sep := if IsDigitsAround(t, '/') then '/' else '.';
      var k :| 0 < k < |t| - 1 && t[k] == sep && AllDigits(t[..k]) && AllDigits(t[k + 1..]);
      assert t[..k][0] == t[0];
      assert t[k + 1..][|t| - k - 2] == t[|t| - 1];
    } else {
      assert t[1..][|t| - 2] == t[|t| - 1];
    }
  }

  /** A text holding a sign and a digit is odds. */
  lemma SignAndDigitIsOdds(r: string, i: nat, j: nat)
    requires i < |r| && j < |r| && IsDigit(r[i]) && IsSign(r[j])
    ensures IsOdds(r)
  {
    assert HasDigit(r);
    assert '+' in r || '-' in r;
  }

  /** The three exact notations have no trend label and no surrounding blanks to strip. */
  lemma StripLeavesShaped(t: string)
    requires IsAmerican(t) || IsDigitsAround(t, '/') || IsDigitsAround(t, '.')
    ensures StripTrend(t) == t
  {
    var a, b := StripTrendSlice(t);
    ShapedEnds(t);
    assert a == 0 && b == |t|;
  }

  /** A slice keeping a digit and a sign of the text is odds. */
  lemma SliceKeepsSignAndDigit(t: string, i: nat, j: nat, a: nat, b: nat, r: string)
    requires i < |t| && j < |t| && IsDigit(t[i]) && IsSign(t[j])
    requires a <= i < b <= |t| && a <= j < b && r == t[a..b]
    ensures IsOdds(r)
  {
    assert r[i - a] == t[i] && r[j - a] == t[j];
    SignAndDigitIsOdds(r, i - a, j - a);
  }

  /** Stripping keeps every digit and every sign of the text. */
  lemma StripKeepsSignAndDigit(t: string, i: nat, j: nat)
    requires i < |t| && j < |t| && IsDigit(t[i]) && IsSign(t[j])
    ensures IsOdds(StripTrend(t))
  {
    var a, b := StripTrendSlice(t);
    SliceKeepsSignAndDigit(t, i, j, a, b, StripTrend(t));
  }

  /** Removing the trend label never turns recognised odds into unrecognised text. */
  lemma StripKeepsOdds(t: string)
    requires IsOdds(t)
    ensures IsOdds(StripTrend(t))
  {
    if IsAmerican(t) || IsDigitsAround(t, '/') || IsDigitsAround(t, '.') {
      StripLeavesShaped(t);
    } else {
      var i :| 0 <= i < |t| && IsDigit(t[i]);
      var j :| 0 <= j < |t| && IsSign(t[j]);
      StripKeepsSignAndDigit(t, i, j);
    }
  }
}
