/**
 * The client's sort key for an odds label (`parseOdds`, public/script.js):
 * American odds give their number with the sign dropped, fractional odds
 * `a/b` give `a/b*100`, decimal odds `d` give `(d-1)*100`, and anything
 * else sorts last as `Infinity`. JavaScript numbers are modelled as exact
 * reals; `NaN` is kept as a value of its own.
 */
module OddsRank {
  import opened Common
  import opened Text
  import opened Records

  /** What `parseOdds` returns: a number, `Infinity` or `NaN`. */
  datatype OddsKey = Finite(value: real) | Infinite | NaN

  /** Length of the run of decimal digits at the front of `s`. */
  function DigitRun(s: string): (n: nat)
    ensures n <= |s|
    ensures forall i :: 0 <= i < n ==> IsDigit(s[i])
    ensures n == |s| || !IsDigit(s[n])
    decreases |s|
  {
    if s != [] && IsDigit(s[0]) then 1 + DigitRun(s[1..]) else 0
  }

  function Pow10(k: nat): (r: nat)
    ensures r >= 1
  {
    if k == 0 then 1 else 10 * Pow10(k - 1)
  }

  /** The number text without its optional leading sign. */
  function Unsigned(t: string): (r: string)
    ensures r == t || (t != [] && r == t[1..])
  {
    if t != [] && (t[0] == '+' || t[0] == '-') then t[1..] else t
  }

  predicate Negative(t: string)
  {
    t != [] && t[0] == '-'
  }

  /** A digit of the unsigned number text is a digit of the input. */
  lemma NumberDigit(s: string)
    requires HasDigit(Unsigned(TrimStart(s)))
    ensures HasDigit(s)
  {
    var t := TrimStart(s);
    TrimStartShape(s);
    var i :| 0 <= i < |Unsigned(t)| && IsDigit(Unsigned(t)[i]);
    var k := if Unsigned(t) == t then i else i + 1;
    assert t[k] == Unsigned(t)[i];
    assert s[|s| - |t| + k] == t[k];
  }

  /** The integer an unsigned number text begins with: its leading digits, if any. */
  function IntValue(u: string): (r: Option<int>)
    ensures r.Some? ==> HasDigit(u) && r.value >= 0
  {
    var n := DigitRun(u);
    if n == 0 then None else Some(DigitsValue(u[..n]))
  }

  /**
   * `parseInt(s)` in base 10: leading whitespace, an optional sign, then the
   * longest run of digits. `None` stands for `NaN`, the result when no digit follows.
   */
  function ParseInt(s: string): (r: Option<int>)
    ensures r.Some? ==> HasDigit(s)
  {
    var t := TrimStart(s);
    match IntValue(Unsigned(t))
    case None => None
    case Some(v) =>
      NumberDigit(s);
      Some(if Negative(t) then -v else v)
  }

  /** The digits after a decimal point at position `n`, or none when there is no point. */
  function FractionDigits(u: string, n: nat): (f: string)
    requires n <= |u|
    ensures forall i :: 0 <= i < |f| ==> IsDigit(f[i])
    ensures f != [] ==> n + 1 < |u| && IsDigit(u[n + 1])
  {
    if n < |u| && u[n] == '.' then
      var rest := u[n + 1..];
      rest[..DigitRun(rest)]
    else []
  }

  /** The number written `whole.frac` in decimal notation. */
  function Decimal(whole: string, frac: string): real
    requires forall i :: 0 <= i < |whole| ==> IsDigit(whole[i])
    requires forall i :: 0 <= i < |frac| ==> IsDigit(frac[i])
  {
    DigitsValue(whole) as real + DigitsValue(frac) as real / Pow10(|frac|) as real
  }

  /**
   * The decimal an unsigned number text begins with: digits and an optional
   * point followed by more digits, with at least one digit in all.
   */
  function DecimalValue(u: string): (r: Option<real>)
    ensures r.Some? ==> HasDigit(u)
  {
    var n := DigitRun(u);
    var f := FractionDigits(u, n);
    if n == 0 && f == [] then None
    else
      assert IsDigit(u[if n > 0 then 0 else n + 1]);
      Some(Decimal(u[..n], f))
  }

  /**
   * `parseFloat(s)` for decimal literals: leading whitespace, an optional
   * sign, then a decimal. `None` stands for `NaN`.
   */
  function ParseFloat(s: string): (r: Option<real>)
    ensures r.Some? ==> HasDigit(s)
  {
    var t := TrimStart(s);
    match DecimalValue(Unsigned(t))
    case None => None
    case Some(v) =>
      NumberDigit(s);
      Some(if Negative(t) then -v else v)
  }

  /** A number text that begins with a digit is read without sign or blanks. */
  lemma PlainNumber(s: string)
    requires s != [] && IsDigit(s[0])
    ensures ParseInt(s) == IntValue(s) && ParseFloat(s) == DecimalValue(s)
  {
    assert TrimStart(s) == s;
  }

  /** The fraction branch: exactly one `/` and a positive denominator. */
  function FractionKey(t: string): Option<OddsKey>
  {
    var parts := Split(t, '/');
    if |parts| != 2 then None
    else
      var num, den := ParseFloat(parts[0]), ParseFloat(parts[1]);
      if den.None? || den.value <= 0.0 then None
      else if num.None? then Some(NaN)
      else Some(Finite(FractionValue(num.value, den.value)))
  }

  /** Fractional odds `num/den` as their American equivalent, `num/den*100`. */
  function FractionValue(num: real, den: real): real
    requires den > 0.0
  {
    num / den * 100.0
  }

  /**
   * `parseOdds`: a missing label sorts last; otherwise the trimmed label is
   * read as American, fractional or decimal odds, in that order, and a
   * label none of them reads sorts last too. A number always comes from
   * some digit of the label.
   */
  function ParseOdds(odds: string): (r: OddsKey)
    ensures MissingOdds(odds) ==> r == Infinite
    ensures r.Finite? ==> HasDigit(odds)
  {
    if MissingOdds(odds) then Infinite
    else
      var t := Trim(odds);
      if t != [] && (t[0] == '+' || t[0] == '-') then
        match ParseInt(t[1..])
        case Some(v) => DigitOfPart(odds, t, t[1..]); Finite(v as real)
        case None => NaN
      else if FractionKey(t).Some? then
        var k := FractionKey(t).value;
        if k.Finite? then
          FractionDigit(odds, t);
          k
        else k
      else
        match ParseFloat(t)
        case Some(d) => DigitOfPart(odds, t, t); Finite((d - 1.0) * 100.0)
        case None => Infinite
  }

  /** A digit of a piece of the trimmed label is a digit of the label. */
  lemma DigitOfPart(odds: string, t: string, part: string)
    requires t == Trim(odds) && HasDigit(part)
    requires part == t || (t != [] && part == t[1..])
    ensures HasDigit(odds)
  {
    assert odds[0..] == odds;
    var a, b := TrimOfSuffix(odds, odds, 0);
    hide Trim, TrimStart, TrimEnd;
    var i :| 0 <= i < |part| && IsDigit(part[i]);
    var k := if part == t then i else i + 1;
    assert t[k] == part[i];
    assert odds[a + k] == t[k];
  }

  /** The numerator of a fraction the label reads holds a digit of the label. */
  lemma FractionDigit(odds: string, t: string)
    requires t == Trim(odds) && FractionKey(t).Some? && FractionKey(t).value.Finite?
    ensures HasDigit(odds)
  {
    var parts := Split(t, '/');
    JoinSplit(t, '/');
    assert Join(parts, ['/']) == parts[0] + ['/'] + parts[1];
    assert HasDigit(parts[0]);
    var i :| 0 <= i < |parts[0]| && IsDigit(parts[0][i]);
    assert t[i] == parts[0][i];
    assert HasDigit(t);
    DigitOfPart(odds, t, t);
  }

  /** The digit run of a number followed by a non-digit is the number. */
  lemma DigitRunOf(a: string, rest: string)
    requires AllDigits(a) && (rest == [] || !IsDigit(rest[0]))
    ensures DigitRun(a + rest) == |a|
  {
    hide DigitRun;
    var s := a + rest;
    assert forall i :: 0 <= i < |a| ==> s[i] == a[i];
    assert rest != [] ==> s[|a|] == rest[0];
  }

  /** The values read from a plain number are its value. */
  lemma WholeValues(a: string)
    requires AllDigits(a)
    ensures IntValue(a) == Some(DigitsValue(a) as int)
    ensures DecimalValue(a) == Some(DigitsValue(a) as real)
  {
    assert Decimal(a, []) == DigitsValue(a) as real;
    DigitRunOf(a, []);
    assert a + [] == a && a[..|a|] == a;
    assert FractionDigits(a, |a|) == [];
  }

  /** `parseFloat` and `parseInt` of a plain number give its value. */
  lemma ParseWhole(a: string)
    requires AllDigits(a)
    ensures ParseFloat(a) == Some(DigitsValue(a) as real)
    ensures ParseInt(a) == Some(DigitsValue(a) as int)
  {
    PlainNumber(a);
    WholeValues(a);
    hide ParseInt, ParseFloat, IntValue, DecimalValue;
  }

  /** A text with no blank at either end is its own trim. */
  lemma TrimUnchanged(t: string)
    requires t != [] && !IsSpace(t[0]) && !IsSpace(t[|t| - 1])
    ensures Trim(t) == t
  {
  }

  /** `+N` and `-N` both give `N`: the sign of American odds is dropped. */
  lemma AmericanOdds(a: string)
    requires AllDigits(a)
    ensures ParseOdds("+" + a) == Finite(DigitsValue(a) as real)
    ensures ParseOdds("-" + a) == Finite(DigitsValue(a) as real)
  {
    ParseWhole(a);
    var p, m := "+" + a, "-" + a;
    assert p[1..] == a && m[1..] == a;
    assert p[|p| - 1] == a[|a| - 1] && m[|m| - 1] == a[|a| - 1];
    TrimUnchanged(p);
    TrimUnchanged(m);
    hide ParseInt, Trim, FractionKey, ParseFloat;
    assert p != "N/A" && m != "N/A";
  }

  /** The fraction branch reads `a/b` as `a/b*100`. */
  lemma FractionKeyOf(a: string, b: string)
    requires AllDigits(a) && AllDigits(b) && DigitsValue(b) > 0
    ensures FractionKey(a + "/" + b) == Some(Finite(FractionValue(DigitsValue(a) as real, DigitsValue(b) as real)))
  {
    assert '/' !in a && '/' !in b;
    SplitAround(a, '/', b);
    ParseWhole(a);
    ParseWhole(b);
    hide Split, ParseFloat, FractionValue;
    var parts := Split(a + "/" + b, '/');
    assert |parts| == 2 && parts[0] == a && parts[1] == b;
  }

  /** `a/b` with a positive denominator gives `a/b*100`. */
  lemma FractionalOdds(a: string, b: string)
    requires AllDigits(a) && AllDigits(b) && DigitsValue(b) > 0
    ensures ParseOdds(a + "/" + b) == Finite(FractionValue(DigitsValue(a) as real, DigitsValue(b) as real))
  {
    var t := a + "/" + b;
    assert t[0] == a[0] && t[|t| - 1] == b[|b| - 1];
    TrimUnchanged(t);
    FractionKeyOf(a, b);
    assert t != "N/A" by { assert t[0] != 'N'; }
    assert !MissingOdds(t) && t[0] != '+' && t[0] != '-';
    hide Trim, FractionKey, ParseInt, ParseFloat, DigitsValue, FractionValue, MissingOdds;
  }

  /** The decimal read from `a.b`. */
  lemma DecimalOf(a: string, b: string)
    requires AllDigits(a) && AllDigits(b)
    ensures DecimalValue(a + "." + b) == Some(Decimal(a, b))
  {
    var t := a + "." + b;
    assert t == a + ("." + b);
    DigitRunOf(a, "." + b);
    assert t[..|a|] == a;
    assert t[|a| + 1..] == b;
    DigitRunOf(b, []);
    assert b + [] == b && b[..|b|] == b;
    assert FractionDigits(t, |a|) == b;
    hide DigitRun, FractionDigits, Decimal;
  }

  /** The value `parseFloat` reads from `a.b`. */
  lemma ParseFloatDecimal(a: string, b: string)
    requires AllDigits(a) && AllDigits(b)
    ensures ParseFloat(a + "." + b) == Some(Decimal(a, b))
  {
    var t := a + "." + b;
    assert t[0] == a[0];
    PlainNumber(t);
    DecimalOf(a, b);
    hide ParseFloat, DecimalValue;
  }

  /** `a.b` has no `/`, so the fraction branch does not read it. */
  lemma NoFractionKey(a: string, b: string)
    requires AllDigits(a) && AllDigits(b)
    ensures FractionKey(a + "." + b) == None
  {
    var t := a + "." + b;
    assert '/' !in t by {
      forall i | 0 <= i < |t| ensures t[i] != '/' {
        if i >= |a| + 1 { assert t[i] == b[i - |a| - 1]; }
      }
    }
    SplitWithout(t, '/');
    hide Split, ParseFloat;
  }

  /** `a.b` gives `(a.b - 1) * 100`. */
  lemma DecimalOdds(a: string, b: string)
    requires AllDigits(a) && AllDigits(b)
    ensures ParseOdds(a + "." + b) == Finite((Decimal(a, b) - 1.0) * 100.0)
  {
    var t := a + "." + b;
    assert t[0] == a[0] && t[|t| - 1] == b[|b| - 1];
    TrimUnchanged(t);
    NoFractionKey(a, b);
    ParseFloatDecimal(a, b);
    assert t != "N/A" by { assert t[0] != 'N'; }
    assert !MissingOdds(t) && t[0] != '+' && t[0] != '-';
    hide Trim, FractionKey, ParseInt, ParseFloat, Decimal, MissingOdds;
  }
}
