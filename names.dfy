/**
 * The scraper's tests for what looks like a player's name (server.js):
 * the block-list `isExcludedText`, the "Capitalised Word space Capitalised
 * Word" shape, the navigation words, the tests applied to nested texts of the
 * name cell, and the fallback that cleans the whole name cell.
 */
module Names {
  import opened Common
  import opened Text

  /** `excludePatterns`: navigation and marketing texts of the odds page. */
  const ExcludePatterns: seq<string> := [
    "signature events", "how it works", "groupings official", "waialae country club",
    "how to watch", "marketing partners", "payne stewart award", "fan council",
    "social responsibility", "fan shop", "mastercard tickets", "tournament", "leaderboard",
    "odds", "schedule", "players", "news", "video", "shop", "tickets", "mobile app",
    "follow us", "about", "contact", "privacy", "terms", "cookie", "accessibility"
  ]

  /** The lower-case words an accepted table name must not contain. */
  const NavigationWords: seq<string> := [
    "advertisement", "create", "account", "sign", "quick", "links", "weather", "search",
    "filter", "apply", "cancel", "consent", "reject", "confirm", "choices", "aon"
  ]

  /** The country codes that may sit beside a name in the name cell. */
  const CountryCodes: seq<string> := [
    "USA", "KOR", "JPN", "ENG", "CAN", "FIJ", "SCO", "COL", "AUS", "BEL", "FRA",
    "NOR", "PHI", "ARG", "IRL", "RSA", "SWE", "MEX", "PUR", "CHN", "GER"
  ]

  /** The words removed, in any case, from the whole name cell before it is split. */
  const NoiseWords: seq<string> := CountryCodes + [
    "Favorite", "Create", "Account", "Sign", "Up", "In", "Quick", "Links", "Weather", "Your",
    "Opt", "Out", "Preference", "Signal", "Honored", "Switch", "Label", "Search", "Icon",
    "Filter", "Apply", "Cancel", "Consent", "Leg", "Interest", "Reject", "All", "Confirm",
    "My", "Choices", "Aon", "Better", "Decisions"
  ]

  /** Case-sensitive words that disqualify a free-standing text as a name. */
  const FreeTextBlockWords: seq<string> := [
    "Tournament", "Open", "Leaderboard", "Odds", "Signature", "How It Works",
    "Groupings", "Country Club", "Marketing", "Fan", "Shop", "Tickets"
  ]

  /** Some word of the list occurs in `s`. */
  predicate ContainsSome(s: string, words: seq<string>)
  {
    exists k {:trigger Contains(s, words[k])} :: 0 <= k < |words| && Contains(s, words[k])
  }

  /**
   * `isExcludedText`: too short, too long, or containing a block-listed
   * pattern once lower-cased. Any text it lets through has a `length` of 3
   * to 50 UTF-16 code units.
   */
  function IsExcludedText(t: string): (r: bool)
    ensures !r ==> 3 <= Utf16Length(t) <= 50
    ensures Utf16Length(t) < 3 || Utf16Length(t) > 50 ==> r
  {
    var lower := ToLower(t);
    Utf16LengthLower(t);
    ContainsSome(lower, ExcludePatterns) || Utf16Length(lower) < 3 || Utf16Length(lower) > 50
  }

  /** Pattern `k` of the block-list occurs at position `i` of `s`. */
  predicate PatternAt(s: string, k: nat, i: nat)
  {
    k < |ExcludePatterns| && i + |ExcludePatterns[k]| <= |s| && s[i..i + |ExcludePatterns[k]|] == ExcludePatterns[k]
  }

  /**
   * A text is excluded exactly when its `length` is under 3 or over 50
   * UTF-16 code units, or when some block-listed pattern occurs somewhere in
   * its lower-cased form.
   */
  lemma ExcludedExactly(t: string)
    ensures IsExcludedText(t) <==> Utf16Length(t) < 3 || Utf16Length(t) > 50 || exists k: nat, i: nat :: PatternAt(ToLower(t), k, i)
  {
    var lower := ToLower(t);
    Utf16LengthLower(t);
    if ContainsSome(lower, ExcludePatterns) {
      var k :| 0 <= k < |ExcludePatterns| && Contains(lower, ExcludePatterns[k]);
      var i := ContainsWitness(lower, ExcludePatterns[k]);
      assert PatternAt(lower, k, i);
    }
    if exists k: nat, i: nat :: PatternAt(lower, k, i) {
      var k: nat, i: nat :| PatternAt(lower, k, i);
      ContainsAt(lower, ExcludePatterns[k], i);
    }
  }

  /** Length of the leading run of lower-case ASCII letters. */
  function LowerRun(s: string): (n: nat)
    ensures n <= |s|
    ensures forall i :: 0 <= i < n ==> IsLower(s[i])
    ensures n == |s| || !IsLower(s[n])
    decreases |s|
  {
    if s != [] && IsLower(s[0]) then 1 + LowerRun(s[1..]) else 0
  }

  /** Length of a leading `[A-Z][a-z]+`, or 0 when the text does not begin with one. */
  function CapitalisedWord(s: string): (n: nat)
    ensures n <= |s|
    ensures n > 0 ==> n >= 2 && IsUpper(s[0]) && (forall i :: 1 <= i < n ==> IsLower(s[i]))
    ensures n > 0 ==> n == |s| || !IsLower(s[n])
    ensures |s| >= 2 && IsUpper(s[0]) && IsLower(s[1]) ==> n > 0
  {
    if s == [] || !IsUpper(s[0]) then 0
    else
      var run := LowerRun(s[1..]);
      assert forall i :: 1 <= i < 1 + run ==> s[i] == s[1..][i - 1];
      if run == 0 then 0 else 1 + run
  }

  /** `/^[A-Z][a-z]+ [A-Z][a-z]+/`: the text begins with two capitalised words and a blank between them. */
  predicate NameShape(s: string)
  {
    var n := CapitalisedWord(s);
    0 < n < |s| && s[n] == ' ' && CapitalisedWord(s[n + 1..]) > 0
  }

  /** The tests of the final name of a table row (`isValidName`). */
  predicate IsValidRowName(name: string)
  {
    && name != ""
    && NameShape(name)
    && 5 < Utf16Length(name) <= 40
    && !IsExcludedText(name)
    && !ContainsSome(ToLower(name), NavigationWords)
  }

  /** The tests a cleaned nested text of the name cell must pass to be a candidate. */
  predicate IsNameCandidate(t: string)
  {
    && NameShape(t)
    && 5 < Utf16Length(t) < 40
    && !Contains(ToLower(t), "favorite")
    && t !in CountryCodes
  }

  /** The candidates `allTexts`: the cleaned nested texts that pass, in document order. */
  function NameCandidates(texts: seq<string>): (r: seq<string>)
    ensures |r| <= |texts|
    ensures forall k :: 0 <= k < |r| ==> IsNameCandidate(r[k])
    decreases |texts|
  {
    if texts == [] then []
    else
      var prev := NameCandidates(texts[..|texts| - 1]);
      var t := CleanText(texts[|texts| - 1]);
      if IsNameCandidate(t) then prev + [t] else prev
  }

  /** One step of `NameCandidates`: the last nested text is added when it passes. */
  lemma CandidatesStep(texts: seq<string>)
    ensures texts == [] ==> NameCandidates(texts) == []
    ensures texts != [] ==> var t := CleanText(texts[|texts| - 1]);
      NameCandidates(texts) == if IsNameCandidate(t) then NameCandidates(texts[..|texts| - 1]) + [t] else NameCandidates(texts[..|texts| - 1])
  {
  }

  /** The candidates of a prefix one text longer. */
  lemma CandidatesPrefixStep(texts: seq<string>, i: nat)
    requires i < |texts|
    ensures var t := CleanText(texts[i]);
      NameCandidates(texts[..i + 1]) == if IsNameCandidate(t) then NameCandidates(texts[..i]) + [t] else NameCandidates(texts[..i])
  {
    hide *;
    CandidatesStep(texts[..i + 1]);
    assert texts[..i + 1][..i] == texts[..i] && texts[..i + 1][i] == texts[i];
  }

  /**
   * The candidates are the passing cleaned texts and only those, each taken
   * from its own nested element, in document order.
   */
  lemma {:induction false} CandidateIndices(texts: seq<string>) returns (idx: seq<nat>)
    ensures |idx| == |NameCandidates(texts)|
    ensures forall k :: 0 <= k < |idx| ==> idx[k] < |texts| && NameCandidates(texts)[k] == CleanText(texts[idx[k]])
    ensures forall k, l :: 0 <= k < l < |idx| ==> idx[k] < idx[l]
    ensures forall j :: 0 <= j < |texts| ==> (j in idx <==> IsNameCandidate(CleanText(texts[j])))
    decreases |texts|
  {
    hide *;
    CandidatesStep(texts);
    if texts == [] {
      return [];
    }
    var last := |texts| - 1;
    var init := texts[..last];
    var prev := CandidateIndices(init);
    var r, r0 := NameCandidates(texts), NameCandidates(init);
    AppendIndex(prev, last);
    if IsNameCandidate(CleanText(texts[last])) {
      idx := prev + [last];
      assert r == r0 + [CleanText(texts[last])];
      forall k | 0 <= k < |idx| ensures idx[k] < |texts| && r[k] == CleanText(texts[idx[k]]) {
        if k < |prev| {
          assert idx[k] == prev[k] && r[k] == r0[k] && init[prev[k]] == texts[prev[k]];
        }
      }
    } else {
      idx := prev;
      assert r == r0;
      forall k | 0 <= k < |idx| ensures idx[k] < |texts| && r[k] == CleanText(texts[idx[k]]) {
        assert init[prev[k]] == texts[prev[k]];
      }
    }
    forall j | 0 <= j < last ensures j in idx <==> IsNameCandidate(CleanText(texts[j])) {
      assert init[j] == texts[j];
    }
  }

  /**
   * Element 0 of the candidates sorted by decreasing length with a stable
   * sort: the first candidate of maximal length.
   */
  function FirstLongest(c: seq<string>): (r: string)
    requires c != []
    ensures forall j :: 0 <= j < |c| ==> Utf16Length(c[j]) <= Utf16Length(r)
    ensures exists k :: 0 <= k < |c| && c[k] == r && forall j :: 0 <= j < k ==> Utf16Length(c[j]) < Utf16Length(r)
    decreases |c|
  {
    if |c| == 1 then c[0]
    else
      var rest := FirstLongest(c[1..]);
      assert forall j :: 1 <= j < |c| ==> c[j] == c[1..][j - 1];
      if Utf16Length(c[0]) >= Utf16Length(rest) then c[0] else rest
  }

  predicate IsNoiseWord(t: string)
  {
    exists k :: 0 <= k < |NoiseWords| && ToLower(t) == ToLower(NoiseWords[k])
  }

  /** `replace(/\b(USA|...|Decisions)\b/gi, '').trim()`, applied to whole blank-separated tokens. */
  function StripNoise(s: string): string
  {
    var tokens := Split(s, ' ');
    var kept := seq(|tokens|, i requires 0 <= i < |tokens| => if IsNoiseWord(tokens[i]) then "" else tokens[i]);
    Trim(Join(kept, " "))
  }

  /** `/^[A-Z][a-z]+$/`. */
  predicate IsProperWord(t: string)
  {
    CapitalisedWord(t) == |t| && |t| > 0
  }

  /** The tests of `nameParts`: longer than one character, not two or three capitals, a proper word. */
  predicate IsNamePart(t: string)
  {
    && |t| > 1
    && !(2 <= |t| <= 3 && forall i :: 0 <= i < |t| ==> IsUpper(t[i]))
    && IsProperWord(t)
  }

  /** `split(...).filter(...)`: the words that pass the tests of `nameParts`. */
  function NameParts(words: seq<string>): (r: seq<string>)
    ensures forall k :: 0 <= k < |r| ==> IsNamePart(r[k])
    decreases |words|
  {
    if words == [] then []
    else
      var prev := NameParts(words[..|words| - 1]);
      var w := words[|words| - 1];
      if IsNamePart(w) then prev + [w] else prev
  }

  /** One step of `NameParts`: the last word is kept when it passes. */
  lemma PartsStep(words: seq<string>)
    ensures words == [] ==> NameParts(words) == []
    ensures words != [] ==> var w := words[|words| - 1];
      NameParts(words) == if IsNamePart(w) then NameParts(words[..|words| - 1]) + [w] else NameParts(words[..|words| - 1])
  {
  }

  /**
   * The parts are the passing words and only those, each taken from its own
   * place, in the order of the text.
   */
  lemma {:induction false} NamePartIndices(words: seq<string>) returns (idx: seq<nat>)
    ensures |idx| == |NameParts(words)|
    ensures forall k :: 0 <= k < |idx| ==> idx[k] < |words| && NameParts(words)[k] == words[idx[k]]
    ensures forall k, l :: 0 <= k < l < |idx| ==> idx[k] < idx[l]
    ensures forall j :: 0 <= j < |words| ==> (j in idx <==> IsNamePart(words[j]))
    decreases |words|
  {
    hide *;
    PartsStep(words);
    if words == [] {
      return [];
    }
    var last := |words| - 1;
    var init := words[..last];
    var prev := NamePartIndices(init);
    var r, r0 := NameParts(words), NameParts(init);
    AppendIndex(prev, last);
    if IsNamePart(words[last]) {
      idx := prev + [last];
      assert r == r0 + [words[last]];
      forall k | 0 <= k < |idx| ensures idx[k] < |words| && r[k] == words[idx[k]] {
        if k < |prev| {
          assert idx[k] == prev[k] && r[k] == r0[k] && init[prev[k]] == words[prev[k]];
        }
      }
    } else {
      idx := prev;
      assert r == r0;
      forall k | 0 <= k < |idx| ensures idx[k] < |words| && r[k] == words[idx[k]] {
        assert init[prev[k]] == words[prev[k]];
      }
    }
    forall j | 0 <= j < last ensures j in idx <==> IsNamePart(words[j]) {
      assert init[j] == words[j];
    }
  }

  /**
   * The name taken from the whole (cleaned) name cell when no nested text is a
   * candidate: the noise words go, and when two or more proper words remain the
   * first two or three of them, joined by blanks, are the name.
   */
  function FallbackName(cellText: string): string
  {
    var stripped := StripNoise(cellText);
    var parts := NameParts(Words(stripped));
    if |parts| >= 2 then Join(parts[..Min(3, |parts|)], " ") else stripped
  }
  lemma {:induction false} LowerRunOfWord(x: string, y: string)
    requires forall i :: 0 <= i < |x| ==> IsLower(x[i])
    requires y == [] || !IsLower(y[0])
    ensures LowerRun(x + y) == |x|
    decreases |x|
  {
    if x == [] {
      assert x + y == y;
    } else {
      assert (x + y)[1..] == x[1..] + y;
      LowerRunOfWord(x[1..], y);
    }
  }

  /** A proper word followed by anything but a lower-case letter is the leading capitalised word. */
  lemma ProperWordThen(x: string, y: string)
    requires IsProperWord(x)
    requires y == [] || !IsLower(y[0])
    ensures CapitalisedWord(x + y) == |x|
  {
    assert (x + y)[1..] == x[1..] + y;
    LowerRunOfWord(x[1..], y);
  }

  /** A blank-joined list begins with its first element followed by a blank or nothing. */
  lemma JoinHead(q: seq<string>) returns (rest: string)
    requires |q| >= 1
    ensures Join(q, " ") == q[0] + rest
    ensures rest == [] || rest[0] == ' '
  {
    if |q| == 1 {
      rest := [];
    } else {
      rest := " " + Join(q[1..], " ");
    }
  }

  /** Two proper words joined by a blank, followed by anything but a letter, have the name shape. */
  lemma TwoWordsShape(x: string, y: string, rest: string)
    requires IsProperWord(x) && IsProperWord(y)
    requires rest == [] || rest[0] == ' '
    ensures NameShape(x + " " + (y + rest))
  {
    var j := x + " " + (y + rest);
    assert j == x + (" " + (y + rest));
    ProperWordThen(x, " " + (y + rest));
    ProperWordThen(y, rest);
    assert j[|x| + 1..] == y + rest;
  }

  lemma JoinedPartsShape(p: seq<string>)
    requires |p| >= 2
    requires forall k :: 0 <= k < |p| ==> IsNamePart(p[k])
    ensures NameShape(Join(p, " "))
  {
    var rest := JoinHead(p[1..]);
    TwoWordsShape(p[0], p[1], rest);
  }

  /**
   * When at least two proper words survive the noise removal, the fallback
   * name has the two-capitalised-words shape the row test asks for.
   */
  lemma FallbackNameShape(cellText: string)
    requires |NameParts(Words(StripNoise(cellText)))| >= 2
    ensures NameShape(FallbackName(cellText))
  {
    var parts := NameParts(Words(StripNoise(cellText)));
    JoinedPartsShape(parts[..Min(3, |parts|)]);
  }

  lemma ValidRowNameShape(name: string)
    requires IsValidRowName(name)
    ensures NameShape(name) && 5 < Utf16Length(name) <= 40
  {
  }

  /** Two capitalised words and a blank take at least five characters. */
  lemma NameShapeLength(name: string)
    requires NameShape(name)
    ensures |name| >= 5 && IsUpper(name[0]) && name[CapitalisedWord(name)] == ' '
  {
    var n := CapitalisedWord(name);
    assert CapitalisedWord(name[n + 1..]) >= 2;
  }

  /**
   * A name the row test accepts is 6 to 40 UTF-16 code units long, at least
   * five characters (two capitalised words and a blank), and has its blank
   * after the leading capitalised word.
   */
  lemma ValidRowNameLength(name: string)
    requires IsValidRowName(name)
    ensures 6 <= Utf16Length(name) <= 40 && 5 <= |name| <= 40
    ensures IsUpper(name[0]) && name[CapitalisedWord(name)] == ' '
  {
    hide *;
    ValidRowNameShape(name);
    NameShapeLength(name);
  }

  /** Texts the block-list rejects: a navigation text, a name with a page word, a short text. */
  lemma ExclusionExamples()
    ensures IsExcludedText("Fan Council") && IsExcludedText("Jon Rahm Odds") && IsExcludedText("Al")
  {
    ContainsAt(ToLower("Fan Council"), ExcludePatterns[7], 0);
    ContainsAt(ToLower("Jon Rahm Odds"), ExcludePatterns[13], 9);
  }
}
