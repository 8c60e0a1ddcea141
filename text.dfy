/**
 * The string vocabulary both halves of the application rely on: JavaScript's
 * whitespace class, ASCII case mapping, substring search, `trim`, the
 * `replace(/\s+/g, ' ').trim()` normalisation the scraper calls `cleanText`,
 * `split`, `join`, and decimal digit strings.
 */
module Text {

  /** The whitespace characters above the ASCII range that `\s` also matches. */
  predicate IsWideSpace(c: char)
  {
    c == '\U{A0}' || c == '\U{1680}' || ('\U{2000}' <= c <= '\U{200A}') || c == '\U{2028}' || c == '\U{2029}'
    || c == '\U{202F}' || c == '\U{205F}' || c == '\U{3000}' || c == '\U{FEFF}'
  }

  /** The characters matched by JavaScript's `\s` (and removed by `trim`). */
  predicate IsSpace(c: char)
  {
    c == ' ' || ('\t' <= c <= '\r') || (c > '~' && IsWideSpace(c))
  }

  predicate IsDigit(c: char) { '0' <= c <= '9' }

  predicate IsUpper(c: char) { 'A' <= c <= 'Z' }

  predicate IsLower(c: char) { 'a' <= c <= 'z' }

  /** JavaScript's `\w`. */
  predicate IsWordChar(c: char) { IsUpper(c) || IsLower(c) || IsDigit(c) || c == '_' }

  function LowerChar(c: char): char
  {
    if IsUpper(c) then (c as int + 32) as char else c
  }

  /** `toLowerCase`, on the ASCII letters. */
  function ToLower(s: string): (r: string)
    ensures |r| == |s|
    ensures forall i :: 0 <= i < |s| ==> r[i] == LowerChar(s[i])
  {
    seq(|s|, i requires 0 <= i < |s| => LowerChar(s[i]))
  }

  predicate StartsWith(s: string, p: string)
  {
    |p| <= |s| && s[..|p|] == p
  }

  /** `s.includes(p)`. */
  predicate Contains(s: string, p: string)
    decreases |s|
  {
    StartsWith(s, p) || (s != [] && Contains(s[1..], p))
  }

  lemma {:induction false} ContainsAt(s: string, p: string, i: nat)
    requires i + |p| <= |s| && s[i..i + |p|] == p
    ensures Contains(s, p)
  {
    if i > 0 {
      assert s[1..][i - 1..i - 1 + |p|] == s[i..i + |p|];
      ContainsAt(s[1..], p, i - 1);
    } else {
      assert s[..|p|] == p;
    }
  }

  lemma {:induction false} ContainsWitness(s: string, p: string) returns (i: nat)
    requires Contains(s, p)
    ensures i + |p| <= |s| && s[i..i + |p|] == p
    decreases |s|
  {
    if StartsWith(s, p) {
      i := 0;
    } else {
      var j := ContainsWitness(s[1..], p);
      assert s[1..][j..j + |p|] == s[j + 1..j + 1 + |p|];
      i := j + 1;
    }
  }

  /** Strips the leading whitespace: the left half of `trim`. */
  function TrimStart(s: string): (r: string)
    ensures |r| <= |s|
    decreases |s|
  {
    if s != [] && IsSpace(s[0]) then TrimStart(s[1..]) else s
  }

  /** `TrimStart` keeps a suffix, drops only whitespace, and stops at a non-whitespace character. */
  lemma {:induction false} TrimStartShape(s: string)
    ensures TrimStart(s) == s[|s| - |TrimStart(s)|..]
    ensures forall i :: 0 <= i < |s| - |TrimStart(s)| ==> IsSpace(s[i])
    ensures TrimStart(s) == [] || !IsSpace(TrimStart(s)[0])
    decreases |s|
  {
    if s != [] && IsSpace(s[0]) {
      TrimStartShape(s[1..]);
      forall i | 0 < i < |s| - |TrimStart(s)| ensures IsSpace(s[i]) {
        assert s[i] == s[1..][i - 1];
      }
    }
  }

  /** Strips the trailing whitespace: the right half of `trim`. */
  function TrimEnd(s: string): (r: string)
    ensures |r| <= |s|
    decreases |s|
  {
    if s != [] && IsSpace(s[|s| - 1]) then TrimEnd(s[..|s| - 1]) else s
  }

  /** `TrimEnd` keeps a prefix, drops only whitespace, and stops at a non-whitespace character. */
  lemma {:induction false} TrimEndShape(s: string)
    ensures TrimEnd(s) == s[..|TrimEnd(s)|]
    ensures forall i :: |TrimEnd(s)| <= i < |s| ==> IsSpace(s[i])
    ensures TrimEnd(s) == [] || !IsSpace(TrimEnd(s)[|TrimEnd(s)| - 1])
    decreases |s|
  {
    if s != [] && IsSpace(s[|s| - 1]) {
      TrimEndShape(s[..|s| - 1]);
      forall i | |TrimEnd(s)| <= i < |s| - 1 ensures IsSpace(s[i]) {
        assert s[i] == s[..|s| - 1][i];
      }
    }
  }

  /** `trim`. */
  function Trim(s: string): string
  {
    TrimEnd(TrimStart(s))
  }

  /** A slice of a suffix is a slice of the whole. */
  lemma SliceOfSuffix(t: string, d: string, p: nat, q: nat, m: nat)
    requires p <= |t| && d == t[p..] && q <= m <= |d|
    ensures d[q..m] == t[p + q..p + m]
  {
  }

  /** `trim` keeps a contiguous middle part and drops only whitespace around it. */
  lemma TrimSlice(d: string) returns (q: nat, m: nat)
    ensures q <= m <= |d| && Trim(d) == d[q..m]
    ensures forall i :: 0 <= i < |d| && (i < q || m <= i) ==> IsSpace(d[i])
  {
    var e := TrimStart(d);
    TrimStartShape(d);
    TrimEndShape(e);
    q := |d| - |e|;
    var r := TrimEnd(e);
    m := q + |r|;
    assert e == d[q..];
    forall i | 0 <= i < |d| && m <= i ensures IsSpace(d[i]) {
      assert d[i] == e[i - q];
    }
  }

  /** Trimming a suffix of `t` keeps a slice of `t` and drops only whitespace. */
  lemma TrimOfSuffix(t: string, d: string, p: nat) returns (a: nat, b: nat)
    requires p <= |t| && d == t[p..]
    ensures p <= a <= b <= |t| && Trim(d) == t[a..b]
    ensures forall i :: p <= i < |t| && (i < a || b <= i) ==> IsSpace(t[i])
  {
    var q, m := TrimSlice(d);
    SliceOfSuffix(t, d, p, q, m);
    a, b := p + q, p + m;
    forall i | p <= i < |t| && (i < a || b <= i) ensures IsSpace(t[i]) {
      assert t[i] == d[i - p];
    }
  }

  /** `replace(/\s+/g, ' ')`: every maximal run of whitespace becomes one blank. */
  function Collapse(s: string): (r: string)
    ensures s == [] <==> r == []
    ensures s != [] ==> (IsSpace(r[0]) <==> IsSpace(s[0]))
    decreases |s|
  {
    if s == [] then []
    else if IsSpace(s[0]) then [' '] + Collapse(TrimStart(s))
    else [s[0]] + Collapse(s[1..])
  }

  /** The shape of a normalised text: blanks are the only whitespace, never doubled, never at either end. */
  ghost predicate IsClean(s: string)
  {
    && (forall i :: 0 <= i < |s| && IsSpace(s[i]) ==> s[i] == ' ')
    && (forall i :: 0 <= i < |s| - 1 && s[i] == ' ' ==> s[i + 1] != ' ')
    && (s != [] ==> s[0] != ' ' && s[|s| - 1] != ' ')
  }

  /** `cleanText` (server.js): collapse whitespace runs, then trim. */
  function CleanText(s: string): string
  {
    Trim(Collapse(s))
  }

  lemma {:induction false} CollapseShape(s: string)
    ensures forall i :: 0 <= i < |Collapse(s)| && IsSpace(Collapse(s)[i]) ==> Collapse(s)[i] == ' '
    ensures forall i :: 0 <= i < |Collapse(s)| - 1 && Collapse(s)[i] == ' ' ==> Collapse(s)[i + 1] != ' '
    decreases |s|
  {
    if s == [] {
    } else if IsSpace(s[0]) {
      TrimStartShape(s);
      CollapseShape(TrimStart(s));
    } else {
      CollapseShape(s[1..]);
    }
  }

  /** A slice of a text whose blanks are single keeps that property. */
  lemma SliceShape(c: string, k: nat, m: nat)
    requires k <= m <= |c|
    requires forall i :: 0 <= i < |c| && IsSpace(c[i]) ==> c[i] == ' '
    requires forall i :: 0 <= i < |c| - 1 && c[i] == ' ' ==> c[i + 1] != ' '
    ensures forall i :: 0 <= i < m - k && IsSpace(c[k..m][i]) ==> c[k..m][i] == ' '
    ensures forall i :: 0 <= i < m - k - 1 && c[k..m][i] == ' ' ==> c[k..m][i + 1] != ' '
  {
    var r := c[k..m];
    forall i | 0 <= i < |r| - 1 && r[i] == ' '
      ensures r[i + 1] != ' '
    {
      assert r[i] == c[k + i] && r[i + 1] == c[k + i + 1];
    }
  }

  /** Trimming a text whose blanks are single yields a text in normal form. */
  lemma TrimShape(c: string)
    requires forall i :: 0 <= i < |c| && IsSpace(c[i]) ==> c[i] == ' '
    requires forall i :: 0 <= i < |c| - 1 && c[i] == ' ' ==> c[i + 1] != ' '
    ensures IsClean(Trim(c))
  {
    var t := TrimStart(c);
    var k := |c| - |t|;
    var r := TrimEnd(t);
    TrimStartShape(c);
    TrimEndShape(t);
    assert r == c[k..k + |r|];
    SliceShape(c, k, k + |r|);
    assert r != [] ==> r[0] == t[0];
  }

  /** The result of `cleanText` is always in normal form. */
  lemma CleanTextIsClean(s: string)
    ensures IsClean(CleanText(s))
  {
    CollapseShape(s);
    TrimShape(Collapse(s));
  }

  lemma {:induction false} CollapseOfClean(s: string)
    requires forall i :: 0 <= i < |s| && IsSpace(s[i]) ==> s[i] == ' '
    requires forall i :: 0 <= i < |s| - 1 && s[i] == ' ' ==> s[i + 1] != ' '
    ensures Collapse(s) == s
    decreases |s|
  {
    if s != [] {
      if IsSpace(s[0]) {
        assert TrimStart(s) == s[1..] by {
          if |s| > 1 {
            assert !IsSpace(s[1]);
            assert TrimStart(s[1..]) == s[1..];
          }
        }
      }
      CollapseOfClean(s[1..]);
    }
  }

  /** `cleanText` is idempotent: a normalised text is its own normal form. */
  lemma CleanTextIdempotent(s: string)
    ensures CleanText(CleanText(s)) == CleanText(s)
  {
    var c := CleanText(s);
    CleanTextIsClean(s);
    CollapseOfClean(c);
    assert c == [] || !IsSpace(c[0]);
    assert TrimStart(c) == c;
    assert TrimEnd(c) == c;
  }

  /** `s.split(c)`: the pieces between the occurrences of `c`. */
  function Split(s: string, c: char): (r: seq<string>)
    ensures |r| > 0
    ensures forall k :: 0 <= k < |r| ==> c !in r[k]
    decreases |s|
  {
    if s == [] then [[]]
    else
      var rest := Split(s[1..], c);
      if s[0] == c then [[]] + rest else [[s[0]] + rest[0]] + rest[1..]
  }

  /** `parts.join(sep)`. */
  function Join(parts: seq<string>, sep: string): string
    decreases |parts|
  {
    if parts == [] then []
    else if |parts| == 1 then parts[0]
    else parts[0] + sep + Join(parts[1..], sep)
  }

  /** Splitting on a character and joining back on it gives the text back. */
  lemma {:induction false} JoinSplit(s: string, c: char)
    ensures Join(Split(s, c), [c]) == s
    decreases |s|
  {
    if s != [] {
      var rest := Split(s[1..], c);
      JoinSplit(s[1..], c);
      if s[0] == c {
        assert Split(s, c) == [[]] + rest;
      } else {
        assert Split(s, c) == [[s[0]] + rest[0]] + rest[1..];
        if |rest| > 1 {
          assert Join(rest, [c]) == rest[0] + [c] + Join(rest[1..], [c]);
        }
      }
    }
  }

  /** A text without the separator is a single piece. */
  lemma {:induction false} SplitWithout(s: string, c: char)
    requires c !in s
    ensures Split(s, c) == [s]
    decreases |s|
  {
    if s != [] {
      assert c !in s[1..] by {
        forall i | 0 <= i < |s| - 1 ensures s[1..][i] != c { assert s[1..][i] == s[i + 1]; }
      }
      SplitWithout(s[1..], c);
      assert [s[0]] + s[1..] == s;
    }
  }

  /** A text with exactly one separator splits into the two pieces around it. */
  lemma {:induction false} SplitAround(a: string, c: char, b: string)
    requires c !in a && c !in b
    ensures Split(a + [c] + b, c) == [a, b]
    decreases |a|
  {
    var s := a + [c] + b;
    if a == [] {
      assert s[1..] == b;
      SplitWithout(b, c);
    } else {
      assert s[1..] == a[1..] + [c] + b;
      assert c !in a[1..] by {
        forall i | 0 <= i < |a| - 1 ensures a[1..][i] != c { assert a[1..][i] == a[i + 1]; }
      }
      SplitAround(a[1..], c, b);
      assert [a[0]] + a[1..] == a;
    }
  }

  /** Length of the leading run of non-whitespace characters. */
  function WordLength(s: string): (n: nat)
    ensures n <= |s|
    ensures forall i :: 0 <= i < n ==> !IsSpace(s[i])
    ensures n == |s| || IsSpace(s[n])
    decreases |s|
  {
    if s == [] || IsSpace(s[0]) then 0 else 1 + WordLength(s[1..])
  }

  /** A non-empty text without whitespace. */
  predicate IsWord(w: string)
  {
    w != [] && forall i :: 0 <= i < |w| ==> !IsSpace(w[i])
  }

  /** The non-empty pieces of `s.split(/\s+/)`. */
  function Words(s: string): (r: seq<string>)
    ensures forall k :: 0 <= k < |r| ==> IsWord(r[k])
    decreases |s|
  {
    var t := TrimStart(s);
    if t == [] then []
    else
      TrimStartShape(s);
      var n := WordLength(t);
      var w := t[..n];
      assert IsWord(w);
      [w] + Words(t[n..])
  }

  /** Collapsing a text keeps its leading word as it is and goes on after it. */
  lemma {:induction false} CollapseWord(s: string)
    ensures Collapse(s) == s[..WordLength(s)] + Collapse(s[WordLength(s)..])
    decreases |s|
  {
    hide *;
    if s != [] && !IsSpace(s[0]) {
      CollapseStep(s);
      var n := WordLength(s);
      var m := WordLength(s[1..]);
      CollapseWord(s[1..]);
      assert s[1..][m..] == s[n..];
      assert [s[0]] + s[1..][..m] == s[..n];
    } else {
      WordLengthZero(s);
    }
  }

  /** One step of `Collapse` and `WordLength` over a leading non-whitespace character. */
  lemma CollapseStep(s: string)
    requires s != [] && !IsSpace(s[0])
    ensures Collapse(s) == [s[0]] + Collapse(s[1..])
    ensures WordLength(s) == 1 + WordLength(s[1..])
  {
  }

  /** A text that is empty or starts with whitespace has no leading word. */
  lemma WordLengthZero(s: string)
    requires s == [] || IsSpace(s[0])
    ensures WordLength(s) == 0 && s[..0] == [] && s[0..] == s
  {
  }

  /** The blank `replace(/\s+/g, ' ')` leaves in front of the first word. */
  function LeadBlank(s: string): string
  {
    if s != [] && IsSpace(s[0]) then " " else ""
  }

  /** One blank when the text ends with whitespace. */
  function EndBlank(s: string): string
  {
    if s != [] && IsSpace(s[|s| - 1]) then " " else ""
  }

  /** The blank `replace(/\s+/g, ' ')` leaves after the last word. */
  function TrailBlank(s: string): string
  {
    if Words(s) != [] then EndBlank(s) else ""
  }

  /** A text of whitespace only collapses to one blank and has no words. */
  lemma AllSpace(s: string)
    requires s != [] && TrimStart(s) == []
    ensures Collapse(s) == " " && Words(s) == [] && LeadBlank(s) == " " && TrailBlank(s) == ""
  {
    assert IsSpace(s[0]);
  }

  lemma EmptyText()
    ensures Collapse([]) == [] && Words([]) == [] && LeadBlank([]) == [] && TrailBlank([]) == []
    ensures Join([], " ") == []
  {
  }

  lemma JoinOne(w: string)
    ensures Join([w], " ") == w
  {
  }

  lemma JoinCons(w: string, ws: seq<string>)
    requires ws != []
    ensures Join([w] + ws, " ") == w + " " + Join(ws, " ")
  {
    assert ([w] + ws)[1..] == ws;
  }

  lemma EndBlankSuffix(w: string, u: string)
    requires u != []
    ensures EndBlank(w + u) == EndBlank(u)
  {
    assert (w + u)[|w + u| - 1] == u[|u| - 1];
  }

  lemma EndOfWord(w: string)
    requires IsWord(w)
    ensures EndBlank(w) == []
  {
  }

  lemma SpaceLead(u: string)
    requires u != [] && IsSpace(u[0])
    ensures LeadBlank(u) == " "
  {
  }

  /** A text without words is whitespace through to its end. */
  lemma NoWordsEnd(u: string)
    requires u != [] && Words(u) == []
    ensures EndBlank(u) == " " && TrailBlank(u) == []
  {
    TrimStartShape(u);
    assert TrimStart(u) == [];
  }

  lemma SomeWordsEnd(u: string)
    requires Words(u) != []
    ensures TrailBlank(u) == EndBlank(u)
  {
  }

  /** A word followed by a collapsed rest that starts with whitespace, or is empty. */
  lemma CollapseAfterWord(w: string, u: string)
    requires IsWord(w)
    requires u == [] || IsSpace(u[0])
    requires Collapse(u) == LeadBlank(u) + Join(Words(u), " ") + TrailBlank(u)
    ensures w + Collapse(u) == Join([w] + Words(u), " ") + EndBlank(w + u)
  {
    var ws := Words(u);
    hide *;
    if u == [] {
      EmptyText();
      JoinOne(w);
      EndOfWord(w);
      assert w + u == w && [w] + ws == [w];
    } else {
      EndBlankSuffix(w, u);
      SpaceLead(u);
      if ws == [] {
        NoWordsEnd(u);
        EmptyText();
        JoinOne(w);
        assert [w] + ws == [w];
      } else {
        SomeWordsEnd(u);
        JoinCons(w, ws);
      }
    }
  }

  /** The collapsed text starts with one blank exactly when the text starts with whitespace. */
  lemma CollapseLead(s: string)
    requires TrimStart(s) != []
    ensures Collapse(s) == LeadBlank(s) + Collapse(TrimStart(s))
  {
    TrimStartShape(s);
    if !IsSpace(s[0]) {
      assert TrimStart(s) == s;
    }
  }

  /** The words of a text are its leading word and the words after it. */
  lemma WordsFirst(s: string) returns (w: string, u: string)
    requires TrimStart(s) != []
    ensures IsWord(w) && w + u == TrimStart(s) && (u == [] || IsSpace(u[0]))
    ensures Words(s) == [w] + Words(u) && |u| < |s|
    ensures Collapse(TrimStart(s)) == w + Collapse(u)
  {
    var t := TrimStart(s);
    TrimStartShape(s);
    var n := WordLength(t);
    w, u := t[..n], t[n..];
    assert IsWord(w);
    hide *;
    WordsUnfold(s);
    CollapseWord(t);
  }

  /** The words of a text that is not all whitespace: its leading word, then the words of the rest. */
  lemma WordsUnfold(s: string)
    requires TrimStart(s) != []
    ensures var t := TrimStart(s); var n := WordLength(t);
      Words(s) == [t[..n]] + Words(t[n..])
  {
  }

  /** A suffix ends as the text does. */
  lemma EndBlankOfSuffix(s: string, t: string)
    requires t != [] && |t| <= |s| && t == s[|s| - |t|..]
    ensures EndBlank(t) == EndBlank(s)
  {
    assert t[|t| - 1] == s[|s| - 1];
  }

  /**
   * `replace(/\s+/g, ' ')` keeps every word of the text, in order, puts one
   * blank between neighbours, and leaves at most one blank at either end.
   */
  lemma {:induction false} CollapseWords(s: string)
    ensures Collapse(s) == LeadBlank(s) + Join(Words(s), " ") + TrailBlank(s)
    decreases |s|
  {
    hide *;
    if s == [] {
      EmptyText();
    } else if TrimStart(s) == [] {
      AllSpace(s);
      EmptyText();
    } else {
      var t := TrimStart(s);
      TrimStartShape(s);
      var w, u := WordsFirst(s);
      CollapseWords(u);
      CollapseLead(s);
      SomeWordsEnd(s);
      EndBlankOfSuffix(s, t);
      CollapseAfterWord(w, u);
    }
  }

  /** Words joined by blanks start and end with a non-whitespace character. */
  lemma {:induction false} JoinWordsEnds(ws: seq<string>)
    requires forall k :: 0 <= k < |ws| ==> IsWord(ws[k])
    ensures Join(ws, " ") == [] <==> ws == []
    ensures ws != [] ==> !IsSpace(Join(ws, " ")[0]) && !IsSpace(Join(ws, " ")[|Join(ws, " ")| - 1])
    decreases |ws|
  {
    if |ws| > 1 {
      JoinWordsEnds(ws[1..]);
    }
  }

  /** `trim` removes the single blanks left at either end of a word list. */
  lemma TrimAround(lead: string, j: string, trail: string)
    requires lead == "" || lead == " "
    requires trail == "" || (trail == " " && j != [])
    requires j != [] ==> !IsSpace(j[0]) && !IsSpace(j[|j| - 1])
    ensures Trim(lead + j + trail) == j
  {
    var x := j + trail;
    assert lead + j + trail == lead + x;
    assert x == [] || !IsSpace(x[0]);
    assert TrimStart(lead + x) == x by {
      if lead == " " {
        assert (lead + x)[1..] == x;
        assert TrimStart(lead + x) == TrimStart(x);
      }
    }
    assert TrimEnd(j) == j;
    if trail == " " {
      assert x[..|x| - 1] == j;
      assert TrimEnd(x) == TrimEnd(j);
    }
  }

  /**
   * `cleanText` is the text's words, the non-empty pieces of `split(/\s+/)`,
   * joined by single blanks: nothing but whitespace is lost and the order stays.
   */
  lemma CleanTextWords(s: string)
    ensures CleanText(s) == Join(Words(s), " ")
  {
    CollapseWords(s);
    JoinWordsEnds(Words(s));
    TrimAround(LeadBlank(s), Join(Words(s), " "), TrailBlank(s));
  }

  /** JavaScript's `length`: a character above U+FFFF takes two UTF-16 code units. */
  function Utf16Length(s: string): (n: nat)
    ensures |s| <= n <= 2 * |s|
    ensures (forall i :: 0 <= i < |s| ==> s[i] <= '\U{FFFF}') ==> n == |s|
    decreases |s|
  {
    if s == [] then 0
    else
      assert forall i :: 0 <= i < |s| - 1 ==> s[1..][i] == s[i + 1];
      (if s[0] > '\U{FFFF}' then 2 else 1) + Utf16Length(s[1..])
  }

  /** Lower-casing keeps the UTF-16 length: only ASCII letters change. */
  lemma {:induction false} Utf16LengthLower(s: string)
    ensures Utf16Length(ToLower(s)) == Utf16Length(s)
    decreases |s|
  {
    if s != [] {
      assert ToLower(s)[1..] == ToLower(s[1..]);
      Utf16LengthLower(s[1..]);
    }
  }

  /** A non-empty run of decimal digits. */
  predicate AllDigits(s: string)
  {
    |s| > 0 && forall i :: 0 <= i < |s| ==> IsDigit(s[i])
  }

  predicate HasDigit(s: string)
  {
    exists i :: 0 <= i < |s| && IsDigit(s[i])
  }

  function DigitValue(c: char): nat
    requires IsDigit(c)
  {
    c as int - '0' as int
  }

  function DigitChar(d: nat): (c: char)
    requires d < 10
    ensures IsDigit(c) && DigitValue(c) == d
  {
    ('0' as int + d) as char
  }

  /** The number a string of decimal digits denotes. */
  function DigitsValue(s: string): nat
    requires forall i :: 0 <= i < |s| ==> IsDigit(s[i])
    decreases |s|
  {
    if s == [] then 0 else 10 * DigitsValue(s[..|s| - 1]) + DigitValue(s[|s| - 1])
  }

  /** `n.toString()` for a natural number, with its round trip back to the number. */
  function NatToString(n: nat): (r: string)
    ensures AllDigits(r) && DigitsValue(r) == n
    decreases n
  {
    if n < 10 then [DigitChar(n)]
    else
      var prefix := NatToString(n / 10);
      var r := prefix + [DigitChar(n % 10)];
      assert r[..|r| - 1] == prefix;
      r
  }
}
