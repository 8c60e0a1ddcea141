/**
 * Strategy 3 of the extraction (server.js): any `div`, `span`, `p` or `li`
 * whose text looks like a name, used when neither the table nor the player
 * containers gave a record.
 */
module FreeText {
  import opened Common
  import opened Text
  import opened Records
  import opened Names
  import opened Page

  /** At most this many names are kept. */
  const MaxNames := 50

  /** The tests a cleaned free-standing text must pass to count as a name. */
  predicate IsFreeTextName(t: string)
  {
    && NameShape(t)
    && 5 < Utf16Length(t) < 50
    && !IsExcludedText(t)
    && !ContainsSome(t, FreeTextBlockWords)
  }

  /**
   * The elements whose cleaned text `accept` lets through, with that text in
   * place of their own, in document order.
   */
  function Accepted(els: seq<TextElement>, accept: string -> bool): (r: seq<TextElement>)
    ensures |r| <= |els|
    ensures forall k :: 0 <= k < |r| ==> accept(r[k].text)
    decreases |els|
  {
    if els == [] then []
    else
      var prev := Accepted(els[..|els| - 1], accept);
      var e := els[|els| - 1];
      var text := CleanText(e.text);
      if accept(text) then prev + [TextElement(text, e.nearbyOdds)] else prev
  }

  /** One step of `Accepted`: the last element comes in, with its cleaned text, when that text is let through. */
  lemma AcceptedStep(els: seq<TextElement>, accept: string -> bool)
    ensures els == [] ==> Accepted(els, accept) == []
    ensures els != [] ==> var e := els[|els| - 1]; var text := CleanText(e.text);
      Accepted(els, accept) == if accept(text) then Accepted(els[..|els| - 1], accept) + [TextElement(text, e.nearbyOdds)] else Accepted(els[..|els| - 1], accept)
  {
  }

  /**
   * The accepted elements are exactly the input elements whose cleaned text
   * is let through, each with that text and its own nearby odds, in document
   * order.
   */
  lemma {:induction false} AcceptedIndices(els: seq<TextElement>, accept: string -> bool) returns (idx: seq<nat>)
    ensures |idx| == |Accepted(els, accept)|
    ensures forall k :: 0 <= k < |idx| ==> idx[k] < |els| && Accepted(els, accept)[k] == TextElement(CleanText(els[idx[k]].text), els[idx[k]].nearbyOdds)
    ensures forall k, l :: 0 <= k < l < |idx| ==> idx[k] < idx[l]
    ensures forall j :: 0 <= j < |els| ==> (j in idx <==> accept(CleanText(els[j].text)))
    decreases |els|
  {
    hide *;
    AcceptedStep(els, accept);
    if els == [] {
      return [];
    }
    var last := |els| - 1;
    var init := els[..last];
    var prev := AcceptedIndices(init, accept);
    assert forall j :: 0 <= j < last ==> init[j] == els[j];
    if accept(CleanText(els[last].text)) {
      idx := prev + [last];
      forall k | 0 <= k < |idx|
        ensures idx[k] < |els| && Accepted(els, accept)[k] == TextElement(CleanText(els[idx[k]].text), els[idx[k]].nearbyOdds)
      {
        if k < |prev| {
          assert idx[k] == prev[k];
        }
      }
      forall k, l | 0 <= k < l < |idx| ensures idx[k] < idx[l] {
        assert idx[k] == prev[k];
      }
      forall j | 0 <= j < |els| ensures j in idx <==> accept(CleanText(els[j].text)) {
        if j < last {
          assert j in idx <==> j in prev;
        } else {
          assert idx[|prev|] == j;
        }
      }
    } else {
      idx := prev;
      forall j | 0 <= j < |els| ensures j in idx <==> accept(CleanText(els[j].text)) {
        if j == last {
          assert j !in prev;
        }
      }
    }
  }

  /** `potentialPlayers`: the elements whose cleaned text passes the name tests. */
  function Potential(els: seq<TextElement>): (r: seq<TextElement>)
    ensures |r| <= |els|
    ensures forall k :: 0 <= k < |r| ==> IsFreeTextName(r[k].text)
  {
    Accepted(els, IsFreeTextName)
  }

  function Texts(els: seq<TextElement>): (r: seq<string>)
    ensures |r| == |els|
    ensures forall k :: 0 <= k < |r| ==> r[k] == els[k].text
  {
    seq(|els|, k requires 0 <= k < |els| => els[k].text)
  }

  /** `a` occurs in `s` before the first occurrence of `b`. */
  predicate OccursBefore(s: seq<string>, a: string, b: string)
  {
    exists k :: 0 <= k < |s| && s[k] == a && b !in s[..k + 1]
  }

  /**
   * `[...new Set(names)]`: the names without repeats, in the order of their
   * first occurrences.
   */
  function Distinct(s: seq<string>): (r: seq<string>)
    ensures |r| <= |s|
    ensures forall x :: x in r <==> x in s
    ensures forall i, j :: 0 <= i < j < |r| ==> r[i] != r[j]
    ensures forall i, j :: 0 <= i < j < |r| ==> OccursBefore(s, r[i], r[j])
    decreases |s|
  {
    if s == [] then []
    else
      var init := s[..|s| - 1];
      var x := s[|s| - 1];
      var prev := Distinct(init);
      assert s == init + [x];
      DistinctAppend(init, x, prev);
      if x in prev then prev else prev + [x]
  }

  /** Appending a name keeps the first occurrences, in their order, and adds the name when it is new. */
  lemma DistinctAppend(init: seq<string>, x: string, prev: seq<string>)
    requires |prev| <= |init|
    requires forall y :: y in prev <==> y in init
    requires forall i, j :: 0 <= i < j < |prev| ==> prev[i] != prev[j]
    requires forall i, j :: 0 <= i < j < |prev| ==> OccursBefore(init, prev[i], prev[j])
    ensures var r := if x in prev then prev else prev + [x];
      && |r| <= |init + [x]|
      && (forall y :: y in r <==> y in init + [x])
      && (forall i, j :: 0 <= i < j < |r| ==> r[i] != r[j])
      && (forall i, j :: 0 <= i < j < |r| ==> OccursBefore(init + [x], r[i], r[j]))
  {
    assert forall y :: y in init + [x] <==> y in init || y == x;
    OccursBeforeExtends(init, x, prev);
    if x !in prev {
      OccursBeforeLast(init, x, prev);
    }
  }

  /** Occurring earlier in a list still holds once an element is appended. */
  lemma OccursBeforeExtends(init: seq<string>, x: string, prev: seq<string>)
    requires forall i, j :: 0 <= i < j < |prev| ==> OccursBefore(init, prev[i], prev[j])
    ensures forall i, j :: 0 <= i < j < |prev| ==> OccursBefore(init + [x], prev[i], prev[j])
  {
    var s := init + [x];
    forall i, j | 0 <= i < j < |prev| ensures OccursBefore(s, prev[i], prev[j]) {
      var k :| 0 <= k < |init| && init[k] == prev[i] && prev[j] !in init[..k + 1];
      assert s[..k + 1] == init[..k + 1];
      assert s[k] == prev[i];
    }
  }

  /** Every earlier name occurs before a name that first occurs at the end. */
  lemma OccursBeforeLast(init: seq<string>, x: string, prev: seq<string>)
    requires x !in init
    requires forall y :: y in prev ==> y in init
    ensures forall i :: 0 <= i < |prev| ==> OccursBefore(init + [x], prev[i], x)
  {
    var s := init + [x];
    forall i | 0 <= i < |prev| ensures OccursBefore(s, prev[i], x) {
      assert prev[i] in init;
      var k :| 0 <= k < |init| && init[k] == prev[i];
      assert s[..k + 1] == init[..k + 1];
      assert s[k] == prev[i];
    }
  }

  /** The odds next to the first element carrying the name, or "N/A". */
  function OddsNear(pot: seq<TextElement>, name: string): string
    decreases |pot|
  {
    if pot == [] then "N/A"
    else if pot[0].text == name then
      match pot[0].nearbyOdds
      case Some(o) => CleanText(o)
      case None => "N/A"
    else OddsNear(pot[1..], name)
  }

  /** The record of the name at place `i` (counting from 0). */
  function Entry(pot: seq<TextElement>, name: string, i: nat): Player
  {
    Player(NatToString(i + 1), name, OddsNear(pot, name), "")
  }

  /** The first fifty distinct names of the potential players, numbered from 1, with the odds found next to them. */
  function Numbered(pot: seq<TextElement>): seq<Player>
  {
    var names := Distinct(Texts(pot));
    var top := names[..Min(MaxNames, |names|)];
    seq(|top|, i requires 0 <= i < |top| => Entry(pot, top[i], i))
  }

  /** The records of strategy 3. */
  function FreeTextRecords(els: seq<TextElement>): seq<Player>
  {
    Numbered(Potential(els))
  }

  lemma NumberedShape(pot: seq<TextElement>)
    ensures |Numbered(pot)| <= MaxNames
    ensures forall k :: 0 <= k < |Numbered(pot)| ==>
      Numbered(pot)[k].name in Texts(pot) && Numbered(pot)[k].score == ""
      && Numbered(pot)[k].position == NatToString(k + 1)
    ensures forall j, k :: 0 <= j < k < |Numbered(pot)| ==> Numbered(pot)[j].name != Numbered(pot)[k].name
  {
  }

  /**
   * At most fifty records, with pairwise different names that all pass the
   * name tests, numbered 1, 2, ... in order and without a score.
   */
  lemma FreeTextRecordsShape(els: seq<TextElement>)
    ensures |FreeTextRecords(els)| <= MaxNames
    ensures forall k :: 0 <= k < |FreeTextRecords(els)| ==>
      IsFreeTextName(FreeTextRecords(els)[k].name) && FreeTextRecords(els)[k].score == ""
      && FreeTextRecords(els)[k].position == NatToString(k + 1)
    ensures forall j, k :: 0 <= j < k < |FreeTextRecords(els)| ==> FreeTextRecords(els)[j].name != FreeTextRecords(els)[k].name
  {
    var pot := Potential(els);
    NumberedShape(pot);
    forall k | 0 <= k < |Numbered(pot)| ensures IsFreeTextName(Numbered(pot)[k].name) {
      var j :| 0 <= j < |pot| && Texts(pot)[j] == Numbered(pot)[k].name;
    }
  }

  /** Every name passing the tests is among the records while there are at most fifty distinct ones. */
  lemma FreeTextRecordsComplete(els: seq<TextElement>, i: nat)
    requires i < |els| && IsFreeTextName(CleanText(els[i].text))
    requires |Distinct(Texts(Potential(els)))| <= MaxNames
    ensures exists k :: 0 <= k < |FreeTextRecords(els)| && FreeTextRecords(els)[k].name == CleanText(els[i].text)
  {
    var pot := Potential(els);
    AcceptedKeeps(els, IsFreeTextName, i);
    NumberedComplete(pot, CleanText(els[i].text));
    assert FreeTextRecords(els) == Numbered(pot);
  }

  lemma NumberedComplete(pot: seq<TextElement>, name: string)
    requires name in Texts(pot)
    requires |Distinct(Texts(pot))| <= MaxNames
    ensures exists k :: 0 <= k < |Numbered(pot)| && Numbered(pot)[k].name == name
  {
    var names := Distinct(Texts(pot));
    var k :| 0 <= k < |names| && names[k] == name;
    assert Numbered(pot)[k].name == names[k];
  }

  /** Every element whose cleaned text is let through is among the accepted ones. */
  lemma {:induction false} AcceptedKeeps(els: seq<TextElement>, accept: string -> bool, i: nat)
    requires i < |els| && accept(CleanText(els[i].text))
    ensures CleanText(els[i].text) in Texts(Accepted(els, accept))
    decreases |els|
  {
    var prev := els[..|els| - 1];
    var before := Accepted(prev, accept);
    if i < |els| - 1 {
      assert prev[i] == els[i];
      AcceptedKeeps(prev, accept, i);
      var k :| 0 <= k < |Texts(before)| && Texts(before)[k] == CleanText(els[i].text);
      assert Texts(Accepted(els, accept))[k] == Texts(before)[k];
    } else {
      assert Texts(Accepted(els, accept))[|Accepted(els, accept)| - 1] == CleanText(els[i].text);
    }
  }

  /** The `forEach` over the first fifty distinct names: one numbered record per name. */
  method NumberNames(pot: seq<TextElement>, top: seq<string>) returns (players: seq<Player>)
    ensures players == seq(|top|, i requires 0 <= i < |top| => Entry(pot, top[i], i))
  {
    players := [];
    var idx := 0;
    while idx < |top|
      invariant 0 <= idx <= |top|
      invariant |players| == idx
      invariant forall k :: 0 <= k < idx ==> players[k] == Entry(pot, top[k], k)
    {
      var name := top[idx];
      var odds := OddsNear(pot, name);
      players := players + [Player(NatToString(idx + 1), name, odds, "")];
      idx := idx + 1;
    }
  }

  /** Strategy 3: gather the potential players, then number the first fifty distinct names. */
  method FreeTextPlayers(els: seq<TextElement>) returns (players: seq<Player>)
    ensures players == FreeTextRecords(els)
  {
    hide IsFreeTextName, CleanText, Distinct, Accepted;
    var potential := [];
    AcceptedStep(els[..0], IsFreeTextName);
    var i := 0;
    while i < |els|
      invariant 0 <= i <= |els|
      invariant potential == Accepted(els[..i], IsFreeTextName)
    {
      var text := CleanText(els[i].text);
      if IsFreeTextName(text) {
        potential := potential + [TextElement(text, els[i].nearbyOdds)];
      }
      AcceptedStep(els[..i + 1], IsFreeTextName);
      assert els[..i + 1][..i] == els[..i] && els[..i + 1][i] == els[i];
      i := i + 1;
    }
    assert els[..i] == els;
    var unique := Distinct(Texts(potential));
    var top := unique[..Min(MaxNames, |unique|)];
    players := NumberNames(potential, top);
  }
}
