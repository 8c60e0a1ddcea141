/**
 * Strategy 2 of the extraction (server.js): the player containers of the page,
 * used to fill in missing odds of the table's records, or as the records
 * themselves when the table gave none.
 */
module Containers {
  import opened Common
  import opened Text
  import opened Records
  import opened OddsFormat
  import opened Names
  import opened Page

  /** `$container.attr('data-odds') || oddsEl.attr('data-odds')`: the container's own non-empty attribute, else the odds element's. */
  function DataOdds(c: Container): (r: Option<string>)
    ensures c.dataOdds.Some? && c.dataOdds.value != "" ==> r == c.dataOdds
  {
    var fromElement := match c.odds case Some(o) => o.dataOdds case None => None;
    match c.dataOdds
    case Some(v) => if v != "" then Some(v) else fromElement
    case None => fromElement
  }

  /**
   * The odds a container shows, starting from `current`: the odds element's
   * text when it is odds, then overridden by the data attribute when that is.
   */
  function ContainerOdds(c: Container, current: string): (r: string)
    ensures r == current || IsOdds(r)
    ensures DataOdds(c).Some? && IsOdds(DataOdds(c).value) ==> r == DataOdds(c).value
    ensures c.odds.Some? && IsOdds(CleanText(c.odds.value.text)) && !(DataOdds(c).Some? && IsOdds(DataOdds(c).value)) ==> r == CleanText(c.odds.value.text)
    ensures (c.odds.None? || !IsOdds(CleanText(c.odds.value.text))) && !(DataOdds(c).Some? && IsOdds(DataOdds(c).value)) ==> r == current
  {
    var fromText := match c.odds
      case Some(o) => (var t := CleanText(o.text); if IsOdds(t) then t else current)
      case None => current;
    match DataOdds(c)
    case Some(d) => if IsOdds(d) then d else fromText
    case None => fromText
  }

  /** The first ten characters of the container's lower-cased, cleaned name. */
  function NameKey(raw: string): (r: string)
    ensures |r| == Min(10, |CleanText(raw)|)
    ensures forall i :: 0 <= i < |r| ==> r[i] == LowerChar(CleanText(raw)[i])
  {
    var n := ToLower(CleanText(raw));
    n[..Min(10, |n|)]
  }

  predicate NameHasKey(p: Player, key: string)
  {
    p.name != "" && Contains(ToLower(p.name), key)
  }

  /** `players.find(...)`: index of the first record whose lower-cased name contains the key. */
  function FindByKey(players: seq<Player>, key: string): (r: Option<nat>)
    ensures r.Some? ==> r.value < |players| && NameHasKey(players[r.value], key)
    ensures r.Some? ==> forall j :: 0 <= j < r.value ==> !NameHasKey(players[j], key)
    ensures r.None? ==> forall j :: 0 <= j < |players| ==> !NameHasKey(players[j], key)
    decreases |players|
  {
    if players == [] then None
    else if NameHasKey(players[0], key) then Some(0)
    else
      match FindByKey(players[1..], key)
      case None => None
      case Some(k) => Some(k + 1)
  }

  /** `players` and `r` agree on everything but odds, and odds only change from missing to recognised odds. */
  predicate OnlyFillsOdds(players: seq<Player>, r: seq<Player>)
  {
    && |r| == |players|
    && (forall k :: 0 <= k < |r| ==> r[k] == players[k].(odds := r[k].odds))
    && (forall k :: 0 <= k < |r| && r[k].odds != players[k].odds ==> MissingOdds(players[k].odds) && IsOdds(r[k].odds))
  }

  /** Container `c` names the record at index `i`: its name key is first found there. */
  predicate NamesRecord(players: seq<Player>, c: Container, i: nat)
  {
    c.nameText.Some? && FindByKey(players, NameKey(c.nameText.value)) == Some(i)
  }

  /**
   * What one container does to the records: the first record its name key
   * finds, when that record misses its odds, takes the odds the container
   * shows; every other record stays as it was.
   */
  function BackfillOne(players: seq<Player>, c: Container): (r: seq<Player>)
    ensures OnlyFillsOdds(players, r)
    ensures forall k :: 0 <= k < |r| && !(NamesRecord(players, c, k) && MissingOdds(players[k].odds)) ==> r[k] == players[k]
    ensures forall i :: 0 <= i < |r| && NamesRecord(players, c, i) && MissingOdds(players[i].odds) ==>
      r[i].odds == ContainerOdds(c, players[i].odds)
  {
    match c.nameText
    case None => players
    case Some(raw) =>
      match FindByKey(players, NameKey(raw))
      case None => players
      case Some(i) =>
        if MissingOdds(players[i].odds) then players[i := players[i].(odds := ContainerOdds(c, players[i].odds))]
        else players
  }

  /** Neither form of missing odds is recognised as odds. */
  lemma MissingIsNotOdds(t: string)
    requires MissingOdds(t)
    ensures !IsOdds(t)
  {
    assert !HasDigit(t) by {
      if t == "N/A" {
        assert forall i :: 0 <= i < |t| ==> t[i] in "N/A";
      }
    }
  }

  lemma OnlyFillsOddsTrans(a: seq<Player>, b: seq<Player>, c: seq<Player>)
    requires OnlyFillsOdds(a, b) && OnlyFillsOdds(b, c)
    ensures OnlyFillsOdds(a, c)
  {
    forall k | 0 <= k < |c| && c[k].odds != a[k].odds
      ensures MissingOdds(a[k].odds) && IsOdds(c[k].odds)
    {
      if b[k].odds != a[k].odds && c[k].odds != b[k].odds {
        MissingIsNotOdds(b[k].odds);
      }
    }
  }

  /** The containers applied in document order. */
  function Backfill(players: seq<Player>, cs: seq<Container>): (r: seq<Player>)
    ensures OnlyFillsOdds(players, r)
    decreases |cs|
  {
    if cs == [] then players
    else
      var prev := Backfill(players, cs[..|cs| - 1]);
      var r := BackfillOne(prev, cs[|cs| - 1]);
      OnlyFillsOddsTrans(players, prev, r);
      r
  }

  /** The backfill of a non-empty list of containers is the last container's step after the others. */
  lemma BackfillLast(players: seq<Player>, cs: seq<Container>)
    requires cs != []
    ensures Backfill(players, cs) == BackfillOne(Backfill(players, cs[..|cs| - 1]), cs[|cs| - 1])
  {
  }

  /** Records with the same names are found at the same index. */
  lemma {:induction false} FindByKeySameNames(a: seq<Player>, b: seq<Player>, key: string)
    requires |a| == |b| && forall k :: 0 <= k < |a| ==> a[k].name == b[k].name
    ensures FindByKey(a, key) == FindByKey(b, key)
    decreases |a|
  {
    if a != [] {
      FindByKeySameNames(a[1..], b[1..], key);
    }
  }

  /** The backfill never renames a record, so a container names the same record before and after it. */
  lemma NamesRecordKept(players: seq<Player>, cs: seq<Container>, c: Container, i: nat)
    ensures NamesRecord(Backfill(players, cs), c, i) <==> NamesRecord(players, c, i)
  {
    if c.nameText.Some? {
      FindByKeySameNames(Backfill(players, cs), players, NameKey(c.nameText.value));
    }
  }

  /** Recognised odds are never missing odds. */
  lemma OddsNotMissing(t: string)
    requires IsOdds(t)
    ensures !MissingOdds(t)
  {
    if MissingOdds(t) {
      MissingIsNotOdds(t);
    }
  }

  /** A record that no container naming it shows odds for comes out of the backfill unchanged. */
  lemma {:induction false} BackfillUntouched(players: seq<Player>, cs: seq<Container>, i: nat)
    requires i < |players|
    requires forall m :: 0 <= m < |cs| && NamesRecord(players, cs[m], i) ==> !IsOdds(ContainerOdds(cs[m], players[i].odds))
    ensures Backfill(players, cs)[i] == players[i]
    decreases |cs|
  {
    if cs != [] {
      var init := cs[..|cs| - 1];
      var c := cs[|cs| - 1];
      assert Backfill(players, cs) == BackfillOne(Backfill(players, init), c);
      hide IsOdds, ContainerOdds, FindByKey, CleanText, ToLower, Backfill;
      forall m | 0 <= m < |init| && NamesRecord(players, init[m], i)
        ensures !IsOdds(ContainerOdds(init[m], players[i].odds))
      {
        assert init[m] == cs[m];
      }
      BackfillUntouched(players, init, i);
      NamesRecordKept(players, init, c, i);
    }
  }

  /**
   * A record missing its odds takes the odds shown by the first container
   * that names it and shows odds; the later containers leave them alone.
   */
  lemma {:induction false} BackfillFills(players: seq<Player>, cs: seq<Container>, i: nat, j: nat)
    requires i < |players| && j < |cs| && MissingOdds(players[i].odds)
    requires NamesRecord(players, cs[j], i) && IsOdds(ContainerOdds(cs[j], players[i].odds))
    requires forall m :: 0 <= m < j && NamesRecord(players, cs[m], i) ==> !IsOdds(ContainerOdds(cs[m], players[i].odds))
    ensures Backfill(players, cs)[i].odds == ContainerOdds(cs[j], players[i].odds)
    decreases |cs|
  {
    hide IsOdds, ContainerOdds, FindByKey, CleanText, ToLower, Backfill, NameKey;
    var init := cs[..|cs| - 1];
    var c := cs[|cs| - 1];
    var prev := Backfill(players, init);
    BackfillLast(players, cs);
    NamesRecordKept(players, init, c, i);
    if j == |cs| - 1 {
      forall m | 0 <= m < |init| && NamesRecord(players, init[m], i)
        ensures !IsOdds(ContainerOdds(init[m], players[i].odds))
      {
        assert init[m] == cs[m];
      }
      BackfillUntouched(players, init, i);
    } else {
      forall m | 0 <= m < j && NamesRecord(players, init[m], i)
        ensures !IsOdds(ContainerOdds(init[m], players[i].odds))
      {
        assert init[m] == cs[m];
      }
      assert init[j] == cs[j];
      BackfillFills(players, init, i, j);
      OddsNotMissing(prev[i].odds);
    }
  }

  predicate SomeOddsMissing(players: seq<Player>)
  {
    exists k :: 0 <= k < |players| && MissingOdds(players[k].odds)
  }

  /** The backfill runs only when there are records and one of them misses its odds. */
  function BackfillIfNeeded(players: seq<Player>, cs: seq<Container>): (r: seq<Player>)
    ensures OnlyFillsOdds(players, r)
    ensures !SomeOddsMissing(players) ==> r == players
  {
    if |players| > 0 && SomeOddsMissing(players) then Backfill(players, cs) else players
  }

  /** The `playerContainers.each` loop of the backfill. */
  method BackfillOdds(players: seq<Player>, cs: seq<Container>) returns (r: seq<Player>)
    ensures r == BackfillIfNeeded(players, cs)
  {
    r := players;
    if |players| > 0 && SomeOddsMissing(players) {
      var i := 0;
      while i < |cs|
        invariant 0 <= i <= |cs|
        invariant r == Backfill(players, cs[..i])
      {
        var c := cs[i];
        if c.nameText.Some? {
          var found := FindByKey(r, NameKey(c.nameText.value));
          if found.Some? && MissingOdds(r[found.value].odds) {
            var p := r[found.value];
            r := r[found.value := p.(odds := ContainerOdds(c, p.odds))];
          }
        }
        assert cs[..i + 1][..i] == cs[..i];
        i := i + 1;
      }
      assert cs[..i] == cs;
    }
  }

  /** The record a container gives when the table gave none; `index` is its place among the containers. */
  function ContainerRecord(c: Container, index: nat): (r: Option<Player>)
    ensures r.Some? ==> r.value.position == NatToString(index + 1)
    ensures r.Some? ==> Utf16Length(r.value.name) > 1 && !IsExcludedText(r.value.name) && r.value.score == ""
    ensures r.Some? ==> r.value.odds == "N/A" || IsOdds(r.value.odds)
  {
    match c.nameText
    case None => None
    case Some(raw) =>
      var name := CleanText(raw);
      if Utf16Length(name) > 1 && !IsExcludedText(name) then Some(Player(NatToString(index + 1), name, ContainerOdds(c, "N/A"), ""))
      else None
  }

  /** The number a record's position denotes, or 0 when it is not a digit string. */
  function Place(p: Player): nat
  {
    if AllDigits(p.position) then DigitsValue(p.position) else 0
  }

  /** Everything a record of a container holds. */
  predicate IsContainerRecord(p: Player, count: nat)
  {
    && Utf16Length(p.name) > 1 && !IsExcludedText(p.name) && p.score == ""
    && (p.odds == "N/A" || IsOdds(p.odds))
    && AllDigits(p.position) && 1 <= Place(p) <= count
  }

  /** The records of the containers, numbered by the containers' places, so in increasing order. */
  function ContainerRecords(cs: seq<Container>): (r: seq<Player>)
    ensures |r| <= |cs|
    decreases |cs|
  {
    if cs == [] then []
    else
      var prev := ContainerRecords(cs[..|cs| - 1]);
      match ContainerRecord(cs[|cs| - 1], |cs| - 1)
      case None => prev
      case Some(p) => prev + [p]
  }

  /**
   * Every record of the containers has a name of two or more characters that
   * the block-list lets through, no score, shown odds, and a place number
   * between 1 and the number of containers; the numbers increase.
   */
  lemma {:induction false} ContainerRecordsShape(cs: seq<Container>)
    ensures forall k :: 0 <= k < |ContainerRecords(cs)| ==> IsContainerRecord(ContainerRecords(cs)[k], |cs|)
    ensures forall j, k :: 0 <= j < k < |ContainerRecords(cs)| ==> Place(ContainerRecords(cs)[j]) < Place(ContainerRecords(cs)[k])
    decreases |cs|
  {
    if cs != [] {
      var prev := ContainerRecords(cs[..|cs| - 1]);
      ContainerRecordsShape(cs[..|cs| - 1]);
      ContainerRecordsLast(cs);
      var rec := ContainerRecord(cs[|cs| - 1], |cs| - 1);
      if rec.Some? {
        assert Place(rec.value) == |cs|;
      }
    }
  }

  lemma ContainerRecordsLast(cs: seq<Container>)
    requires cs != []
    ensures ContainerRecord(cs[|cs| - 1], |cs| - 1).None? ==> ContainerRecords(cs) == ContainerRecords(cs[..|cs| - 1])
    ensures ContainerRecord(cs[|cs| - 1], |cs| - 1).Some? ==>
      ContainerRecords(cs) == ContainerRecords(cs[..|cs| - 1]) + [ContainerRecord(cs[|cs| - 1], |cs| - 1).value]
  {
  }

  /** The `playerContainers.each` loop that builds the records. */
  method ContainerPlayers(cs: seq<Container>) returns (players: seq<Player>)
    ensures players == ContainerRecords(cs)
  {
    hide IsExcludedText, Utf16Length, ContainerOdds, CleanText, NatToString;
    players := [];
    var index := 0;
    while index < |cs|
      invariant 0 <= index <= |cs|
      invariant players == ContainerRecords(cs[..index])
    {
      var c := cs[index];
      if c.nameText.Some? {
        var name := CleanText(c.nameText.value);
        var odds := ContainerOdds(c, "N/A");
        if Utf16Length(name) > 1 && !IsExcludedText(name) {
          players := players + [Player(NatToString(index + 1), name, odds, "")];
        }
      }
      ContainerRecordsLast(cs[..index + 1]);
      assert cs[..index + 1][..index] == cs[..index];
      index := index + 1;
    }
    assert cs[..index] == cs;
  }
}
