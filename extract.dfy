/**
 * `extractData` (server.js): the table strategy, the odds backfill from
 * player containers, the two fallback strategies tried while nothing has
 * been found, the tournament title, and the cap on the number of players.
 */
module Extract {
  import opened Common
  import opened Text
  import opened Records
  import opened Names
  import opened Page
  import opened TableScan
  import opened RowExtract
  import opened Containers
  import opened FreeText

  /** The title used when no title selector gives a usable text. */
  const DefaultTitle := "Sony Open in Hawaii"

  /** `players.slice(0, 100)`. */
  const MaxPlayers := 100

  /** The payload: `{tournament, players}`; the `lastUpdated` clock reading is not modelled. */
  datatype Leaderboard = Leaderboard(tournament: string, players: seq<Player>)

  /** A cleaned title text is used when it is longer than 5 and shorter than 100 UTF-16 code units. */
  predicate FitsTitle(text: string)
  {
    5 < Utf16Length(text) < 100
  }

  /**
   * The tournament name: the cleaned text of the first selector's first
   * match that fits, tried in selector order, or the default title.
   */
  function PickTitle(titles: seq<Option<string>>): (r: string)
    ensures r == DefaultTitle || exists i :: 0 <= i < |titles| && titles[i].Some? && r == CleanText(titles[i].value) && FitsTitle(r)
    ensures (forall i :: 0 <= i < |titles| && titles[i].Some? ==> !FitsTitle(CleanText(titles[i].value))) ==> r == DefaultTitle
  {
    if titles == [] then DefaultTitle
    else if titles[0].Some? && FitsTitle(CleanText(titles[0].value)) then CleanText(titles[0].value)
    else
      var r := PickTitle(titles[1..]);
      assert forall i :: 1 <= i < |titles| ==> titles[i] == titles[1..][i - 1];
      r
  }

  /** The first selector whose match fits gives the title, whatever the later ones hold. */
  lemma {:induction false} FirstFittingTitle(titles: seq<Option<string>>, i: nat)
    requires i < |titles| && titles[i].Some? && FitsTitle(CleanText(titles[i].value))
    requires forall j :: 0 <= j < i && titles[j].Some? ==> !FitsTitle(CleanText(titles[j].value))
    ensures PickTitle(titles) == CleanText(titles[i].value)
  {
    if i > 0 {
      var rest := titles[1..];
      assert rest[i - 1] == titles[i];
      forall j | 0 <= j < i - 1 && rest[j].Some? ensures !FitsTitle(CleanText(rest[j].value)) {
        assert rest[j] == titles[j + 1];
      }
      FirstFittingTitle(rest, i - 1);
    }
  }

  /** The `for (const selector of tournamentSelectors)` loop with its `break`. */
  method PickTournament(titles: seq<Option<string>>) returns (name: string)
    ensures name == PickTitle(titles)
  {
    name := DefaultTitle;
    var i := 0;
    while i < |titles|
      invariant 0 <= i <= |titles|
      invariant PickTitle(titles) == PickTitle(titles[i..])
      invariant name == DefaultTitle
    {
      assert titles[i..][1..] == titles[i + 1..];
      if titles[i].Some? {
        var text := CleanText(titles[i].value);
        if text != "" && FitsTitle(text) {
          name := text;
          return;
        }
      }
      i := i + 1;
    }
  }

  /** The records of the chosen table, or none when no table is chosen. */
  function TableRecords(tables: seq<Table>): (r: seq<Player>)
  {
    match ChosenTable(tables)
    case Some(i) => RowRecords(DataRows(tables[i]))
    case None => []
  }

  /**
   * The players before the cap: the table records with their odds
   * backfilled; the container records if there are none; the free-text
   * records if there are still none.
   */
  function Candidates(doc: Document): seq<Player>
  {
    var found := BackfillIfNeeded(TableRecords(doc.tables), doc.containers);
    var found := if found == [] then ContainerRecords(doc.containers) else found;
    if found == [] then FreeTextRecords(doc.elements) else found
  }

  /** At most the first `MaxPlayers` players. */
  function Capped(players: seq<Player>): (r: seq<Player>)
    ensures |r| == Min(|players|, MaxPlayers) && r == players[..|r|]
  {
    if |players| <= MaxPlayers then players else players[..MaxPlayers]
  }

  /** What `extractData` returns for a page. */
  function LeaderboardOf(doc: Document): Leaderboard
  {
    Leaderboard(PickTitle(doc.titles), Capped(Candidates(doc)))
  }

  /** `extractData`: the strategies in their order, the title, the cap. */
  method ExtractData(doc: Document) returns (data: Leaderboard)
    ensures data == LeaderboardOf(doc)
  {
    var players: seq<Player> := [];
    var chosen := SelectTable(doc.tables);
    if chosen.Some? {
      players := ExtractRows(doc.tables[chosen.value]);
    }
    players := BackfillOdds(players, doc.containers);
    if |players| == 0 {
      players := ContainerPlayers(doc.containers);
    }
    if |players| == 0 {
      players := FreeTextPlayers(doc.elements);
    }
    var tournament := PickTournament(doc.titles);
    data := Leaderboard(tournament, if |players| <= MaxPlayers then players else players[..MaxPlayers]);
  }

  /**
   * When the table gives records, the payload is those records in their
   * order, capped, with only missing odds filled in from the containers.
   */
  lemma TablePreferred(doc: Document)
    requires TableRecords(doc.tables) != []
    ensures var table, players := TableRecords(doc.tables), LeaderboardOf(doc).players;
      && |players| == Min(|table|, MaxPlayers)
      && (forall k :: 0 <= k < |players| ==> players[k] == table[k].(odds := players[k].odds))
      && (forall k :: 0 <= k < |players| && players[k].odds != table[k].odds ==> MissingOdds(table[k].odds))
  {
    hide Backfill, ContainerRecords, FreeTextRecords, PickTitle;
    var table := TableRecords(doc.tables);
    var found := BackfillIfNeeded(table, doc.containers);
    assert |found| == |table|;
    assert Candidates(doc) == found;
  }

  /** The container strategy runs only when the table strategy found nothing. */
  lemma ContainersWhenNoTable(doc: Document)
    requires TableRecords(doc.tables) == []
    requires ContainerRecords(doc.containers) != []
    ensures LeaderboardOf(doc).players == Capped(ContainerRecords(doc.containers))
  {
    assert BackfillIfNeeded([], doc.containers) == [];
  }

  /** The free-text strategy runs only when both other strategies found nothing. */
  lemma FreeTextWhenNothingElse(doc: Document)
    requires TableRecords(doc.tables) == [] && ContainerRecords(doc.containers) == []
    ensures LeaderboardOf(doc).players == FreeTextRecords(doc.elements)
  {
    assert BackfillIfNeeded([], doc.containers) == [];
    FreeTextRecordsShape(doc.elements);
  }

  /** Whatever strategy produced them, no listed name is excluded text. */
  lemma NamesNotExcluded(doc: Document)
    ensures forall k :: 0 <= k < |LeaderboardOf(doc).players| ==> !IsExcludedText(LeaderboardOf(doc).players[k].name)
  {
    var players := LeaderboardOf(doc).players;
    var all := Candidates(doc);
    assert players == all[..|players|];
    var table := TableRecords(doc.tables);
    var found := BackfillIfNeeded(table, doc.containers);
    if found != [] {
      TableNamesNotExcluded(doc.tables);
      forall k | 0 <= k < |found| ensures !IsExcludedText(found[k].name) {
        assert found[k].name == table[k].name;
      }
    } else if ContainerRecords(doc.containers) != [] {
      ContainerRecordsShape(doc.containers);
    } else {
      FreeTextRecordsShape(doc.elements);
    }
    forall k | 0 <= k < |players| ensures !IsExcludedText(players[k].name) {
      assert players[k] == all[k];
    }
  }

  lemma TableNamesNotExcluded(tables: seq<Table>)
    ensures forall k :: 0 <= k < |TableRecords(tables)| ==> !IsExcludedText(TableRecords(tables)[k].name)
  {
    match ChosenTable(tables)
    case Some(i) => RowRecordsShape(DataRows(tables[i]));
    case None =>
  }

  /** A page with nothing on it gives the default title and no players. */
  lemma EmptyPage()
    ensures LeaderboardOf(Document([], [], [], [])) == Leaderboard(DefaultTitle, [])
  {
    var doc := Document([], [], [], []);
    assert ChosenTable(doc.tables) == None;
    assert TableRecords(doc.tables) == [];
    assert BackfillIfNeeded([], []) == [];
    assert ContainerRecords([]) == [];
    assert FreeTextRecords([]) == [];
  }
}
