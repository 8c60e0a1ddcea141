/**
 * A user's saved team and the two places where the browser client brings it
 * up to date with the leaderboard: the score sync (public/script.js, the
 * refresh handler and the automatic sync after a fetch) and the scoreboard
 * rendering, which also adds up the team's total score.
 */
module Teams {
  import opened Common
  import opened Text
  import opened Records
  import opened OddsRank

  /** One pick of the team, `{name, odds, position, score, tier}`. */
  datatype TeamPlayer = TeamPlayer(name: string, odds: string, position: string, score: string, tier: nat)

  /**
   * The team object keyed by tier number, as its members in key order:
   * the keys are small integers, which `Object.keys` lists in ascending order.
   */
  type Team = seq<TeamPlayer>

  /** `a.toLowerCase() === b.toLowerCase()`. */
  predicate SameName(a: string, b: string)
  {
    ToLower(a) == ToLower(b)
  }

  /** `players.find(p => p.name.toLowerCase() === name.toLowerCase())`: the first player with that name, in any case. */
  function FindByName(players: seq<Player>, name: string): (r: Option<Player>)
    ensures r.None? <==> forall i :: 0 <= i < |players| ==> !SameName(players[i].name, name)
    ensures r.Some? ==> exists i :: 0 <= i < |players| && players[i] == r.value && SameName(players[i].name, name)
                                   && forall j :: 0 <= j < i ==> !SameName(players[j].name, name)
  {
    if players == [] then None
    else if SameName(players[0].name, name) then Some(players[0])
    else
      var r := FindByName(players[1..], name);
      assert forall i :: 1 <= i < |players| ==> players[i] == players[1..][i - 1];
      r
  }

  /**
   * The member after the sync step: it takes the score of the leaderboard
   * player found under its name, when that score is not empty; nothing else
   * about the member changes.
   */
  function Synced(member: TeamPlayer, players: seq<Player>): (r: TeamPlayer)
    ensures r.(score := member.score) == member
    ensures r.score != member.score ==> var found := FindByName(players, member.name);
      found.Some? && found.value.score != "" && r.score == found.value.score
  {
    match FindByName(players, member.name)
    case Some(p) => if p.score != "" then member.(score := p.score) else member
    case None => member
  }

  /** Every member of the team after the sync. */
  function SyncAll(team: Team, players: seq<Player>): (r: Team)
    ensures |r| == |team|
  {
    seq(|team|, i requires 0 <= i < |team| => Synced(team[i], players))
  }

  /** Syncing a second time against the same leaderboard changes nothing. */
  lemma SyncIdempotent(team: Team, players: seq<Player>)
    ensures SyncAll(SyncAll(team, players), players) == SyncAll(team, players)
  {
    var once := SyncAll(team, players);
    forall i | 0 <= i < |team| ensures Synced(once[i], players) == once[i] {
      SyncedIdempotent(team[i], players);
    }
  }

  lemma SyncedIdempotent(member: TeamPlayer, players: seq<Player>)
    ensures Synced(Synced(member, players), players) == Synced(member, players)
  {
    var once := Synced(member, players);
    assert once.name == member.name;
  }

  /** A member whose name the leaderboard lists with a score gets exactly that score. */
  lemma SyncTakesLeaderboardScore(team: Team, players: seq<Player>, i: nat, k: nat)
    requires i < |team| && k < |players|
    requires SameName(players[k].name, team[i].name) && players[k].score != ""
    requires forall j :: 0 <= j < k ==> !SameName(players[j].name, team[i].name)
    ensures SyncAll(team, players)[i].score == players[k].score
  {
    var found := FindByName(players, team[i].name);
    var m :| 0 <= m < |players| && players[m] == found.value && SameName(players[m].name, team[i].name)
             && forall j :: 0 <= j < m ==> !SameName(players[j].name, team[i].name);
    assert m == k;
  }

  /** One member of the sync: the leaderboard player found under its name lends it a non-empty score. */
  method SyncMember(member: TeamPlayer, players: seq<Player>) returns (updated: TeamPlayer)
    ensures updated == Synced(member, players)
  {
    updated := member;
    var leaderboardPlayer := FindByName(players, member.name);
    if leaderboardPlayer.Some? && leaderboardPlayer.value.score != "" {
      updated := member.(score := leaderboardPlayer.value.score);
    }
  }

  /**
   * The score sync in place: each member found on the leaderboard with a
   * non-empty score takes that score.
   */
  method SyncScores(team: Team, players: seq<Player>) returns (synced: Team)
    ensures synced == SyncAll(team, players)
  {
    hide Synced;
    synced := team;
    var i := 0;
    while i < |team|
      invariant i <= |team| && |synced| == |team|
      invariant forall j :: 0 <= j < i ==> synced[j] == Synced(team[j], players)
      invariant forall j :: i <= j < |team| ==> synced[j] == team[j]
    {
      var updated := SyncMember(synced[i], players);
      synced := synced[i := updated];
      i := i + 1;
    }
  }

  /** `parseInt(score) || 0`: the leading integer of the score text, and 0 for `NaN` (as for `E` or `-`). */
  function ScoreValue(score: string): (r: int)
    ensures !HasDigit(score) ==> r == 0
  {
    match ParseInt(score)
    case Some(v) => v
    case None => 0
  }

  /** Over-par, under-par and plain scores count with their sign. */
  lemma {:induction false} SignedScores(a: string)
    requires a != [] && AllDigits(a)
    ensures ScoreValue(a) == DigitsValue(a)
    ensures ScoreValue("+" + a) == DigitsValue(a)
    ensures ScoreValue("-" + a) == -(DigitsValue(a) as int)
  {
    WholeScore(a, a);
    WholeScore("+" + a, a);
    WholeScore("-" + a, a);
  }

  lemma WholeScore(s: string, a: string)
    requires a != [] && AllDigits(a)
    requires s == a || s == "+" + a || s == "-" + a
    ensures ScoreValue(s) == if s[0] == '-' then -(DigitsValue(a) as int) else DigitsValue(a)
  {
    assert TrimStart(s) == s;
    assert Unsigned(s) == a;
    DigitRunOf(a, []);
    assert a + [] == a && a[..|a|] == a;
  }

  /** The team's total: the sum of its members' score values. */
  function TeamTotal(team: Team): int
  {
    if team == [] then 0 else TeamTotal(team[..|team| - 1]) + ScoreValue(team[|team| - 1].score)
  }

  /** The total of a team split in two is the sum of the two totals. */
  lemma {:induction false} TotalAppend(a: Team, b: Team)
    ensures TeamTotal(a + b) == TeamTotal(a) + TeamTotal(b)
    decreases |b|
  {
    hide ScoreValue;
    if b != [] {
      var c := a + b;
      assert c[..|c| - 1] == a + b[..|b| - 1];
      TotalAppend(a, b[..|b| - 1]);
    } else {
      assert a + b == a;
    }
  }

  lemma TotalStep(team: Team, i: nat)
    requires i < |team|
    ensures TeamTotal(team[..i + 1]) == TeamTotal(team[..i]) + ScoreValue(team[i].score)
  {
    hide ScoreValue;
    assert team[..i + 1][..i] == team[..i];
  }

  /** Members whose scores hold no digit add nothing to the total. */
  lemma {:induction false} UnscoredTeam(team: Team)
    requires forall i :: 0 <= i < |team| ==> !HasDigit(team[i].score)
    ensures TeamTotal(team) == 0
  {
    hide ScoreValue;
    if team != [] {
      UnscoredTeam(team[..|team| - 1]);
    }
  }

  /**
   * One row of the scoreboard: the member's score value, taken from the
   * leaderboard when it is loaded and lists the member with a score, in
   * which case the stored score is updated too.
   */
  method RenderMember(member: TeamPlayer, leaderboard: Option<seq<Player>>) returns (updated: TeamPlayer, score: int)
    ensures updated == if leaderboard.Some? then Synced(member, leaderboard.value) else member
    ensures score == ScoreValue(updated.score)
  {
    updated := member;
    score := ScoreValue(member.score);
    if leaderboard.Some? {
      var leaderboardPlayer := FindByName(leaderboard.value, member.name);
      if leaderboardPlayer.Some? && leaderboardPlayer.value.score != "" {
        score := ScoreValue(leaderboardPlayer.value.score);
        updated := member.(score := leaderboardPlayer.value.score);
      }
    }
  }

  /**
   * The scoreboard loop: each member's score is taken from the leaderboard
   * when it is loaded and lists the member with a score (the stored score is
   * updated too), and the score values are added up.
   */
  method RenderScores(team: Team, leaderboard: Option<seq<Player>>) returns (synced: Team, total: int)
    ensures synced == if leaderboard.Some? then SyncAll(team, leaderboard.value) else team
    ensures total == TeamTotal(synced)
  {
    synced := team;
    total := 0;
    var i := 0;
    assert TeamTotal(synced[..0]) == 0;
    ghost var expected := if leaderboard.Some? then SyncAll(team, leaderboard.value) else team;
    hide ScoreValue, ParseInt, TeamTotal, Synced, FindByName;
    while i < |team|
      invariant i <= |team| && |synced| == |team| == |expected|
      invariant forall j :: 0 <= j < i ==> synced[j] == expected[j]
      invariant forall j :: i <= j < |team| ==> synced[j] == team[j]
      invariant total == TeamTotal(synced[..i])
    {
      var player, score := RenderMember(synced[i], leaderboard);
      synced := synced[i := player];
      TotalStep(synced, i);
      total := total + score;
      i := i + 1;
    }
    assert synced == expected;
    assert synced[..i] == synced;
  }
}
