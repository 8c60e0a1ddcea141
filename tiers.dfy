/**
 * `groupPlayersIntoTiers` (public/script.js): the players with odds are
 * sorted by the key `parseOdds` gives them and cut into six tiers of 5%,
 * 10%, 15%, 20%, 25% and 25% of their number (at least one each while
 * players remain); whatever is left over, and every player without odds,
 * goes to the sixth tier.
 */
module Tiers {
  import opened Common
  import opened Records
  import opened OddsRank

  /** A player with odds and the sort key of those odds. */
  datatype Keyed = Keyed(player: Player, oddsValue: OddsKey)

  /** A player as placed in a tier: its record, its sort key and its tier number. */
  datatype Ranked = Ranked(player: Player, oddsValue: OddsKey, tier: nat)

  /**
   * The order of the comparator `a.oddsValue - b.oddsValue`: numbers by
   * value, before `Infinity`; `NaN` is ordered as `Infinity` is.
   */
  predicate KeyLe(a: OddsKey, b: OddsKey)
  {
    if a.Finite? && b.Finite? then a.value <= b.value else !b.Finite?
  }

  lemma KeyLeTotal(a: OddsKey, b: OddsKey)
    ensures KeyLe(a, b) || KeyLe(b, a)
  {
  }

  lemma KeyLeTransitive(a: OddsKey, b: OddsKey, c: OddsKey)
    requires KeyLe(a, b) && KeyLe(b, c)
    ensures KeyLe(a, c)
  {
  }

  predicate Sorted(keys: seq<OddsKey>)
  {
    forall i, j :: 0 <= i < j < |keys| ==> KeyLe(keys[i], keys[j])
  }

  function Keys(ks: seq<Keyed>): (r: seq<OddsKey>)
    ensures |r| == |ks|
  {
    seq(|ks|, i requires 0 <= i < |ks| => ks[i].oddsValue)
  }

  function KeyedPlayers(ks: seq<Keyed>): (r: seq<Player>)
    ensures |r| == |ks|
  {
    seq(|ks|, i requires 0 <= i < |ks| => ks[i].player)
  }

  /** `x` placed before the first element whose key is not below its own. */
  function Insert(x: Keyed, s: seq<Keyed>): (r: seq<Keyed>)
    ensures |r| == |s| + 1
  {
    if s == [] then [x]
    else if KeyLe(x.oddsValue, s[0].oddsValue) then [x] + s
    else [s[0]] + Insert(x, s[1..])
  }

  /**
   * `sort((a, b) => a.oddsValue - b.oddsValue)`, as a stable insertion
   * sort: each element goes before the later elements with the same key.
   */
  function SortByKey(s: seq<Keyed>): (r: seq<Keyed>)
    ensures |r| == |s|
  {
    if s == [] then [] else Insert(s[0], SortByKey(s[1..]))
  }

  /** `Insert` puts `x` just before the first element whose key is not below `x`'s. */
  lemma {:induction false} InsertPosition(x: Keyed, s: seq<Keyed>) returns (k: nat)
    ensures k <= |s| && Insert(x, s) == s[..k] + [x] + s[k..]
    ensures forall i :: 0 <= i < k ==> !KeyLe(x.oddsValue, s[i].oddsValue)
    ensures k < |s| ==> KeyLe(x.oddsValue, s[k].oddsValue)
  {
    if s == [] || KeyLe(x.oddsValue, s[0].oddsValue) {
      k := 0;
    } else {
      var j := InsertPosition(x, s[1..]);
      k := j + 1;
      assert s[..k] == [s[0]] + s[1..][..j];
      assert s[k..] == s[1..][j..];
    }
  }

  /** Inserting adds exactly `x`. */
  lemma InsertPermutes(x: Keyed, s: seq<Keyed>)
    ensures multiset(KeyedPlayers(Insert(x, s))) == multiset(KeyedPlayers(s)) + multiset{x.player}
  {
    hide Insert;
    var k := InsertPosition(x, s);
    var r := Insert(x, s);
    var ps, qs := KeyedPlayers(s), KeyedPlayers(r);
    forall i | 0 <= i < |qs| ensures qs[i] == (ps[..k] + [x.player] + ps[k..])[i] {
      if i < k {
        assert r[i] == s[i];
      } else if i == k {
        assert r[i] == x;
      } else {
        assert r[i] == s[i - 1];
      }
    }
    assert qs == ps[..k] + [x.player] + ps[k..];
    assert ps == ps[..k] + ps[k..];
  }

  /** Inserting keeps a sorted sequence sorted. */
  lemma InsertSorted(x: Keyed, s: seq<Keyed>)
    requires Sorted(Keys(s))
    ensures Sorted(Keys(Insert(x, s)))
  {
    var k := InsertPosition(x, s);
    var r := Insert(x, s);
    forall i, j | 0 <= i < j < |r| ensures KeyLe(Keys(r)[i], Keys(r)[j]) {
      var a := if i < k then i else if i == k then -1 else i - 1;
      var b := if j < k then j else if j == k then -1 else j - 1;
      if a >= 0 && b >= 0 {
        assert Keys(r)[i] == Keys(s)[a] && Keys(r)[j] == Keys(s)[b];
      } else if a < 0 {
        assert Keys(s)[k] == s[k].oddsValue && Keys(r)[j] == Keys(s)[b];
        if b > k { KeyLeTransitive(x.oddsValue, Keys(s)[k], Keys(s)[b]); }
      } else {
        assert Keys(r)[i] == s[a].oddsValue;
        KeyLeTotal(x.oddsValue, s[a].oddsValue);
      }
    }
  }

  /** The sort returns the players it was given, in key order. */
  lemma {:induction false} SortByKeySorted(s: seq<Keyed>)
    ensures Sorted(Keys(SortByKey(s)))
    ensures multiset(KeyedPlayers(SortByKey(s))) == multiset(KeyedPlayers(s))
  {
    if s != [] {
      SortByKeySorted(s[1..]);
      InsertSorted(s[0], SortByKey(s[1..]));
      InsertPermutes(s[0], SortByKey(s[1..]));
      assert KeyedPlayers(s) == [s[0].player] + KeyedPlayers(s[1..]);
    }
  }

  /** The players whose odds are given (`p.odds && p.odds !== 'N/A' && p.odds !== ''`), with their keys. */
  function WithOdds(ps: seq<Player>): (r: seq<Keyed>)
    ensures |r| <= |ps|
    ensures forall i :: 0 <= i < |r| ==> !MissingOdds(r[i].player.odds)
    ensures forall i :: 0 <= i < |r| ==> r[i].oddsValue == ParseOdds(r[i].player.odds)
  {
    if ps == [] then []
    else
      var rest := WithOdds(ps[1..]);
      if MissingOdds(ps[0].odds) then rest else [Keyed(ps[0], ParseOdds(ps[0].odds))] + rest
  }

  /** The players whose odds are missing, `N/A` or empty, in their order. */
  function WithoutOdds(ps: seq<Player>): (r: seq<Player>)
    ensures |r| <= |ps|
    ensures forall i :: 0 <= i < |r| ==> MissingOdds(r[i].odds)
  {
    if ps == [] then []
    else
      var rest := WithoutOdds(ps[1..]);
      if MissingOdds(ps[0].odds) then [ps[0]] + rest else rest
  }

  lemma KeyedPlayersAppend(a: seq<Keyed>, b: seq<Keyed>)
    ensures KeyedPlayers(a + b) == KeyedPlayers(a) + KeyedPlayers(b)
  {
  }

  lemma WithOddsStep(ps: seq<Player>)
    requires ps != []
    ensures WithOdds(ps) == (if MissingOdds(ps[0].odds) then [] else [Keyed(ps[0], ParseOdds(ps[0].odds))]) + WithOdds(ps[1..])
  {
    hide ParseOdds, MissingOdds;
  }

  lemma OnePlayer(x: Keyed)
    ensures KeyedPlayers([x]) == [x.player]
  {
  }

  /** One step of the two filters: the first player goes to exactly one side. */
  lemma OddsStep(ps: seq<Player>)
    requires ps != []
    ensures KeyedPlayers(WithOdds(ps)) == (if MissingOdds(ps[0].odds) then [] else [ps[0]]) + KeyedPlayers(WithOdds(ps[1..]))
    ensures WithoutOdds(ps) == (if MissingOdds(ps[0].odds) then [ps[0]] else []) + WithoutOdds(ps[1..])
  {
    assert WithoutOdds(ps) == (if MissingOdds(ps[0].odds) then [ps[0]] else []) + WithoutOdds(ps[1..]);
    hide *;
    WithOddsStep(ps);
    var rest := WithOdds(ps[1..]);
    if !MissingOdds(ps[0].odds) {
      var keyed := Keyed(ps[0], ParseOdds(ps[0].odds));
      KeyedPlayersAppend([keyed], rest);
      OnePlayer(keyed);
    } else {
      assert [] + rest == rest;
      assert [] + KeyedPlayers(rest) == KeyedPlayers(rest);
    }
  }

  /** Every player is in exactly one of the two groups. */
  lemma {:induction false} OddsSplit(ps: seq<Player>)
    ensures multiset(KeyedPlayers(WithOdds(ps))) + multiset(WithoutOdds(ps)) == multiset(ps)
  {
    hide *;
    if ps != [] {
      OddsSplit(ps[1..]);
      OddsStep(ps);
      assert ps == [ps[0]] + ps[1..];
    }
  }

  /** `Math.floor(total * percentage)` for tier `k + 1`, the percentages being 5, 10, 15, 20, 25 and 25. */
  function Share(total: nat, k: nat): nat
    requires k < 6
  {
    match k
    case 0 => total * 5 / 100
    case 1 => total * 10 / 100
    case 2 => total * 15 / 100
    case 3 => total * 20 / 100
    case _ => total * 25 / 100
  }

  /** `Math.max(1, Math.floor(total * percentage))`: at least one player per tier. */
  function TierSize(total: nat, k: nat): (r: nat)
    requires k < 6
    ensures r >= 1
  {
    Max(1, Share(total, k))
  }

  /** `currentIndex` once `k` tiers are filled: each takes its size or what remains. */
  function End(total: nat, k: nat): (r: nat)
    requires k <= 6
    ensures r <= total
    ensures k == 0 ==> r == 0
    ensures k > 0 ==> End(total, k - 1) <= r
  {
    if k == 0 then 0 else Min(End(total, k - 1) + TierSize(total, k - 1), total)
  }

  lemma EndStep(total: nat, k: nat)
    requires k < 6
    ensures End(total, k + 1) == Min(End(total, k) + TierSize(total, k), total)
  {
    hide TierSize, Share, Min;
  }

  /** Sorted players placed in tier `tier`. */
  function Place(ks: seq<Keyed>, tier: nat): (r: seq<Ranked>)
    ensures |r| == |ks|
  {
    seq(|ks|, i requires 0 <= i < |ks| => Ranked(ks[i].player, ks[i].oddsValue, tier))
  }

  /** Players without odds placed in the sixth tier with the key `Infinity`. */
  function Unranked(ps: seq<Player>): (r: seq<Ranked>)
    ensures |r| == |ps|
  {
    seq(|ps|, i requires 0 <= i < |ps| => Ranked(ps[i], Infinite, 6))
  }

  /** Tier `k + 1` as the bucket loop fills it: the sorted players from `End(k)` to `End(k + 1)`. */
  function Bucket(sorted: seq<Keyed>, k: nat): (r: seq<Ranked>)
    requires k < 6
  {
    Place(sorted[End(|sorted|, k)..End(|sorted|, k + 1)], k + 1)
  }

  lemma BucketIs(sorted: seq<Keyed>, k: nat)
    requires k < 6
    ensures Bucket(sorted, k) == Place(sorted[End(|sorted|, k)..End(|sorted|, k + 1)], k + 1)
  {
  }

  /** The sixth tier: the sorted players from `End(5)` on, then the players without odds. */
  function LastTier(sorted: seq<Keyed>, without: seq<Player>): (r: seq<Ranked>)
  {
    Place(sorted[End(|sorted|, 5)..], 6) + Unranked(without)
  }

  /**
   * The six tiers: the sorted players with odds cut at the `End`
   * positions, the sixth tier taking the rest of them and then the
   * players without odds.
   */
  function GroupIntoTiers(ps: seq<Player>): (tiers: seq<seq<Ranked>>)
    ensures |tiers| == 6
  {
    Layout(SortByKey(WithOdds(ps)), WithoutOdds(ps))
  }

  /** The six tiers cut from a sorted list and the players without odds. */
  function Layout(sorted: seq<Keyed>, without: seq<Player>): (tiers: seq<seq<Ranked>>)
    ensures |tiers| == 6
  {
    [Bucket(sorted, 0), Bucket(sorted, 1), Bucket(sorted, 2), Bucket(sorted, 3), Bucket(sorted, 4),
     LastTier(sorted, without)]
  }

  /** Pushes the sorted players `from` up to `to`, marked with `tier`, onto `bucket`. */
  method PushRange(bucket: seq<Ranked>, sorted: seq<Keyed>, from: nat, to: nat, tier: nat) returns (r: seq<Ranked>)
    requires from <= to <= |sorted|
    ensures r == bucket + Place(sorted[from..to], tier)
  {
    r := bucket;
    var i := from;
    while i < to
      invariant from <= i <= to
      invariant r == bucket + Place(sorted[from..i], tier)
    {
      assert sorted[from..i + 1] == sorted[from..i] + [sorted[i]];
      r := r + [Ranked(sorted[i].player, sorted[i].oddsValue, tier)];
      i := i + 1;
    }
  }

  /** Pushes each player without odds onto `bucket`, in tier 6 with the key `Infinity`. */
  method PushUnranked(bucket: seq<Ranked>, without: seq<Player>) returns (r: seq<Ranked>)
    ensures r == bucket + Unranked(without)
  {
    r := bucket;
    var n := 0;
    while n < |without|
      invariant n <= |without|
      invariant r == bucket + Unranked(without[..n])
    {
      assert without[..n + 1] == without[..n] + [without[n]];
      r := r + [Ranked(without[n], Infinite, 6)];
      n := n + 1;
    }
    assert without[..n] == without;
  }

  /** Two adjacent placed ranges are the placed union. */
  lemma PlaceSplit(sorted: seq<Keyed>, a: nat, b: nat, tier: nat)
    requires a <= b <= |sorted|
    ensures Place(sorted[a..b], tier) + Place(sorted[b..], tier) == Place(sorted[a..], tier)
  {
  }

  /**
   * The `tierPercentages.forEach` loop: bucket `k` takes the sorted players
   * from `currentIndex` on, as many as its size allows and as remain.
   */
  method FillBuckets(withOdds: seq<Keyed>) returns (tiers: seq<seq<Ranked>>, current: nat)
    ensures |tiers| == 6 && current == End(|withOdds|, 6)
    ensures forall j :: 0 <= j < 6 ==> tiers[j] == Bucket(withOdds, j)
  {
    hide *;
    var total := |withOdds|;
    tiers := [[], [], [], [], [], []];
    current := 0;
    var k := 0;
    while k < 6
      invariant k <= 6 && |tiers| == 6
      invariant current == End(total, k)
      invariant forall j :: 0 <= j < 6 ==> tiers[j] == if j < k then Bucket(withOdds, j) else []
    {
      var endIndex := Min(current + TierSize(total, k), total);
      EndStep(total, k);
      BucketIs(withOdds, k);
      var bucket := PushRange(tiers[k], withOdds, current, endIndex, k + 1);
      assert bucket == Bucket(withOdds, k);
      tiers := tiers[k := bucket];
      current := endIndex;
      k := k + 1;
    }
  }

  /** `groupPlayersIntoTiers`: the six buckets, then the leftovers, then the players without odds, into the sixth. */
  method GroupPlayersIntoTiers(players: seq<Player>) returns (tiers: seq<seq<Ranked>>)
    ensures tiers == GroupIntoTiers(players)
  {
    hide End;
    var withOdds := SortByKey(WithOdds(players));
    var withoutOdds := WithoutOdds(players);
    var total := |withOdds|;
    var current;
    tiers, current := FillBuckets(withOdds);
    var start := End(total, 5);
    assert tiers[5] == Place(withOdds[start..current], 6);
    var last := PushRange(tiers[5], withOdds, current, total, 6);
    assert withOdds[current..total] == withOdds[current..];
    PlaceSplit(withOdds, start, current, 6);
    assert last == Place(withOdds[start..], 6);
    last := PushUnranked(last, withoutOdds);
    tiers := tiers[5 := last];
    ghost var spec := Layout(withOdds, withoutOdds);
    assert tiers[5] == LastTier(withOdds, withoutOdds) == spec[5];
    assert forall j :: 0 <= j < 6 ==> tiers[j] == spec[j];
  }

  /** The players of placed entries, in order. */
  function Players(rs: seq<Ranked>): (r: seq<Player>)
    ensures |r| == |rs|
  {
    seq(|rs|, i requires 0 <= i < |rs| => rs[i].player)
  }

  /** The tiers one after another, as the leaderboard lists them. */
  function Flatten(tiers: seq<seq<Ranked>>): seq<Ranked>
  {
    if tiers == [] then [] else tiers[0] + Flatten(tiers[1..])
  }

  /** The keys in tier order: the sorted keys, then `Infinity` for each player without odds. */
  function Merged(sorted: seq<Keyed>, without: seq<Player>): (r: seq<OddsKey>)
    ensures |r| == |sorted| + |without|
  {
    Keys(sorted) + seq(|without|, _ => Infinite)
  }

  lemma MergedSorted(sorted: seq<Keyed>, without: seq<Player>)
    requires Sorted(Keys(sorted))
    ensures Sorted(Merged(sorted, without))
  {
    var m := Merged(sorted, without);
    forall i, j | 0 <= i < j < |m| ensures KeyLe(m[i], m[j]) {
      if j < |sorted| {
        assert m[i] == Keys(sorted)[i] && m[j] == Keys(sorted)[j];
      } else {
        assert m[j] == Infinite;
      }
    }
  }

  /** Entry `p` of bucket `k` is the sorted entry at `End(k) + p`. */
  lemma BucketEntry(sorted: seq<Keyed>, without: seq<Player>, k: nat, p: nat)
    requires k < 6 && p < |Bucket(sorted, k)|
    ensures var e := End(|sorted|, k) + p;
      && e < End(|sorted|, k + 1)
      && Bucket(sorted, k)[p].oddsValue == Merged(sorted, without)[e]
      && Bucket(sorted, k)[p].player == sorted[e].player
  {
    hide End;
    var e := End(|sorted|, k) + p;
    assert Merged(sorted, without)[e] == Keys(sorted)[e];
  }

  /** Entry `p` of the sixth tier is the entry at `End(5) + p` of the tier order. */
  lemma LastEntry(sorted: seq<Keyed>, without: seq<Player>, p: nat)
    requires p < |LastTier(sorted, without)|
    ensures var e := End(|sorted|, 5) + p;
      && e < |sorted| + |without|
      && LastTier(sorted, without)[p].oddsValue == Merged(sorted, without)[e]
      && (e < |sorted| ==> LastTier(sorted, without)[p].player == sorted[e].player)
      && (e >= |sorted| ==> LastTier(sorted, without)[p].player == without[e - |sorted|])
  {
    hide End;
    var start := End(|sorted|, 5);
    var e := start + p;
    var head := Place(sorted[start..], 6);
    if p < |head| {
      assert LastTier(sorted, without)[p] == head[p];
      assert Merged(sorted, without)[e] == Keys(sorted)[e];
    } else {
      assert LastTier(sorted, without)[p] == Unranked(without)[p - |head|];
    }
  }

  /** Entry `p` of tier `i + 1` is the entry at `End(i) + p` of the tier order. */
  lemma LayoutEntry(sorted: seq<Keyed>, without: seq<Player>, i: nat, p: nat)
    requires i < 6 && p < |Layout(sorted, without)[i]|
    ensures var e := End(|sorted|, i) + p;
      && e < |sorted| + |without|
      && Layout(sorted, without)[i][p].oddsValue == Merged(sorted, without)[e]
      && (i < 5 ==> e < End(|sorted|, i + 1))
      && (e < |sorted| ==> Layout(sorted, without)[i][p].player == sorted[e].player)
      && (e >= |sorted| ==> Layout(sorted, without)[i][p].player == without[e - |sorted|])
  {
    hide End;
    if i < 5 {
      assert Layout(sorted, without)[i] == Bucket(sorted, i);
      BucketEntry(sorted, without, i, p);
    } else {
      LastEntry(sorted, without, p);
    }
  }

  /** Later `End` positions are never smaller. */
  lemma EndMonotone(total: nat, i: nat, j: nat)
    requires i <= j <= 6
    ensures End(total, i) <= End(total, j)
    decreases j
  {
    if i < j {
      EndMonotone(total, i, j - 1);
    }
  }

  /** The layout is ordered by key across and within tiers. */
  lemma LayoutOrdered(sorted: seq<Keyed>, without: seq<Player>, i: nat, p: nat, j: nat, q: nat)
    requires Sorted(Keys(sorted))
    requires i < 6 && j < 6 && p < |Layout(sorted, without)[i]| && q < |Layout(sorted, without)[j]|
    requires i < j || (i == j && p < q)
    ensures KeyLe(Layout(sorted, without)[i][p].oddsValue, Layout(sorted, without)[j][q].oddsValue)
  {
    LayoutEntry(sorted, without, i, p);
    LayoutEntry(sorted, without, j, q);
    MergedSorted(sorted, without);
    if i < j {
      EndMonotone(|sorted|, i + 1, j);
    }
  }

  /**
   * Tiers are ordered by key: an entry of a lower tier, or an earlier
   * entry of the same tier, never has a larger key.
   */
  lemma TiersOrdered(ps: seq<Player>, i: nat, p: nat, j: nat, q: nat)
    requires i < 6 && j < 6 && p < |GroupIntoTiers(ps)[i]| && q < |GroupIntoTiers(ps)[j]|
    requires i < j || (i == j && p < q)
    ensures KeyLe(GroupIntoTiers(ps)[i][p].oddsValue, GroupIntoTiers(ps)[j][q].oddsValue)
  {
    SortByKeySorted(WithOdds(ps));
    LayoutOrdered(SortByKey(WithOdds(ps)), WithoutOdds(ps), i, p, j, q);
  }

  /** A player of the sorted list has odds. */
  lemma SortedHaveOdds(ps: seq<Player>, e: nat)
    requires e < |SortByKey(WithOdds(ps))|
    ensures !MissingOdds(SortByKey(WithOdds(ps))[e].player.odds)
  {
    var sorted := SortByKey(WithOdds(ps));
    SortByKeySorted(WithOdds(ps));
    var x := sorted[e].player;
    assert KeyedPlayers(sorted)[e] == x;
    assert x in multiset(KeyedPlayers(WithOdds(ps)));
    var m :| 0 <= m < |WithOdds(ps)| && KeyedPlayers(WithOdds(ps))[m] == x;
  }

  /**
   * A player without odds is always in the sixth tier, with the key
   * `Infinity`, and after every player of that tier who has odds.
   */
  lemma NoOddsLast(ps: seq<Player>, i: nat, p: nat)
    requires i < 6 && p < |GroupIntoTiers(ps)[i]| && MissingOdds(GroupIntoTiers(ps)[i][p].player.odds)
    ensures i == 5 && GroupIntoTiers(ps)[i][p].oddsValue == Infinite
    ensures forall q :: p < q < |GroupIntoTiers(ps)[5]| ==> MissingOdds(GroupIntoTiers(ps)[5][q].player.odds)
  {
    var sorted := SortByKey(WithOdds(ps));
    var w := WithoutOdds(ps);
    var t: seq<seq<Ranked>> := Layout(sorted, w);
    assert t == GroupIntoTiers(ps);
    hide SortByKey, WithOdds, WithoutOdds, GroupIntoTiers;
    LayoutEntry(sorted, w, i, p);
    var e := End(|sorted|, i) + p;
    assert i < 5 ==> End(|sorted|, i + 1) <= |sorted|;
    if e < |sorted| {
      SortedHaveOdds(ps, e);
    }
    assert e >= |sorted|;
    forall q: nat | p < q < |t[5]| ensures MissingOdds(t[5][q].player.odds) {
      LayoutEntry(sorted, w, 5, q);
    }
  }

  /** Every entry of tier `i + 1` carries the tier number `i + 1`. */
  lemma TierNumbers(ps: seq<Player>, i: nat, p: nat)
    requires i < 6 && p < |GroupIntoTiers(ps)[i]|
    ensures GroupIntoTiers(ps)[i][p].tier == i + 1
  {
    var sorted, w := SortByKey(WithOdds(ps)), WithoutOdds(ps);
    GroupIsLayout(ps);
    hide SortByKey, WithOdds, WithoutOdds, GroupIntoTiers;
    LayoutAt(sorted, w, i);
  }

  /** The players of a placed range are that range of the sorted players. */
  lemma PlacePlayers(sorted: seq<Keyed>, a: nat, b: nat, tier: nat)
    requires a <= b <= |sorted|
    ensures Players(Place(sorted[a..b], tier)) == KeyedPlayers(sorted)[a..b]
  {
  }

  /** The players of tier `k + 1` are the sorted players from `End(k)` to `End(k + 1)`. */
  lemma BucketPlayers(sorted: seq<Keyed>, k: nat)
    requires k < 5
    ensures Players(Bucket(sorted, k)) == KeyedPlayers(sorted)[End(|sorted|, k)..End(|sorted|, k + 1)]
  {
    hide End;
    PlacePlayers(sorted, End(|sorted|, k), End(|sorted|, k + 1), k + 1);
  }

  /** The players of two runs of entries laid one after the other. */
  lemma PlayersAppend(a: seq<Ranked>, b: seq<Ranked>)
    ensures Players(a + b) == Players(a) + Players(b)
  {
  }

  lemma UnrankedPlayers(without: seq<Player>)
    ensures Players(Unranked(without)) == without
  {
  }

  lemma PlaceSuffixPlayers(sorted: seq<Keyed>, a: nat, tier: nat)
    requires a <= |sorted|
    ensures Players(Place(sorted[a..], tier)) == KeyedPlayers(sorted)[a..]
  {
  }

  /** The players of the sixth tier are the sorted players from `End(5)` on, then those without odds. */
  lemma LastTierPlayers(sorted: seq<Keyed>, without: seq<Player>)
    ensures Players(LastTier(sorted, without)) == KeyedPlayers(sorted)[End(|sorted|, 5)..] + without
  {
    hide End;
    var e := End(|sorted|, 5);
    PlaceSuffixPlayers(sorted, e, 6);
    UnrankedPlayers(without);
    PlayersAppend(Place(sorted[e..], 6), Unranked(without));
  }

  /** The players of tiers laid one after another. */
  lemma FlattenPlayers(t: seq<seq<Ranked>>, k: nat)
    requires k < |t|
    ensures Players(Flatten(t[k..])) == Players(t[k]) + Players(Flatten(t[k + 1..]))
  {
    assert t[k..] == [t[k]] + t[k + 1..];
    assert t[k..][1..] == t[k + 1..];
  }

  /** The tiers from tier `k + 1` on hold the sorted players from `End(k)` on, then those without odds. */
  lemma {:induction false} LayoutSuffix(sorted: seq<Keyed>, without: seq<Player>, k: nat)
    requires k <= 5
    ensures Players(Flatten(Layout(sorted, without)[k..])) == KeyedPlayers(sorted)[End(|sorted|, k)..] + without
    decreases 5 - k
  {
    hide *;
    var t := Layout(sorted, without);
    var kp := KeyedPlayers(sorted);
    var e := End(|sorted|, k);
    LayoutAt(sorted, without, k);
    FlattenPlayers(t, k);
    if k == 5 {
      LastTierPlayers(sorted, without);
      NoTiers(t[6..]);
    } else {
      LayoutSuffix(sorted, without, k + 1);
      BucketPlayers(sorted, k);
      var f := End(|sorted|, k + 1);
      assert kp[e..] == kp[e..f] + kp[f..];
    }
  }

  lemma NoTiers(t: seq<seq<Ranked>>)
    requires t == []
    ensures Players(Flatten(t)) == []
  {
  }

  /** Every player given appears exactly once in the tiers. */
  lemma TiersCoverAll(ps: seq<Player>)
    ensures multiset(Players(Flatten(GroupIntoTiers(ps)))) == multiset(ps)
  {
    var sorted := SortByKey(WithOdds(ps));
    var t := Layout(sorted, WithoutOdds(ps));
    LayoutSuffix(sorted, WithoutOdds(ps), 0);
    assert t[0..] == t;
    assert KeyedPlayers(sorted)[0..] == KeyedPlayers(sorted);
    SortByKeySorted(WithOdds(ps));
    OddsSplit(ps);
  }

  /** How many players the first `k` tiers hold together. */
  function Count(tiers: seq<seq<Ranked>>, k: nat): nat
    requires k <= |tiers|
  {
    if k == 0 then 0 else Count(tiers, k - 1) + |tiers[k - 1]|
  }

  lemma BucketSize(sorted: seq<Keyed>, k: nat)
    requires k < 5
    ensures |Bucket(sorted, k)| == End(|sorted|, k + 1) - End(|sorted|, k)
  {
    hide End;
  }

  lemma LayoutAt(sorted: seq<Keyed>, without: seq<Player>, k: nat)
    requires k < 6
    ensures Layout(sorted, without)[k] == if k < 5 then Bucket(sorted, k) else LastTier(sorted, without)
  {
  }

  /** The first `k` buckets of a layout hold the sorted players before `End(k)`. */
  lemma {:induction false} LayoutCount(sorted: seq<Keyed>, without: seq<Player>, k: nat)
    requires k <= 5
    ensures Count(Layout(sorted, without), k) == End(|sorted|, k)
  {
    if k > 0 {
      LayoutCount(sorted, without, k - 1);
      LayoutAt(sorted, without, k - 1);
      BucketSize(sorted, k - 1);
      hide End, Layout, Bucket;
    }
  }

  lemma MinShift(a: int, b: int, n: int)
    ensures Min(a + b, n) - a == Min(b, n - a)
  {
  }

  /** Bucket `k + 1` takes its share or what remains of the sorted players. */
  lemma LayoutSize(sorted: seq<Keyed>, without: seq<Player>, k: nat)
    requires k < 5
    ensures var t, n := Layout(sorted, without), |sorted|;
      |t[k]| == Min(TierSize(n, k), n - Count(t, k))
  {
    hide *;
    LayoutCount(sorted, without, k);
    LayoutAt(sorted, without, k);
    BucketSize(sorted, k);
    EndStep(|sorted|, k);
    MinShift(End(|sorted|, k), TierSize(|sorted|, k), |sorted|);
  }

  /** The sixth tier takes the rest of the sorted players and all the others. */
  lemma LastSize(sorted: seq<Keyed>, without: seq<Player>)
    ensures var t, n := Layout(sorted, without), |sorted|;
      |t[5]| == n - Count(t, 5) + |without| && Count(t, 6) == n + |without|
  {
    LayoutCount(sorted, without, 5);
    LayoutAt(sorted, without, 5);
    hide End, Layout;
  }

  lemma GroupIsLayout(ps: seq<Player>)
    ensures GroupIntoTiers(ps) == Layout(SortByKey(WithOdds(ps)), WithoutOdds(ps))
  {
  }

  /** The players with odds and those without add up to all of them. */
  lemma OddsCount(ps: seq<Player>)
    ensures |WithOdds(ps)| + |WithoutOdds(ps)| == |ps|
  {
    OddsSplit(ps);
    assert |KeyedPlayers(WithOdds(ps))| == |WithOdds(ps)|;
    assert |multiset(ps)| == |ps|;
  }

  /** The sizes of all six tiers of a layout `t` cut from `n` sorted players. */
  lemma LayoutSizes(sorted: seq<Keyed>, without: seq<Player>, t: seq<seq<Ranked>>, n: nat)
    requires t == Layout(sorted, without) && n == |sorted|
    ensures |t| == 6
    ensures forall k :: 0 <= k < 5 ==> |t[k]| == Min(TierSize(n, k), n - Count(t, k))
    ensures |t[5]| == n - Count(t, 5) + |without|
    ensures Count(t, 6) == n + |without|
  {
    hide *;
    forall k | 0 <= k < 5 ensures |t[k]| == Min(TierSize(n, k), n - Count(t, k)) {
      LayoutSize(sorted, without, k);
    }
    LastSize(sorted, without);
  }

  /**
   * Each of tiers 1 to 5 takes `max(1, floor(total * pct))` of the players
   * with odds, or what remains of them, and tier 6 the rest of them together
   * with every player without odds; the sizes add up to the number of players.
   */
  lemma TierSizes(ps: seq<Player>)
    ensures var t, n := GroupIntoTiers(ps), |WithOdds(ps)|;
      && (forall k :: 0 <= k < 5 ==> |t[k]| == Min(TierSize(n, k), n - Count(t, k)))
      && |t[5]| == n - Count(t, 5) + |WithoutOdds(ps)|
      && Count(t, 6) == |ps|
  {
    hide *;
    var sorted, without := SortByKey(WithOdds(ps)), WithoutOdds(ps);
    GroupIsLayout(ps);
    LayoutSizes(sorted, without, GroupIntoTiers(ps), |WithOdds(ps)|);
    OddsCount(ps);
  }

  /** A field of 100 players that all have odds is cut into tiers of 5, 10, 15, 20, 25 and 25. */
  lemma HundredPlayers(ps: seq<Player>)
    requires |ps| == 100
    requires forall i :: 0 <= i < |ps| ==> !MissingOdds(ps[i].odds)
    ensures var t := GroupIntoTiers(ps);
      |t[0]| == 5 && |t[1]| == 10 && |t[2]| == 15 && |t[3]| == 20 && |t[4]| == 25 && |t[5]| == 25
  {
    AllWithOdds(ps);
    TierSizes(ps);
    var t := GroupIntoTiers(ps);
    assert TierSize(100, 0) == 5 && TierSize(100, 1) == 10 && TierSize(100, 2) == 15;
    assert TierSize(100, 3) == 20 && TierSize(100, 4) == 25;
    assert |t[0]| == 5;
    assert |t[1]| == 10;
    assert |t[2]| == 15;
    assert |t[3]| == 20;
    assert |t[4]| == 25;
  }

  /** When every player has odds, none is left without. */
  lemma {:induction false} AllWithOdds(ps: seq<Player>)
    requires forall i :: 0 <= i < |ps| ==> !MissingOdds(ps[i].odds)
    ensures |WithOdds(ps)| == |ps| && WithoutOdds(ps) == []
  {
    if ps != [] {
      AllWithOdds(ps[1..]);
    }
  }
}
