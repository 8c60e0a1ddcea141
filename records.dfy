/** The player record that the scraper produces and the browser client consumes. */
module Records {

  /** One entry of the leaderboard payload: `{position, name, odds, score}`. */
  datatype Player = Player(position: string, name: string, odds: string, score: string)

  /** The client's and the backfill's test for "no odds": `!odds || odds === 'N/A' || odds === ''`. */
  predicate MissingOdds(odds: string)
  {
    odds == "" || odds == "N/A"
  }
}
