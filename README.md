# Golfpool in Dafny

Golfpool is a golf pick'em pool. Its Node server scrapes a sportsbook odds
page and turns it into a leaderboard payload `{tournament, players}`, where
each player is `{position, name, odds, score}`. The browser client does the
rest:

- it sorts the players by their odds and cuts them into six tiers;
- users sign up and log in under a username kept in local storage;
- each user submits one team with one pick per tier;
- the team's scores are synced from the leaderboard and added up on a
  scoreboard.

This project models that core and proves what it promises.

- **Server extraction** (`extractData` in `server.js`). The page is given as
  the `Page.Document` datatype: its tables, rows and cells with their nested
  texts, its player containers, its free-standing text elements, and the
  texts of the five title selectors. The extraction steps are modelled as
  specification functions, with methods proved against them:
  - table selection;
  - per-row records, with the name heuristics and the odds recogniser;
  - the odds backfill;
  - the container and free-text fallbacks;
  - the title;
  - the cap at 100 players.
- **Client ranking** (`parseOdds`, `groupPlayersIntoTiers` in
  `public/script.js`). JavaScript numbers are modelled as exact reals plus
  `Infinity` and `NaN`. The tiering method pushes into six buckets exactly as
  the source does. It is proved equal to a layout function, and that layout is
  proved to cover every player once, to keep key order across tiers, to give
  the sizes the percentages ask for, and to put every player without odds
  last.
- **Client registry** (`public/script.js`). A `Users` class holds the `users`
  dictionary and the signed-in user. Its methods are signup, login, logout,
  save team, submit team, score sync and scoreboard rendering. Each method
  states its whole new state.

Modules, one per file:

| module | contents |
|---|---|
| `Common` | `Option`, `Min`, `Max` |
| `Text` | `\s`, `toLowerCase`, `trim`, `cleanText`, `split`/`join`, digit strings |
| `Records` | the player record and the "missing odds" test |
| `Names` | name shape, block-lists, `isExcludedText` |
| `OddsFormat` | `isOdds` and the Up/Down trend label |
| `OddsRank` | `parseInt`, `parseFloat`, `parseOdds` |
| `Page` | the abstract page |
| `TableScan` | strategy 1: choosing the odds table |
| `RowExtract` | strategy 1: building records from rows |
| `Containers` | strategy 2: backfill and container records |
| `FreeText` | strategy 3 |
| `Extract` | `extractData` itself |
| `Tiers` | `groupPlayersIntoTiers` |
| `Teams` | team sync and scoring |
| `Registry` | users and teams in local storage |

Four facts about the code shape the model:

- a table row yields a record only when it has at least six `td` cells
  (server.js:201);
- extracted names are de-duplicated by exact text (`new Set`, server.js:443),
  not case-insensitively;
- odds are only read and ranked: nothing converts a probability into odds;
- the tiers are cut by the 5/10/15/20/25/25 percent shares
  (public/script.js:406-412), so they are not of equal size.

## Model

| member | source | states |
|---|---|---|
| Text.ToLower | server.js:157 | `toLowerCase` keeps the length and maps each character to its lower-case form |
| Text.TrimStartShape | server.js:133 | the left half of `trim` keeps a suffix, drops only whitespace and stops at a non-blank |
| Text.TrimEndShape | server.js:133 | the right half of `trim` keeps a prefix, drops only whitespace and stops at a non-blank |
| Text.TrimSlice | server.js:133 | `trim` keeps a contiguous middle part and drops only whitespace around it |
| Text.Collapse | server.js:133 | `replace(/\s+/g, ' ')` is empty exactly for the empty text and keeps whether the text starts with whitespace (its full content: `Text.CollapseWords`) |
| Text.CollapseShape | server.js:133 | after the collapse, whitespace is a single blank, never doubled |
| Text.CleanTextIsClean | server.js:131-134 | `cleanText` always yields normal form: single blanks, none at either end |
| Text.CleanTextIdempotent | server.js:131-134 | `cleanText` of a cleaned text changes nothing |
| Text.Split | public/script.js:370 | `split` yields at least one piece and no piece holds the separator |
| Text.JoinSplit | public/script.js:370 | joining the pieces of a split on the separator gives the text back |
| Text.SplitAround | public/script.js:369-371 | a text with exactly one `/` splits into the two parts around it |
| Text.Words | server.js:256 | the pieces of `split(/\s+/)` that are kept are non-empty and free of whitespace (what they are: `Text.CleanTextWords`) |
| Text.CollapseWords | server.js:133 | `replace(/\s+/g, ' ')` gives the words of the text in order, one blank between neighbours, and one blank at either end exactly where the text starts or (after a word) ends with whitespace |
| Text.CleanTextWords | server.js:131-134 | `cleanText` is the words of the text in order joined by single blanks, so `split(/\s+/)` of a cleaned text gives back exactly those words |
| Text.Utf16Length | server.js:159-160 | JavaScript's `.length` counts UTF-16 code units: between n and 2n for n characters, and n when no character lies outside the Basic Multilingual Plane |
| Text.Utf16LengthLower | server.js:157-160 | lower-casing keeps the UTF-16 length, so `lowerText.length` is the text's own length |
| Text.NatToString | server.js:206 | `(n).toString()` is a digit string that denotes `n` |
| Names.IsExcludedText | server.js:156-161 | any text let through has 3 to 50 UTF-16 code units; shorter or longer texts are always excluded |
| Names.ExcludedExactly | server.js:156-161 | a text is excluded exactly when it has fewer than 3 or more than 50 UTF-16 code units or a block-listed pattern occurs in its lower-cased form |
| Names.ExclusionExamples | server.js:148-161 | a navigation text, a name holding a page word and a two-letter text are excluded |
| Names.CapitalisedWord | server.js:230 | the length of a leading `[A-Z][a-z]+`, maximal, or 0 when there is none; it is positive whenever the text starts with a capital followed by a lower-case letter |
| Names.NameCandidates | server.js:226-239 | the nested texts kept as candidates all pass the shape, length, "favorite" and country-code tests |
| Names.CandidateIndices | server.js:226-239 | the candidates are the cleaned nested texts at strictly increasing positions, and a position is among them exactly when its cleaned text passes every test: all passing texts, in document order |
| Names.FirstLongest | server.js:242-243 | the name picked is a candidate of maximal length, and the first of that length |
| Names.NameParts | server.js:256-260 | every kept part is a proper word longer than one character and not two or three capitals |
| Names.NamePartIndices | server.js:256-260 | the kept parts are words of the text at strictly increasing positions, and a word is kept exactly when it passes the three tests: all passing words, in order |
| Names.FallbackNameShape | server.js:247-267 | when two proper words survive the noise removal, the fallback name has the two-capitalised-words shape |
| Names.ValidRowNameLength | server.js:292-315 | a name the row test accepts has 6 to 40 UTF-16 code units (at least 5 and at most 40 characters), starts with a capital and has a blank right after its leading capitalised word |
| OddsFormat.IsOdds | server.js:137-145 | whatever `isOdds` accepts is non-empty and holds a digit |
| OddsFormat.NoDigitNoOdds | server.js:137-145 | a text without a digit (such as `N/A` or the empty text) is never odds |
| OddsFormat.NotationsAreOdds | server.js:140-142 | `+N`, `-N`, `a/b` and `a.b` over digit strings are all accepted |
| OddsFormat.DropTrendSuffix | server.js:280 | removing the Up/Down label drops a prefix holding no digit and no sign |
| OddsFormat.StripTrendSlice | server.js:288 | stripping the label and trimming keep a slice and drop no digit and no sign |
| OddsFormat.StripLeavesShaped | server.js:280 | the three exact notations are left unchanged by the stripping |
| OddsFormat.StripKeepsOdds | server.js:286-288 | text accepted before the label is stripped is still accepted after it |
| OddsRank.DigitRun | public/script.js:363 | the length of the maximal leading run of digits |
| OddsRank.ParseInt | public/script.js:363 | `parseInt` gives a number only when the text holds a digit |
| OddsRank.ParseFloat | public/script.js:372-381 | `parseFloat` gives a number only when the text holds a digit |
| OddsRank.PlainNumber | public/script.js:363 | a text starting with a digit is read without sign or blanks |
| OddsRank.ParseWhole | public/script.js:363 | `parseInt` and `parseFloat` of a digit string give its value |
| OddsRank.ParseFloatDecimal | public/script.js:381 | `parseFloat("a.b")` is the decimal number a.b |
| OddsRank.ParseOdds | public/script.js:354-387 | missing, `N/A` or empty odds give Infinity; a finite key always comes from a digit of the label |
| OddsRank.AmericanOdds | public/script.js:362-366 | `+N` and `-N` both give N: the sign is dropped |
| OddsRank.FractionalOdds | public/script.js:369-378 | `a/b` with b > 0 gives (a/b)*100 |
| OddsRank.DecimalOdds | public/script.js:380-384 | `a.b` gives (a.b - 1)*100 |
| TableScan.FirstMatch | server.js:169-188 | the index found is the first table passing the test, and none is found only when no table passes |
| TableScan.ChosenTable | server.js:165-189 | the chosen table is the first whose header matches; only when no header matches is it the first table whose first row has six or more cells; none is chosen only when neither exists |
| TableScan.SelectTable | server.js:165-189 | the two `each` loops with their `break` choose the table `ChosenTable` names |
| TableScan.RowsNotFirstChild | server.js:193 | the rows kept by `.not(':first-child')` are a subset, none of them a first child |
| TableScan.FirstChildFilterDropsAPlayerRow | server.js:193 | in a table with a `thead`, the filter drops the first player row of `tbody` |
| TableScan.DataRows | server.js:193 | the rows under the header: exactly the table's rows after the first |
| TableScan.FilterAgreesWithHeaderSkip | server.js:193 | when the header row is the only first child, the `:first-child` filter keeps exactly the rows under the header |
| RowExtract.ButtonDecides | server.js:277-284 | two odds cells with the same button get the same odds, whatever the rest of their text |
| RowExtract.CellOdds | server.js:272-290 | a row's odds are `N/A` or recognised odds; with a button, its text alone decides (odds iff the text with one leading Up/Down label stripped is odds); without one, odds iff the cleaned cell text is odds |
| RowExtract.RowPosition | server.js:204-207 | the position is the cleaned rank cell when that is neither empty nor `-`, and otherwise the running count plus one; it is never blank and never `-` |
| RowExtract.RowRecord | server.js:197-332 | a record exists iff the row has six or more cells and its name passes every name test; its position is the rank cell or the running count, its name comes from cell 1, its score is cell 2's text or `-`, its odds are cell 5's |
| RowExtract.RowRecordsShape | server.js:197-333 | at most one record per wide row, and every record passes all the row tests |
| RowExtract.BlankPositionIsPlace | server.js:204-207 | a blank or `-` position becomes the record's own place number in the list |
| RowExtract.CollectNameCandidates | server.js:226-239 | the nested-element loop builds exactly `NameCandidates` |
| RowExtract.ExtractRow | server.js:197-332 | the per-row step yields exactly the row's record |
| RowExtract.ExtractRows | server.js:191-333 | the rows loop builds exactly the records of the rows under the header |
| Containers.DataOdds | server.js:371 | the container's own non-empty `data-odds` wins over the odds element's |
| Containers.ContainerOdds | server.js:364-374 | the `data-odds` value, when it is odds, overrides the element text, which is used only when it is odds |
| Containers.NameKey | server.js:360-362 | the match key is the lower-cased first min(10, n) characters of the cleaned name of n characters |
| Containers.FindByKey | server.js:362 | `find` returns the first record whose lower-cased name contains the key, or none when no record does |
| Containers.BackfillOne | server.js:354-377 | one container changes only the record it names, and only when that record's odds are missing; that record's odds become those the container shows (its odds element's text, overridden by its `data-odds`, each only when it is odds); nothing else changes |
| Containers.MissingIsNotOdds | server.js:363-372 | missing odds are never themselves odds, so a filled record is never refilled |
| Containers.Backfill | server.js:354-377 | the containers in order change only missing odds, to recognised odds |
| Containers.NamesRecordKept | server.js:363 | the backfill never renames a record, so a container's name finds the same record before and after it |
| Containers.BackfillUntouched | server.js:353-377 | a record that no container naming it shows odds for comes out of the backfill unchanged |
| Containers.BackfillFills | server.js:353-377 | a record missing odds takes the odds shown by the first container that names it and shows odds; later containers leave them |
| Containers.BackfillIfNeeded | server.js:353-378 | the backfill changes nothing when no odds are missing |
| Containers.BackfillOdds | server.js:353-378 | the backfill loop computes exactly `BackfillIfNeeded` |
| Containers.ContainerRecord | server.js:383-411 | a container record has the container's place as position, a name of two or more characters that is not excluded, no score, and `N/A` or recognised odds |
| Containers.ContainerRecordsShape | server.js:381-414 | every container record has that shape, with positions strictly increasing |
| Containers.ContainerPlayers | server.js:381-414 | the container loop builds exactly `ContainerRecords` |
| FreeText.Accepted | server.js:422-440 | the kept elements all pass the test |
| FreeText.AcceptedIndices | server.js:422-440 | each kept entry is the cleaned text and nearby odds of an element, at strictly increasing positions, and an element is kept exactly when its cleaned text passes: all passing elements, in document order |
| FreeText.Potential | server.js:422-440 | every potential player's text passes the free-text name tests |
| FreeText.Distinct | server.js:443 | `new Set` keeps the same names, each once, in order of first occurrence |
| FreeText.DistinctAppend | server.js:443 | adding one name to the `Set` keeps it when new and ignores it when already present, preserving the first-occurrence order |
| FreeText.NumberedShape | server.js:443-456 | at most fifty records, with pairwise different names |
| FreeText.FreeTextRecordsShape | server.js:417-457 | at most fifty records, numbered from 1, with distinct names that pass the tests and no score |
| FreeText.FreeTextRecordsComplete | server.js:422-444 | with at most fifty distinct names, every text passing the tests is listed |
| FreeText.NumberNames | server.js:444-456 | the `forEach` gives one numbered record per name, in order |
| FreeText.FreeTextPlayers | server.js:417-457 | strategy 3 builds exactly `FreeTextRecords` |
| Extract.PickTitle | server.js:460-478 | the title is the default or a fitting cleaned title text, and the default when none fits |
| Extract.FirstFittingTitle | server.js:469-477 | the first fitting selector decides the title, whatever later selectors hold |
| Extract.PickTournament | server.js:468-478 | the selector loop with its `break` picks `PickTitle` |
| Extract.Capped | server.js:482 | `slice(0, 100)` keeps the first min(n, 100) players |
| Extract.ExtractData | server.js:127-485 | the whole extraction returns `LeaderboardOf(doc)` |
| Extract.TablePreferred | server.js:191-378 | when the table gives records, the payload is those records, capped and in order, with only missing odds filled in |
| Extract.ContainersWhenNoTable | server.js:381-414 | the container strategy gives the payload only when the table gave nothing |
| Extract.FreeTextWhenNothingElse | server.js:417-457 | the free-text strategy runs only when both others found nothing |
| Extract.NamesNotExcluded | server.js:296 | whatever strategy ran, no listed name is block-listed |
| Extract.EmptyPage | server.js:468-484 | an empty page gives the default title and no players |
| Tiers.KeyLeTotal | public/script.js:398 | the comparator order is total |
| Tiers.KeyLeTransitive | public/script.js:398 | the comparator order is transitive |
| Tiers.InsertPosition | public/script.js:398 | an inserted player goes after every player with a smaller key and before the first with a key not below its own (stability) |
| Tiers.InsertPermutes | public/script.js:398 | inserting adds exactly one player |
| Tiers.InsertSorted | public/script.js:398 | inserting keeps the list sorted |
| Tiers.SortByKeySorted | public/script.js:398 | the sort returns a key-ordered permutation of its input |
| Tiers.WithOdds | public/script.js:392-398 | every kept player has odds and the key `parseOdds` gives them |
| Tiers.WithoutOdds | public/script.js:400 | every kept player misses its odds |
| Tiers.OddsSplit | public/script.js:392-400 | the two filters partition the players |
| Tiers.TierSize | public/script.js:412 | a tier's size is at least 1 |
| Tiers.End | public/script.js:411-423 | `currentIndex` never exceeds the number of players with odds and never decreases |
| Tiers.EndStep | public/script.js:413 | `endIndex` is `min(currentIndex + tierSize, total)` |
| Tiers.PushRange | public/script.js:415-420 | the inner loop appends the range, each entry marked with the tier |
| Tiers.PushUnranked | public/script.js:435-441 | each player without odds is appended in tier 6 with key Infinity |
| Tiers.FillBuckets | public/script.js:409-423 | the `forEach` fills bucket k with the sorted players from `End(k)` to `End(k+1)` |
| Tiers.GroupPlayersIntoTiers | public/script.js:390-444 | the imperative grouping returns exactly `GroupIntoTiers` |
| Tiers.GroupIntoTiers | public/script.js:390-444 | there are always six tiers |
| Tiers.TiersCoverAll | public/script.js:390-444 | every input player appears in the tiers exactly once |
| Tiers.TiersOrdered | public/script.js:398-432 | no entry of a lower tier, or earlier in the same tier, has a larger key |
| Tiers.NoOddsLast | public/script.js:434-441 | a player without odds is in tier 6 with key Infinity, after every player of tier 6 with odds |
| Tiers.TierNumbers | public/script.js:416-439 | every entry of tier k+1 has `tier == k+1` |
| Tiers.TierSizes | public/script.js:406-441 | tiers 1-5 take `min(max(1, floor(total*pct)), remaining)`; tier 6 takes the rest plus those without odds; the sizes sum to the input length |
| Tiers.HundredPlayers | public/script.js:406-432 | 100 players with odds give tiers of 5, 10, 15, 20, 25, 25 |
| Teams.FindByName | public/script.js:321-323 | `find` gives the first player with that name in any case, and nothing only when no name matches |
| Teams.Synced | public/script.js:319-327 | the sync changes only the score, and only to the non-empty score of the player found under the member's name |
| Teams.SyncIdempotent | public/script.js:755-764 | syncing twice against the same leaderboard is syncing once |
| Teams.SyncTakesLeaderboardScore | public/script.js:755-764 | a member listed with a score gets the score of its first listing |
| Teams.SyncMember | public/script.js:756-763 | one step of the sync loop computes `Synced` |
| Teams.SyncScores | public/script.js:755-764 | the sync loop updates every member as `Synced` does |
| Teams.ScoreValue | public/script.js:710 | `parseInt(score) \|\| 0` is 0 for a score without digits (`E`, `-`) |
| Teams.SignedScores | public/script.js:710 | `N`, `+N` and `-N` count as N, N and -N |
| Teams.TotalAppend | public/script.js:722 | the total of a team split in two is the sum of the two totals |
| Teams.UnscoredTeam | public/script.js:710-722 | a team whose scores hold no digits totals 0 |
| Teams.RenderMember | public/script.js:706-720 | a row's score is the leaderboard's score when listed non-empty, else the stored score; the stored score is updated alike |
| Teams.RenderScores | public/script.js:698-722 | the scoreboard loop syncs the team when a leaderboard is loaded and totals the score values |
| Registry.SignupCheck | public/script.js:85-97 | signup rejects a name of fewer than three UTF-16 code units first, then bad characters, then a taken name, and accepts exactly the rest |
| Registry.EmojiNameLength | public/script.js:85-91 | `"😀a"` is two characters but three UTF-16 code units: it passes the length test and is then refused for its characters |
| Registry.Users.constructor | public/script.js:18-21 | empty storage: no users, nobody signed in |
| Registry.Users.UserTeam | public/script.js:39-42 | a user's team, none for an unknown user |
| Registry.Users.Login | public/script.js:74-83 | login succeeds exactly for a registered name, which becomes the current user; the users stay |
| Registry.Users.Signup | public/script.js:85-105 | a successful signup adds `{username, team: null}` and signs the user in; a rejection changes nothing |
| Registry.Users.Logout | public/script.js:107-111 | nobody is signed in afterwards and the users stay |
| Registry.Users.SaveUserTeam | public/script.js:44-57 | the user's record, created if missing, holds the team; others are unchanged; has-submitted holds iff the team is non-empty |
| Registry.Users.SubmitTeam | public/script.js:620-650 | refused without a user or for a user with a team; a submitted team is never replaced |
| Registry.Users.SyncTeamScores | public/script.js:743-766 | with a user, a team and a leaderboard, the user's record becomes `{username, team: synced copy}` and every other record stays; otherwise nothing changes |
| Registry.Users.RenderScoreboard | public/script.js:694-737 | the signed-in user's team is synced when a leaderboard is loaded, saved back as that user's record (every other record stays) and totalled |

## Left out

- HTTP and hosting (`server.js` routes, CORS, the ScraperAPI request via axios, `app.listen`) are not modelled: they are I/O.
- The HTML parser and CSS selectors are not modelled: the page is the already-reduced `Page.Document`.
  - This includes which elements match `[class*="player"]` and similar selectors, the first nested match of `.first()`, and `closest('div, tr, li')`.
  - The `:first-child` flag on each row is read only by `TableScan.RowsNotFirstChild` and the lemmas about it; the extraction does not read it.
- Debug logging is left out.
- `new Date()` for `lastUpdated` is left out: a clock reading.
- The client's DOM, events, alerts, timers, tab switching and the `fetch` with its timeout are left out. The login and signup forms' trimming and empty checks belong to that UI.
- The team a user submits arrives as a parameter. Its assembly from the tier `<select>` elements is not modelled.
- `localStorage` and JSON are an in-memory `map` plus the `currentUser` field.
- The team object keyed by tier number is a sequence in key order. Its keys are small integers, so `Object.keys` and the tier sort list them in that order.
- `api/test.js` is not part of this model: it returns a fixed sample payload.
- `install-chromium.js` is not part of this model: it does file-system probes and a shell install.
- OddsRank.ParseOdds: numbers are exact reals, not IEEE doubles, so rounding in `(a/b)*100` and `(d-1)*100` is not modelled. `parseFloat` reads decimals without an exponent or the `Infinity` literal. `parseInt` reads base 10 without a hex prefix.
- Tiers.TierSize: `Math.floor(total * percentage)` on doubles is modelled as `total * P / 100` in integers with P in {5, 10, 15, 20, 25}. For very large totals the two could differ.
- Tiers.KeyLe: when two keys are both `NaN` or `Infinity`, the source's `a.oddsValue - b.oddsValue` is `NaN`. The model orders those keys as equal, and orders `NaN` as `Infinity`.
- Tiers.SortByKey: the comparator sort is modelled as a stable insertion sort. Engines that sort stably give the same result.
- Text.ToLower: only ASCII letters are lower-cased.
- Lengths the source compares (`length` in server.js:159-160, 231, 295, 404, 427, 473 and public/script.js:86) are counted in UTF-16 code units through `Text.Utf16Length`.
- Containers.NameKey: `substring(0, 10)` (server.js:362) counts UTF-16 code units and can cut a surrogate pair in two; the model takes the first ten characters, so for a name with a character outside the Basic Multilingual Plane among its first ten units the key differs.
- Names.StripNoise: the case-insensitive `\b(...)\b` removal is modelled as removing whole blank-separated tokens.
- Text.IsSpace: JavaScript's `\s` is a fixed set of characters.
- RowExtract.ExtractRows, Extract.ExtractData: the rows loop runs over `TableScan.DataRows`, the rows after the header, which is the intended header skip. It does not run over the as-written `.not(':first-child')` filter (server.js:193), which the Findings table records. The two agree when the header row is the only first child (`TableScan.FilterAgreesWithHeaderSkip`).
- Registry.SignupCheck, Registry.Users.Login, Registry.Users.Signup: the model's `users` map holds only stored users. The source looks names up with `users[username]` on a plain object (public/script.js:76, 95), which also finds names that every object inherits, such as `constructor`, `toString`, `valueOf`, `hasOwnProperty` and `__proto__`. For those names the source's login succeeds and its signup answers that the name already exists; the model does not capture that.
- Teams.ScoreValue: its contract states only the no-digit case. The signed cases are in `Teams.SignedScores`.

## Findings

| source | as written | input that shows it | evidently intended | confidence | as-written member | corrected member |
|---|---|---|---|---|---|---|
| server.js:193 | `find('tbody tr, tr').not(':first-child')` drops every row that is the first child of its parent | a table with a header row in `thead` and players in `tbody`: the first player row is `tbody`'s first child and is dropped | skip only the header row, keeping every player row | not executed | TableScan.RowsNotFirstChild, TableScan.FirstChildFilterDropsAPlayerRow | TableScan.DataRows |
