# Shiro Coin score log and ranking bot, modelled in Dafny

Shiro Coin is a small browser game launched from Telegram. Two scripts carry its
logic:

- `shiro-backend/server.js` is an HTTP server. `POST /score` appends a record
  `{id, name, score, time}` to the JSON array in `scores.json`. `GET /ranking`
  returns the ten best records of that array, highest score first.
- `server.js` is the Telegram bot. It routes callback queries: a press of the
  game's "Play" button gets the game URL, and anything else gets a short
  notice. Its `/ranking` command turns Telegram's high-score list into a
  numbered text message.

The model keeps the pure decisions of both scripts and proves what they promise.

- `score_log.dfy` (`ScoreLog`): the log as `seq<Entry>` with integer scores.
  `Append` is `push`. `SortDesc` is a stable sort, highest score first, as
  ECMA-262 requires of `Array.prototype.sort` (section 23.1.3.30 of the 2023
  edition). `Top10` is that sort followed by `slice(0, 10)`. Stability is
  stated per tie group: `WithScore(s, k)` is the records of score `k` in `s`,
  in order. `SortDescUnique` shows that `SortDesc` is the only sorted
  arrangement that leaves every tie group in log order.
- `score_server.dfy` (`ScoreServer`): the two HTTP handlers as functions from
  the state of `scores.json` to the new state and the reply. That state is
  `Missing`, `Unreadable`, `NotAList` or `Present(log)`. Whether the write
  succeeds is an input.
- `callback.dfy` (`Callback`): the callback-query routing and its immediate
  answer. The routing is parameterised by the configured short name, and
  `Classify` fixes it to `'ShiroCoinDash'`.
- `ranking_text.dfy` (`RankingText`): the text of the `/ranking` message. It is
  read back line by line with `SplitLines` to state what it contains.
- `text.dfy` (`Text`): `String.prototype.includes`, rendering integers in
  decimal with a parser as their inverse, and splitting text on newlines.
- `wrappers.dfy` (`Wrappers`): `Option`, for values that may be absent.

The log keeps every submission. There is no best score per player and no rule
that a new score must beat the old one. A lower or equal score from a known id
is appended like any other, and one player can hold several places in the
ranking (`ScoreLog.TwoMoreRecordsRanked`). Ties are not broken by time. Equal
scores keep their order in the file because the sort is stable.

Two cases need care:

- A file whose JSON parses to something other than an array (`NotAList`) makes
  `scores.push` throw outside the `try` in `POST /score`. Express answers 500 and
  nothing is written. In `GET /ranking`, `scores.sort` throws inside the `try`,
  which also gives a 500.
- `GET /ranking` on a file that exists but cannot be read or parsed answers
  500. `POST /score` on the same file starts from an empty log. A successful
  POST then overwrites the file, and its earlier contents are lost
  (`ScoreServer.PostOverUnreadableStartsAfresh`).

## Model

| member | source | states |
|---|---|---|
| `ScoreLog.Append` | shiro-backend/server.js:33 | the new record is last, the log grows by exactly one, and every earlier record keeps its place |
| `ScoreLog.AppendKeepsEveryRecord` | shiro-backend/server.js:22-33 | no deduplication: appending under an id that is already present, even with a lower score, adds one more record under that id |
| `ScoreLog.SortDesc` | shiro-backend/server.js:57 | the sorted log is a permutation of the log (same multiset) with scores non-increasing |
| `ScoreLog.SortDescIsStable` | shiro-backend/server.js:57 | stability: for every score, the records of that score appear in the sorted log in the same order as in the file |
| `ScoreLog.SortDescUnique` | shiro-backend/server.js:57 | any arrangement that is sorted by score and keeps every tie group in file order equals the sort, so the ranking is a deterministic function of the file |
| `ScoreLog.SortedTieGroupsEqual` | shiro-backend/server.js:57 | two score-sorted logs with the same tie groups are equal |
| `ScoreLog.Top10` | shiro-backend/server.js:57 | the ranking has `min(n, 10)` records, sorted non-increasing, drawn from the log, and every record left out scores no higher than any ranked record |
| `ScoreLog.Top10KeepsTieOrder` | shiro-backend/server.js:57 | within one score, the ranking lists the earliest submitted records of that score, in file order |
| `ScoreLog.Top10IsPrefixOfSort` | shiro-backend/server.js:57 | the ranking is a prefix of the stable sort; a log of at most ten records is ranked whole |
| `ScoreLog.TwoMoreRecordsRanked` | shiro-backend/server.js:33-57 | for any log of at most eight records, two more records appended, under any ids and scores, are both ranked; the higher one is ranked first, and on equal scores they close their tie group in submission order |
| `ScoreLog.Top10HeadIsNewBest` | shiro-backend/server.js:57 | a record scoring above every earlier record heads the next ranking |
| `ScoreServer.LogBeforePost` | shiro-backend/server.js:23-31 | a missing, unreadable or unparseable file starts the POST from the empty log; a stored array is used as is; a non-array value leaves no log to push to |
| `ScoreServer.PostScore` | shiro-backend/server.js:21-42 | the reply is 200 exactly when the file holds no non-array value and the write succeeds, and then the new record is the last one stored; on 500 the file is unchanged |
| `ScoreServer.PostAppendsOneRecord` | shiro-backend/server.js:21-37 | on a readable log a successful POST stores the old log plus the new record at the end, one more record under its id |
| `ScoreServer.PostOverUnreadableStartsAfresh` | shiro-backend/server.js:23-36 | when the file is missing or cannot be read or parsed, a successful POST stores a log holding only the new record |
| `ScoreServer.GetRanking` | shiro-backend/server.js:50-64 | the file is never changed; a missing file gives `[]`; an unreadable file or a non-array value gives 500; a log gives exactly `Top10` of it, `min(n, 10)` records sorted by score |
| `ScoreServer.RankingIsReadOnly` | shiro-backend/server.js:50-64 | asking for the ranking twice gives the same answer, and a ranking request between POSTs does not change them |
| `ScoreServer.RankingAfterPost` | shiro-backend/server.js:21-59 | after any successful POST on a stored log, the ranking is the top ten of the old log with the new record appended; if the new record beats every stored score, it heads the ranking |
| `Callback.ClassifyWith` | server.js:133-166 | a query is unrecognised exactly when its short name is not the configured one; a query carrying the configured name takes the score route exactly when that name is non-empty and contains "score", and opens the game otherwise |
| `Callback.Classify` | server.js:133-166 | with the deployed short name no query takes the score route, and a query opens the game exactly when it carries `'ShiroCoinDash'` |
| `Callback.AnswerFor` | server.js:133-165 | "Play" is answered with the game URL and an unrecognised query with "Acción no reconocida."; only the score route has no immediate answer |
| `Callback.GameShortNameHasNoScore` | server.js:17 | `'ShiroCoinDash'` does not contain `"score"` |
| `Callback.PlayOpensGame` | server.js:133-137 | a query carrying the configured short name opens the game and is answered with `GAME_URL` |
| `Callback.ScoreRouteUnreachable` | server.js:133-160 | with the deployed short name no query reaches the score route; a query opens the game exactly when it carries that name; every query gets an immediate answer |
| `Callback.OtherCallbacksUnrecognised` | server.js:161-165 | any other or absent short name is answered "Acción no reconocida." |
| `Callback.ScoreRouteNeedsScoreInName` | server.js:135-138 | for every non-empty configured short name containing "score", a query carrying it reaches the score route and gets no immediate answer, so only the constant makes the route dead |
| `Text.Includes` | server.js:135 | the left-to-right scan behind `includes` is true exactly when the pattern occurs at some position |
| `Text.NatToString` | server.js:226 | a non-negative number renders as at least one digit, all digits, with no leading zero unless the number is 0 |
| `Text.IntToString` | server.js:226 | a score renders as at least one character; it starts with '-' exactly when the score is negative, and every other character is a digit |
| `Text.ParseNatToString` | server.js:226 | a non-negative integer rendered in decimal reads back to itself |
| `Text.NatToStringInjective` | server.js:226 | distinct line numbers render differently |
| `Text.IntToStringRoundTrip` | server.js:226 | a score rendered in decimal, with a minus sign when negative, reads back to itself |
| `Text.SplitJoinLines` | server.js:224-227 | lines without newlines, each ended by a newline, split back into the same lines |
| `RankingText.DisplayName` | server.js:226 | the first name, a space, then the last name, or nothing when the last name is absent |
| `RankingText.Line` | server.js:226 | a line starts with its number and ". " and ends with ": ", the score and " puntos" |
| `RankingText.Render` | server.js:222-230 | the message always begins with the header |
| `RankingText.RenderNoScores` | server.js:222-229 | an absent or empty list gives the header and the fallback sentence, three lines with no numbered one |
| `RankingText.RenderOneLinePerEntry` | server.js:222-227 | a non-empty list gives the title, an empty line, and then one line per entry, numbered 1 to n in list order, with nothing reordered or dropped |
| `RankingText.LineShowsNumberAndScore` | server.js:226 | read back from the line itself: the digits at its start parse to the entry's number and are followed by ". ", and the field between ": " and " puntos" at its end is the rendered score and parses back to it |
| `RankingText.AbsentLastNameIsEmpty` | server.js:226 | an absent last name prints exactly like an empty one, never as "undefined" |
| `RankingText.NumberingIgnoresPosition` | server.js:224-226 | numbering comes from list order, not from Telegram's `position` field |

## Left out

- Express and the file system: routing, `bodyParser`, `existsSync`, `readFileSync` and `writeFileSync`. The file is the abstract `ScoreServer.Stored`, and the outcome of the write is the boolean `writeOk`.
- A write that fails part way: the model takes a failed write to leave the file as it was.
- JSON content: a stored array whose elements are not `{id, name, score, time}` records is not modelled.
- Scores are unbounded integers. A score that is missing, non-numeric or `NaN` is not validated by the code, and it makes the sort order implementation-defined. JavaScript numbers are doubles, so `b.score - a.score` is exact only below 2^53 in magnitude.
- The `time` field is an input, because the code reads it from the clock (`new Date().toISOString()`).
- The Telegram Bot API calls `sendGame`, `answerCallbackQuery`, `setGameScore`, `getGameHighScores` and `sendMessage`, and polling, are network calls. The high-score list is an input to `RankingText.Render`. The `/start` handler (server.js:101-119) and the logging `message` handler (server.js:173-181) only call or log.
- The `/ranking` command's choice of `getGameHighScores` arguments (server.js:195-220) is made before the call. It depends on whether the command replies to a game message (`msg.reply_to_message.game`, server.js:197) or carries the game's short name (`msg.game_short_name`, server.js:207). It only picks the arguments of a network call, whose result is an input to `RankingText.Render`.
- The `/ranking` command's error messages (server.js:233-241) depend only on the error that network call raises.
- The score route's body (server.js:139-159) parses `query.data` with `parseInt` and then calls `setGameScore`. It is unreachable with the deployed short name, so only the route is modelled.
- Markdown parsing of the message by Telegram: the model produces the text that is sent.
- Concurrent POSTs: the handlers run to completion on Node's event loop, with synchronous file calls.
- The commented-out copy of the score server inside server.js (lines 44-89).
- RankingText.RenderOneLinePerEntry: the line-by-line reading assumes no first or last name contains a newline. A newline inside a name would split that entry's line in the sent text.
