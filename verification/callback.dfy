/** How the Telegram bot (server.js) routes a callback query: a press of the
    game's "Play" button, or anything else. */
module Callback {
  import opened Wrappers
  import opened Text

  /** The game's short name as registered with BotFather. */
  const GameShortName: string := "ShiroCoinDash"

  /** Where the game is hosted; the bot answers a "Play" press with this URL. */
  const GameUrl: string := "https://graceful-stroopwafel-713eff.netlify.app/"

  /** The text of the answer to a callback the bot does not recognise. */
  const NotRecognised: string := "Acción no reconocida."

  datatype Route =
    | OpenGame       // answer the query with the game URL
    | ScoreCallback  // read a score out of the callback data and report it to Telegram
    | Unrecognised   // answer with a short notice

  /** The routing decision, for a bot configured with short name `configured`,
      on a query whose `game_short_name` is `shortName` (`None` when absent).
      The game branch opens the game unless the short name is non-empty and
      contains "score". */
  function ClassifyWith(configured: string, shortName: Option<string>): (r: Route)
    ensures r == Unrecognised <==> shortName != Some(configured)
    ensures shortName == Some(configured) ==>
      (r == ScoreCallback <==> |configured| > 0 && Includes(configured, "score"))
  {
    if shortName == Some(configured) then
      if |configured| == 0 || !Includes(configured, "score") then OpenGame
      else ScoreCallback
    else Unrecognised
  }

  /** The routing decision of the deployed bot. */
  function Classify(shortName: Option<string>): (r: Route)
    ensures r != ScoreCallback
    ensures r == OpenGame <==> shortName == Some(GameShortName)
  {
    GameShortNameHasNoScore();
    ClassifyWith(GameShortName, shortName)
  }

  /** What the bot answers the callback query with. */
  datatype Answer =
    | OpenUrl(url: string)  // `answerCallbackQuery(id, {url})`
    | Notice(text: string)  // `answerCallbackQuery(id, {text})`

  /** The immediate answer of each route. The score route answers only once
      Telegram has accepted or refused the score, so it has no immediate answer. */
  function AnswerFor(route: Route): (a: Option<Answer>)
    ensures a.None? <==> route == ScoreCallback
    ensures route == OpenGame ==> a == Some(OpenUrl(GameUrl))
    ensures route == Unrecognised ==> a == Some(Notice(NotRecognised))
  {
    match route
    case OpenGame => Some(OpenUrl(GameUrl))
    case ScoreCallback => None
    case Unrecognised => Some(Notice(NotRecognised))
  }

  /** The configured short name does not contain "score". */
  lemma GameShortNameHasNoScore()
    ensures !Includes(GameShortName, "score")
  {
    // The only lower-case 's' is at index 11, too late for five letters.
    forall i | 0 <= i && i + 5 <= |GameShortName| ensures !OccursAt(GameShortName, "score", i) {
      assert GameShortName[i..i + 5][0] == GameShortName[i] != 's';
    }
  }

  /** A press of the game's button always opens the game at its URL. */
  lemma PlayOpensGame()
    ensures Classify(Some(GameShortName)) == OpenGame
    ensures AnswerFor(Classify(Some(GameShortName))) == Some(OpenUrl(GameUrl))
  {
    GameShortNameHasNoScore();
  }

  /** With the deployed short name the score route is dead code: every query
      either opens the game or is not recognised, and every query is answered
      at once. */
  lemma ScoreRouteUnreachable(shortName: Option<string>)
    ensures Classify(shortName) != ScoreCallback
    ensures Classify(shortName) == OpenGame <==> shortName == Some(GameShortName)
    ensures AnswerFor(Classify(shortName)).Some?
  {
    GameShortNameHasNoScore();
  }

  /** Any other or absent short name is answered with the notice. */
  lemma OtherCallbacksUnrecognised(shortName: Option<string>)
    requires shortName != Some(GameShortName)
    ensures AnswerFor(Classify(shortName)) == Some(Notice(NotRecognised))
  {
  }

  /** The score route is dead only because of the constant: a bot configured
      with any non-empty short name containing "score" does reach it. */
  lemma ScoreRouteNeedsScoreInName(configured: string)
    requires |configured| > 0 && Includes(configured, "score")
    ensures ClassifyWith(configured, Some(configured)) == ScoreCallback
    ensures AnswerFor(ClassifyWith(configured, Some(configured))).None?
  {
  }
}
