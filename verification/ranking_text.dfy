/** The `/ranking` command's message text (server.js): a fixed header, then
    one numbered line per high score Telegram returned, or a fallback sentence
    when there is none. */
module RankingText {
  import opened Wrappers
  import opened Text

  /** A Telegram user as the ranking sees it; `last_name` is optional. */
  datatype User = User(firstName: string, lastName: Option<string>)

  /** One entry of `getGameHighScores`: Telegram's own position, the user and the score. */
  datatype HighScore = HighScore(position: int, user: User, score: int)

  /** The first line of the header; the header is this line and an empty one. */
  const Title: string := "\U{1F3C6} **Ranking Shiro Coin** \U{1F3C6}"
  const Header: string := Title + "\n\n"

  /** Sent in place of the lines when there is no score yet. */
  const Fallback: string := FallbackStart + FallbackMiddle + FallbackEnd
  const FallbackStart: string := "A\U{00FA}n no hay puntuaciones "
  const FallbackMiddle: string := "en el ranking. "
  const FallbackEnd: string := "\U{00A1}S\U{00E9} el primero en jugar!"

  /** `${first_name} ${last_name || ''}`: an absent last name prints as nothing. */
  function DisplayName(u: User): (r: string)
    ensures u.lastName.None? ==> r == u.firstName + " "
    ensures u.lastName.Some? ==> r == u.firstName + " " + u.lastName.value
  {
    u.firstName + " " + u.lastName.GetOr("")
  }

  /** The line for the entry numbered `n`, without its newline. */
  function Line(n: nat, e: HighScore): (line: string)
    ensures NumberPrefix(n) <= line
    ensures |line| >= |NumberPrefix(n)| + |ScoreSuffix(e.score)|
    ensures line[|line| - |ScoreSuffix(e.score)|..] == ScoreSuffix(e.score)
  {
    var line := NumberPrefix(n) + DisplayName(e.user) + ScoreSuffix(e.score);
    assert line == (NumberPrefix(n) + DisplayName(e.user)) + ScoreSuffix(e.score);
    line
  }

  /** The start of the line numbered `n`. */
  function NumberPrefix(n: nat): string {
    NatToString(n) + ". "
  }

  /** The end of a line showing `score`. */
  function ScoreSuffix(score: int): string {
    ": " + IntToString(score) + " puntos"
  }

  /** The lines for `entries`, numbered from 1 in list order. */
  function Lines(entries: seq<HighScore>): (ls: seq<string>)
    ensures |ls| == |entries|
  {
    seq(|entries|, i requires 0 <= i < |entries| => Line(i + 1, entries[i]))
  }

  /** The whole message for the high-score list Telegram returned (`None` when
      it returned nothing usable). */
  function Render(highScores: Option<seq<HighScore>>): (text: string)
    ensures Header <= text
  {
    if highScores.Some? && |highScores.value| > 0 then Header + JoinLines(Lines(highScores.value))
    else Header + Fallback
  }

  /** A user whose names fit on one line. */
  predicate OneLineUser(u: User) {
    NoNewline(u.firstName) && (u.lastName.Some? ==> NoNewline(u.lastName.value))
  }

  lemma {:induction false} NatToStringOneLine(n: nat)
    ensures NoNewline(NatToString(n))
  {
    var s := NatToString(n);
    forall i | 0 <= i < |s| ensures s[i] != '\n' {
      assert IsDigit(s[i]);
    }
  }

  lemma LineIsOneLine(n: nat, e: HighScore)
    requires OneLineUser(e.user)
    ensures NoNewline(Line(n, e))
  {
    NatToStringOneLine(n);
    var num := NatToString(n);
    var sc := if e.score < 0 then -e.score else e.score;
    NatToStringOneLine(sc);
    assert NoNewline(IntToString(e.score));
    assert NoNewline(DisplayName(e.user));
  }

  /** With no entries, the message is the header and the fallback sentence,
      and it holds no numbered line. */
  lemma RenderNoScores(highScores: Option<seq<HighScore>>)
    requires highScores.None? || highScores.value == []
    ensures Render(highScores) == Header + Fallback
    ensures SplitLines(Render(highScores)) == [Title, "", Fallback]
  {
    TitleIsOneLine();
    FallbackIsOneLine();
    SplitTitled(Title, Fallback);
  }

  lemma TitleIsOneLine()
    ensures NoNewline(Title)
  {
  }

  lemma FallbackIsOneLine()
    ensures NoNewline(Fallback)
  {
    assert NoNewline(FallbackStart);
    assert NoNewline(FallbackMiddle);
    assert NoNewline(FallbackEnd);
    NoNewlineConcat(FallbackStart, FallbackMiddle);
    NoNewlineConcat(FallbackStart + FallbackMiddle, FallbackEnd);
  }

  /** Read back line by line, the message for a non-empty list is the title,
      an empty line, then exactly one line per entry, numbered 1 to n in the
      order Telegram gave them, and the empty piece after the final newline. */
  lemma RenderOneLinePerEntry(entries: seq<HighScore>)
    requires |entries| > 0
    requires forall i :: 0 <= i < |entries| ==> OneLineUser(entries[i].user)
    ensures SplitLines(Render(Some(entries))) == [Title, ""] + Lines(entries) + [""]
    ensures forall i :: 0 <= i < |entries| ==> Lines(entries)[i] == Line(i + 1, entries[i])
  {
    var ls := Lines(entries);
    forall i | 0 <= i < |ls| ensures NoNewline(ls[i]) {
      LineIsOneLine(i + 1, entries[i]);
    }
    TitleIsOneLine();
    SplitTitledLines(Title, ls);
  }

  /** Each line reads back to what it shows: the digits before ". " are the
      entry's number, and the field between ": " and " puntos" is its score. */
  lemma LineShowsNumberAndScore(n: nat, e: HighScore)
    ensures var line := Line(n, e);
      var numeral := line[..|NatToString(n)|];
      var field := line[|line| - |ScoreSuffix(e.score)| + 2..|line| - |" puntos"|];
      && (forall k :: 0 <= k < |numeral| ==> IsDigit(numeral[k]))
      && ParseNat(numeral) == n
      && line[|numeral|..|numeral| + 2] == ". "
      && field == IntToString(e.score)
      && ParseInt(field) == e.score
  {
    LineShowsNumber(n, e);
    LineShowsScore(n, e);
  }

  lemma LineShowsNumber(n: nat, e: HighScore)
    ensures var line := Line(n, e);
      var numeral := line[..|NatToString(n)|];
      && numeral == NatToString(n)
      && ParseNat(numeral) == n
      && line[|numeral|..|numeral| + 2] == ". "
  {
    var line := Line(n, e);
    var prefix := NumberPrefix(n);
    assert line[..|prefix|] == prefix;
    assert prefix[..|NatToString(n)|] == NatToString(n);
    assert prefix[|NatToString(n)|..] == ". ";
    ParseNatToString(n);
  }

  lemma LineShowsScore(n: nat, e: HighScore)
    ensures var line := Line(n, e);
      var field := line[|line| - |ScoreSuffix(e.score)| + 2..|line| - |" puntos"|];
      && field == IntToString(e.score)
      && ParseInt(field) == e.score
  {
    var line := Line(n, e);
    var suffix := ScoreSuffix(e.score);
    var tail := line[|line| - |suffix|..];
    assert tail == suffix;
    assert suffix[2..|suffix| - |" puntos"|] == IntToString(e.score);
    assert line[|line| - |suffix| + 2..|line| - |" puntos"|] == tail[2..|suffix| - |" puntos"|];
    IntToStringRoundTrip(e.score);
  }

  /** An absent last name prints exactly like an empty one. */
  lemma AbsentLastNameIsEmpty(n: nat, first: string, position: int, score: int)
    ensures Line(n, HighScore(position, User(first, None), score))
         == Line(n, HighScore(position, User(first, Some("")), score))
  {
  }

  /** The numbering comes from the list order, not from Telegram's `position`
      field: two lists that differ only in positions print the same. */
  lemma NumberingIgnoresPosition(a: seq<HighScore>, b: seq<HighScore>)
    requires |a| == |b|
    requires forall i :: 0 <= i < |a| ==> a[i].user == b[i].user && a[i].score == b[i].score
    ensures Render(Some(a)) == Render(Some(b))
  {
    assert Lines(a) == Lines(b);
  }
}
