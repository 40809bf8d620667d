/** The two HTTP handlers of the score server (shiro-backend/server.js) as pure
    functions from the state of `scores.json` to the new state and the reply.

    The file system is abstracted to what the handlers can observe of the file;
    whether `writeFileSync` succeeds is an input, since it depends on the disk. */
module ScoreServer {
  import opened ScoreLog
  import opened Wrappers

  /** What reading `scores.json` yields. */
  datatype Stored =
    | Missing            // `fs.existsSync` is false
    | Unreadable         // the file exists, but reading it or `JSON.parse` throws
    | NotAList           // `JSON.parse` yields a value that is not an array (an object, `null`, a number, ...)
    | Present(log: Log)  // a JSON array of records

  datatype Reply =
    | Status(code: int)  // `res.sendStatus(code)`
    | Json(body: Log)    // `res.json(body)`, status 200

  /** The file after the request, and what the client receives. */
  datatype Handled = Handled(stored: Stored, reply: Reply)

  const Ok: int := 200
  const ServerError: int := 500

  /** The log `POST /score` starts from. A missing file and one that cannot be
      read or parsed both fall back to the empty log (the `catch` only logs);
      a parsed value that is not an array has no `push`, so the request fails
      before anything is written. */
  function LogBeforePost(stored: Stored): (r: Option<Log>)
    ensures r.None? <==> stored.NotAList?
    ensures stored.Present? ==> r == Some(stored.log)
    ensures stored.Missing? || stored.Unreadable? ==> r == Some([])
  {
    match stored
    case Missing => Some([])
    case Unreadable => Some([])
    case NotAList => None
    case Present(log) => Some(log)
  }

  /** `POST /score` with body `{id, name, score}`, stamped with `time`.
      `writeOk` says whether `fs.writeFileSync` succeeds. A failed write is
      taken to leave the file as it was. */
  function PostScore(stored: Stored, id: string, name: string, score: int, time: string, writeOk: bool): (r: Handled)
    ensures r.reply == Status(Ok) || r.reply == Status(ServerError)
    ensures r.reply == Status(Ok) <==> !stored.NotAList? && writeOk
    ensures r.reply == Status(ServerError) ==> r.stored == stored
    ensures r.reply == Status(Ok) ==>
      && r.stored.Present?
      && |r.stored.log| >= 1
      && r.stored.log[|r.stored.log| - 1] == Entry(id, name, score, time)
  {
    match LogBeforePost(stored)
    case None => Handled(stored, Status(ServerError))
    case Some(log) =>
      if writeOk then Handled(Present(Append(log, Entry(id, name, score, time))), Status(Ok))
      else Handled(stored, Status(ServerError))
  }

  /** `GET /ranking`: the top ten of the stored log, or `[]` when there is no
      file. A file that cannot be read, parsed or sorted is a 500. */
  function GetRanking(stored: Stored): (r: Handled)
    ensures r.stored == stored
    ensures stored.Missing? ==> r.reply == Json([])
    ensures stored.Unreadable? || stored.NotAList? ==> r.reply == Status(ServerError)
    ensures stored.Present? ==> r.reply == Json(Top10(stored.log))
    ensures stored.Present? ==> |r.reply.body| == Min(|stored.log|, RankingSize) && SortedDesc(r.reply.body)
  {
    match stored
    case Missing => Handled(stored, Json([]))
    case Unreadable => Handled(stored, Status(ServerError))
    case NotAList => Handled(stored, Status(ServerError))
    case Present(log) => Handled(stored, Json(Top10(log)))
  }

  /** A successful POST on a readable log adds exactly one record at the end
      and leaves every earlier record in place, even when the same id already
      has a higher score in the log. */
  lemma PostAppendsOneRecord(log: Log, id: string, name: string, score: int, time: string)
    ensures var r := PostScore(Present(log), id, name, score, time, true);
      && r.reply == Status(Ok)
      && r.stored == Present(log + [Entry(id, name, score, time)])
      && CountId(r.stored.log, id) == CountId(log, id) + 1
  {
    AppendKeepsEveryRecord(log, Entry(id, name, score, time));
  }

  /** When the file is missing or cannot be read or parsed, a successful POST
      replaces it with a log holding only the new record: whatever was in an
      unreadable file is lost. */
  lemma PostOverUnreadableStartsAfresh(stored: Stored, id: string, name: string, score: int, time: string)
    requires stored.Missing? || stored.Unreadable?
    ensures PostScore(stored, id, name, score, time, true).stored == Present([Entry(id, name, score, time)])
  {
  }

  /** A ranking request never changes the file, so asking twice gives the
      same answer, and asking between two POSTs does not affect them. */
  lemma RankingIsReadOnly(stored: Stored, id: string, name: string, score: int, time: string, writeOk: bool)
    ensures GetRanking(GetRanking(stored).stored) == GetRanking(stored)
    ensures PostScore(GetRanking(stored).stored, id, name, score, time, writeOk)
         == PostScore(stored, id, name, score, time, writeOk)
  {
  }

  /** The ranking served after a successful POST is the top ten of the old
      log with the new record appended; a record that beats every stored
      score is served first. */
  lemma RankingAfterPost(log: Log, id: string, name: string, score: int, time: string)
    ensures var after := PostScore(Present(log), id, name, score, time, true).stored;
      GetRanking(after).reply == Json(Top10(log + [Entry(id, name, score, time)]))
    ensures var after := PostScore(Present(log), id, name, score, time, true).stored;
      (forall i :: 0 <= i < |log| ==> log[i].score < score) ==>
        |GetRanking(after).reply.body| > 0 && GetRanking(after).reply.body[0] == Entry(id, name, score, time)
  {
    var e := Entry(id, name, score, time);
    assert PostScore(Present(log), id, name, score, time, true).stored == Present(log + [e]) by {
      assert Append(log, e) == log + [e];
    }
    if forall i :: 0 <= i < |log| ==> log[i].score < score {
      Top10HeadIsNewBest(log, e);
    }
  }
}
