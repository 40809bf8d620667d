/** The file-backed score log of the HTTP score server (shiro-backend/server.js)
    and its top-10 projection.

    The log is the JSON array stored in `scores.json`: a sequence of records
    `{id, name, score, time}` kept in insertion order. A POST appends one record
    without looking at what is already there; a ranking request sorts a copy by
    score, highest first, with a sort that ECMA-262 requires to be stable, and
    keeps the first ten. */
module ScoreLog {

  /** One stored record. `id` and `time` are opaque to the logic: the id is
      whatever the client sent, the time an ISO-8601 timestamp taken from the clock. */
  datatype Entry = Entry(id: string, name: string, score: int, time: string)

  type Log = seq<Entry>

  /** The number of records a ranking request returns. */
  const RankingSize: nat := 10

  function Min(a: int, b: int): int {
    if a <= b then a else b
  }

  // ---------------------------------------------------------------------------
  // Appending a record
  // ---------------------------------------------------------------------------

  /** `scores.push(record)`: the new record goes last and nothing before it moves. */
  function Append(log: Log, e: Entry): (r: Log)
    ensures |r| == |log| + 1
    ensures r[..|log|] == log
    ensures r[|log|] == e
  {
    log + [e]
  }

  /** The number of records in `log` submitted under `id`. */
  function CountId(log: Log, id: string): (n: nat)
    ensures n <= |log|
  {
    if log == [] then 0
    else (if log[0].id == id then 1 else 0) + CountId(log[1..], id)
  }

  lemma {:induction false} CountIdAppend(log: Log, e: Entry, id: string)
    ensures CountId(log + [e], id) == CountId(log, id) + (if e.id == id then 1 else 0)
    decreases |log|
  {
    if log == [] {
      assert [] + [e] == [e];
      assert [e][1..] == [];
    } else {
      assert (log + [e])[1..] == log[1..] + [e];
      CountIdAppend(log[1..], e, id);
    }
  }

  /** Appending never deduplicates and never compares against an earlier score
      of the same player: a record whose id is already present, even with a
      lower score, is one more record under that id. */
  lemma AppendKeepsEveryRecord(log: Log, e: Entry)
    ensures CountId(Append(log, e), e.id) == CountId(log, e.id) + 1
    ensures forall i :: 0 <= i < |log| ==> Append(log, e)[i] == log[i]
  {
    CountIdAppend(log, e, e.id);
  }

  // ---------------------------------------------------------------------------
  // Ordering by score
  // ---------------------------------------------------------------------------

  /** Scores never increase along `s`: the order of `(a, b) => b.score - a.score`. */
  predicate SortedDesc(s: Log) {
    forall i, j :: 0 <= i < j < |s| ==> s[i].score >= s[j].score
  }

  /** The records of `s` whose score is `k`, in the order they occur in `s`:
      one tie group. A sort is stable exactly when it leaves every tie group
      as it found it. */
  function WithScore(s: Log, k: int): (r: Log)
    ensures |r| <= |s|
    ensures forall i :: 0 <= i < |r| ==> r[i].score == k
  {
    if s == [] then []
    else (if s[0].score == k then [s[0]] else []) + WithScore(s[1..], k)
  }

  /** Inserts `x` in front of the first record it does not fall below: before
      all records of equal score, so `x` heads its tie group. */
  function Insert(x: Entry, s: Log): (r: Log)
    ensures |r| == |s| + 1
    ensures multiset(r) == multiset(s) + multiset{x}
    ensures r[0] == x || (s != [] && r[0] == s[0])
    ensures SortedDesc(s) ==> SortedDesc(r)
  {
    if s == [] || x.score >= s[0].score then
      assert SortedDesc(s) ==> SortedDesc([x] + s) by {
        if SortedDesc(s) { ConsSorted(x, s); }
      }
      [x] + s
    else
      var rest := Insert(x, s[1..]);
      assert multiset(s) == multiset{s[0]} + multiset(s[1..]) by {
        assert s == [s[0]] + s[1..];
      }
      assert SortedDesc(s) ==> SortedDesc([s[0]] + rest) by {
        if SortedDesc(s) {
          assert SortedDesc(s[1..]);
          ConsSorted(s[0], rest);
        }
      }
      [s[0]] + rest
  }

  /** A record no lower than the head of a sorted log can go in front of it. */
  lemma ConsSorted(h: Entry, t: Log)
    requires SortedDesc(t)
    requires t == [] || h.score >= t[0].score
    ensures SortedDesc([h] + t)
  {
    var r := [h] + t;
    forall i, j | 0 <= i < j < |r| ensures r[i].score >= r[j].score {
      if i == 0 {
        assert r[j] == t[j - 1];
        assert t[0].score >= t[j - 1].score;
      } else {
        assert r[i] == t[i - 1] && r[j] == t[j - 1];
      }
    }
  }

  /** A stable sort, highest score first: insertion sort taking the records
      from the back, so a record placed later in the log is already in place
      when an earlier record of the same score is inserted in front of it. */
  function SortDesc(s: Log): (r: Log)
    ensures |r| == |s|
    ensures multiset(r) == multiset(s)
    ensures SortedDesc(r)
  {
    if s == [] then []
    else
      var rest := SortDesc(s[1..]);
      assert multiset(s) == multiset{s[0]} + multiset(s[1..]) by {
        assert s == [s[0]] + s[1..];
      }
      Insert(s[0], rest)
  }

  /** `[x]` when `x` has score `k`, otherwise nothing: what `x` adds to tie group `k`. */
  function TieHead(x: Entry, k: int): Log {
    if x.score == k then [x] else []
  }

  lemma WithScoreCons(x: Entry, s: Log, k: int)
    ensures WithScore([x] + s, k) == TieHead(x, k) + WithScore(s, k)
  {
    assert ([x] + s)[0] == x;
    assert ([x] + s)[1..] == s;
  }

  /** Inserting adds `x` at the head of its own tie group and leaves every
      other tie group alone. */
  lemma {:induction false} InsertTieGroup(x: Entry, s: Log, k: int)
    ensures WithScore(Insert(x, s), k) == TieHead(x, k) + WithScore(s, k)
    decreases |s|
  {
    if s == [] || x.score >= s[0].score {
      assert Insert(x, s) == [x] + s;
      WithScoreCons(x, s, k);
    } else {
      InsertBelowHead(x, s, k);
    }
  }

  /** The case where `x` goes below the head of `s`: the head's tie group and
      `x`'s cannot be the same, so their order does not matter. */
  lemma {:induction false} InsertBelowHead(x: Entry, s: Log, k: int)
    requires s != [] && x.score < s[0].score
    ensures WithScore(Insert(x, s), k) == TieHead(x, k) + WithScore(s, k)
    decreases |s|, 0
  {
    var rest := Insert(x, s[1..]);
    var w := WithScore(s[1..], k);
    var a, b := TieHead(s[0], k), TieHead(x, k);
    assert WithScore(Insert(x, s), k) == a + WithScore(rest, k) by {
      InsertPassesHead(x, s);
      WithScoreCons(s[0], rest, k);
    }
    assert WithScore(rest, k) == b + w by {
      InsertTieGroup(x, s[1..], k);
    }
    assert WithScore(s, k) == a + w by {
      WithScoreHead(s, k);
    }
    SwapDisjointHeads(a, b, w);
  }

  /** Below the head, `Insert` keeps the head and inserts into the rest. */
  lemma InsertPassesHead(x: Entry, s: Log)
    requires s != [] && x.score < s[0].score
    ensures Insert(x, s) == [s[0]] + Insert(x, s[1..])
  {
  }

  /** `WithScoreCons` for a non-empty log split at its head. */
  lemma WithScoreHead(s: Log, k: int)
    requires s != []
    ensures WithScore(s, k) == TieHead(s[0], k) + WithScore(s[1..], k)
  {
    assert s == [s[0]] + s[1..];
    WithScoreCons(s[0], s[1..], k);
  }

  /** Two heads of which one is empty commute. */
  lemma SwapDisjointHeads(a: Log, b: Log, w: Log)
    requires a == [] || b == []
    ensures a + (b + w) == b + (a + w)
  {
  }

  /** Stability: sorting leaves every tie group in log order. */
  lemma {:induction false} SortDescIsStable(s: Log, k: int)
    ensures WithScore(SortDesc(s), k) == WithScore(s, k)
    decreases |s|
  {
    if s != [] {
      InsertTieGroup(s[0], SortDesc(s[1..]), k);
      SortDescIsStable(s[1..], k);
    }
  }

  /** A tie group holds only records of the log. */
  lemma {:induction false} WithScoreMembers(s: Log, k: int)
    ensures forall e :: e in WithScore(s, k) ==> e in s
    decreases |s|
  {
    if s != [] {
      WithScoreMembers(s[1..], k);
    }
  }

  lemma {:induction false} HeadTieGroupNonEmpty(s: Log)
    requires s != []
    ensures WithScore(s, s[0].score) != []
  {
  }

  /** The first record of a non-empty sorted log carries its highest score. */
  lemma FirstIsMax(t: Log, k: int)
    requires SortedDesc(t) && t != []
    requires WithScore(t, k) != []
    ensures k <= t[0].score
  {
    var w := WithScore(t, k);
    WithScoreMembers(t, k);
    assert w[0] in t && w[0].score == k;
  }

  /** The reference definition of the ranking order: a sorted arrangement
      that keeps every tie group in log order is exactly `SortDesc`. Together
      with `SortDescIsStable` this pins the sort down to one result, so the
      ranking is a pure function of the stored log. */
  lemma {:induction false} SortDescUnique(s: Log, t: Log)
    requires SortedDesc(t)
    requires forall k :: WithScore(t, k) == WithScore(s, k)
    ensures t == SortDesc(s)
  {
    var u := SortDesc(s);
    forall k ensures WithScore(u, k) == WithScore(t, k) {
      SortDescIsStable(s, k);
    }
    SortedTieGroupsEqual(t, u);
  }

  /** Two sorted logs with the same tie groups are the same log. */
  lemma {:induction false} SortedTieGroupsEqual(t: Log, u: Log)
    requires SortedDesc(t) && SortedDesc(u)
    requires forall k :: WithScore(t, k) == WithScore(u, k)
    ensures t == u
    decreases |t|
  {
    if t == [] {
    } else if u == [] {
      HeadTieGroupNonEmpty(t);
    } else {
      var m := t[0].score;
      assert WithScore(t, m) != [];
      FirstIsMax(u, m);
      assert WithScore(u, u[0].score) != [];
      assert WithScore(t, u[0].score) == WithScore(u, u[0].score);
      FirstIsMax(t, u[0].score);
      assert u[0].score == m;
      assert WithScore(t, m)[0] == t[0];
      assert WithScore(u, m)[0] == u[0];
      forall k ensures WithScore(t[1..], k) == WithScore(u[1..], k) {
        var head := if k == m then [t[0]] else [];
        assert WithScore(t, k) == head + WithScore(t[1..], k);
        assert WithScore(u, k) == head + WithScore(u[1..], k);
        assert WithScore(t, k) == WithScore(u, k);
        assert WithScore(t[1..], k) == WithScore(t, k)[|head|..];
      }
      SortedTieGroupsEqual(t[1..], u[1..]);
    }
  }

  // ---------------------------------------------------------------------------
  // The top-10 projection
  // ---------------------------------------------------------------------------

  /** Every record of `rest` scores no higher than any record of `top`. */
  ghost predicate Dominates(top: Log, rest: multiset<Entry>) {
    forall e, j :: e in rest && 0 <= j < |top| ==> e.score <= top[j].score
  }

  lemma PrefixDominates(s: Log, n: nat)
    requires SortedDesc(s) && n <= |s|
    ensures Dominates(s[..n], multiset(s) - multiset(s[..n]))
  {
    assert s == s[..n] + s[n..];
    assert multiset(s) - multiset(s[..n]) == multiset(s[n..]);
    forall e, j | e in multiset(s[n..]) && 0 <= j < n
      ensures e.score <= s[..n][j].score
    {
      var i :| 0 <= i < |s[n..]| && s[n..][i] == e;
      assert s[n + i] == e;
    }
  }

  lemma PrefixMultiset(s: Log, n: nat)
    requires n <= |s|
    ensures multiset(s[..n]) <= multiset(s)
  {
    assert s == s[..n] + s[n..];
  }

  /** `scores.sort((a, b) => b.score - a.score).slice(0, 10)`. */
  function Top10(log: Log): (r: Log)
    ensures |r| == Min(|log|, RankingSize)
    ensures SortedDesc(r)
    ensures multiset(r) <= multiset(log)
    ensures Dominates(r, multiset(log) - multiset(r))
  {
    var sorted := SortDesc(log);
    var n := Min(|log|, RankingSize);
    PrefixDominates(sorted, n);
    PrefixMultiset(sorted, n);
    sorted[..n]
  }

  /** A tie group of a prefix is a prefix of the whole tie group. */
  lemma {:induction false} WithScorePrefix(s: Log, n: nat, k: int)
    requires n <= |s|
    ensures WithScore(s[..n], k) <= WithScore(s, k)
    decreases n
  {
    if n > 0 {
      assert s[..n][0] == s[0];
      assert s[..n][1..] == s[1..][..n - 1];
      WithScorePrefix(s[1..], n - 1, k);
    }
  }

  /** Ties at the cut-off are broken by log order: within one score, the
      ranking holds the earliest submitted records of that score, in order. */
  lemma Top10KeepsTieOrder(log: Log, k: int)
    ensures WithScore(Top10(log), k) <= WithScore(log, k)
  {
    var sorted := SortDesc(log);
    WithScorePrefix(sorted, Min(|log|, RankingSize), k);
    SortDescIsStable(log, k);
  }

  /** The ranking is the first records of the stable sort; a log of at most
      ten records is ranked whole, so every submission in it is listed, however
      many share an id. */
  lemma Top10IsPrefixOfSort(log: Log)
    ensures Top10(log) <= SortDesc(log)
    ensures |log| <= RankingSize ==> Top10(log) == SortDesc(log)
    ensures |log| <= RankingSize ==> multiset(Top10(log)) == multiset(log)
  {
  }

  /** Two more submissions to a log that still fits in the ranking are both
      ranked, whatever their ids; with `a.id == b.id` this is one player
      holding several places. The higher one comes first; on equal scores
      they close their tie group in the order they were submitted. */
  lemma TwoMoreRecordsRanked(log: Log, a: Entry, b: Entry)
    requires |log| + 2 <= RankingSize
    ensures var ranked := Top10(Append(Append(log, a), b));
      && a in ranked && b in ranked
      && (a.score > b.score ==>
            exists i, j :: 0 <= i < j < |ranked| && ranked[i] == a && ranked[j] == b)
      && (a.score == b.score ==>
            WithScore(ranked, a.score) == WithScore(log, a.score) + [a, b])
  {
    var s := Append(Append(log, a), b);
    assert s == log + [a, b];
    PairRanked(log, a, b);
    if a.score > b.score {
      HigherComesFirst(Top10(s), a, b);
    }
    if a.score == b.score {
      PairClosesTieGroup(log, a, b);
    }
  }

  lemma PairRanked(log: Log, a: Entry, b: Entry)
    requires |log| + 2 <= RankingSize
    ensures a in Top10(log + [a, b]) && b in Top10(log + [a, b])
  {
    var s := log + [a, b];
    Top10IsPrefixOfSort(s);
    assert s[|log|] == a && s[|log| + 1] == b;
    assert a in multiset(s) && b in multiset(s);
  }

  lemma PairClosesTieGroup(log: Log, a: Entry, b: Entry)
    requires |log| + 2 <= RankingSize && a.score == b.score
    ensures WithScore(Top10(log + [a, b]), a.score) == WithScore(log, a.score) + [a, b]
  {
    var s := log + [a, b];
    var k := a.score;
    assert WithScore(Top10(s), k) == WithScore(s, k) by {
      Top10IsPrefixOfSort(s);
      SortDescIsStable(s, k);
    }
    WithScoreAppend(log, [a, b], k);
    WithScorePair(a, b, k);
  }

  lemma WithScorePair(a: Entry, b: Entry, k: int)
    requires a.score == k && b.score == k
    ensures WithScore([a, b], k) == [a, b]
  {
    assert [a, b][1..] == [b];
    assert [b][1..] == [];
  }

  /** In a sorted log a record precedes every record with a lower score. */
  lemma HigherComesFirst(r: Log, a: Entry, b: Entry)
    requires SortedDesc(r) && a in r && b in r && a.score > b.score
    ensures exists i, j :: 0 <= i < j < |r| && r[i] == a && r[j] == b
  {
    var i :| 0 <= i < |r| && r[i] == a;
    var j :| 0 <= j < |r| && r[j] == b;
  }

  /** Tie groups distribute over concatenation. */
  lemma {:induction false} WithScoreAppend(s: Log, t: Log, k: int)
    ensures WithScore(s + t, k) == WithScore(s, k) + WithScore(t, k)
    decreases |s|
  {
    if s == [] {
      assert s + t == t;
    } else {
      var h := TieHead(s[0], k);
      assert WithScore(s + t, k) == h + WithScore(s[1..] + t, k) by {
        assert s + t == [s[0]] + (s[1..] + t);
        WithScoreCons(s[0], s[1..] + t, k);
      }
      assert WithScore(s[1..] + t, k) == WithScore(s[1..], k) + WithScore(t, k) by {
        WithScoreAppend(s[1..], t, k);
      }
      assert WithScore(s, k) == h + WithScore(s[1..], k) by {
        assert s == [s[0]] + s[1..];
        WithScoreCons(s[0], s[1..], k);
      }
    }
  }

  /** A record that beats every record before it heads the next ranking. */
  lemma Top10HeadIsNewBest(log: Log, e: Entry)
    requires forall i :: 0 <= i < |log| ==> log[i].score < e.score
    ensures Top10(log + [e]) != [] && Top10(log + [e])[0] == e
  {
    var s := log + [e];
    var sorted := SortDesc(s);
    assert e in multiset(sorted) by {
      assert s[|log|] == e;
    }
    var j :| 0 <= j < |sorted| && sorted[j] == e;
    // The head of the sort scores at least as much as `e` ...
    assert sorted[0].score >= e.score;
    // ... and every earlier record scores less, so the head is `e` itself.
    assert sorted[0] in multiset(s);
    var i :| 0 <= i < |s| && s[i] == sorted[0];
    assert i == |log|;
    assert Top10(s)[0] == sorted[0];
  }
}
