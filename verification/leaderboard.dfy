/** The `/leaderboard` handler of backend/server.cjs: a fold of the history
    into one row per user, a two-key descending sort and a clamped limit. */
module Leaderboard {
  import opened JsModel
  import opened Ledger
  import opened Ordering
  import ServerCjs

  datatype Row = Row(userId: string, wins: int, profit: int)

  datatype Metric = ByWins | ByProfit

  /** `req.query.metric === "profit" ? "profit" : "wins"`. */
  function ParseMetric(q: string): (m: Metric)
    ensures m == ByProfit <==> q == "profit"
  {
    if q == "profit" then ByProfit else ByWins
  }

  function WinsKey(r: Row): Key { Key(r.wins, r.profit) }
  function ProfitKey(r: Row): Key { Key(r.profit, r.wins) }

  /** The sort key: the chosen metric first, the other one breaking ties. */
  function KeyOf(m: Metric): Row -> Key {
    if m == ByWins then WinsKey else ProfitKey
  }

  /** One entry folded into a row: a win adds one win and its amount, a bet subtracts its amount. */
  function Bump(row: Row, e: Entry<int>): Row {
    if e.kind == Win then Row(row.userId, row.wins + 1, row.profit + e.amount)
    else Row(row.userId, row.wins, row.profit - e.amount)
  }

  /** `byUser.set(h.userId, row)`: the user's row is updated in place, or a
      zero row is appended and updated, as a `Map` keeps insertion order. */
  function Record(rows: seq<Row>, e: Entry<int>): seq<Row> {
    if |rows| == 0 then [Bump(Row(e.userId, 0, 0), e)]
    else if rows[0].userId == e.userId then [Bump(rows[0], e)] + rows[1..]
    else [rows[0]] + Record(rows[1..], e)
  }

  /** The `for (const h of history)` fold. */
  function Tally(h: seq<Entry<int>>): seq<Row> {
    if |h| == 0 then [] else Record(Tally(h[..|h| - 1]), h[|h| - 1])
  }

  /* ---------------- an independent account of a user's row ---------------- */

  /** Number of the user's `win` entries, zero-amount push credits included. */
  function WinCount(h: seq<Entry<int>>, userId: string): nat {
    if |h| == 0 then 0
    else WinCount(h[..|h| - 1], userId) + (if h[|h| - 1].userId == userId && h[|h| - 1].kind == Win then 1 else 0)
  }

  /** The row the fold should produce for a user. */
  function Expected(h: seq<Entry<int>>, userId: string): Row {
    Row(userId, WinCount(h, userId), ServerCjs.Net(h, userId))
  }

  /** The row for `userId`, or a zero row when there is none. */
  function Find(rows: seq<Row>, userId: string): Row {
    if |rows| == 0 then Row(userId, 0, 0)
    else if rows[0].userId == userId then rows[0]
    else Find(rows[1..], userId)
  }

  ghost predicate Distinct(rows: seq<Row>) {
    forall i, j :: 0 <= i < j < |rows| ==> rows[i].userId != rows[j].userId
  }

  ghost function RowUsers(rows: seq<Row>): set<string> {
    set i | 0 <= i < |rows| :: rows[i].userId
  }

  ghost function Users(h: seq<Entry<int>>): set<string> {
    set i | 0 <= i < |h| :: h[i].userId
  }

  lemma RowUsersCons(x: Row, t: seq<Row>)
    ensures RowUsers([x] + t) == {x.userId} + RowUsers(t)
  {
    var c := [x] + t;
    assert c[0].userId == x.userId;
    forall u | u in RowUsers(c) ensures u in {x.userId} + RowUsers(t) {
      var i :| 0 <= i < |c| && c[i].userId == u;
      if i > 0 { assert t[i - 1].userId == u; }
    }
    forall u | u in RowUsers(t) ensures u in RowUsers(c) {
      var i :| 0 <= i < |t| && t[i].userId == u;
      assert c[i + 1].userId == u;
    }
  }

  lemma DistinctCons(x: Row, t: seq<Row>)
    ensures Distinct([x] + t) <==> Distinct(t) && x.userId !in RowUsers(t)
  {
    var c := [x] + t;
    if Distinct(c) {
      forall i, j | 0 <= i < j < |t| ensures t[i].userId != t[j].userId {
        assert c[i + 1] == t[i] && c[j + 1] == t[j];
      }
      forall i | 0 <= i < |t| ensures t[i].userId != x.userId {
        assert c[0] == x && c[i + 1] == t[i];
      }
    }
    if Distinct(t) && x.userId !in RowUsers(t) {
      forall i, j | 0 <= i < j < |c| ensures c[i].userId != c[j].userId {
        if i == 0 {
          assert c[j].userId == t[j - 1].userId;
        } else {
          assert c[i] == t[i - 1] && c[j] == t[j - 1];
        }
      }
    }
  }

  /** Folding one entry bumps that user's row and leaves every other row as it was. */
  lemma {:induction false} RecordFind(rows: seq<Row>, e: Entry<int>, u: string)
    ensures Find(Record(rows, e), u) == (if u == e.userId then Bump(Find(rows, u), e) else Find(rows, u))
    decreases |rows|
  {
    if |rows| > 0 {
      var r := Record(rows, e);
      if rows[0].userId == e.userId {
        assert r[1..] == rows[1..];
      } else {
        assert r[1..] == Record(rows[1..], e);
        RecordFind(rows[1..], e, u);
      }
    }
  }

  lemma {:induction false} RecordUsers(rows: seq<Row>, e: Entry<int>)
    ensures RowUsers(Record(rows, e)) == RowUsers(rows) + {e.userId}
    decreases |rows|
  {
    var r := Record(rows, e);
    if |rows| == 0 {
      RowUsersCons(r[0], []);
      assert r == [r[0]] + [];
    } else {
      assert rows == [rows[0]] + rows[1..];
      RowUsersCons(rows[0], rows[1..]);
      if rows[0].userId == e.userId {
        assert r == [r[0]] + rows[1..];
        RowUsersCons(r[0], rows[1..]);
      } else {
        RecordUsers(rows[1..], e);
        assert r == [rows[0]] + Record(rows[1..], e);
        RowUsersCons(rows[0], Record(rows[1..], e));
      }
    }
  }

  lemma {:induction false} RecordDistinct(rows: seq<Row>, e: Entry<int>)
    requires Distinct(rows)
    ensures Distinct(Record(rows, e))
    decreases |rows|
  {
    var r := Record(rows, e);
    if |rows| > 0 {
      assert rows == [rows[0]] + rows[1..];
      DistinctCons(rows[0], rows[1..]);
      if rows[0].userId == e.userId {
        assert r == [r[0]] + rows[1..];
        DistinctCons(r[0], rows[1..]);
      } else {
        RecordDistinct(rows[1..], e);
        RecordUsers(rows[1..], e);
        assert r == [rows[0]] + Record(rows[1..], e);
        DistinctCons(rows[0], Record(rows[1..], e));
      }
    }
  }

  lemma {:induction false} FindIsRow(rows: seq<Row>, i: int)
    requires Distinct(rows)
    requires 0 <= i < |rows|
    ensures Find(rows, rows[i].userId) == rows[i]
    decreases i
  {
    if i > 0 {
      assert rows[0].userId != rows[i].userId;
      assert Distinct(rows[1..]);
      assert rows[1..][i - 1] == rows[i];
      FindIsRow(rows[1..], i - 1);
    }
  }

  lemma UsersSnoc(p: seq<Entry<int>>, e: Entry<int>)
    ensures Users(p + [e]) == Users(p) + {e.userId}
  {
    var h := p + [e];
    assert h[|p|].userId == e.userId;
    forall u | u in Users(h) ensures u in Users(p) + {e.userId} {
      var i :| 0 <= i < |h| && h[i].userId == u;
      if i < |p| { assert p[i].userId == u; }
    }
    forall u | u in Users(p) ensures u in Users(h) {
      var i :| 0 <= i < |p| && p[i].userId == u;
      assert h[i].userId == u;
    }
  }

  /** The fold gives each user of the history exactly one row, and that row
      counts the user's win entries and their wins minus bets. */
  lemma {:induction false} TallyIsExact(h: seq<Entry<int>>)
    ensures Distinct(Tally(h))
    ensures RowUsers(Tally(h)) == Users(h)
    ensures forall u :: Find(Tally(h), u) == Expected(h, u)
    decreases |h|
  {
    if |h| > 0 {
      var p := h[..|h| - 1];
      var e := h[|h| - 1];
      TallyIsExact(p);
      RecordDistinct(Tally(p), e);
      RecordUsers(Tally(p), e);
      assert h == p + [e];
      UsersSnoc(p, e);
      forall u ensures Find(Tally(h), u) == Expected(h, u) {
        RecordFind(Tally(p), e, u);
        ServerCjs.NetAppend(p, e, u);
      }
    } else {
      assert Users(h) == {};
    }
  }

  lemma {:induction false} DistinctCount(rows: seq<Row>)
    requires Distinct(rows)
    ensures |RowUsers(rows)| == |rows|
    decreases |rows|
  {
    if |rows| > 0 {
      assert rows == [rows[0]] + rows[1..];
      DistinctCons(rows[0], rows[1..]);
      RowUsersCons(rows[0], rows[1..]);
      DistinctCount(rows[1..]);
    } else {
      assert RowUsers(rows) == {};
    }
  }

  /** No row of a list with distinct users occurs twice. */
  lemma {:induction false} DistinctCounts(rows: seq<Row>)
    requires Distinct(rows)
    ensures forall x :: multiset(rows)[x] <= 1
    decreases |rows|
  {
    if |rows| > 0 {
      assert rows == [rows[0]] + rows[1..];
      DistinctCons(rows[0], rows[1..]);
      DistinctCounts(rows[1..]);
      assert forall i :: 0 <= i < |rows[1..]| ==> rows[1..][i].userId in RowUsers(rows[1..]);
      assert rows[0] !in rows[1..];
    }
  }

  lemma CountedTwice(s: seq<Row>, i: int, j: int)
    requires 0 <= i < j < |s|
    requires s[i] == s[j]
    ensures multiset(s)[s[i]] >= 2
  {
    assert s == s[..j] + s[j..];
    assert s[i] in s[..j];
    assert s[j..][0] == s[j];
    assert multiset(s[..j])[s[i]] >= 1 && multiset(s[j..])[s[i]] >= 1;
  }

  /** `Math.max(1, Math.min(100, Number(limit) || 20))`, truncated by `slice`. */
  function ClampLimit(q: JsNumber): (n: int)
    ensures 1 <= n <= 100
    ensures q == NaN || q == Finite(0.0) ==> n == 20
    ensures q.Finite? && q.value != 0.0 && 1.0 <= q.value <= 100.0 ==> n as real <= q.value < n as real + 1.0
    ensures q == NegInfinity || (q.Finite? && q.value != 0.0 && q.value < 1.0) ==> n == 1
    ensures q == PosInfinity || (q.Finite? && q.value > 100.0) ==> n == 100
  {
    match q
    case NaN => 20
    case PosInfinity => 100
    case NegInfinity => 1
    case Finite(x) =>
      if x == 0.0 then 20
      else if x < 1.0 then 1
      else if x > 100.0 then 100
      else x.Floor
  }

  /** `/leaderboard?metric=…&limit=…`. */
  function Board(h: seq<Entry<int>>, metric: string, limit: JsNumber): (r: seq<Row>)
    // each row carries the user's win count and wins minus bets
    ensures forall i :: 0 <= i < |r| ==> r[i] == Expected(h, r[i].userId)
    // one row per user of the history, no user twice
    ensures Distinct(r) && RowUsers(r) <= Users(h)
    ensures |r| == Min(|Users(h)|, ClampLimit(limit))
    // descending by the chosen metric, ties broken by the other one
    ensures SortedDesc(r, KeyOf(ParseMetric(metric)))
    // no user left out ranks strictly above a user shown
    ensures forall u, i :: u in Users(h) && u !in RowUsers(r) && 0 <= i < |r| ==>
      !Above(KeyOf(ParseMetric(metric))(Expected(h, u)), KeyOf(ParseMetric(metric))(r[i]))
  {
    var key := KeyOf(ParseMetric(metric));
    var rows := Tally(h);
    var sorted := Sort(rows, key);
    var n := Min(|sorted|, ClampLimit(limit));
    BoardFacts(h, key, sorted, n);
    sorted[..n]
  }

  /** The sorted rows are the fold's rows, each exact and none twice. */
  lemma {:induction false} SortedRowsExact(h: seq<Entry<int>>, sorted: seq<Row>)
    requires multiset(sorted) == multiset(Tally(h))
    ensures |sorted| == |Users(h)|
    ensures forall i :: 0 <= i < |sorted| ==> sorted[i] == Expected(h, sorted[i].userId) && sorted[i].userId in Users(h)
    ensures forall u :: u in Users(h) ==> Expected(h, u) in sorted
    ensures Distinct(sorted)
  {
    var rows := Tally(h);
    TallyIsExact(h);
    DistinctCount(rows);
    assert |sorted| == |rows| by {
      assert |multiset(sorted)| == |multiset(rows)|;
    }
    forall i | 0 <= i < |sorted| ensures sorted[i] == Expected(h, sorted[i].userId) && sorted[i].userId in Users(h) {
      assert sorted[i] in multiset(rows);
      var k :| 0 <= k < |rows| && rows[k] == sorted[i];
      FindIsRow(rows, k);
      assert rows[k].userId in RowUsers(rows);
    }
    forall u | u in Users(h) ensures Expected(h, u) in sorted {
      assert u in RowUsers(rows);
      var k :| 0 <= k < |rows| && rows[k].userId == u;
      FindIsRow(rows, k);
      assert rows[k] in multiset(sorted);
    }
    DistinctCounts(rows);
    forall i, j | 0 <= i < j < |sorted| ensures sorted[i].userId != sorted[j].userId {
      if sorted[i].userId == sorted[j].userId {
        CountedTwice(sorted, i, j);
        assert false;
      }
    }
  }

  lemma {:induction false} BoardFacts(h: seq<Entry<int>>, key: Row -> Key, sorted: seq<Row>, n: int)
    requires multiset(sorted) == multiset(Tally(h))
    requires SortedDesc(sorted, key)
    requires 0 <= n <= |sorted|
    ensures forall i :: 0 <= i < n ==> sorted[i] == Expected(h, sorted[i].userId)
    ensures Distinct(sorted[..n]) && RowUsers(sorted[..n]) <= Users(h)
    ensures |sorted| == |Users(h)|
    ensures SortedDesc(sorted[..n], key)
    ensures forall u, i :: u in Users(h) && u !in RowUsers(sorted[..n]) && 0 <= i < n ==>
      !Above(key(Expected(h, u)), key(sorted[i]))
  {
    SortedRowsExact(h, sorted);
    var top := sorted[..n];
    assert forall i :: 0 <= i < n ==> top[i] == sorted[i];
    assert RowUsers(top) <= Users(h) by {
      forall u | u in RowUsers(top) ensures u in Users(h) {
        var i :| 0 <= i < n && top[i].userId == u;
      }
    }
    LeftOutRankNoHigher(h, key, sorted, n);
  }

  lemma {:induction false} LeftOutRankNoHigher(h: seq<Entry<int>>, key: Row -> Key, sorted: seq<Row>, n: int)
    requires SortedDesc(sorted, key)
    requires 0 <= n <= |sorted|
    requires forall u :: u in Users(h) ==> Expected(h, u) in sorted
    ensures forall u, i :: u in Users(h) && u !in RowUsers(sorted[..n]) && 0 <= i < n ==>
      !Above(key(Expected(h, u)), key(sorted[i]))
  {
    var top := sorted[..n];
    CutKeepsTop(sorted, key, n);
    forall u, i | u in Users(h) && u !in RowUsers(top) && 0 <= i < n
      ensures !Above(key(Expected(h, u)), key(sorted[i]))
    {
      var j :| 0 <= j < |sorted| && sorted[j] == Expected(h, u);
      forall k | 0 <= k < n ensures sorted[k].userId != u {
        assert top[k] == sorted[k];
        assert top[k].userId in RowUsers(top);
      }
      assert sorted[j] in sorted[n..] by { assert sorted[n..][j - n] == sorted[j]; }
      assert sorted[i] in top;
    }
  }
}
