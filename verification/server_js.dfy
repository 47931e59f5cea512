/** backend/server.js: the same ledger without flooring. Amounts are any
    finite positive number, a zero credit is refused, and an unknown user reads
    as balance 0 without being created (only `/init` and a first `/win` create one). */
module ServerJs {
  import opened JsModel
  import opened Ledger
  import opened Ordering

  const StartBalance: real := 1000.0

  /** The route answers at most this many history entries. */
  const HistoryCap: int := 200

  type State = Store<real>

  const Empty: State := Store(map[], [])

  /** `/init`: create 1000 for an absent user only; an existing balance is never overwritten. */
  function PostInit(s: State, userId: string): (r: Step<real>)
    ensures userId == "" ==> r == Step(s, BadArgs)
    ensures userId in s.balances ==> r.store == s
    ensures r.store.history == s.history
    ensures userId != "" ==>
      && r.store.balances.Keys == s.balances.Keys + {userId}
      && (forall v :: v in s.balances ==> r.store.balances[v] == s.balances[v])
      && r.store.balances[userId] == (if userId in s.balances then s.balances[userId] else StartBalance)
      && r.reply == Ok(r.store.balances[userId])
  {
    if userId == "" then Step(s, BadArgs)
    else if userId in s.balances then Step(s, Ok(s.balances[userId]))
    else Step(Store(s.balances[userId := StartBalance], s.history), Ok(StartBalance))
  }

  /** `GET /balance/:userId`: `balances[userId] ?? 0`, a read that creates nothing. */
  function GetBalance(s: State, userId: string): (b: real)
    ensures userId !in s.balances ==> b == 0.0
    ensures userId in s.balances ==> b == s.balances[userId]
  {
    if userId in s.balances then s.balances[userId] else 0.0
  }

  predicate ValidArgs(userId: string, amount: JsNumber, roundId: string) {
    userId != "" && amount.Finite? && amount.value > 0.0 && roundId != ""
  }

  /** `/bet`: debit once per `(roundId, "bet", userId)`, with an unknown user at balance 0. */
  function PostBet(s: State, userId: string, amount: JsNumber, roundId: string, now: int): (r: Step<real>)
    ensures r.reply == BadArgs <==> !ValidArgs(userId, amount, roundId)
    // the only change a bet can make is a debit with one entry
    ensures r.store == s || (amount.Finite? && r.store.history == s.history + [Entry(roundId, userId, Bet, amount.value, now)])
    ensures r.store.balances.Keys == s.balances.Keys
    ensures forall v :: v in s.balances && v != userId ==> r.store.balances[v] == s.balances[v]
    ensures ValidArgs(userId, amount, roundId) && HasEntry(s.history, userId, roundId, Bet) ==>
      r == Step(s, Ok(GetBalance(s, userId)))
    ensures r.reply.Insufficient? <==>
      ValidArgs(userId, amount, roundId) && !HasEntry(s.history, userId, roundId, Bet)
      && GetBalance(s, userId) < amount.value
    ensures r.reply.Insufficient? ==> r == Step(s, Insufficient(GetBalance(s, userId)))
    // a valid, fresh, affordable bet is debited
    ensures (&& ValidArgs(userId, amount, roundId) && !HasEntry(s.history, userId, roundId, Bet)
             && GetBalance(s, userId) >= amount.value) ==>
      r.store.history == s.history + [Entry(roundId, userId, Bet, amount.value, now)]
    ensures r.store != s ==>
      && userId in s.balances
      && r.store.balances[userId] == s.balances[userId] - amount.value >= 0.0
      && r.reply == Ok(r.store.balances[userId])
  {
    if !ValidArgs(userId, amount, roundId) then Step(s, BadArgs)
    else if HasEntry(s.history, userId, roundId, Bet) then Step(s, Ok(GetBalance(s, userId)))
    else
      var current := GetBalance(s, userId);
      if current < amount.value then Step(s, Insufficient(current))
      else
        var left := current - amount.value;
        Step(Store(s.balances[userId := left], s.history + [Entry(roundId, userId, Bet, amount.value, now)]), Ok(left))
  }

  /** `/win`: credit once per `(roundId, "win", userId)`; zero is refused, and an unknown user is created. */
  function PostWin(s: State, userId: string, amount: JsNumber, roundId: string, now: int): (r: Step<real>)
    ensures r.reply == BadArgs <==> !ValidArgs(userId, amount, roundId)
    ensures r.reply == BadArgs ==> r.store == s
    ensures !r.reply.Insufficient?
    ensures s.balances.Keys <= r.store.balances.Keys
    ensures r.store == s || (amount.Finite? && r.store.history == s.history + [Entry(roundId, userId, Win, amount.value, now)])
    ensures forall v :: v in s.balances && v != userId ==> r.store.balances[v] == s.balances[v]
    ensures ValidArgs(userId, amount, roundId) && HasEntry(s.history, userId, roundId, Win) ==>
      r == Step(s, Ok(GetBalance(s, userId)))
    ensures ValidArgs(userId, amount, roundId) && !HasEntry(s.history, userId, roundId, Win) ==>
      && r.store.balances.Keys == s.balances.Keys + {userId}
      && r.store.balances[userId] == GetBalance(s, userId) + amount.value
      && r.store.history != s.history
      && r.reply == Ok(r.store.balances[userId])
  {
    if !ValidArgs(userId, amount, roundId) then Step(s, BadArgs)
    else if HasEntry(s.history, userId, roundId, Win) then Step(s, Ok(GetBalance(s, userId)))
    else
      var total := GetBalance(s, userId) + amount.value;
      Step(Store(s.balances[userId := total], s.history + [Entry(roundId, userId, Win, amount.value, now)]), Ok(total))
  }

  /* ---------------- GET /history/:userId ---------------- */

  /** `history.filter(h => h.userId === userId)`. */
  function Own(h: seq<Entry<real>>, userId: string): (r: seq<Entry<real>>)
    ensures forall i :: 0 <= i < |r| ==> r[i].userId == userId
    ensures forall e :: e in h && e.userId == userId <==> e in r
    ensures multiset(r) <= multiset(h)
    // every occurrence of the user's entries is kept
    ensures forall e :: multiset(r)[e] == if e.userId == userId then multiset(h)[e] else 0
  {
    if |h| == 0 then []
    else
      var p := h[..|h| - 1];
      var e := h[|h| - 1];
      assert h == p + [e];
      if e.userId == userId then Own(p, userId) + [e] else Own(p, userId)
  }

  function TsKey(e: Entry<real>): Key {
    Key(e.ts, 0)
  }

  /** The user's entries, newest first, at most 200. */
  function GetHistory(s: State, userId: string): (r: seq<Entry<real>>)
    ensures forall i :: 0 <= i < |r| ==> r[i].userId == userId
    ensures multiset(r) <= multiset(s.history)
    ensures |r| == Min(|Own(s.history, userId)|, HistoryCap)
    ensures forall i, j :: 0 <= i < j < |r| ==> r[i].ts >= r[j].ts
    // an entry of the user that is left out is no newer than any entry returned
    ensures forall e, i :: e in s.history && e.userId == userId && e !in r && 0 <= i < |r| ==> e.ts <= r[i].ts
  {
    var own := Own(s.history, userId);
    var sorted := Sort(own, TsKey);
    var n := Min(|sorted|, HistoryCap);
    HistoryFacts(s.history, userId, own, sorted, n);
    sorted[..n]
  }

  lemma {:induction false} HistoryFacts(h: seq<Entry<real>>, userId: string, own: seq<Entry<real>>, sorted: seq<Entry<real>>, n: int)
    requires own == Own(h, userId)
    requires multiset(sorted) == multiset(own)
    requires SortedDesc(sorted, TsKey)
    requires n == Min(|sorted|, HistoryCap)
    ensures forall i :: 0 <= i < n ==> sorted[..n][i].userId == userId
    ensures multiset(sorted[..n]) <= multiset(h)
    ensures n == Min(|own|, HistoryCap)
    ensures forall i, j :: 0 <= i < j < n ==> sorted[..n][i].ts >= sorted[..n][j].ts
    ensures forall e, i :: e in h && e.userId == userId && e !in sorted[..n] && 0 <= i < n ==> e.ts <= sorted[..n][i].ts
  {
    assert |sorted| == |own| by {
      assert |multiset(sorted)| == |multiset(own)|;
    }
    var r := sorted[..n];
    assert sorted == r + sorted[n..];
    assert multiset(r) <= multiset(own);
    forall i | 0 <= i < n ensures r[i].userId == userId {
      assert r[i] in multiset(own);
    }
    forall i, j | 0 <= i < j < n ensures r[i].ts >= r[j].ts {
      assert !Above(TsKey(sorted[j]), TsKey(sorted[i]));
    }
    CutKeepsTop(sorted, TsKey, n);
    forall e, i | e in h && e.userId == userId && e !in r && 0 <= i < n
      ensures e.ts <= r[i].ts
    {
      assert e in own;
      assert e in multiset(sorted);
      assert e in sorted[n..];
      assert r[i] in r;
      assert !Above(TsKey(e), TsKey(r[i]));
    }
  }

  /* ---------------- the ledger invariant ---------------- */

  function Signed(e: Entry<real>, userId: string): real {
    if e.userId != userId then 0.0 else if e.kind == Win then e.amount else -e.amount
  }

  /** Sum of the user's win amounts minus the sum of their bet amounts. */
  function Net(h: seq<Entry<real>>, userId: string): real {
    if |h| == 0 then 0.0 else Net(h[..|h| - 1], userId) + Signed(h[|h| - 1], userId)
  }

  /** Every balance is its opening value plus wins minus bets, where the
      opening value is 1000 for a user created by `/init` and 0 for one created
      by a first `/win`; no balance is negative; every logged amount, credits
      included, is positive; no `(roundId, type, userId)` repeats. */
  ghost predicate Invariant(s: State, opening: map<string, real>) {
    && UsersKnown(s)
    && opening.Keys == s.balances.Keys
    && (forall u :: u in opening ==> opening[u] == 0.0 || opening[u] == StartBalance)
    && (forall u :: u in s.balances ==> s.balances[u] == opening[u] + Net(s.history, u))
    && (forall u :: u in s.balances ==> s.balances[u] >= 0.0)
    && (forall i :: 0 <= i < |s.history| ==> s.history[i].amount > 0.0)
    && OncePerKey(s.history)
  }

  lemma {:induction false} NetAppend(h: seq<Entry<real>>, e: Entry<real>, userId: string)
    ensures Net(h + [e], userId) == Net(h, userId) + Signed(e, userId)
  {
    assert (h + [e])[..|h|] == h;
  }

  lemma {:induction false} NetOfStranger(h: seq<Entry<real>>, userId: string)
    requires forall i :: 0 <= i < |h| ==> h[i].userId != userId
    ensures Net(h, userId) == 0.0
  {
    if |h| > 0 {
      NetOfStranger(h[..|h| - 1], userId);
    }
  }

  /** A user with no balance has no history, so a bet for them can only be refused. */
  lemma UnknownUserCannotBet(s: State, opening: map<string, real>, userId: string, amount: JsNumber, roundId: string, now: int)
    requires Invariant(s, opening)
    requires userId !in s.balances
    ensures PostBet(s, userId, amount, roundId, now).store == s
    ensures !PostBet(s, userId, amount, roundId, now).reply.Ok?
  {
    assert !HasEntry(s.history, userId, roundId, Bet);
  }

  datatype Request =
    | InitReq(userId: string)
    | BetReq(userId: string, amount: JsNumber, roundId: string, now: int)
    | WinReq(userId: string, amount: JsNumber, roundId: string, now: int)

  function Apply(s: State, q: Request): Step<real> {
    match q
    case InitReq(u) => PostInit(s, u)
    case BetReq(u, a, r, t) => PostBet(s, u, a, r, t)
    case WinReq(u, a, r, t) => PostWin(s, u, a, r, t)
  }

  /** The opening balances after `q`: a user created by `/init` opens at 1000, one created by `/win` at 0. */
  function OpeningAfter(s: State, opening: map<string, real>, q: Request): map<string, real> {
    if q.userId in s.balances || q.userId == "" then opening
    else if q.InitReq? then opening[q.userId := StartBalance]
    else if q.WinReq? && ValidArgs(q.userId, q.amount, q.roundId) then opening[q.userId := 0.0]
    else opening
  }

  lemma {:induction false} InitKeepsInvariant(s: State, opening: map<string, real>, userId: string)
    requires Invariant(s, opening)
    ensures Invariant(PostInit(s, userId).store, OpeningAfter(s, opening, InitReq(userId)))
  {
    if userId !in s.balances {
      NetOfStranger(s.history, userId);
    }
  }

  /** Appending one fresh entry with a positive amount and setting its user's
      balance to the accounted value keeps the invariant; a user the entry
      creates opens at 0. */
  lemma {:induction false} FreshEntryKeepsInvariant(s: State, opening: map<string, real>, o: map<string, real>, r: State, e: Entry<real>)
    requires Invariant(s, opening)
    requires !HasEntry(s.history, e.userId, e.roundId, e.kind)
    requires e.amount > 0.0
    requires r.history == s.history + [e]
    requires r.balances.Keys == s.balances.Keys + {e.userId}
    requires forall v :: v in s.balances && v != e.userId ==> r.balances[v] == s.balances[v]
    requires o == if e.userId in s.balances then opening else opening[e.userId := 0.0]
    requires r.balances[e.userId] == GetBalance(s, e.userId) + Signed(e, e.userId) >= 0.0
    ensures Invariant(r, o)
  {
    if e.userId !in s.balances {
      NetOfStranger(s.history, e.userId);
    }
    AppendFreshKey(s.history, e);
    forall u | u in r.balances ensures r.balances[u] == o[u] + Net(r.history, u) {
      NetAppend(s.history, e, u);
    }
    forall i | 0 <= i < |r.history| ensures r.history[i].amount > 0.0 {
      if i < |s.history| {
        assert r.history[i] == s.history[i];
      }
    }
  }

  lemma {:induction false} BetKeepsInvariant(s: State, opening: map<string, real>, userId: string, amount: JsNumber, roundId: string, now: int)
    requires Invariant(s, opening)
    ensures Invariant(PostBet(s, userId, amount, roundId, now).store, opening)
  {
    var r := PostBet(s, userId, amount, roundId, now).store;
    if r != s {
      var e := Entry(roundId, userId, Bet, amount.value, now);
      FreshEntryKeepsInvariant(s, opening, opening, r, e);
    }
  }

  lemma {:induction false} WinKeepsInvariant(s: State, opening: map<string, real>, userId: string, amount: JsNumber, roundId: string, now: int)
    requires Invariant(s, opening)
    ensures Invariant(PostWin(s, userId, amount, roundId, now).store, OpeningAfter(s, opening, WinReq(userId, amount, roundId, now)))
  {
    var r := PostWin(s, userId, amount, roundId, now).store;
    var o := OpeningAfter(s, opening, WinReq(userId, amount, roundId, now));
    if r != s {
      var e := Entry(roundId, userId, Win, amount.value, now);
      FreshEntryKeepsInvariant(s, opening, o, r, e);
    }
  }

  lemma {:induction false} ApplyKeepsInvariant(s: State, opening: map<string, real>, q: Request)
    requires Invariant(s, opening)
    ensures Invariant(Apply(s, q).store, OpeningAfter(s, opening, q))
  {
    match q
    case InitReq(u) => InitKeepsInvariant(s, opening, u);
    case BetReq(u, a, r, t) => BetKeepsInvariant(s, opening, u, a, r, t);
    case WinReq(u, a, r, t) => WinKeepsInvariant(s, opening, u, a, r, t);
  }

  function Run(s: State, qs: seq<Request>): State
    decreases |qs|
  {
    if |qs| == 0 then s else Run(Apply(s, qs[0]).store, qs[1..])
  }

  function RunOpening(s: State, opening: map<string, real>, qs: seq<Request>): map<string, real>
    decreases |qs|
  {
    if |qs| == 0 then opening
    else RunOpening(Apply(s, qs[0]).store, OpeningAfter(s, opening, qs[0]), qs[1..])
  }

  /** From any store that satisfies the invariant (the empty files do), every
      sequence of requests keeps it. */
  lemma {:induction false} RunKeepsInvariant(s: State, opening: map<string, real>, qs: seq<Request>)
    requires Invariant(s, opening)
    ensures Invariant(Run(s, qs), RunOpening(s, opening, qs))
    decreases |qs|
  {
    if |qs| > 0 {
      ApplyKeepsInvariant(s, opening, qs[0]);
      RunKeepsInvariant(Apply(s, qs[0]).store, OpeningAfter(s, opening, qs[0]), qs[1..]);
    }
  }

  /** Replaying a `/bet` or a `/win` changes nothing. */
  lemma Replays(s: State, userId: string, amount: JsNumber, roundId: string, now: int, later: int)
    ensures var b := PostBet(s, userId, amount, roundId, now);
      PostBet(b.store, userId, amount, roundId, later) == b
    ensures var w := PostWin(s, userId, amount, roundId, now);
      PostWin(w.store, userId, amount, roundId, later) == w
  {
    var b := PostBet(s, userId, amount, roundId, now);
    if b.store != s {
      assert Keyed(b.store.history[|s.history|], userId, roundId, Bet);
    }
    var w := PostWin(s, userId, amount, roundId, now);
    if w.store != s {
      assert Keyed(w.store.history[|s.history|], userId, roundId, Win);
    }
  }
}
