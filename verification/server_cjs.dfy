/** backend/server.cjs: the in-memory balances and history, with every HTTP
    handler as one atomic transition. Amounts are floored to integers, unknown
    users are created at 1000, and `/topup` changes a balance without a
    history entry. */
module ServerCjs {
  import opened JsModel
  import opened Ledger

  const StartBalance: int := 1000

  type State = Store<int>

  /** The store when both files hold their initial `{}` and `[]`. */
  const Empty: State := Store(map[], [])

  /** `ensureUser`: an absent user gets 1000; a present balance, 0 included, is kept. */
  function EnsureUser(balances: map<string, int>, userId: string): (r: map<string, int>)
    ensures r.Keys == balances.Keys + {userId}
    ensures userId !in balances ==> r[userId] == StartBalance
    ensures forall v :: v in balances ==> r[v] == balances[v]
  {
    if userId in balances then balances else balances[userId := StartBalance]
  }

  /** The balance a user holds once `ensureUser` has run. */
  function Opening(s: State, userId: string): int {
    if userId in s.balances then s.balances[userId] else StartBalance
  }

  /** `/init` and `/balance`: both reject a missing id, run `ensureUser` and
      answer with the balance; neither touches the history. */
  function PostOpen(s: State, userId: string): (r: Step<int>)
    ensures userId == "" ==> r == Step(s, BadArgs)
    ensures userId != "" ==> r.reply == Ok(Opening(s, userId))
    ensures userId != "" ==> r.store.history == s.history
    ensures userId != "" ==> r.store.balances == EnsureUser(s.balances, userId)
    ensures userId != "" ==> r.store.balances[userId] == Opening(s, userId)
  {
    if userId == "" then Step(s, BadArgs)
    else Step(Store(EnsureUser(s.balances, userId), s.history), Ok(Opening(s, userId)))
  }

  /** The argument check of `/bet` and `/topup`: `Math.floor(Number(amount))` finite and positive. */
  predicate PositiveAmount(amount: JsNumber) {
    FiniteFloor(amount).Some? && FiniteFloor(amount).value > 0
  }

  /** The argument check of `/win`: `Math.floor(Number(winAmount))` finite and not negative. */
  predicate CreditAmount(amount: JsNumber) {
    FiniteFloor(amount).Some? && FiniteFloor(amount).value >= 0
  }

  /** `/bet`: debit a stake once per `(userId, roundId)`. */
  function PostBet(s: State, userId: string, amount: JsNumber, roundId: string, now: int): (r: Step<int>)
    // rejected arguments: nothing changes
    ensures r.reply == BadArgs <==> !(userId != "" && roundId != "" && PositiveAmount(amount))
    ensures r.reply == BadArgs ==> r.store == s
    // otherwise only this user's balance may change, and it now exists
    ensures r.reply != BadArgs ==> r.store.balances.Keys == s.balances.Keys + {userId}
    ensures forall v :: v in s.balances && v != userId ==> r.store.balances[v] == s.balances[v]
    // a replayed round answers success with the balance and changes nothing more
    ensures r.reply != BadArgs && HasEntry(s.history, userId, roundId, Bet) ==>
      r.reply == Ok(Opening(s, userId)) && r.store.balances[userId] == Opening(s, userId)
      && r.store.history == s.history
    // no overdraft: a stake above the balance is refused without an entry
    ensures r.reply.Insufficient? <==>
      r.reply != BadArgs && !HasEntry(s.history, userId, roundId, Bet)
      && Opening(s, userId) < FiniteFloor(amount).value
    ensures r.reply.Insufficient? ==>
      r.reply.balance == Opening(s, userId) && r.store.balances[userId] == Opening(s, userId)
      && r.store.history == s.history
    // a valid, fresh, affordable bet is debited
    ensures (&& userId != "" && roundId != "" && PositiveAmount(amount)
             && !HasEntry(s.history, userId, roundId, Bet)
             && Opening(s, userId) >= FiniteFloor(amount).value) ==>
      r.store.history != s.history
    // a fresh debit takes exactly the floored stake and logs exactly one bet
    ensures r.store.history != s.history ==>
      var a := FiniteFloor(amount).value;
      && r.reply == Ok(Opening(s, userId) - a)
      && r.store.balances[userId] == Opening(s, userId) - a >= 0
      && r.store.history == s.history + [Entry(roundId, userId, Bet, a, now)]
  {
    var a := FiniteFloor(amount);
    if userId == "" || roundId == "" || a.None? || a.value <= 0 then Step(s, BadArgs)
    else
      var b := EnsureUser(s.balances, userId);
      if HasEntry(s.history, userId, roundId, Bet) then Step(Store(b, s.history), Ok(b[userId]))
      else if b[userId] < a.value then Step(Store(b, s.history), Insufficient(b[userId]))
      else
        var left := b[userId] - a.value;
        Step(Store(b[userId := left], s.history + [Entry(roundId, userId, Bet, a.value, now)]), Ok(left))
  }

  /** `/win`: credit a payout once per `(userId, roundId)`; zero is accepted. */
  function PostWin(s: State, userId: string, winAmount: JsNumber, roundId: string, now: int): (r: Step<int>)
    ensures r.reply == BadArgs <==> !(userId != "" && roundId != "" && CreditAmount(winAmount))
    ensures r.reply == BadArgs ==> r.store == s
    ensures !r.reply.Insufficient?
    ensures r.reply != BadArgs ==> r.store.balances.Keys == s.balances.Keys + {userId}
    ensures forall v :: v in s.balances && v != userId ==> r.store.balances[v] == s.balances[v]
    ensures r.reply != BadArgs && HasEntry(s.history, userId, roundId, Win) ==>
      r.reply == Ok(Opening(s, userId)) && r.store.balances[userId] == Opening(s, userId)
      && r.store.history == s.history
    ensures r.reply != BadArgs && !HasEntry(s.history, userId, roundId, Win) ==>
      var w := FiniteFloor(winAmount).value;
      && r.reply == Ok(Opening(s, userId) + w)
      && r.store.balances[userId] == Opening(s, userId) + w
      && r.store.history == s.history + [Entry(roundId, userId, Win, w, now)]
  {
    var w := FiniteFloor(winAmount);
    if userId == "" || roundId == "" || w.None? || w.value < 0 then Step(s, BadArgs)
    else
      var b := EnsureUser(s.balances, userId);
      if HasEntry(s.history, userId, roundId, Win) then Step(Store(b, s.history), Ok(b[userId]))
      else
        var total := b[userId] + w.value;
        Step(Store(b[userId := total], s.history + [Entry(roundId, userId, Win, w.value, now)]), Ok(total))
  }

  /** `/topup`: add a positive floored amount; the only balance change that logs nothing. */
  function PostTopup(s: State, userId: string, amount: JsNumber): (r: Step<int>)
    ensures r.reply == BadArgs <==> !(userId != "" && PositiveAmount(amount))
    ensures r.reply == BadArgs ==> r.store == s
    ensures !r.reply.Insufficient?
    ensures r.store.history == s.history
    ensures s.balances.Keys <= r.store.balances.Keys
    ensures forall v :: v in s.balances && v != userId ==> r.store.balances[v] == s.balances[v]
    ensures r.reply != BadArgs ==>
      && r.store.balances.Keys == s.balances.Keys + {userId}
      && r.store.balances[userId] == Opening(s, userId) + FiniteFloor(amount).value
      && r.reply == Ok(r.store.balances[userId])
  {
    var a := FiniteFloor(amount);
    if userId == "" || a.None? || a.value <= 0 then Step(s, BadArgs)
    else
      var b := EnsureUser(s.balances, userId);
      var total := b[userId] + a.value;
      Step(Store(b[userId := total], s.history), Ok(total))
  }

  /* ---------------- replays ---------------- */

  /** Sending the same `/bet` again, at any later time, answers the same and
      changes nothing: the stake is taken at most once. */
  lemma BetReplay(s: State, userId: string, amount: JsNumber, roundId: string, now: int, later: int)
    ensures var first := PostBet(s, userId, amount, roundId, now);
      PostBet(first.store, userId, amount, roundId, later) == first
  {
    var first := PostBet(s, userId, amount, roundId, now);
    if first.store.history != s.history {
      var h := first.store.history;
      assert Keyed(h[|h| - 1], userId, roundId, Bet);
    }
  }

  /** Sending the same `/win` again changes nothing: a payout is credited at most once. */
  lemma WinReplay(s: State, userId: string, winAmount: JsNumber, roundId: string, now: int, later: int)
    ensures var first := PostWin(s, userId, winAmount, roundId, now);
      PostWin(first.store, userId, winAmount, roundId, later) == first
  {
    var first := PostWin(s, userId, winAmount, roundId, now);
    if first.store.history != s.history {
      var h := first.store.history;
      assert Keyed(h[|h| - 1], userId, roundId, Win);
    }
  }

  /* ---------------- the ledger invariant ---------------- */

  /** What one entry adds to a user's net: its amount for a win, minus it for a bet. */
  function Signed(e: Entry<int>, userId: string): int {
    if e.userId != userId then 0 else if e.kind == Win then e.amount else -e.amount
  }

  /** Sum of the user's win amounts minus the sum of their bet amounts. */
  function Net(h: seq<Entry<int>>, userId: string): int {
    if |h| == 0 then 0 else Net(h[..|h| - 1], userId) + Signed(h[|h| - 1], userId)
  }

  function Topped(topups: map<string, int>, userId: string): int {
    if userId in topups then topups[userId] else 0
  }

  /** Every balance is 1000 plus the user's top-ups plus their wins minus their
      bets; no balance is negative; no `(userId, roundId, type)` repeats. */
  ghost predicate Invariant(s: State, topups: map<string, int>) {
    && UsersKnown(s)
    && topups.Keys <= s.balances.Keys
    && (forall u :: u in s.balances ==> s.balances[u] == StartBalance + Topped(topups, u) + Net(s.history, u))
    && (forall u :: u in s.balances ==> s.balances[u] >= 0)
    && OncePerKey(s.history)
  }

  lemma {:induction false} NetAppend(h: seq<Entry<int>>, e: Entry<int>, userId: string)
    ensures Net(h + [e], userId) == Net(h, userId) + Signed(e, userId)
  {
    assert (h + [e])[..|h|] == h;
  }

  /** A user no entry names has a net of zero. */
  lemma {:induction false} NetOfStranger(h: seq<Entry<int>>, userId: string)
    requires forall i :: 0 <= i < |h| ==> h[i].userId != userId
    ensures Net(h, userId) == 0
  {
    if |h| > 0 {
      NetOfStranger(h[..|h| - 1], userId);
    }
  }

  /** The balance `ensureUser` leaves is still the accounted one. */
  lemma OpeningAccounted(s: State, topups: map<string, int>, userId: string)
    requires Invariant(s, topups)
    ensures Opening(s, userId) == StartBalance + Topped(topups, userId) + Net(s.history, userId)
    ensures Opening(s, userId) >= 0
  {
    if userId !in s.balances {
      NetOfStranger(s.history, userId);
    }
  }

  /** One request to the server. */
  datatype Request =
    | OpenReq(userId: string)
    | BetReq(userId: string, amount: JsNumber, roundId: string, now: int)
    | WinReq(userId: string, winAmount: JsNumber, roundId: string, now: int)
    | TopupReq(userId: string, amount: JsNumber)

  function Apply(s: State, q: Request): Step<int> {
    match q
    case OpenReq(u) => PostOpen(s, u)
    case BetReq(u, a, r, t) => PostBet(s, u, a, r, t)
    case WinReq(u, w, r, t) => PostWin(s, u, w, r, t)
    case TopupReq(u, a) => PostTopup(s, u, a)
  }

  /** The top-up totals after `q`: only an accepted `/topup` adds to them. */
  function TopupsAfter(topups: map<string, int>, q: Request): map<string, int> {
    if q.TopupReq? && q.userId != "" && PositiveAmount(q.amount)
    then topups[q.userId := Topped(topups, q.userId) + FiniteFloor(q.amount).value]
    else topups
  }

  /** Appending one fresh entry and setting its user's balance to the
      accounted value keeps the invariant with the same top-ups. */
  lemma {:induction false} FreshEntryKeepsInvariant(s: State, topups: map<string, int>, r: State, e: Entry<int>)
    requires Invariant(s, topups)
    requires !HasEntry(s.history, e.userId, e.roundId, e.kind)
    requires r.history == s.history + [e]
    requires r.balances.Keys == s.balances.Keys + {e.userId}
    requires forall v :: v in s.balances && v != e.userId ==> r.balances[v] == s.balances[v]
    requires r.balances[e.userId] == Opening(s, e.userId) + Signed(e, e.userId) >= 0
    ensures Invariant(r, topups)
  {
    OpeningAccounted(s, topups, e.userId);
    AppendFreshKey(s.history, e);
    FreshEntryAccounted(s, topups, r, e);
    forall i | 0 <= i < |r.history| ensures r.history[i].userId in r.balances {
      if i < |s.history| {
        assert r.history[i] == s.history[i];
      }
    }
  }

  /** The balance equation part of `FreshEntryKeepsInvariant`. */
  lemma {:induction false} FreshEntryAccounted(s: State, topups: map<string, int>, r: State, e: Entry<int>)
    requires Invariant(s, topups)
    requires r.history == s.history + [e]
    requires r.balances.Keys == s.balances.Keys + {e.userId}
    requires forall v :: v in s.balances && v != e.userId ==> r.balances[v] == s.balances[v]
    requires r.balances[e.userId] == Opening(s, e.userId) + Signed(e, e.userId)
    ensures forall u :: u in r.balances ==> r.balances[u] == StartBalance + Topped(topups, u) + Net(r.history, u)
  {
    OpeningAccounted(s, topups, e.userId);
    forall u | u in r.balances
      ensures r.balances[u] == StartBalance + Topped(topups, u) + Net(r.history, u)
    {
      NetAppend(s.history, e, u);
    }
  }

  /** A handler that logs nothing and at most runs `ensureUser` keeps the invariant. */
  lemma {:induction false} EnsureOnlyKeepsInvariant(s: State, topups: map<string, int>, r: State, userId: string)
    requires Invariant(s, topups)
    requires r.history == s.history
    requires r.balances.Keys <= s.balances.Keys + {userId}
    requires s.balances.Keys <= r.balances.Keys
    requires forall v :: v in s.balances && v != userId ==> r.balances[v] == s.balances[v]
    requires userId in r.balances ==> r.balances[userId] == Opening(s, userId)
    ensures Invariant(r, topups)
  {
    OpeningAccounted(s, topups, userId);
  }

  lemma {:induction false} OpenKeepsInvariant(s: State, topups: map<string, int>, userId: string)
    requires Invariant(s, topups)
    ensures Invariant(PostOpen(s, userId).store, topups)
  {
    EnsureOnlyKeepsInvariant(s, topups, PostOpen(s, userId).store, userId);
  }

  lemma {:induction false} BetKeepsInvariant(s: State, topups: map<string, int>, userId: string, amount: JsNumber, roundId: string, now: int)
    requires Invariant(s, topups)
    ensures Invariant(PostBet(s, userId, amount, roundId, now).store, topups)
  {
    var r := PostBet(s, userId, amount, roundId, now).store;
    if r.history != s.history {
      FreshEntryKeepsInvariant(s, topups, r, r.history[|r.history| - 1]);
    } else {
      EnsureOnlyKeepsInvariant(s, topups, r, userId);
    }
  }

  lemma {:induction false} WinKeepsInvariant(s: State, topups: map<string, int>, userId: string, winAmount: JsNumber, roundId: string, now: int)
    requires Invariant(s, topups)
    ensures Invariant(PostWin(s, userId, winAmount, roundId, now).store, topups)
  {
    var r := PostWin(s, userId, winAmount, roundId, now).store;
    if r.history != s.history {
      FreshEntryKeepsInvariant(s, topups, r, r.history[|r.history| - 1]);
    } else {
      EnsureOnlyKeepsInvariant(s, topups, r, userId);
    }
  }

  /** A top-up keeps the invariant once its amount joins the top-up term. */
  lemma {:induction false} TopupKeepsInvariant(s: State, topups: map<string, int>, userId: string, amount: JsNumber)
    requires Invariant(s, topups)
    ensures Invariant(PostTopup(s, userId, amount).store, TopupsAfter(topups, TopupReq(userId, amount)))
  {
    OpeningAccounted(s, topups, userId);
  }

  /** Every handler keeps the invariant; `/topup` is the only one that moves
      the top-up term, and the others keep it fixed. */
  lemma {:induction false} ApplyKeepsInvariant(s: State, topups: map<string, int>, q: Request)
    requires Invariant(s, topups)
    ensures Invariant(Apply(s, q).store, TopupsAfter(topups, q))
  {
    match q
    case OpenReq(u) =>
      assert TopupsAfter(topups, q) == topups;
      OpenKeepsInvariant(s, topups, u);
    case BetReq(u, a, r, t) =>
      assert TopupsAfter(topups, q) == topups;
      BetKeepsInvariant(s, topups, u, a, r, t);
    case WinReq(u, w, r, t) =>
      assert TopupsAfter(topups, q) == topups;
      WinKeepsInvariant(s, topups, u, w, r, t);
    case TopupReq(u, a) =>
      TopupKeepsInvariant(s, topups, u, a);
  }

  /** The store after a sequence of requests, handled one at a time. */
  function Run(s: State, qs: seq<Request>): State
    decreases |qs|
  {
    if |qs| == 0 then s else Run(Apply(s, qs[0]).store, qs[1..])
  }

  function RunTopups(s: State, topups: map<string, int>, qs: seq<Request>): map<string, int>
    decreases |qs|
  {
    if |qs| == 0 then topups
    else RunTopups(Apply(s, qs[0]).store, TopupsAfter(topups, qs[0]), qs[1..])
  }

  /** Starting from the empty files, after any sequence of requests every
      balance equals 1000 plus top-ups plus wins minus bets, none is negative,
      and each `(userId, roundId, type)` was applied at most once. */
  lemma {:induction false} RunKeepsInvariant(s: State, topups: map<string, int>, qs: seq<Request>)
    requires Invariant(s, topups)
    ensures Invariant(Run(s, qs), RunTopups(s, topups, qs))
    decreases |qs|
  {
    if |qs| > 0 {
      ApplyKeepsInvariant(s, topups, qs[0]);
      RunKeepsInvariant(Apply(s, qs[0]).store, TopupsAfter(topups, qs[0]), qs[1..]);
    }
  }

  lemma EmptyHoldsInvariant()
    ensures Invariant(Empty, map[])
  {
  }
}
