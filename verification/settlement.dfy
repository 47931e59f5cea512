/** The end of a solo round on the server.cjs ledger: the client debits the
    stake with `/bet`, then asks `/win` for the payout on a win and for the
    stake on a push. The client sends the credit as `amount`, while the
    server.cjs `/win` route reads `winAmount`; this module models the route
    as written and the route that reads the field the client sends. */
module Settlement {
  import opened JsModel
  import opened Ledger
  import ServerCjs
  import Solo

  /** A `/win` request body: each field may be absent. */
  datatype WinBody = WinBody(userId: string, roundId: string, amount: Option<JsNumber>, winAmount: Option<JsNumber>)

  /** `Number(x)`, where an absent field is `undefined` and becomes NaN. */
  function ToNumber(v: Option<JsNumber>): (n: JsNumber)
    ensures v.None? ==> n == NaN
    ensures v.Some? ==> n == v.value
  {
    if v.None? then NaN else v.value
  }

  /** The body `win` of the client API sends: the credit travels as `amount`. */
  function ClientWinBody(userId: string, credit: int, roundId: string): WinBody {
    WinBody(userId, roundId, Some(Finite(credit as real)), None)
  }

  /** The server.cjs `/win` route as written: the credit is read from `winAmount`. */
  function WinRouteAsWritten(s: ServerCjs.State, body: WinBody, now: int): (r: Step<int>)
    ensures body.winAmount.None? ==> r == Step(s, BadArgs)
  {
    ServerCjs.PostWin(s, body.userId, ToNumber(body.winAmount), body.roundId, now)
  }

  /** The `/win` route reading the credit from `amount`, as `/bet` and the
      server.js route do. */
  function WinRoute(s: ServerCjs.State, body: WinBody, now: int): (r: Step<int>)
    ensures body.amount.None? ==> r == Step(s, BadArgs)
  {
    ServerCjs.PostWin(s, body.userId, ToNumber(body.amount), body.roundId, now)
  }

  /** As written, every credit the client asks for is refused with 400 and
      changes nothing, whatever the state and the amount. */
  lemma ClientCreditRefused(s: ServerCjs.State, userId: string, credit: int, roundId: string, now: int)
    ensures WinRouteAsWritten(s, ClientWinBody(userId, credit, roundId), now) == Step(s, BadArgs)
  {
  }

  /** With the corrected route a well-formed credit is accepted, and a fresh
      one raises the balance by exactly the credit. */
  lemma ClientCreditLands(s: ServerCjs.State, userId: string, credit: int, roundId: string, now: int)
    requires userId != "" && roundId != "" && credit >= 0
    ensures var r := WinRoute(s, ClientWinBody(userId, credit, roundId), now);
      && r.reply.Ok?
      && (!HasEntry(s.history, userId, roundId, Win) ==>
            r.store.balances[userId] == ServerCjs.Opening(s, userId) + credit)
  {
    assert (credit as real).Floor == credit;
  }

  /** What a finished round adds back to the balance. */
  function Gain(outcome: Solo.Outcome, stake: int): int {
    match Solo.Credit(outcome, stake)
    case None => 0
    case Some(c) => c
  }

  /** The settlement request of a finished round, if it sends one. */
  function Settle(s: ServerCjs.State, userId: string, roundId: string, outcome: Solo.Outcome, stake: int, now: int): ServerCjs.State {
    match Solo.Credit(outcome, stake)
    case None => s
    case Some(c) => WinRoute(s, ClientWinBody(userId, c, roundId), now).store
  }

  /** The same settlement against the route as written. */
  function SettleAsWritten(s: ServerCjs.State, userId: string, roundId: string, outcome: Solo.Outcome, stake: int, now: int): ServerCjs.State {
    match Solo.Credit(outcome, stake)
    case None => s
    case Some(c) => WinRouteAsWritten(s, ClientWinBody(userId, c, roundId), now).store
  }

  /** The state after the stake of a fresh round has been debited. */
  function Staked(s: ServerCjs.State, userId: string, roundId: string, stake: int, now: int): ServerCjs.State {
    ServerCjs.PostBet(s, userId, Finite(stake as real), roundId, now).store
  }

  /** Debiting the stake of a fresh round takes exactly the stake and leaves
      no settlement logged for that round. */
  lemma StakeDebited(s: ServerCjs.State, userId: string, roundId: string, stake: int, now: int)
    requires userId != "" && roundId != "" && stake > 0
    requires !HasEntry(s.history, userId, roundId, Bet) && !HasEntry(s.history, userId, roundId, Win)
    requires ServerCjs.Opening(s, userId) >= stake
    ensures var s1 := Staked(s, userId, roundId, stake, now);
      && userId in s1.balances
      && s1.balances[userId] == ServerCjs.Opening(s, userId) - stake
      && !HasEntry(s1.history, userId, roundId, Win)
  {
    assert (stake as real).Floor == stake;
    var s1 := Staked(s, userId, roundId, stake, now);
    var e := Entry(roundId, userId, Bet, stake, now);
    assert s1.history == s.history + [e];
    forall i | 0 <= i < |s1.history|
      ensures !Keyed(s1.history[i], userId, roundId, Win)
    {
      if i < |s.history| {
        assert s1.history[i] == s.history[i];
      }
    }
  }

  /** Over a whole fresh round with the corrected route, the balance moves by
      the credit minus the stake: up by the payout less the stake on a win,
      not at all on a push, down by the stake on a loss. */
  lemma {:induction false} RoundNet(s: ServerCjs.State, userId: string, roundId: string, stake: int, outcome: Solo.Outcome, t1: int, t2: int)
    requires userId != "" && roundId != "" && stake > 0
    requires !HasEntry(s.history, userId, roundId, Bet) && !HasEntry(s.history, userId, roundId, Win)
    requires ServerCjs.Opening(s, userId) >= stake
    ensures Settle(Staked(s, userId, roundId, stake, t1), userId, roundId, outcome, stake, t2).balances[userId]
      == ServerCjs.Opening(s, userId) - stake + Gain(outcome, stake)
  {
    StakeDebited(s, userId, roundId, stake, t1);
    var s1 := Staked(s, userId, roundId, stake, t1);
    assert ServerCjs.Opening(s1, userId) == s1.balances[userId];
    match Solo.Credit(outcome, stake)
    case None =>
    case Some(c) =>
      ClientCreditLands(s1, userId, c, roundId, t2);
  }

  /** With the route as written the round's credit never lands: the balance
      ends at the opening balance less the stake, whatever the outcome. */
  lemma {:induction false} RoundNetAsWritten(s: ServerCjs.State, userId: string, roundId: string, stake: int, outcome: Solo.Outcome, t1: int, t2: int)
    requires userId != "" && roundId != "" && stake > 0
    requires !HasEntry(s.history, userId, roundId, Bet) && !HasEntry(s.history, userId, roundId, Win)
    requires ServerCjs.Opening(s, userId) >= stake
    ensures SettleAsWritten(Staked(s, userId, roundId, stake, t1), userId, roundId, outcome, stake, t2).balances[userId]
      == ServerCjs.Opening(s, userId) - stake
  {
    StakeDebited(s, userId, roundId, stake, t1);
    var s1 := Staked(s, userId, roundId, stake, t1);
    match Solo.Credit(outcome, stake)
    case None =>
    case Some(c) =>
      ClientCreditRefused(s1, userId, c, roundId, t2);
  }

  /** A new player who stakes 25 and wins ends at 1022 with the corrected
      route, and at 975 with the route as written. */
  lemma WinningTwentyFive()
    ensures Settle(Staked(ServerCjs.Empty, "u", "r", 25, 0), "u", "r", Solo.PlayerWins, 25, 1).balances["u"] == 1022
    ensures SettleAsWritten(Staked(ServerCjs.Empty, "u", "r", 25, 0), "u", "r", Solo.PlayerWins, 25, 1).balances["u"] == 975
  {
    assert ServerCjs.Opening(ServerCjs.Empty, "u") == 1000;
    assert Gain(Solo.PlayerWins, 25) == 47;
    RoundNet(ServerCjs.Empty, "u", "r", 25, Solo.PlayerWins, 0, 1);
    RoundNetAsWritten(ServerCjs.Empty, "u", "r", 25, Solo.PlayerWins, 0, 1);
  }
}
