/** The solo blackjack round of src/App.tsx: the deal, the player's `hit` and
    `stand`, the dealer's draw to 17, the classification of the result and
    the payout rule. */
module Solo {
  import opened JsModel
  import opened Cards

  /** `type Turn = "player" | "dealer" | "end"`. */
  datatype Turn = PlayerTurn | DealerTurn | Ended

  /** The solo round's deck, hands and turn. */
  datatype Table = Table(deck: seq<Card>, player: seq<Card>, dealer: seq<Card>, turn: Turn)

  /** Every card of the round, wherever it is. */
  ghost function InPlay(t: Table): multiset<Card> {
    multiset(t.deck) + multiset(t.player) + multiset(t.dealer)
  }

  /** How far the turn machine has moved. */
  function Stage(t: Turn): nat {
    match t
    case PlayerTurn => 0
    case DealerTurn => 1
    case Ended => 2
  }

  /** `startRoundFromDeck`: two cards to the player, then two to the dealer,
      each popped from the end of the deck. */
  function StartRound(deck: seq<Card>): (t: Table)
    requires |deck| >= 4
    ensures t.turn == PlayerTurn
    ensures t.deck == deck[..|deck| - 4]
    ensures t.player == [deck[|deck| - 1], deck[|deck| - 2]]
    ensures t.dealer == [deck[|deck| - 3], deck[|deck| - 4]]
    ensures InPlay(t) == multiset(deck)
  {
    var n := |deck|;
    assert deck == deck[..n - 4] + [deck[n - 4], deck[n - 3]] + [deck[n - 2], deck[n - 1]];
    Table(deck[..n - 4], [deck[n - 1], deck[n - 2]], [deck[n - 3], deck[n - 4]], PlayerTurn)
  }

  /** Solo `hit`: only on the player's turn, and only while the deck has a
      card; the card moves to the player, whose bust hands the turn to the dealer. */
  function Hit(t: Table): (r: Table)
    ensures InPlay(r) == InPlay(t)
    ensures Stage(t.turn) <= Stage(r.turn)
    ensures t.turn != PlayerTurn || |t.deck| == 0 ==> r == t
    ensures t.turn == PlayerTurn && |t.deck| > 0 ==>
      && r.player == t.player + [t.deck[|t.deck| - 1]]
      && r.deck == t.deck[..|t.deck| - 1]
      && r.dealer == t.dealer
      && (r.turn == DealerTurn <==> HandValue(r.player) > 21)
      && (r.turn == PlayerTurn <==> HandValue(r.player) <= 21)
  {
    if t.turn != PlayerTurn || |t.deck| == 0 then t
    else
      var n := |t.deck|;
      var next := t.player + [t.deck[n - 1]];
      assert t.deck == t.deck[..n - 1] + [t.deck[n - 1]];
      Table(t.deck[..n - 1], next, t.dealer, if HandValue(next) > 21 then DealerTurn else PlayerTurn)
  }

  /** Solo `stand`: only on the player's turn, which passes to the dealer. */
  function Stand(t: Table): (r: Table)
    ensures InPlay(r) == InPlay(t)
    ensures r.deck == t.deck && r.player == t.player && r.dealer == t.dealer
    ensures r.turn == DealerTurn <==> t.turn == PlayerTurn || t.turn == DealerTurn
    ensures t.turn != PlayerTurn ==> r == t
  {
    if t.turn != PlayerTurn then t else t.(turn := DealerTurn)
  }

  /** The cards the dealer takes by popping `k` times from the end of `deck`. */
  function Drawn(deck: seq<Card>, k: nat): seq<Card>
    requires k <= |deck|
  {
    if k == 0 then [] else Drawn(deck, k - 1) + [deck[|deck| - k]]
  }

  /** Drawing one more card appends the next card from the end. */
  lemma DrawnStep(deck: seq<Card>, k: nat)
    requires k < |deck|
    ensures Drawn(deck, k + 1) == Drawn(deck, k) + [deck[|deck| - k - 1]]
  {
  }

  /** The cards left on the deck and the cards drawn are, together, the deck. */
  lemma {:induction false} DrawnConserves(deck: seq<Card>, k: nat)
    requires k <= |deck|
    ensures multiset(deck[..|deck| - k]) + multiset(Drawn(deck, k)) == multiset(deck)
  {
    if k == 0 {
      assert deck[..|deck|] == deck;
    } else {
      DrawnConserves(deck, k - 1);
      var n := |deck| - k;
      assert deck[..n + 1] == deck[..n] + [deck[n]];
      assert multiset(deck[..n + 1]) == multiset(deck[..n]) + multiset{deck[n]};
      assert Drawn(deck, k) == Drawn(deck, k - 1) + [deck[n]];
      assert multiset(Drawn(deck, k)) == multiset(Drawn(deck, k - 1)) + multiset{deck[n]};
    }
  }

  /** A table whose dealer took the cards drawn from the end of the deck holds
      the same cards as before. */
  lemma DrawKeepsCards(t: Table, r: Table)
    requires |r.deck| <= |t.deck| && r.deck == t.deck[..|r.deck|]
    requires r.dealer == t.dealer + Drawn(t.deck, |t.deck| - |r.deck|)
    requires r.player == t.player
    ensures InPlay(r) == InPlay(t)
  {
    var k := |t.deck| - |r.deck|;
    DrawnConserves(t.deck, k);
    assert multiset(r.dealer) == multiset(t.dealer) + multiset(Drawn(t.deck, k));
  }

  /** Popping the last card of a prefix of `deck` leaves a shorter prefix. */
  lemma PopPrefix(deck: seq<Card>, dd: seq<Card>)
    requires 0 < |dd| <= |deck| && dd == deck[..|dd|]
    ensures dd[..|dd| - 1] == deck[..|dd| - 1]
    ensures dd[|dd| - 1] == deck[|deck| - (|deck| - |dd|) - 1]
    ensures multiset(dd) == multiset(dd[..|dd| - 1]) + multiset{dd[|dd| - 1]}
  {
    assert dd == dd[..|dd| - 1] + [dd[|dd| - 1]];
  }

  /** The dealer's draw loop: pop from the end of `deck` while `hand` is
      below 17 and the deck has a card. */
  method DrawToSeventeen(deck: seq<Card>, hand: seq<Card>) returns (rest: seq<Card>, drawn: seq<Card>)
    ensures |rest| <= |deck| && rest == deck[..|rest|]
    ensures drawn == hand + Drawn(deck, |deck| - |rest|)
    ensures HandValue(drawn) >= 17 || |rest| == 0
    ensures forall k :: 0 <= k < |deck| - |rest| ==> HandValue(hand + Drawn(deck, k)) < 17
  {
    drawn := hand;
    rest := deck;
    while HandValue(drawn) < 17
      invariant |rest| <= |deck| && rest == deck[..|rest|]
      invariant drawn == hand + Drawn(deck, |deck| - |rest|)
      invariant forall k :: 0 <= k < |deck| - |rest| ==> HandValue(hand + Drawn(deck, k)) < 17
      decreases |rest|
    {
      if |rest| == 0 {
        break;
      }
      var c := rest[|rest| - 1];
      PopPrefix(deck, rest);
      DrawnStep(deck, |deck| - |rest|);
      rest := rest[..|rest| - 1];
      drawn := drawn + [c];
    }
  }

  /** The dealer's automatic play: on the dealer's turn, draw to 17 and end the round. */
  method DealerPlay(t: Table) returns (r: Table)
    ensures t.turn != DealerTurn ==> r == t
    ensures t.turn == DealerTurn ==> r.turn == Ended && r.player == t.player
    ensures t.turn == DealerTurn ==> |r.deck| <= |t.deck| && r.deck == t.deck[..|r.deck|]
    ensures t.turn == DealerTurn ==> r.dealer == t.dealer + Drawn(t.deck, |t.deck| - |r.deck|)
    // the dealer stops at 17 or on an empty deck ...
    ensures t.turn == DealerTurn ==> HandValue(r.dealer) >= 17 || |r.deck| == 0
    // ... and never earlier
    ensures t.turn == DealerTurn ==>
      forall k :: 0 <= k < |t.deck| - |r.deck| ==> HandValue(t.dealer + Drawn(t.deck, k)) < 17
    ensures InPlay(r) == InPlay(t)
  {
    if t.turn != DealerTurn {
      return t;
    }
    var rest, drawn := DrawToSeventeen(t.deck, t.dealer);
    r := Table(rest, t.player, drawn, Ended);
    DrawKeepsCards(t, r);
  }

  /* ---------------- settlement ---------------- */

  /** The player's result: `"win" | "lose" | "push"`. */
  datatype Outcome = PlayerWins | PlayerLoses | Push

  /** The end-of-round classification, from the player's total `p` and the opponent's `o`. */
  function Classify(p: int, o: int): (r: Outcome)
    ensures r == PlayerWins <==> p <= 21 && (o > 21 || p > o)
    ensures r == PlayerLoses <==> o <= 21 && (p > 21 || p < o)
    ensures r == Push <==> (p > 21 && o > 21) || (p <= 21 && p == o)
  {
    if p > 21 && o > 21 then Push
    else if p > 21 then PlayerLoses
    else if o > 21 then PlayerWins
    else if p > o then PlayerWins
    else if p < o then PlayerLoses
    else Push
  }

  /** The result seen from the other seat. */
  function Mirror(r: Outcome): Outcome {
    match r
    case PlayerWins => PlayerLoses
    case PlayerLoses => PlayerWins
    case Push => Push
  }

  /** Swapping the two totals swaps a win and a loss and keeps a push. */
  lemma ClassifyMirror(p: int, o: int)
    ensures Classify(o, p) == Mirror(Classify(p, o))
  {
  }

  /** `PAYOUT.win`: `Math.floor(stake * 1.9)`, taken as the exact product. */
  function WinPayout(stake: int): (w: int)
    ensures 10 * w <= 19 * stake < 10 * w + 10
  {
    (19 * stake) / 10
  }

  /** The `/win` credit the end of a round asks for: the payout on a win,
      `PAYOUT.push` (the stake itself) on a push, nothing on a loss. */
  function Credit(r: Outcome, stake: int): (c: Option<int>)
    ensures c.None? <==> r == PlayerLoses
    ensures r == PlayerWins ==> c == Some(WinPayout(stake))
    ensures r == Push ==> c == Some(stake)
  {
    match r
    case PlayerWins => Some(WinPayout(stake))
    case Push => Some(stake)
    case PlayerLoses => None
  }

  /** A stake of 25 wins 47. */
  lemma StakeTwentyFiveWinsFortySeven()
    ensures WinPayout(25) == 47
  {
  }

  /** The outcome of a finished table, from the player's and the dealer's hand values. */
  function RoundOutcome(t: Table): (r: Outcome)
    ensures r == PlayerWins <==> HandValue(t.player) <= 21 && (HandValue(t.dealer) > 21 || HandValue(t.player) > HandValue(t.dealer))
    ensures r == PlayerLoses <==> HandValue(t.dealer) <= 21 && (HandValue(t.player) > 21 || HandValue(t.player) < HandValue(t.dealer))
    // a bust never wins, and the dealer's bust alone never loses
    ensures HandValue(t.player) > 21 ==> r != PlayerWins
    ensures HandValue(t.dealer) > 21 ==> r != PlayerLoses
  {
    Classify(HandValue(t.player), HandValue(t.dealer))
  }
}
