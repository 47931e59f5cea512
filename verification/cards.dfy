/** The blackjack card rules of src/App.tsx: ranks and suits, card values,
    the soft-ace hand value and the shuffled 52-card deck. */
module Cards {

  datatype Suit = Spades | Hearts | Diamonds | Clubs

  type Pip = n: int | 2 <= n <= 10 witness 2

  /** One of `RANKS = ["A", "2", …, "10", "J", "Q", "K"]`. */
  datatype Rank = Ace | Num(n: Pip) | Jack | Queen | King

  datatype Card = Card(rank: Rank, suit: Suit)

  /** The rank as the string `RANKS` holds. */
  function RankName(r: Rank): string {
    match r
    case Ace => "A"
    case Num(n) => if n == 10 then "10" else [(48 + n) as char]
    case Jack => "J"
    case Queen => "Q"
    case King => "K"
  }

  /** `parseInt(s, 10)` on a string of decimal digits. */
  function Decimal(s: string): int {
    if |s| == 0 then 0 else 10 * Decimal(s[..|s| - 1]) + (s[|s| - 1] as int - 48)
  }

  /** `cardValue`: an ace is 11, a face card 10, a number card the number it shows. */
  function CardValue(r: Rank): (v: int)
    ensures 2 <= v <= 11
    ensures v == 11 <==> r == Ace
    ensures r.Jack? || r.Queen? || r.King? ==> v == 10
    ensures r.Num? ==> v == Decimal(RankName(r))
  {
    match r
    case Ace => 11
    case Jack => 10
    case Queen => 10
    case King => 10
    case Num(n) => NumeralValue(n); n
  }

  lemma NumeralValue(n: Pip)
    ensures Decimal(RankName(Num(n))) == n
  {
    if n == 10 {
      assert "10"[..1] == "1" && "1"[..0] == "";
    } else {
      var s := RankName(Num(n));
      assert s[..0] == "";
    }
  }

  /* ---------------- hand value ---------------- */

  /** The total the first loop of `handValue` builds: every ace counted 11. */
  function SoftTotal(cards: seq<Card>): int {
    if |cards| == 0 then 0 else SoftTotal(cards[..|cards| - 1]) + CardValue(cards[|cards| - 1].rank)
  }

  /** The total with every ace counted 1. */
  function HardTotal(cards: seq<Card>): int {
    if |cards| == 0 then 0
    else HardTotal(cards[..|cards| - 1]) + (if cards[|cards| - 1].rank == Ace then 1 else CardValue(cards[|cards| - 1].rank))
  }

  function Aces(cards: seq<Card>): nat {
    if |cards| == 0 then 0 else Aces(cards[..|cards| - 1]) + (if cards[|cards| - 1].rank == Ace then 1 else 0)
  }

  /** A legal count of the hand: `k` of its aces as 11, the rest as 1. */
  function Counted(cards: seq<Card>, k: int): int {
    HardTotal(cards) + 10 * k
  }

  /** The second loop of `handValue`: while over 21 and an ace is still 11, count it as 1. */
  function Soften(total: int, aces: nat): int
    decreases aces
  {
    if total > 21 && aces > 0 then Soften(total - 10, aces - 1) else total
  }

  /** `handValue`: the largest legal count that does not exceed 21, or the
      all-aces-as-1 count when every legal count busts. */
  function HandValue(cards: seq<Card>): (v: int)
    ensures exists k :: 0 <= k <= Aces(cards) && v == Counted(cards, k)
    ensures forall k :: 0 <= k <= Aces(cards) && Counted(cards, k) <= 21 ==> Counted(cards, k) <= v
    ensures v > 21 ==> v == HardTotal(cards)
  {
    HandValueIsBest(cards);
    Soften(SoftTotal(cards), Aces(cards))
  }

  lemma {:induction false} SoftIsHardPlusTen(cards: seq<Card>)
    ensures SoftTotal(cards) == HardTotal(cards) + 10 * Aces(cards)
    decreases |cards|
  {
    if |cards| > 0 {
      SoftIsHardPlusTen(cards[..|cards| - 1]);
    }
  }

  /** Softening from the all-high count stops at `hard + 10 k`, the largest such count not above 21. */
  lemma {:induction false} SoftenStops(hard: int, a: nat) returns (k: nat)
    ensures k <= a && Soften(hard + 10 * a, a) == hard + 10 * k
    ensures k == a || hard + 10 * (k + 1) > 21
    ensures hard + 10 * k > 21 ==> k == 0
    decreases a
  {
    if hard + 10 * a > 21 && a > 0 {
      assert hard + 10 * a - 10 == hard + 10 * (a - 1);
      k := SoftenStops(hard, a - 1);
    } else {
      k := a;
    }
  }

  lemma HandValueIsBest(cards: seq<Card>)
    ensures var v := Soften(SoftTotal(cards), Aces(cards));
      && (exists k :: 0 <= k <= Aces(cards) && v == Counted(cards, k))
      && (forall k :: 0 <= k <= Aces(cards) && Counted(cards, k) <= 21 ==> Counted(cards, k) <= v)
      && (v > 21 ==> v == HardTotal(cards))
  {
    SoftIsHardPlusTen(cards);
    var k := SoftenStops(HardTotal(cards), Aces(cards));
    assert Soften(SoftTotal(cards), Aces(cards)) == Counted(cards, k);
  }

  /** `[10, 6, A]` is 17: the ace drops to 1 rather than making 27. */
  lemma TenSixAceIsSeventeen()
    ensures HandValue([Card(Num(10), Spades), Card(Num(6), Hearts), Card(Ace, Clubs)]) == 17
  {
    var c0, c1, c2 := Card(Num(10), Spades), Card(Num(6), Hearts), Card(Ace, Clubs);
    var cards := [c0, c1, c2];
    assert cards[..2] == [c0, c1] && [c0, c1][..1] == [c0] && [c0][..0] == [];
    assert SoftTotal([c0]) == 10 && Aces([c0]) == 0;
    assert SoftTotal([c0, c1]) == 16 && Aces([c0, c1]) == 0;
    assert SoftTotal(cards) == 27 && Aces(cards) == 1;
    assert Soften(27, 1) == Soften(17, 0) == 17;
  }

  /* ---------------- the deck ---------------- */

  /** The rank at position `i` of `RANKS`. */
  function RankAt(i: int): Rank
    requires 0 <= i < 13
  {
    if i == 0 then Ace else if i <= 9 then Num(i + 1) else if i == 10 then Jack else if i == 11 then Queen else King
  }

  function RankIndex(r: Rank): (i: int)
    ensures 0 <= i < 13 && RankAt(i) == r
  {
    match r
    case Ace => 0
    case Num(n) => n - 1
    case Jack => 10
    case Queen => 11
    case King => 12
  }

  /** The suit at position `i` of `SUITS = ["♠", "♥", "♦", "♣"]`. */
  function SuitAt(i: int): Suit
    requires 0 <= i < 4
  {
    if i == 0 then Spades else if i == 1 then Hearts else if i == 2 then Diamonds else Clubs
  }

  function SuitIndex(s: Suit): (i: int)
    ensures 0 <= i < 4 && SuitAt(i) == s
  {
    match s
    case Spades => 0
    case Hearts => 1
    case Diamonds => 2
    case Clubs => 3
  }

  lemma RankAtIndex(i: int)
    requires 0 <= i < 13
    ensures RankIndex(RankAt(i)) == i
  {
  }

  lemma SuitAtIndex(i: int)
    requires 0 <= i < 4
    ensures SuitIndex(SuitAt(i)) == i
  {
  }

  /** The position of a card in the unshuffled deck. */
  function CardIndex(c: Card): int {
    SuitIndex(c.suit) * 13 + RankIndex(c.rank)
  }

  /** The deck before shuffling: for each suit, every rank in order. */
  function Ordered(): seq<Card> {
    seq(52, i requires 0 <= i < 52 => Card(RankAt(i % 13), SuitAt(i / 13)))
  }

  ghost predicate Distinct(s: seq<Card>) {
    forall i, j :: 0 <= i < j < |s| ==> s[i] != s[j]
  }

  lemma {:induction false} DistinctCount(s: seq<Card>, c: Card)
    requires Distinct(s)
    ensures multiset(s)[c] == if c in s then 1 else 0
    decreases |s|
  {
    if |s| > 0 {
      var p := s[..|s| - 1];
      assert s == p + [s[|s| - 1]];
      assert Distinct(p);
      DistinctCount(p, c);
      assert s[|s| - 1] !in p by {
        forall i | 0 <= i < |p| ensures p[i] != s[|s| - 1] {
          assert p[i] == s[i];
        }
      }
    }
  }

  /** The unshuffled deck holds each of the 52 cards exactly once. */
  lemma OrderedHasEachCardOnce()
    ensures |Ordered()| == 52
    ensures forall c :: multiset(Ordered())[c] == 1
  {
    var d := Ordered();
    forall i | 0 <= i < 52 ensures CardIndex(d[i]) == i {
      RankAtIndex(i % 13);
      SuitAtIndex(i / 13);
    }
    forall i, j | 0 <= i < j < 52 ensures d[i] != d[j] {
      assert CardIndex(d[i]) != CardIndex(d[j]);
    }
    forall c ensures multiset(d)[c] == 1 {
      var k := CardIndex(c);
      assert k % 13 == RankIndex(c.rank) && k / 13 == SuitIndex(c.suit);
      assert d[k] == c;
      DistinctCount(d, c);
    }
  }

  /** One Fisher–Yates swap. */
  function Swap(d: seq<Card>, i: int, j: int): (r: seq<Card>)
    requires 0 <= i < |d| && 0 <= j < |d|
    ensures multiset(r) == multiset(d) && |r| == |d|
  {
    d[i := d[j]][j := d[i]]
  }

  /** The shuffle of `createDeck`: for `i` from the end down to 1, swap `i`
      with `j = floor(random * (i + 1))`. `rand` holds the values
      `Math.random` returns, in call order. */
  method Shuffle(deck: seq<Card>, rand: seq<real>) returns (d: seq<Card>)
    requires |deck| <= |rand| + 1
    requires forall k :: 0 <= k < |rand| ==> 0.0 <= rand[k] < 1.0
    ensures |d| == |deck|
    ensures multiset(d) == multiset(deck)
  {
    d := deck;
    var i := |d| - 1;
    while i > 0
      invariant i < |d| == |deck|
      invariant multiset(d) == multiset(deck)
      decreases i
    {
      var x := rand[|deck| - 1 - i];
      var n := (i + 1) as real;
      assert 0.0 <= x * n < n by {
        assert x * n <= 1.0 * n;
        assert x * n != n;
      }
      var j := (x * n).Floor;
      d := Swap(d, i, j);
      i := i - 1;
    }
  }

  /** `createDeck`: a permutation of the 52 distinct cards. */
  method CreateDeck(rand: seq<real>) returns (d: seq<Card>)
    requires |rand| >= 51
    requires forall k :: 0 <= k < |rand| ==> 0.0 <= rand[k] < 1.0
    ensures |d| == 52
    ensures multiset(d) == multiset(Ordered())
    ensures forall c :: multiset(d)[c] == 1
  {
    OrderedHasEachCardOnce();
    d := Shuffle(Ordered(), rand);
  }
}
