/** The PvP card codes of src/App.tsx: the server sends cards as strings such
    as "AS" or "10H", and `fromCodeToCard` splits them into rank and suit. */
module PvpCodes {
  import opened JsModel
  import opened Cards

  /** What `fromCodeToCard` returns: the rank is whatever string precedes the
      suit letter, cast to a rank without a check. */
  datatype CodedCard = CodedCard(rank: string, suit: Suit)

  /** The letters `/[SHDC]$/` strips. */
  predicate IsSuitLetter(ch: char) {
    ch == 'S' || ch == 'H' || ch == 'D' || ch == 'C'
  }

  /** `s === "S" ? "♠" : s === "H" ? "♥" : s === "D" ? "♦" : "♣"`. */
  function SuitOfLetter(ch: char): (s: Suit)
    ensures ch == 'S' ==> s == Spades
    ensures ch == 'H' ==> s == Hearts
    ensures ch == 'D' ==> s == Diamonds
    ensures s == Clubs <==> !(ch == 'S' || ch == 'H' || ch == 'D')
  {
    if ch == 'S' then Spades else if ch == 'H' then Hearts else if ch == 'D' then Diamonds else Clubs
  }

  /** `fromCodeToCard`. */
  function FromCode(code: string): (c: CodedCard)
    // at most one trailing suit letter is removed, and nothing else
    ensures code == c.rank || (|code| > 0 && IsSuitLetter(code[|code| - 1]) && code == c.rank + [code[|code| - 1]])
    ensures |code| > 0 && IsSuitLetter(code[|code| - 1]) ==> |c.rank| == |code| - 1
    // the suit comes from the last character, clubs when it is no suit letter or the code is empty
    ensures |code| == 0 ==> c.suit == Clubs
    ensures |code| > 0 ==> c.suit == SuitOfLetter(code[|code| - 1])
  {
    var rank := if |code| > 0 && IsSuitLetter(code[|code| - 1]) then code[..|code| - 1] else code;
    var suit := if |code| > 0 then SuitOfLetter(code[|code| - 1]) else Clubs;
    CodedCard(rank, suit)
  }

  /** The letter a suit is sent as. */
  function LetterOf(s: Suit): char {
    match s
    case Spades => 'S'
    case Hearts => 'H'
    case Diamonds => 'D'
    case Clubs => 'C'
  }

  /** The code of a card: its rank string followed by its suit letter. */
  function Code(c: Card): string {
    RankName(c.rank) + [LetterOf(c.suit)]
  }

  /** The rank a rank string names, if it names one. */
  function ParseRank(s: string): Option<Rank> {
    if s == "A" then Some(Ace)
    else if s == "J" then Some(Jack)
    else if s == "Q" then Some(Queen)
    else if s == "K" then Some(King)
    else if s == "10" then Some(Num(10))
    else if |s| == 1 && '2' <= s[0] <= '9' then Some(Num(s[0] as int - 48))
    else None
  }

  lemma ParseRankName(r: Rank)
    ensures ParseRank(RankName(r)) == Some(r)
  {
  }

  /** Decoding the code of any card gives back its rank string and its suit,
      and the rank string names the card's rank. */
  lemma {:induction false} DecodeCode(c: Card)
    ensures FromCode(Code(c)) == CodedCard(RankName(c.rank), c.suit)
    ensures ParseRank(FromCode(Code(c)).rank) == Some(c.rank)
  {
    var code := Code(c);
    assert code[|code| - 1] == LetterOf(c.suit);
    assert code[..|code| - 1] == RankName(c.rank);
    ParseRankName(c.rank);
  }

  /** "10H" is the ten of hearts. */
  lemma TenOfHearts()
    ensures FromCode("10H") == CodedCard("10", Hearts)
  {
    assert "10H"[..2] == "10";
  }
}
