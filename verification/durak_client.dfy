/** The Durak screen's client-side decisions in src/screens/Durak.tsx: which
    of the "take" and "bito" buttons are offered, which move a card click
    sends, who the opponent is, the amount announced to a winner, and the
    short label of a user id. The rules of the game are enforced elsewhere;
    the client only proposes moves. */
module DurakClient {
  import opened JsModel
  import Solo

  /** A card as the Durak server sends it. */
  datatype DCard = DCard(rank: string, suit: string)

  /** A pair on the table: an attacking card and, once beaten, its defence. */
  datatype TablePair = TablePair(attack: DCard, defence: Option<DCard>)

  /** An entry of the `players` list. */
  datatype Seat = Seat(userId: string, handCount: int)

  /** What the screen knows when it decides: who it is, the lobby it is in
      ("" when none), who attacks and who defends, the table and the players. */
  datatype View = View(userId: string, lobbyId: string, attacker: string, defender: string,
                       table: seq<TablePair>, players: seq<Seat>)

  /** `table.every((p) => !!p.d)`. */
  function AllDefended(t: seq<TablePair>): (b: bool)
    ensures b <==> forall k :: 0 <= k < |t| ==> t[k].defence.Some?
  {
    |t| == 0 || (t[0].defence.Some? && AllDefended(t[1..]))
  }

  /** `table.some((p) => !p.d)`. */
  function AnyUndefended(t: seq<TablePair>): (b: bool)
    ensures b <==> exists k :: 0 <= k < |t| && t[k].defence.None?
  {
    |t| > 0 && (t[0].defence.None? || AnyUndefended(t[1..]))
  }

  /** `table.some((p) => p.d)`. */
  function AnyDefended(t: seq<TablePair>): (b: bool)
    ensures b <==> exists k :: 0 <= k < |t| && t[k].defence.Some?
  {
    |t| > 0 && (t[0].defence.Some? || AnyDefended(t[1..]))
  }

  /** `table.findIndex((p) => !p.d)`: the first pair still to beat, or -1. */
  function FirstUndefended(t: seq<TablePair>): (i: int)
    ensures -1 <= i < |t|
    ensures i == -1 <==> forall k :: 0 <= k < |t| ==> t[k].defence.Some?
    ensures i >= 0 ==> t[i].defence.None? && forall k :: 0 <= k < i ==> t[k].defence.Some?
  {
    if |t| == 0 then -1
    else if t[0].defence.None? then 0
    else
      var j := FirstUndefended(t[1..]);
      if j == -1 then -1 else j + 1
  }

  /** `canBitoBtn`: the attacker may end the bout once every pair is beaten. */
  function CanBito(v: View): (b: bool)
    ensures b <==> v.attacker == v.userId && |v.table| > 0
                   && forall k :: 0 <= k < |v.table| ==> v.table[k].defence.Some?
  {
    v.attacker == v.userId && |v.table| > 0 && AllDefended(v.table)
  }

  /** `canTakeBtn`: the defender may pick the cards up while a pair is unbeaten. */
  function CanTake(v: View): (b: bool)
    ensures b <==> v.defender == v.userId && exists k :: 0 <= k < |v.table| && v.table[k].defence.None?
  {
    v.defender == v.userId && AnyUndefended(v.table)
  }

  /** The two buttons are never offered together, even to a user who is
      both attacker and defender. */
  lemma BitoAndTakeExclusive(v: View)
    ensures !(CanBito(v) && CanTake(v))
  {
  }

  /** The `durak:move` a card click emits. */
  datatype Move = Defend(index: int, card: DCard) | Throw(card: DCard) | Attack(card: DCard)

  /** `onClickCard`: outside a lobby nothing is sent; a defender with an
      unbeaten pair defends the first one; otherwise an attacker throws in
      when some pair is already beaten and attacks when none is. */
  function OnClickCard(v: View, c: DCard): (m: Option<Move>)
    ensures v.lobbyId == "" ==> m.None?
    // the defender's branch comes first
    ensures m.Some? && m.value.Defend? <==>
      v.lobbyId != "" && v.defender == v.userId && exists k :: 0 <= k < |v.table| && v.table[k].defence.None?
    ensures m.Some? && m.value.Defend? ==>
      && m.value.card == c
      && 0 <= m.value.index < |v.table| && v.table[m.value.index].defence.None?
      && forall k :: 0 <= k < m.value.index ==> v.table[k].defence.Some?
    // then the attacker's
    ensures m.Some? && !m.value.Defend? ==> v.attacker == v.userId && m.value.card == c
    ensures m.Some? && m.value.Throw? <==>
      && v.lobbyId != "" && v.attacker == v.userId
      && !(v.defender == v.userId && exists k :: 0 <= k < |v.table| && v.table[k].defence.None?)
      && exists k :: 0 <= k < |v.table| && v.table[k].defence.Some?
    ensures m.Some? && m.value.Attack? <==>
      && v.lobbyId != "" && v.attacker == v.userId
      && !(v.defender == v.userId && exists k :: 0 <= k < |v.table| && v.table[k].defence.None?)
      && forall k :: 0 <= k < |v.table| ==> v.table[k].defence.None?
    // a user in neither role sends nothing
    ensures v.attacker != v.userId && v.defender != v.userId ==> m.None?
  {
    if v.lobbyId == "" then None
    else
      var i := FirstUndefended(v.table);
      if v.defender == v.userId && i >= 0 then Some(Defend(i, c))
      else if v.attacker == v.userId then
        Some(if AnyDefended(v.table) then Throw(c) else Attack(c))
      else None
  }

  /** The placeholder `oppPlayer` falls back to. */
  const NoOpponent := Seat("", 0)

  /** `oppPlayer`: the first listed player who is not this user, or the placeholder. */
  function OppPlayer(players: seq<Seat>, userId: string): (p: Seat)
    ensures (forall k :: 0 <= k < |players| ==> players[k].userId == userId) ==> p == NoOpponent
    ensures (exists k :: 0 <= k < |players| && players[k].userId != userId) ==>
      exists i :: 0 <= i < |players| && p == players[i] && p.userId != userId
                  && forall k :: 0 <= k < i ==> players[k].userId == userId
  {
    if |players| == 0 then NoOpponent
    else if players[0].userId != userId then players[0]
    else
      var p := OppPlayer(players[1..], userId);
      assert forall k :: 1 <= k < |players| ==> players[k] == players[1..][k - 1];
      p
  }

  /** The amount `onEnded` announces to the winner:
      `stake + Math.floor(stake * 0.9)`, with the product taken exactly. */
  function EndedAmount(stake: int): (w: int)
    ensures 10 * (w - stake) <= 9 * stake < 10 * (w - stake) + 10
  {
    stake + (9 * stake) / 10
  }

  /** The announced amount is the solo win payout `floor(stake * 1.9)`. */
  lemma {:induction false} EndedAmountIsWinPayout(stake: int)
    ensures EndedAmount(stake) == Solo.WinPayout(stake)
  {
    var q := (9 * stake) / 10;
    var r := (9 * stake) % 10;
    assert 9 * stake == 10 * q + r && 0 <= r < 10;
    assert 19 * stake == 10 * (stake + q) + r;
  }

  /* ---------------- short ---------------- */

  /** The class `[a-z0-9]` with the `i` flag. */
  predicate IsAlnum(ch: char) {
    ('a' <= ch <= 'z') || ('A' <= ch <= 'Z') || ('0' <= ch <= '9')
  }

  /** `toUpperCase` on the characters `short` can produce. */
  function Upper(ch: char): (u: char)
    ensures 'a' <= ch <= 'z' ==> u as int == ch as int - 32 && 'A' <= u <= 'Z'
    ensures !('a' <= ch <= 'z') ==> u == ch
  {
    if 'a' <= ch <= 'z' then (ch as int - 32) as char else ch
  }

  /** The index of the first alphanumeric character, or -1. */
  function FirstAlnum(id: string): (i: int)
    ensures -1 <= i < |id|
    ensures i == -1 <==> forall k :: 0 <= k < |id| ==> !IsAlnum(id[k])
    ensures i >= 0 ==> IsAlnum(id[i]) && forall k :: 0 <= k < i ==> !IsAlnum(id[k])
  {
    if |id| == 0 then -1
    else if IsAlnum(id[0]) then 0
    else
      var j := FirstAlnum(id[1..]);
      if j == -1 then -1 else j + 1
  }

  predicate StartsWithTg(id: string) {
    |id| >= 3 && id[..3] == "tg_"
  }

  /** `short`: the label of a user id. */
  function Short(id: string): (r: string)
    ensures id == "" ==> r == "\U{2014}"
    ensures StartsWithTg(id) ==> r == "TG:t"
    ensures id != "" && !StartsWithTg(id) ==> |r| == 1 && !('a' <= r[0] <= 'z')
    ensures id != "" && !StartsWithTg(id) && (forall k :: 0 <= k < |id| ==> !IsAlnum(id[k])) ==> r == "U"
    ensures id != "" && !StartsWithTg(id) ==> forall i ::
      0 <= i < |id| && IsAlnum(id[i]) && (forall k :: 0 <= k < i ==> !IsAlnum(id[k])) ==> r == [Upper(id[i])]
  {
    if id == "" then "\U{2014}"
    else
      var i := FirstAlnum(id);
      var m := if i >= 0 then id[i] else 'U';
      if StartsWithTg(id) then
        assert id[0] == 't';
        "TG:" + [m]
      else [Upper(m)]
  }

  /** A label never loses the information that the id was empty. */
  lemma ShortOfEmptyOnly(id: string)
    ensures Short(id) == "\U{2014}" <==> id == ""
  {
    if StartsWithTg(id) {
      assert Short(id)[0] == 'T';
    } else if id != "" {
      assert |Short(id)| == 1;
    }
  }
}
