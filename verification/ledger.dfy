/** What both backend variants share: the history entry, the in-memory store,
    the reply of a handler and the `(userId, roundId, type)` idempotency key. */
module Ledger {

  /** The `type` field of a history entry. */
  datatype Kind = Bet | Win

  /** One history record `{ roundId, userId, type, amount, ts }`; `N` is the
      number type of the variant (integers in server.cjs, reals in server.js). */
  datatype Entry<N> = Entry(roundId: string, userId: string, kind: Kind, amount: N, ts: int)

  /** The balances object and the history array, held in memory. */
  datatype Store<N> = Store(balances: map<string, N>, history: seq<Entry<N>>)

  /** The JSON answer of a handler: status 400, `success: true` with the
      balance, or `success: false` for insufficient funds with the balance. */
  datatype Reply<N> = BadArgs | Ok(balance: N) | Insufficient(balance: N)

  /** The store after a handler together with its reply. */
  datatype Step<N> = Step(store: Store<N>, reply: Reply<N>)

  predicate Keyed<N>(e: Entry<N>, userId: string, roundId: string, kind: Kind) {
    e.userId == userId && e.roundId == roundId && e.kind == kind
  }

  /** `history.some(h => h.userId === userId && h.roundId === roundId && h.type === type)`. */
  function HasEntry<N>(h: seq<Entry<N>>, userId: string, roundId: string, kind: Kind): (b: bool)
    ensures b <==> exists i :: 0 <= i < |h| && Keyed(h[i], userId, roundId, kind)
  {
    if |h| == 0 then false
    else if Keyed(h[0], userId, roundId, kind) then true
    else
      var b := HasEntry(h[1..], userId, roundId, kind);
      assert forall i :: 0 < i < |h| ==> h[i] == h[1..][i - 1];
      b
  }

  /** At most one entry per `(userId, roundId, type)`. */
  ghost predicate OncePerKey<N>(h: seq<Entry<N>>) {
    forall i, j :: 0 <= i < j < |h| ==> !Keyed(h[j], h[i].userId, h[i].roundId, h[i].kind)
  }

  /** Every user named in the history holds a balance. */
  ghost predicate UsersKnown<N>(s: Store<N>) {
    forall i :: 0 <= i < |s.history| ==> s.history[i].userId in s.balances
  }

  /** Appending an entry whose key is not yet present keeps the keys unique. */
  lemma {:induction false} AppendFreshKey<N>(h: seq<Entry<N>>, e: Entry<N>)
    requires OncePerKey(h)
    requires !HasEntry(h, e.userId, e.roundId, e.kind)
    ensures OncePerKey(h + [e])
  {
    var h' := h + [e];
    forall i, j | 0 <= i < j < |h'|
      ensures !Keyed(h'[j], h'[i].userId, h'[i].roundId, h'[i].kind)
    {
      if j == |h| {
        assert h'[i] == h[i];
        assert !Keyed(h[i], e.userId, e.roundId, e.kind);
      } else {
        assert h'[i] == h[i] && h'[j] == h[j];
      }
    }
  }
}
