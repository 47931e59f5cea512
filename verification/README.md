# Blackjack Royale in Dafny

This project models the core of Blackjack Royale, a Telegram mini-app where
players wager virtual credits on blackjack and Durak rounds. It also proves
properties of that model. The model covers three parts:

- **The idempotent wagering ledger** of the two backends.
  - `backend/server.cjs` floors amounts to integers, creates unknown users at
    1000, has a `/topup`, and serves a leaderboard.
  - `backend/server.js` takes amounts unfloored, reads an unknown user as
    balance 0, and serves a per-user history.

  Each HTTP handler is one atomic transition over a store of balances and
  history. `Step` pairs the new store with the reply. The proofs cover:
  - rejected arguments, replay and overdraft;
  - exact debit and credit, touching only the caller's balance;
  - a ledger invariant that every request keeps: balance = opening value +
    top-ups + wins − bets, no negative balance, each
    `(userId, roundId, type)` key at most once;
  - the leaderboard fold, sort and limit, and the `/history` filter, sort and cap.
- **The blackjack rules of `src/App.tsx`**:
  - card values and the hand value with soft aces;
  - the 52-card deck and its Fisher–Yates shuffle;
  - the PvP card codes;
  - the solo turn machine (deal, hit, stand, the dealer's draw to 17);
  - the classification of a finished round and the payouts.

  The `Settlement` module joins the end of a solo round to the server.cjs
  ledger.
- **The Durak client's move selection in `src/screens/Durak.tsx`**:
  - which of the "take" and "bito" buttons are offered;
  - the move a card click sends;
  - the opponent lookup;
  - the amount announced to a winner;
  - the short label of a user id.

A JavaScript number is `JsNumber`: a finite real, NaN or an infinity.
`Math.floor` is the floor of the real. Ids are strings; an absent or empty
id is `""`, which stands for every falsy id. Clocks (`Date.now()`) and `Math.random()` are
parameters.

Files: `js_model.dfy` (numbers, `Option`), `ledger.dfy` (entries, stores,
replies, `hasHistory`), `ordering.dfy` (the descending insertion sort used by
both routes that sort), `server_cjs.dfy`, `leaderboard.dfy`, `server_js.dfy`,
`cards.dfy`, `pvp_codes.dfy`, `solo.dfy`, `settlement.dfy`,
`durak_client.dfy`.

## Model

| member | source | states |
|---|---|---|
| JsModel.FiniteFloor | backend/server.cjs:65-66 | `Math.floor(Number(x))` passes `Number.isFinite` exactly for a finite number, and is then the greatest integer not above it |
| Ledger.HasEntry | backend/server.cjs:40-42 | true exactly when some history entry carries that user, round and type |
| Ledger.AppendFreshKey | backend/server.cjs:72-81 | appending an entry whose key is absent keeps every `(userId, roundId, type)` key unique |
| ServerCjs.EnsureUser | backend/server.cjs:32-34 | an absent user gets 1000; every existing balance, including 0, is kept; the user is then present |
| ServerCjs.PostOpen | backend/server.cjs:46-61 | `/init` and `/balance` reject a missing id without change, otherwise answer the `ensureUser` balance and leave the history alone |
| ServerCjs.PostBet | backend/server.cjs:63-85 | bad arguments change nothing; a replayed round answers the balance and logs nothing; insufficient exactly when the balance is below the floored stake, with no change; a valid, fresh, affordable bet is debited: exactly the floored stake is taken, the balance stays ≥ 0 and exactly one bet entry is logged; other users untouched |
| ServerCjs.PostWin | backend/server.cjs:87-105 | rejected exactly when an id is missing or the floored credit is not a finite number ≥ 0; a replay changes nothing; otherwise exactly the floored credit is added with exactly one win entry; never insufficient |
| ServerCjs.PostTopup | backend/server.cjs:107-117 | rejected exactly when the id is missing or the floored amount is not positive; otherwise adds exactly that amount, and the history is unchanged in every case |
| ServerCjs.BetReplay | backend/server.cjs:71-74 | sending the same bet again at any later time returns the same reply and store, so a stake is taken at most once |
| ServerCjs.WinReplay | backend/server.cjs:95-98 | sending the same credit again returns the same reply and store, so a payout lands at most once |
| ServerCjs.OpeningAccounted | backend/server.cjs:32-34 | under the invariant the balance `ensureUser` yields is 1000 + top-ups + net, and is not negative |
| ServerCjs.FreshEntryKeepsInvariant | backend/server.cjs:80-81 | a fresh entry with its user's balance moved by the signed amount keeps the invariant |
| ServerCjs.OpenKeepsInvariant | backend/server.cjs:46-61 | `/init` and `/balance` keep the ledger invariant with the same top-ups |
| ServerCjs.EnsureOnlyKeepsInvariant | backend/server.cjs:46-61 | a handler that at most creates the user keeps the invariant |
| ServerCjs.BetKeepsInvariant | backend/server.cjs:63-85 | `/bet` keeps balance = 1000 + top-ups + wins − bets, non-negative balances and unique keys |
| ServerCjs.WinKeepsInvariant | backend/server.cjs:87-105 | `/win` keeps the invariant with the same top-ups |
| ServerCjs.TopupKeepsInvariant | backend/server.cjs:107-117 | `/topup` keeps the invariant once its amount joins the top-up term, the only change that logs nothing |
| ServerCjs.ApplyKeepsInvariant | backend/server.cjs:46-117 | every handler keeps the ledger invariant |
| ServerCjs.RunKeepsInvariant | backend/server.cjs:46-117 | any sequence of requests, handled one at a time, keeps the ledger invariant |
| ServerCjs.EmptyHoldsInvariant | backend/server.cjs:27-28 | the empty store satisfies the invariant with no top-ups |
| Leaderboard.ParseMetric | backend/server.cjs:151 | the metric is profit exactly when the query says "profit", and wins otherwise |
| Leaderboard.ClampLimit | backend/server.cjs:152 | the limit is in 1..100; NaN and 0 give 20; an in-range value is floored; below 1 gives 1 and above 100 gives 100 |
| Leaderboard.TallyIsExact | backend/server.cjs:154-170 | the fold gives one row per user named in the history, no user twice, each with the count of their win entries and their wins minus bets |
| Leaderboard.RecordFind | backend/server.cjs:155-163 | folding one entry updates only its own user's row |
| Leaderboard.SortedRowsExact | backend/server.cjs:166-174 | any permutation of the fold holds exactly the expected row of every user, once each |
| Leaderboard.LeftOutRankNoHigher | backend/server.cjs:172-176 | no user cut off by the limit ranks strictly above a shown row |
| Leaderboard.Board | backend/server.cjs:150-177 | the response has min(#users, clamped limit) rows, one per user at most, each with exact wins and profit, ordered by the chosen metric with the other as tie-break, and no left-out user ranks above a shown one |
| Ordering.Insert | backend/server.cjs:172-174 | insertion keeps the multiset and keeps the order descending |
| Ordering.Sort | backend/server.cjs:172-174 | the result is a permutation of the input, in descending order of its key |
| Ordering.CutKeepsTop | backend/server.cjs:176 | after a cut of a sorted sequence, nothing dropped sorts strictly before anything kept |
| ServerJs.PostInit | backend/server.js:47-57 | an absent user is created at 1000; an existing balance is never overwritten; the history is untouched |
| ServerJs.GetBalance | backend/server.js:60-65 | an unknown user reads as 0; a known user reads their balance |
| ServerJs.PostBet | backend/server.js:75-98 | bad arguments change nothing; a replay answers the balance unchanged; insufficient exactly when the balance (0 for an unknown user) is below the unfloored amount, with no change; a valid, fresh, affordable bet debits exactly the amount, the balance stays ≥ 0 and exactly one bet entry is logged |
| ServerJs.PostWin | backend/server.js:101-121 | zero and negative credits are refused without any change; a replay changes nothing; otherwise exactly the amount is credited with one entry, creating an unknown user |
| ServerJs.Own | backend/server.js:70 | the filter keeps every occurrence of the user's entries and nothing else: each entry's count is its count in the history for the user's entries and 0 otherwise |
| ServerJs.GetHistory | backend/server.js:68-72 | only the user's entries, newest first, min(their count, 200) of them, and every entry left out is no newer than one returned |
| ServerJs.UnknownUserCannotBet | backend/server.js:88-89 | under the invariant, a user without a balance can only be refused a bet |
| ServerJs.FreshEntryKeepsInvariant | backend/server.js:91-92 | a fresh positive entry with its balance moved by the signed amount keeps the invariant; a user it creates opens at 0 |
| ServerJs.InitKeepsInvariant | backend/server.js:47-57 | `/init` keeps the invariant, and the user it creates opens at 1000 |
| ServerJs.BetKeepsInvariant | backend/server.js:75-98 | `/bet` keeps balance = opening + wins − bets, non-negative balances, positive amounts and unique keys |
| ServerJs.WinKeepsInvariant | backend/server.js:101-121 | `/win` keeps the invariant, and a user it creates opens at 0 |
| ServerJs.ApplyKeepsInvariant | backend/server.js:47-121 | every handler keeps the invariant |
| ServerJs.RunKeepsInvariant | backend/server.js:47-121 | any sequence of requests keeps the invariant |
| ServerJs.Replays | backend/server.js:84-86 | a repeated bet or a repeated credit for the same round returns the same reply and store |
| Cards.CardValue | src/App.tsx:36-40 | an ace is 11 and only an ace is; a face card is 10; a numeral is the decimal value of its rank string |
| Cards.NumeralValue | src/App.tsx:39 | the decimal reading of every numeral rank name is its pip count |
| Cards.SoftIsHardPlusTen | src/App.tsx:44-47 | the sum with aces at 11 is the sum with aces at 1 plus ten per ace |
| Cards.SoftenStops | src/App.tsx:48-51 | the softening loop stops at the first count ≤ 21 or after every ace, having counted k aces high |
| Cards.HandValue | src/App.tsx:41-53 | the value is a legal count (hard total + 10 per high ace), the largest legal count ≤ 21 when one exists, and the hard total otherwise |
| Cards.TenSixAceIsSeventeen | src/App.tsx:41-53 | ten, six and ace count 17 |
| Cards.OrderedHasEachCardOnce | src/App.tsx:22-29 | the ordered deck has 52 cards, each suit-rank pair exactly once |
| Cards.Swap | src/App.tsx:32 | a swap keeps the deck's multiset and length |
| Cards.Shuffle | src/App.tsx:30-33 | the Fisher–Yates pass returns a permutation of its input |
| Cards.CreateDeck | src/App.tsx:27-35 | the deck is a permutation of the 52 distinct cards |
| PvpCodes.SuitOfLetter | src/App.tsx:101-102 | S gives spades, H hearts, D diamonds, and every other character clubs |
| PvpCodes.FromCode | src/App.tsx:99-104 | at most one trailing S/H/D/C is stripped into the rank; the suit is read from the last character, and clubs when that is no suit letter or the code is empty |
| PvpCodes.DecodeCode | src/App.tsx:99-104 | decoding the code of any card gives back its rank string and suit, and the rank string names its rank |
| PvpCodes.TenOfHearts | src/App.tsx:99-104 | "10H" decodes to rank "10" of hearts |
| Solo.StartRound | src/App.tsx:455-465 | the player gets the last two cards, the dealer the next two, the deck loses four, no card is lost, and it is the player's turn |
| Solo.Hit | src/App.tsx:521-539 | only on the player's turn and with a card left: the last card moves to the player, and the turn passes to the dealer exactly on a bust; otherwise nothing changes; no card is lost and the turn never moves back |
| Solo.Stand | src/App.tsx:540-547 | the player's turn passes to the dealer; any other turn is left as it is |
| Solo.DrawnConserves | src/App.tsx:556-560 | the cards left on the deck and the cards popped are together the deck |
| Solo.DrawToSeventeen | src/App.tsx:556-560 | the dealer pops from the end of the deck, stops at 17 or on an empty deck, and never stops earlier |
| Solo.DealerPlay | src/App.tsx:550-568 | on the dealer's turn the draw to 17 runs and the round ends, with every card conserved; on any other turn nothing changes |
| Solo.Classify | src/App.tsx:576-582 | a win exactly when the player is not bust and the opponent is bust or lower; a loss exactly when the opponent is not bust and the player is bust or lower; a push on a double bust or equal totals |
| Solo.ClassifyMirror | src/App.tsx:576-582 | swapping the two totals swaps a win with a loss and keeps a push |
| Solo.WinPayout | src/App.tsx:94 | the payout is the floor of 1.9 times the stake |
| Solo.Credit | src/App.tsx:585-593 | a win asks for the payout, a push for exactly the stake (`PAYOUT.push`, line 95), and a loss asks for nothing |
| Solo.RoundOutcome | src/App.tsx:576-582 | the outcome of a finished table from the two hand values: a win exactly when the player is not bust and the dealer is bust or lower, a loss exactly when the dealer is not bust and the player is bust or lower; a bust player never wins |
| Solo.StakeTwentyFiveWinsFortySeven | src/App.tsx:94 | a stake of 25 wins 47 |
| Settlement.ToNumber | backend/server.cjs:88-89 | an absent body field becomes NaN under `Number`, and a present one is kept |
| Settlement.WinRouteAsWritten | backend/server.cjs:87-91 | a `/win` body without `winAmount` is refused with 400 and changes nothing |
| Settlement.WinRoute | backend/server.js:102-104 | a `/win` body without `amount` is refused with 400 and changes nothing |
| Settlement.ClientCreditRefused | backend/server.cjs:87-91 | as written, every credit the client sends is refused and changes nothing |
| Settlement.RoundNetAsWritten | backend/server.cjs:87-91 | as written, a fresh round ends at the opening balance less the stake whatever its outcome |
| Settlement.ClientCreditLands | src/lib/api.ts:70-71 | with the route reading `amount`, a well-formed credit is accepted, and a fresh one raises the balance by exactly the credit |
| Settlement.StakeDebited | src/App.tsx:501-510 | the stake of a fresh round is debited exactly, and no credit for that round exists yet |
| Settlement.RoundNet | src/App.tsx:571-593 | over a fresh round the balance moves by the credit minus the stake |
| Settlement.WinningTwentyFive | src/App.tsx:585-589 | a new player who stakes 25 and wins ends at 1022 with the corrected route and at 975 as written |
| DurakClient.AllDefended | src/screens/Durak.tsx:168 | true exactly when every pair on the table has a defence card |
| DurakClient.AnyUndefended | src/screens/Durak.tsx:170 | true exactly when some pair lacks a defence card |
| DurakClient.AnyDefended | src/screens/Durak.tsx:208 | true exactly when some pair has a defence card |
| DurakClient.FirstUndefended | src/screens/Durak.tsx:197 | −1 exactly when every pair is beaten; otherwise the index of the first unbeaten pair |
| DurakClient.CanBito | src/screens/Durak.tsx:167-168 | offered exactly to the attacker of a non-empty table on which every pair is beaten |
| DurakClient.CanTake | src/screens/Durak.tsx:169-170 | offered exactly to the defender while some pair is unbeaten |
| DurakClient.BitoAndTakeExclusive | src/screens/Durak.tsx:167-170 | the two buttons are never offered together |
| DurakClient.OnClickCard | src/screens/Durak.tsx:195-211 | no lobby means no move; a defender facing an unbeaten pair defends the first one, ahead of the attacker branch; otherwise an attacker throws in when some pair is beaten and attacks when none is; anyone else sends nothing |
| DurakClient.OppPlayer | src/screens/Durak.tsx:47-48 | the first listed player with another id, or the placeholder with empty id and no cards when there is none |
| DurakClient.EndedAmount | src/screens/Durak.tsx:123-126 | the announced amount is the stake plus the floor of 0.9 times the stake |
| DurakClient.EndedAmountIsWinPayout | src/screens/Durak.tsx:125 | the announced amount equals the solo win payout, the floor of 1.9 times the stake |
| DurakClient.FirstAlnum | src/screens/Durak.tsx:370 | −1 exactly when the id has no ASCII letter or digit; otherwise the index of the first one |
| DurakClient.Short | src/screens/Durak.tsx:368-372 | "" gives "—"; an id starting with "tg_" gives "TG:t"; any other id gives its first letter or digit in upper case, or "U" when it has none |
| DurakClient.ShortOfEmptyOnly | src/screens/Durak.tsx:369 | the label is "—" exactly for the empty id |

## Left out

- JSON file persistence, Express routing and CORS are left out, as are the
  `/health`, `/reflink`, `/ref-link` and `/apply-ref` routes. Each handler is
  one atomic step over in-memory state.
- Concurrency is left out: requests are handled one at a time, although the
  real read-check-write is not atomic.
- `Math.random` is left out. The shuffle takes its random numbers as a
  parameter, and round and lobby ids are opaque strings.
- Both ledgers are modelled over exact arithmetic: integers for server.cjs
  and reals for server.js. JavaScript numbers are IEEE doubles, so the
  invariants are proved only in exact arithmetic. Two examples fall outside
  the model:
  - In server.js, a new user wins 0.1 and then 0.2. A bet of
    0.30000000000000004 then succeeds in JavaScript, but the model answers
    insufficient.
  - In server.cjs, a top-up of 1e17 followed by a bet of 1 leaves the
    JavaScript balance unchanged, while the model subtracts 1.
- User and round ids are assumed to be strings. Both servers match ids with
  `===` (server.cjs:41, server.js:84), so a JSON object or array id never
  matches an earlier entry: every resend of such a `/bet` or `/win`
  is applied again and logged again, which the replay and once-per-key
  properties exclude. A number user id such as 7 shares the balance of the
  string "7", because object keys are strings (server.cjs:27), yet its entries
  do not match "7" under `===`; the balance then stops being the opening plus
  the net of that id's entries.
- User ids are also assumed not to name a member of `Object.prototype`, such
  as "toString". `balances` is a plain object (server.cjs:27), so for such an
  id `ensureUser` creates nothing; a `/bet` then compares a function with the
  stake, stores NaN as the balance and logs the bet. The model treats every id
  as an ordinary key and creates it at 1000.
- Solo.WinPayout: `Math.floor(stake * 1.9)` is taken on the exact product, as
  `(19 * stake) / 10`. IEEE rounding of `1.9` is not modelled.
- DurakClient.EndedAmount: `Math.floor(stake * 0.9)` is likewise taken as
  `(9 * stake) / 10`.
- Ordering.Sort: the result is proved to be a sorted permutation. The order
  it keeps among rows with equal keys is not stated.
- Solo.StartRound requires four cards in the deck. `startRoundFromDeck` pops four times
  without a check, and every deck it deals from is a fresh 52-card deck.
- Cards.CardValue is modelled for the thirteen deck ranks only.
  `parseInt` of a string that is no rank, which a PvP code could carry, is
  left out.
- The "take" and "bito" emitters and `oppTurn` only forward to the Durak
  server and are left out. The timers, lobby list and join flow are left out
  too.
- The `fetch` wrappers and server URL choice of `src/lib/api.ts` are left
  out. Only the body its `win` call sends is modelled, in `Settlement.ClientWinBody`.
- The Durak rule engine, the PvP blackjack session and the matchmaking run on
  a server that is not part of this model.
- `src/screens/DurakSkin.tsx`, `src/lib/realtime.ts`, `src/lib/socket.ts` and
  `src/types/telegram.d.ts` are rendering and transport code, and are not
  part of this model.
- The leaderboard counts wins as the code does. Every win entry counts, and
  that includes the stake refunded on a push. A design that classifies each
  round as a win, loss or push would count differently.
- server.js refuses a zero credit (`amount <= 0`), so a push refund of 0
  cannot land there. It creates no user on a balance read. The model follows
  the code in both.

## Findings

| source | as written | input that shows it | evidently intended | confidence | as-written member | corrected member |
|---|---|---|---|---|---|---|
| backend/server.cjs:88-91 | `/win` reads the credit from `winAmount`, but the client's `win` (src/lib/api.ts:70-71) sends it as `amount`, so `Number(undefined)` is NaN and every credit is refused with 400 | a new user bets 25 on round "r", wins, and the client sends `{userId, amount: 47, roundId: "r"}` to `/win`; the balance stays at 975 | read the credit from `amount`, as `/bet` and the server.js `/win` do, so the balance ends at 1022 | medium, not executed | Settlement.ClientCreditRefused | Settlement.ClientCreditLands |
