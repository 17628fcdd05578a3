# Bloop economy and games — a Dafny model

This project models the rules of the Bloop Discord bot (`main.py`): a
per-server economy of member balances ("Bloop Coins"), server treasuries,
cooldowns and loans, and the wagering games built on it. The games are the
coin toss, the spinning wheel, the multiplayer dice pot, tic-tac-toe between
two members, and blackjack against the dealer. Discord, SQLite and asyncio
are stripped away. What is left is integer state, guards that refuse a
command, and the debits and credits each command makes.

- `Ledger.dfy`: the persistent tables.
  - The class `Ledger.Store` holds the balances, server rows, cooldowns and
    loans as maps, with the primitives every command uses: `AddBalance`,
    `GetBalance`, the row-creating helpers, and the cooldown pair.
  - An account without a row reads as 0.
  - `Store.Sound()` says that no balance and no treasury is negative, and
    that every loan has a positive amount.
  - Every command keeps `Sound()` if it held before: gift, trade, borrow,
    the loan buttons, the coin, the wheel, the dice commands, the blackjack
    commands and the tic-tac-toe moves.
    - The primitives keep it under a condition. `AddBalance` and
      `AddTreasury` need the new value to be non-negative.
    - Tic-tac-toe moves need the game's reward to be non-negative.
    - `Blackjack.StartGame`, `Blackjack.Game.Finish` and
      `Blackjack.Game.Stand` need the game's bet to be non-negative. The play
      command only opens games with a positive bet.
    - `SetCooldown` does not touch the tables `Sound()` reads.
- `Economy.dfy`: the gift command, the server-to-server treasury trade, and
  loans (the borrow command, the lender's accept and reject buttons).
- `Wager.dfy`: the in-memory throttle shared by the coin toss and blackjack,
  the coin toss itself, and the wheel.
  - The wheel uses integer per-mille bands (200, 500, 750, 900, 980, 1000).
  - The draw is a fraction `num/den` in [0, 1).
  - Multipliers are counted in halves.
- `Dice.dfy`: dice sessions by channel, kept in the class `Dice.DiceTable`.
  - The operations are start, join, and the settlement at the end of the
    join window.
  - A session keeps its players in the order they joined, as the source's
    dictionary does, so "the first player" is the starter.
- `TicTacToe.dfy`: a game is a class over a nine-cell `array`, with the turn
  owner and the finished flag.
  - The winner is the first complete line among the eight rows, columns and
    diagonals, scanned in the source's order.
- `Cards.dfy`: the 52 cards, their text labels, and the card value the game
  reads back off a label (all but the last two characters).
  - Also here: the hand value with aces demoted from 11 to 1 while over 21,
    and the deck as it is built.
- `Blackjack.dfy`: a game as a class whose deck and hands are sequences,
  dealt from the end of the deck.
  - The operations are hit, stand (with the dealer's draw loop), the
    natural-21 check at the start, and the blackjack branch of the play
    command.
  - `Blackjack.CardsLeft` proves the deck cannot run out during a game.
    While the player is not bust and the dealer is below 17, the two hands
    (aces counted 1) are worth less than the whole deck's 340.

Randomness is an input throughout: the dice rolls, the coin's face, the
wheel's draw, and the shuffled deck (any permutation of the built deck). The
clock is an integer number of seconds passed in. `is_adminish` is the boolean
`privileged`. Argument parsing is not modelled: commands take their arguments
already parsed. A missing `@member` or amount is an `Option`.

Three places behave differently from what a reader would expect; the model
follows the code:

- A reader would expect a draw of exactly 0.20 to belong to the 0.5x band.
  The wheel's bands are inclusive at their upper bound and are checked from
  the lowest, so that draw lands on 0x (`Wager.DrawOfOneFifth`).
- A reader would expect a loan to be resolved once. The buttons never check
  the loan's status (`Economy.AcceptLoan`, `Economy.RejectLoan`; see
  Findings).
  - The first successful press edits the message and removes both buttons
    (`view=None`, main.py:360 and 367).
  - A second accept, or a reject after an accept, therefore only lands if it
    was sent before that edit reached Discord.
- A reader would expect every dice player to stake the session's bet. The
  join button remembers the entry bet of the session that posted it but
  finds the session through the channel (main.py:434, 439-442), and its
  25 s timeout restarts on every press (main.py:428). A button left over
  from a settled session can therefore join a later session in the same
  channel at the old entry bet: after a 10-coin session, a press on its
  button joins a new 1000-coin session for 10 coins. `Dice.Join` takes the
  button's entry bet, and `Dice.Settle` pays out the sum of the stakes.

## Model

| member | source | states |
|---|---|---|
| Ledger.Store.constructor | main.py:41-80 | Empty tables; loan ids start at 1; the store is sound. |
| Ledger.Store.EnsureUserRow | main.py:91-93 | Creates a 0 row only when it is missing; no balance changes. |
| Ledger.Store.AddBalance | main.py:95-98 | Exactly one account moves, by `delta`; a missing row counts as 0; there is no overdraft check; the store stays sound when the new balance is not negative. |
| Ledger.Store.GetBalance | main.py:100-104 | Returns the balance, 0 for a missing row; creates the row; no balance changes. |
| Ledger.Store.EnsureServerRow | main.py:87-89 | Creates a default server row (default currency, no debt, empty treasury) only when it is missing; no treasury changes. |
| Ledger.Store.AddTreasury | main.py:334-335 | Exactly one treasury moves, by `delta`; the currency and debt are untouched. |
| Ledger.Store.SetCooldown | main.py:106-113 | Upserts the key to `now + seconds`; no other key changes. |
| Ledger.CooldownAt | main.py:115-126 | Eligible iff there is no record or `now >= next`; otherwise it reports the positive wait that reaches `next`. |
| Ledger.Store.CheckCooldown | main.py:115-126 | Eligible iff there is no record or `now` has reached the stored time; otherwise the wait is positive. |
| Ledger.CooldownAfterSet | main.py:106-126 | After a set at time t for s seconds, the member is eligible exactly from t+s; no other cooldown changes. |
| Economy.Gift | main.py:271-284 | Each refusal holds iff its guard does (usage, a bot target, a balance below the amount), and no balance moves; on success exactly `amount` moves from author to member and their sum is unchanged; soundness is kept. |
| Economy.Trade | main.py:320-337 | Refused unless privileged; usage for a missing or zero target or a non-positive amount; the amount moves iff the source treasury covers it, and is refused as not enough treasury iff it does not; the pair's sum is unchanged. |
| Economy.Borrow | main.py:339-347 | A usage error records nothing; otherwise a pending loan (lender = the member, borrower = the author) is stored under the next id and no money moves. |
| Economy.AcceptLoan | main.py:350-360 | Only the lender; refused iff the lender's balance is below the amount; otherwise the amount moves lender to borrower and the loan is marked accepted, whatever its status was. |
| Economy.RejectLoan | main.py:362-367 | Only the lender; marks the loan rejected whatever its status was; no money moves. |
| Economy.AcceptLoanTwice | main.py:350-360 | As written, a lender with twice the amount who accepts twice pays the loan twice. |
| Economy.AcceptPendingLoan | main.py:350-360 | Corrected accept: as AcceptLoan, but a loan that is no longer pending is refused with nothing changed. |
| Economy.RejectPendingLoan | main.py:362-367 | Corrected reject: only the lender, and only while the loan is pending; a resolved loan is refused as already resolved, with nothing changed. |
| Economy.AcceptPendingLoanTwice | main.py:350-360 | With the corrected accept, a second accept is refused and the money moves at most once. |
| Wager.Throttle.constructor | main.py:189 | The throttle starts empty. |
| Wager.Throttle.Pass | main.py:499-503 | Lets a wager through iff there is no stamp or at least 5 s have passed; stamps `now` exactly when it lets one through. |
| Wager.TakeThrottledBet | main.py:493-505 | Refusals for a non-positive bet, a low balance or the throttle, each with nothing changed; otherwise it stamps the throttle and debits exactly the bet. |
| Wager.PlayCoin | main.py:482-512 | Refused with nothing moved, as the shared guard says; otherwise the balance nets exactly +bet on a match and -bet otherwise. |
| Wager.WheelTable | main.py:529-536 | The band probabilities sum to 1000 per mille, and each bound is the running total. |
| Wager.LandsInUnique | main.py:537-545 | Every draw selects at most one band. |
| Wager.DrawOfOneFifth | main.py:537-545 | A draw of exactly 0.2 selects the 0x band, since bounds are inclusive. |
| Wager.TopBand | main.py:537-545 | Only draws above 0.98 reach the 10x band. |
| Wager.Spin | main.py:537-545 | The accumulator loop returns the first band whose cumulative bound reaches the draw, and that band's multiplier. |
| Wager.Winnings | main.py:545 | The payout is the bet times the multiplier, rounded down. |
| Wager.PlayWheel | main.py:514-551 | The wheel lands iff the bet is positive and covered by the balance, so no throttle applies. Refusals move nothing. Otherwise the balance nets `Winnings - bet` for the band the draw selects. |
| Dice.DiceTable.constructor | main.py:188 | No sessions. |
| Dice.Start | main.py:404-425 | Each refusal holds iff its guard does (a non-positive bet, a low balance, a busy channel), and nothing changes; otherwise it opens a session with the starter alone and debits exactly the bet. |
| Dice.Join | main.py:428-442 | The entry bet is the one the button remembers, not the current session's. Ignored from another channel; refused, with nothing changed, iff there is no session, the user already joined, or the user's balance is below the entry bet; otherwise it debits exactly the entry bet and appends the user with that stake. |
| Dice.Highest | main.py:469 | The maximum roll: one of the rolls, and no roll exceeds it. |
| Dice.RolledExactly | main.py:470 | The winners are exactly the players whose roll equals the given value, with no repeats. |
| Dice.Sum | main.py:471 | The pot is never negative when no stake is. |
| Dice.SumPositive | main.py:471 | A pot of positive stakes is positive and at least each stake. |
| Dice.SumOfEqualStakes | main.py:471 | When every stake is the bet, the pot is the bet times the number of players. |
| Dice.HighestIsRolled | main.py:469-470 | There is always at least one winner. |
| Dice.SplitRemainder | main.py:472-474 | The total paid is at most the pot, and the unpaid remainder is `pot mod n < n`. |
| Dice.PayEach | main.py:473-474 | Each distinct winner is credited the prize exactly once; nobody else is credited. |
| Dice.Settle | main.py:460-474 | Removes the session; a lone player gets exactly the bet back; otherwise the pot is the sum of the stakes (the bet times the number of players when every stake is the bet), the winners are exactly the top rollers, with no repeats, each gets `pot / |winners|`, and nobody else is paid; the remainder is below the winner count. |
| TicTacToe.FirstComplete | main.py:685-694 | Returns None iff no line is complete; otherwise it returns the mark on the first complete line in scan order. |
| TicTacToe.Winner | main.py:685-694 | Returns None iff none of the eight lines in `Lines` is `Complete` (three equal non-empty marks); a winner is never the empty mark. |
| TicTacToe.LinesAreStraight | main.py:686-690 | The eight checked lines are exactly the rows, columns and diagonals of the grid, each once. |
| TicTacToe.MoveWinsOnlyForMover | main.py:651-667 | A move into an empty cell of an undecided board can only make the mover's mark the winner. |
| TicTacToe.MarkOf | main.py:651 | X exactly for the first player. |
| TicTacToe.Game.constructor | main.py:593-601 | Empty board, X to move, not finished, the given reward. |
| TicTacToe.Game.MakeMove | main.py:640-683 | Once finished it is ignored; a non-player, a move out of turn or a taken cell changes nothing; otherwise the mover's mark goes into one empty cell, and then either the game ends (the reward goes only to the mover, and only on a win) or the turn swaps. |
| TicTacToe.StartTicTacToe | main.py:861-864 | A new game with the first member as X, to move first, and the default reward of 25. |
| TicTacToe.PlayTicTacToe | main.py:553-560 | A usage error iff nobody is mentioned; refused iff the opponent is a bot or the author; otherwise a fresh game opens with the author as X. |
| TicTacToe.Game.Place | main.py:651-683 | The accepted move: it writes the mover's mark; a complete line means the mover won and is credited once; a full board is a draw; otherwise the turn swaps. |
| Cards.RankTextOfLabel | main.py:709-710 | Dropping a label's last two characters yields its rank label. |
| Cards.CardValue | main.py:709-716 | The value read off a card's label is its rank's points: 11 for an ace, 10 for 10/J/Q/K, and the number otherwise. |
| Cards.RankValueOfLabel | main.py:711-716 | Each rank label is worth its rank's points. |
| Cards.Raw | main.py:719 | The raw sum of a hand (aces 11) is between 2 and 11 per card. |
| Cards.Aces | main.py:720 | A hand has at most one ace per card. |
| Cards.HandValue | main.py:718-727 | The hand value is between the all-aces-low total and the raw sum, and is at most 21 unless every ace has been counted as 1. |
| Cards.CardValueByRank | main.py:709-716 | The value read off a label is 11 for an ace, 10 for 10/J/Q/K and the number otherwise; the aces are exactly rank 0. |
| Cards.Demote | main.py:722-725 | Takes whole tens off, at most one per ace, never going below all-aces-low; the result is at most 21 unless every ace was demoted; a demoted value stays above 11, because demotion starts only above 21. |
| Cards.LowTotalIsRawMinusAces | main.py:718-720 | The all-aces-low total is the raw total minus 10 per ace. |
| Cards.HandValueBounds | main.py:718-727 | The hand value lies between the all-aces-low and the raw total; it is at most 21 or equal to the all-aces-low total. |
| Cards.AceKing | main.py:718-727 | [A, K] is worth 21. |
| Cards.AceAceNine | main.py:718-727 | [A, A, 9] is worth 21. |
| Cards.TwoCardHand | main.py:740-741 | Any dealt two-card hand is worth at most 21. |
| Cards.LowTotalPermutation | main.py:706 | A shuffle does not change the deck's all-aces-low total. |
| Cards.OrderedDeckComplete | main.py:699-705 | The built deck has 52 cards, holds every card, and holds none twice. |
| Cards.OrderedDeckLowTotal | main.py:699-705 | The built deck's cards, aces counted 1, add up to 340. |
| Cards.ShuffleFacts | main.py:699-706 | Every shuffle has 52 cards and a low total of 340. |
| Cards.CreateDeck | main.py:699-705 | The nested loops build the deck suit by suit, ace to king. |
| Blackjack.StandPayout | main.py:794-812 | Pays 2×bet on a dealer bust or a higher player total, the bet on a tie, and 0 otherwise. |
| Blackjack.StandNet | main.py:794-812 | After the bet taken, a stand nets +bet, 0 or -bet. |
| Blackjack.NaturalPayout | main.py:835-843 | Pays the bet when the dealer also has 21, otherwise `int(bet*2.5)` (2.5×bet truncated toward zero). |
| Blackjack.NaturalBeatsWin | main.py:840-843 | A natural pays between 2×bet and 2×bet + bet/2. |
| Blackjack.OpeningDeal | main.py:739-741 | The deal from a shuffle loses and duplicates no card. |
| Blackjack.CardsLeft | main.py:786-787 | While the hands are worth less than the deck's total, the deck is not empty, so `pop` never fails. |
| Blackjack.DealToPlayer | main.py:752 | Dealing the top card keeps every card accounted for. |
| Blackjack.DealToDealer | main.py:787 | Dealing the top card keeps every card accounted for. |
| Blackjack.DrawOne | main.py:786-787 | One more draw below 17 extends the dealer's draw relation. |
| Blackjack.Game.constructor | main.py:735-741 | The player gets the last two cards and the dealer the two before them; the game is open and valid. |
| Blackjack.Game.Hit | main.py:745-771 | Non-owner or finished: nothing changes; otherwise the top card goes to the player, and the game ends iff the hand passes 21. |
| Blackjack.Game.DealerPlays | main.py:786-787 | The dealer draws from the top only while below 17 and ends at 17 or more; no card is lost. |
| Blackjack.Game.Finish | main.py:781-812 | Ends the game; the dealer plays out; the owner is credited exactly StandPayout of the final values. |
| Blackjack.Game.Stand | main.py:774-812 | Non-owner or finished: nothing changes; otherwise it ends as Finish says, and the dealer's final value is at least 17. |
| Blackjack.StartGame | main.py:821-845 | A natural 21 ends the game and credits the natural payout; otherwise the game stays open and nothing moves. |
| Blackjack.PlayBlackjack | main.py:562-584 | The shared guard (refusals move nothing); then it debits the bet and deals from `shuffled` as StartGame does, natural iff the player's two cards are worth 21; the net is the natural payout minus the bet, or minus the bet while the game is open. |

## Left out

- Discord transport is not modelled: embeds, buttons and views, `fmt`, the help, ping and bank commands, `GamesMenu` and the economy setup modal.
- The argument parsing of the play command is not modelled: the usage messages, non-numeric bets, and the heads/tails spelling.
- SQLite is not modelled: the tables are maps, and SQL text and `INSERT OR IGNORE` are not modelled.
- The leaderboard, `bloopdaily`, the random-money game and the economy command are not part of this model.
- The poll command and the keep-alive web server are not part of this model.
- Timing and concurrency are not modelled.
  - The join window's `asyncio.sleep` becomes a sequence of `Join` calls followed by `Settle`.
  - Interleaved commands are not modelled.
  - View timeouts are not modelled: a tic-tac-toe game after 120 s, and a blackjack game after 60 s, when the bet is simply lost.
- Randomness (`randint`, `choice`, `shuffle`, `random`) is an input: rolls, face, shuffled deck, and the draw as a fraction.
- Ledger.Store.CheckCooldown: time is whole seconds, so the wait it reports is positive. The source truncates a fractional wait with `int(...)` and can report 0 s while still refusing.
- Wager.Throttle.Pass: time is whole seconds; the sub-second precision of the gamble throttle (main.py:501, 579) is not modelled.
- Wager.Winnings: floating point is not modelled. Neither is the float accumulation of the wheel's probabilities (the bands are exact per-mille integers), nor `int(bet*mult)` rounding for bets too large for a double.
- Blackjack.NaturalPayout: `int(bet*2.5)` is computed exactly, not in floating point.
- Economy.Borrow: SQLite INTEGER is 64 bits wide. A loan of 2^63 or more makes the INSERT at main.py:344 raise, so the source records nothing, while the model records it. The same 64-bit limit on balances and treasuries in `AddBalance` and `AddTreasury` is not modelled either; integers are unbounded.
- The dice session's message id and the embeds listing the rolls are presentation only.

## Findings

| source | as written | input that shows it | evidently intended | confidence | as-written member | corrected member |
|---|---|---|---|---|---|---|
| main.py:350-360 | The accept button checks only that the presser is the lender and that their balance covers the amount, never the loan's status. | A pending loan of 10; the lender has 20 and presses accept twice, the second press sent before the first press's edit (`view=None`, main.py:360) removes the buttons. Both presses succeed: the lender pays 20 and the borrower receives 20. | A loan is resolved once; accepting or rejecting a loan that is no longer pending is refused. | not executed | Economy.AcceptLoanTwice | Economy.AcceptPendingLoanTwice |
