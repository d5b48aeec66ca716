# Memory game: a verified model

This project models the memory-matching game of the `moranguinho` page in
Dafny. The game lives in `script.js`.

- **The deck.** The page deals sixteen face-down cards: eight fruit symbols,
  each twice, shuffled.
- **Clicking cards.** A click turns a card face up. The first click of a pair
  is remembered. The second counts a move and locks the board.
- **Comparing the pair.** Equal symbols mark both cards matched and unlock at
  once. Different symbols stay up until a 600 ms timeout turns them back and
  unlocks.
- **The win.** When no card is left unmatched, the game is won and the timer
  stops.
- **The timer.** It shows the elapsed seconds as `MM:SS`. The start button
  deals a new board, zeroes the counters and restarts the timer. The reset
  button and the dialog's close button click the start button.

The modules, one file each:

- `Deck` (`deck.dfy`) covers the symbol list, the doubling and the shuffle.
  The random source becomes a list of choices.
  - Every choice list deals an ordering of the doubled list.
  - Every ordering is dealt by some choice list.
- `Clock` (`clock.dfy`) covers `format` and a reader for its output.
- `Rules` (`rules.dfy`) gathers everything the handlers read and write into
  one value, `Session`. It writes each handler as a function on it.
  - The page's timers become explicit events. An interval firing is `Tick`,
    and the mismatch timeout is `FireRollback`.
  - The page's interval ids are kept as a count of intervals started plus the
    set of ids cleared. "At most one timer runs" can then be stated.
- `Laws` (`laws.dfy`) states the game's invariant `Inv` and proves every event
  keeps it. It proves what each event does, the win condition, the rollback
  round trip, and the pairing property with its exception (see Findings).
- `Page` (`game.dfy`) holds the class `Game`. Its fields are the module
  variables, and the card buttons are an `array<Card>`.
  - Its methods perform the handlers' steps in place. Each is proved to
    leave `Snapshot()` exactly as its ensures gives, and each handler exactly
    as the matching `Rules` function says.
  - The handlers (`Flip`, `FireRollback`, `Tick`, `Start`, `Deal`, `Reset`,
    `CloseDialog`, `StartClean`) also keep `Valid()`, which is `Inv` of the
    snapshot. So every lemma of `Laws` holds of the page. The step methods
    they call (`Click`, `Compare`, `Show`, `TakeSecond`, and so on) promise
    only the step.

The selected cards are button references, and the model keeps that identity.
A `Pick` records the board a selection was made on. Every start renders a new
board and detaches the old buttons, but keeps `first` and `second`. Writes
through a selection from an earlier board land on a detached button, so they
change nothing on the page, and the model drops them.

The model follows what the code does.

- The start handler (script.js:202-213) does not touch `first`, `second` or
  `lock`, and does not cancel a pending mismatch timeout. It does not clear
  the selection. `Rules.Start` and `Page.Game.Start` keep all of these, and
  `Laws.StartDeals` states it.
- The code enables the reset button only in the start handler (script.js:208).
  Its initial state comes from markup that is not part of this model. The
  model lets reset be clicked at any time. That changes nothing, because reset
  only clicks start (script.js:215), and start can always be clicked.

## Model

| member | source | states |
|---|---|---|
| Deck.MemCards | script.js:109-118 | definition: the eight symbol entries in the page's order; `Deck.MemCardsOnce` and `Deck.IdInjective` state their properties |
| Deck.Id | script.js:110-117 | definition: the `id` text of each symbol entry; `Deck.IdInjective` states that the eight texts are distinct |
| Deck.Emoji | script.js:110-117 | definition: the `emoji` text of each symbol entry, the face drawn on a turned card |
| Deck.Doubled | script.js:142 | definition: the result is twice as long; `Deck.DoubledPositions` and `Deck.DoubledCounts` state what it holds |
| Deck.DoubledPositions | script.js:142 | entry `k` of the list sits at positions `2k` and `2k+1` of the doubled list |
| Deck.Shuffle | script.js:120-122 | definition: the shuffle driven by a choice list, keeping the length; `Deck.ShuffleIsPermutation` and `Deck.ShuffleReachesEveryPermutation` state what it does |
| Deck.MakeDeck | script.js:141-143 | a dealt deck has sixteen cards; `Deck.MakeDeckPairsTokens` and `Deck.MakeDeckDealsExactlyOrderings` give its contents |
| Deck.ShuffleIsPermutation | script.js:120-122 | the shuffle only reorders: the result has the same multiset as its input, for every random source |
| Deck.ShuffleReachesEveryPermutation | script.js:120-122 | every reordering of the input is a possible shuffle result |
| Deck.DoubledCounts | script.js:142 | doubling gives every entry exactly twice as many occurrences |
| Deck.IdInjective | script.js:109-118 | two symbol entries have the same `id` exactly when they are the same entry, so comparing `data-token` texts compares tokens |
| Deck.MemCardsOnce | script.js:109-118 | each of the eight tokens occurs exactly once in the symbol list |
| Deck.MakeDeckPairsTokens | script.js:109-143 | every dealt deck holds each of the eight tokens exactly twice |
| Deck.MakeDeckDealsExactlyOrderings | script.js:141-143 | the decks that can be dealt are exactly the orderings of the doubled symbol list |
| Clock.Decimal | script.js:125-126 | the decimal text of a count is non-empty and all digits |
| Clock.DecimalValue | script.js:125-126 | the decimal text denotes the count and has no leading zero |
| Clock.PadStart2 | script.js:125-126 | the padded text is two characters long, or as long as a longer input; `Clock.PadKeepsLonger` states that a longer input is returned unchanged, and `Clock.PadKeepsValue` states that the digits and the number are kept |
| Clock.PadKeepsLonger | script.js:125-126 | a text of two or more characters is returned unchanged by the padding |
| Clock.PadKeepsValue | script.js:125-126 | zero-padding to two characters keeps the digits and the number |
| Clock.Format | script.js:124-128 | definition; `Clock.FormatFields`, `Clock.FormatRoundTrip` and `Clock.FormatInjective` state its properties |
| Clock.FormatFields | script.js:124-128 | the text is at least two minute digits, a colon, and two second digits below 60; minutes times 60 plus seconds is the count |
| Clock.FormatRoundTrip | script.js:124-128 | reading back the timer text gives the count it was made from |
| Clock.FormatInjective | script.js:124-128 | two counts show the same text exactly when they are equal |
| Clock.FormatExamples | script.js:124-128 | `format(0)` is "00:00", the text the start handler writes (script.js:207); 59, 61 and 6000 seconds give "00:59", "01:01" and "100:00" |
| Rules.Initial | script.js:100-106 | definition: the page as loaded; `Laws.InitialInv` states its properties |
| Rules.Flip | script.js:158-188 | definition of a click; `Laws.FlipIgnored`, `Laws.FlipFirst`, `Laws.FlipSecond`, `Laws.FlipChangesOnlyPair`, `Laws.FlipKeepsInv` and `Laws.WinCondition` state what it does |
| Rules.Compare | script.js:174-187 | definition of the comparison and win check; `Laws.CompareOutcome` and `Laws.CompareKeepsInv` state what it does |
| Rules.MarkMatched | script.js:175-176 | definition: sets the matched flag of a card picked on the current board; used through `Laws.ComparePairs` |
| Rules.Hide | script.js:180-181 | definition: turns a card picked on the current board face down; used through `Laws.RollbackCards` |
| Rules.ResetPair | script.js:190-194 | definition: forgets both selections and releases the lock; `Laws.FlipSecond` and `Laws.OtherEventsKeepPairs` state its effect |
| Rules.StopTimer | script.js:137-139 | definition: clears the interval `timerId` names; `Laws.WinCondition` states that no interval runs after a win |
| Rules.StartTimer | script.js:130-135 | definition: starts a new interval and stores its id; `Laws.StartDeals` states that exactly it runs |
| Rules.WinGame | script.js:196-200 | definition: stops the timer; `Laws.CompareOutcome` and `Laws.WinCondition` tie it to the win |
| Rules.FireRollback | script.js:179-183 | definition of the mismatch timeout; `Laws.RollbackCards`, `Laws.MismatchRollsBack` and `Laws.FireRollbackKeepsInv` state what it does |
| Rules.Tick | script.js:131-134 | definition of an interval firing; `Laws.TickShowsElapsed` and `Laws.TickKeepsInv` state what it does |
| Rules.Start | script.js:202-213 | definition of the start handler as written; `Laws.StartDeals`, `Laws.StartKeepsInv` and `Laws.StartKeepsStaleSelection` state what it does |
| Rules.Reset | script.js:215 | reset is start: zeroed counters, reset enabled, the given deck |
| Rules.StartClean | script.js:202-213 | definition of the corrected start handler; `Laws.StartCleanKeepsInv` and `Laws.StartCleanKeepsPairs` state what it does |
| Rules.CountUnmatched | script.js:186 | the number of unmatched cards is at most the number of cards, and is zero exactly when every card is matched |
| Rules.Tokens | script.js:147 | the tokens of the cards, position by position |
| Rules.FreshCards | script.js:145-151 | a rendered board has one face-down, unmatched card per deck entry, in deck order |
| Laws.InitialInv | script.js:100-106 | the page as loaded satisfies the invariant and runs no timer |
| Laws.FlipIgnored | script.js:159 | a click while locked, or on a face-up or matched card, changes nothing and does not win |
| Laws.FlipFirst | script.js:161-166 | the first click of a pair turns the card up and selects it, counts no move and takes no lock |
| Laws.FlipSecond | script.js:168-194 | the second click counts exactly one move and shows it; equal tokens match both cards and release the pair and the lock at once; different tokens keep the lock and schedule the rollback |
| Laws.FlipKeepsRest | script.js:158-188 | a click leaves the deck, the board, the elapsed seconds and their text, the reset button, the interval count and `timerId` alone, and clears the running interval exactly when it wins |
| Laws.CompareKeepsRest | script.js:174-187 | comparing two selections leaves the deck, the board, the clock, the reset button and the interval ids alone, and clears the running interval exactly when the game is won |
| Laws.FlipKeepsMatched | script.js:159-176 | a click never changes a matched card |
| Laws.FlipChangesOnlyPair | script.js:158-188 | a click changes no card but the clicked one and the first selection's card of the current board |
| Laws.CompareChangesOnlyPair | script.js:168-187 | a click that completes a pair changes no card but the two selected ones |
| Laws.SettledFrame | script.js:174-177 | settling a match changes no card that is not selected on the current board |
| Laws.FlipKeepsInv | script.js:158-194 | a click keeps the invariant: at most the selected cards are face up and unmatched, a matched card is face up, the lock is held exactly while the rollback is pending, one interval at most runs, the texts show the counters |
| Laws.CompareKeepsInv | script.js:174-187 | comparing a completed pair keeps the invariant |
| Laws.CompareOutcome | script.js:174-187 | the comparison settles the pair: it matches and releases equal tokens, and schedules the rollback otherwise. It reports a win exactly when no settled card is unmatched, and stops the timer exactly then. A mismatch handed over by a click never wins and leaves the state otherwise as it was |
| Laws.RollbackCards | script.js:179-183 | the mismatch timeout turns exactly the selected cards of the current board face down and changes no other card |
| Laws.FireRollbackKeepsInv | script.js:179-194 | the mismatch timeout keeps the invariant |
| Laws.TickKeepsInv | script.js:131-134 | an interval firing keeps the invariant |
| Laws.StartKeepsInv | script.js:202-213 | the start handler keeps the invariant |
| Laws.AtMostTwoExposed | script.js:159-172 | at most two cards are face up and unmatched, and two only while the board is locked |
| Laws.MismatchRollsBack | script.js:158-194 | two clicks on different tokens followed by the timeout restore every card, clear the selection and the lock, and count one move |
| Laws.WinCondition | script.js:186-200 | a click wins exactly when it completes a pair and leaves every card matched; a win always follows equal tokens, and afterwards no interval runs, so the clock no longer moves |
| Laws.TimerShowsElapsed | script.js:124-134 | the timer text reads back as the elapsed seconds |
| Laws.FireRollbackKeepsRest | script.js:179-183 | the mismatch timeout leaves the moves and their text, the clock and its text, the deck, the board, the reset button and the intervals as they were |
| Laws.TickKeepsRest | script.js:131-134 | an interval firing leaves the cards, the moves and their text, the selections, the lock, the pending timeout, the deck, the board and the intervals as they were |
| Laws.TickShowsElapsed | script.js:131-134 | an interval firing counts one second and the timer text reads back as the new count |
| Laws.StartDeals | script.js:202-213 | start deals the given deck face down on a new board, zeroes the moves and seconds and shows "00:00", enables reset, leaves exactly one running interval (a new one), and keeps the selections, the lock and a pending rollback |
| Laws.MatchedCountUpdate | script.js:175-176 | changing one card changes the matched count of a token only by that card |
| Laws.AllMatchedCount | script.js:186-187 | when every card is matched, each token's matched count is its number of cards |
| Laws.OddMatchedBlocksWin | script.js:186-187 | a token matched an odd number of times, in a deck holding it an even number of times, leaves a card unmatched |
| Laws.ComparePairs | script.js:174-176 | comparing two cards of the current board adds exactly two matched cards of their token on a match and none otherwise |
| Laws.CompareKeepsParity | script.js:174-176 | that comparison keeps every token's matched count even or odd as it was |
| Laws.CleanFlipKeepsPairs | script.js:158-188 | with no selection from an earlier board, a click keeps it so and keeps the parity of every token's matched count |
| Laws.OtherEventsKeepPairs | script.js:131-194 | the timeout clears both selections, releases the lock and ends the pending rollback. It changes no matched card and no token's matched count. An interval firing changes no card |
| Laws.StartKeepsStaleSelection | script.js:202-213 | start keeps a first selection made on the previous board, unlocked, while the new board holds a face-down card with its token |
| Laws.StaleSelectionMatchesOneCard | script.js:163-213 | clicking such a card after start counts a move and matches that card alone; its token's matched count becomes odd, so this board can no longer be won |
| Laws.StaleSettled | script.js:168-177 | with a stale first selection, a click on an unflipped card of the same token goes to the comparison; matching then marks only the clicked card, releases the selections and adds one to that token's matched count |
| Laws.StaleMatchedOdd | script.js:174-187 | after that comparison the token's matched count is odd and at least one card is still unmatched |
| Laws.OneMoreMatchedBlocksWin | script.js:185-186 | one matched card more than an even count of its token, in a deck with an even number of that token, leaves the count odd and a card unmatched, so `remaining` is not empty |
| Laws.StaleCompared | script.js:168-187 | that click returns the settled state and does not end the game |
| Laws.StaleClickLeavesUnwinnable | script.js:163-213 | after that click the board is unwinnable: the invariant holds, no selection is stale, and the token has an odd matched count in a deck that holds it an even number of times |
| Laws.FlipStaysUnwinnable | script.js:158-188 | on an unwinnable board no click wins, and every click leaves the board unwinnable |
| Laws.OtherEventsStayUnwinnable | script.js:131-194 | the mismatch timeout and an interval firing leave an unwinnable board unwinnable |
| Laws.StartCleanKeepsPairs | script.js:202-213 | the corrected start deals as start does: the given deck on a fresh board with no matched card, zeroed counters, a timer text reading 0, the reset button enabled, and exactly one live interval, a new one; it also leaves no selection, no lock and no pending rollback |
| Laws.StartCleanKeepsInv | script.js:202-213 | the corrected start keeps the invariant |
| Page.Game.constructor | script.js:100-106 | the page as loaded: no cards, nothing selected, no timer, counters at zero |
| Page.Game.CountRemaining | script.js:186 | counts the cards not matched, zero exactly when all are matched |
| Page.Game.Flip | script.js:158-188 | a click updates the page exactly as `Rules.Flip` and keeps the invariant |
| Page.Game.Click | script.js:158-188 | the click handler's steps in place, equal to `Rules.Flip` |
| Page.Game.Compare | script.js:174-187 | the comparison and win check in place, equal to `Rules.Compare` |
| Page.Game.MarkMatched | script.js:175-176 | sets the matched flag of a selected card of the current board |
| Page.Game.Hide | script.js:180-181 | turns a selected card of the current board face down |
| Page.Game.ResetPair | script.js:190-194 | forgets both selections and releases the lock |
| Page.Game.WinGame | script.js:196-200 | stops the timer |
| Page.Game.StopTimer | script.js:137-139 | clears the interval `timerId` names |
| Page.Game.StartTimer | script.js:130-135 | starts a new interval and stores its id |
| Page.Game.Show | script.js:161 | turns the clicked card face up and changes nothing else |
| Page.Game.TakeSecond | script.js:168-172 | records the second selection, counts one move, shows it and locks the board |
| Page.Game.ZeroCounters | script.js:203-208 | stores the deck, zeroes the moves and seconds and their texts, and enables reset |
| Page.Game.Deal | script.js:202-213 | the start handler with a given deck, equal to `Rules.Start`, keeping the invariant |
| Page.Game.FireRollback | script.js:179-183 | the mismatch timeout in place, equal to `Rules.FireRollback`, keeping the invariant |
| Page.Game.Tick | script.js:131-134 | an interval firing in place, equal to `Rules.Tick`, keeping the invariant |
| Page.Game.RenderBoard | script.js:145-156 | a new array of face-down, unmatched cards for the deck on a new board |
| Page.Game.Start | script.js:202-213 | the start handler in place, equal to `Rules.Start` with the deck `makeDeck` dealt, keeping the invariant |
| Page.Game.Reset | script.js:215 | the reset button does what the start button does |
| Page.Game.CloseDialog | script.js:217-220 | the dialog's close button does what the start button does |
| Page.Game.StartClean | script.js:202-213 | the corrected start handler in place, equal to `Rules.StartClean`, keeping the invariant |

## Left out

- Theme toggling, `localStorage` and the mobile menu (script.js:4-42) are
  browser storage and markup with no game logic.
- `renderCharacters` and `renderGallery` (script.js:47-83) are static
  templating.
- The HTML text and listener wiring of `renderBoard` (script.js:145-156) are
  left out. Only the new cards and their state are kept.
- `Deck.Shuffle` covers `Math.random` and the sorting comparator
  (script.js:121) only as an arbitrary choice list. The distribution and the
  bias of a random comparator are not modelled. Every permutation is
  reachable, and nothing is said about how likely each one is.
- Real time is not modelled. `setInterval` and `setTimeout` become the events
  `Tick` and `FireRollback`, which the environment may fire in any order a
  precondition allows.
- The win dialog's text and its `aria-hidden` attribute (script.js:198-199,
  218) are not modelled. `Page.Game.CloseDialog` keeps only the restart.
- The `running` variable (script.js:107) and the best-score element
  (script.js:92) never influence the game and are not modelled.
- The symbol entries are kept as the eight values of `Deck.Token`, with their
  `id` and emoji texts as functions.
- The page markup is not part of this model. The initial texts of the move
  counter ("0") and the timer ("00:00") and the reset button's initial
  disabled state come from it, so they are assumed.
- Writes through a selection from an earlier board land on detached buttons
  that are never shown or read again. The model drops them.
- Integers are unbounded. The page's numbers never come near the limits of a
  JavaScript number.

## Findings

| source | as written | input that shows it | evidently intended | confidence | as-written member | corrected member |
|---|---|---|---|---|---|---|
| script.js:202-213 | the start handler keeps `first`, `second`, `lock` and a pending mismatch timeout from the previous board | click one card, press start, then click a card with the same symbol on the new board: it is compared with the old, detached card, counted as a move and marked matched alone, so its symbol ends with an odd number of matched cards and the board can never be won | start forgets the selection, releases the lock and cancels the timeout, so matched cards always come in pairs | not executed | Laws.StaleSelectionMatchesOneCard | Rules.StartClean |

`Laws.StartKeepsStaleSelection` shows that start leaves the stale selection
in place. `Laws.StaleSelectionMatchesOneCard` shows the click that then
breaks the pairing. `Laws.StaleClickLeavesUnwinnable` shows the board is then
unwinnable. `Laws.FlipStaysUnwinnable` and `Laws.OtherEventsStayUnwinnable`
show it stays unwinnable until the next start: no click wins, and no event
makes the board winnable again.

With the corrected `Rules.StartClean` (in place: `Page.Game.StartClean`),
every token keeps an even matched count:

- `Laws.StartCleanKeepsPairs` covers the start;
- `Laws.CleanFlipKeepsPairs` covers the clicks;
- `Laws.OtherEventsKeepPairs` covers the timeout and the ticks.
