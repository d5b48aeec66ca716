/** The memory game as a function from the page's state and an event to the
    next state. The page keeps this state in module variables and in the
    `data-state` / `data-matched` attributes of the card buttons; `Session`
    gathers all of it into one value, and each event handler becomes a
    function on it. The `Game` class in module `Page` performs the same steps
    in place and is proved to agree with these functions.

    Card identity. The page keeps the two selected cards as references to
    button elements. Every start renders a new board and detaches the old
    buttons, but it does not forget `first` and `second`, so they can go on
    naming buttons that are no longer on the page. A `Pick` records the board
    a selection was made on (`board` counts the boards rendered so far); a
    write through a pick of an earlier board lands on a detached button,
    which is never shown or read again, so the model drops it. */
module Rules {
  import opened Deck
  import opened Clock

  /** One card button: its token, whether it is face up (`data-state` is
      "flipped") and whether `data-matched` is set. */
  datatype Card = Card(token: Token, flipped: bool, matched: bool)

  /** A reference to a card button: the board it was rendered on, its
      position there and its `data-token`. */
  datatype Pick = Pick(board: nat, index: nat, token: Token)

  /** Everything the game handlers read or write.
      - `intervals` counts the intervals ever started (their ids are
        1..intervals), `cleared` holds the ids passed to `clearInterval`, and
        `timerId` is the id the page last stored (0 while it is still null);
      - `rollbackPending` is set while the 600 ms mismatch timeout has been
        scheduled and has not fired;
      - `movesText` and `timerText` are the texts of the move counter and of
        the timer, `resetEnabled` is the reset button's enabled state. */
  datatype Session = Session(
    deck: seq<Token>,
    cards: seq<Card>,
    board: nat,
    first: Option<Pick>,
    second: Option<Pick>,
    lock: bool,
    moves: nat,
    elapsed: nat,
    rollbackPending: bool,
    intervals: nat,
    cleared: set<nat>,
    timerId: nat,
    movesText: string,
    timerText: string,
    resetEnabled: bool)

  /** The page before the first start: no cards, nothing selected, no timer. */
  function Initial(): Session
  {
    Session([], [], 0, None, None, false, 0, 0, false, 0, {}, 0, Decimal(0), Format(0), false)
  }

  // ---------------------------------------------------------------------
  // Counting cards

  /** How many cards are not matched: the length of the page's `remaining`. */
  function CountUnmatched(cs: seq<Card>): (n: nat)
    ensures n <= |cs|
    ensures n == 0 <==> forall k :: 0 <= k < |cs| ==> cs[k].matched
  {
    if cs == [] then 0
    else
      assert forall k :: 1 <= k < |cs| ==> cs[k] == cs[1..][k - 1];
      (if cs[0].matched then 0 else 1) + CountUnmatched(cs[1..])
  }

  /** How many matched cards carry token `t`. */
  function MatchedCount(cs: seq<Card>, t: Token): nat
  {
    if cs == [] then 0
    else (if cs[0].matched && cs[0].token == t then 1 else 0) + MatchedCount(cs[1..], t)
  }

  /** The tokens of the cards, in board order. */
  function Tokens(cs: seq<Card>): (ts: seq<Token>)
    ensures |ts| == |cs|
    ensures forall k :: 0 <= k < |cs| ==> ts[k] == cs[k].token
  {
    if cs == [] then [] else [cs[0].token] + Tokens(cs[1..])
  }

  /** The freshly rendered board for a deck: every card face down and unmatched. */
  function FreshCards(deck: seq<Token>): (cs: seq<Card>)
    ensures |cs| == |deck|
    ensures forall k :: 0 <= k < |deck| ==> cs[k] == Card(deck[k], false, false)
  {
    seq(|deck|, k requires 0 <= k < |deck| => Card(deck[k], false, false))
  }

  // ---------------------------------------------------------------------
  // Small steps shared by the handlers

  /** Whether a pick names a button of the board now on the page. */
  predicate Current(s: Session, p: Option<Pick>)
  {
    p.Some? && p.value.board == s.board
  }

  /** Sets `data-matched` on the picked button. */
  function MarkMatched(s: Session, p: Pick): Session
  {
    if p.board == s.board && p.index < |s.cards|
    then s.(cards := s.cards[p.index := s.cards[p.index].(matched := true)])
    else s
  }

  /** Clears `data-state` on the picked button, turning it face down. */
  function Hide(s: Session, p: Pick): Session
  {
    if p.board == s.board && p.index < |s.cards|
    then s.(cards := s.cards[p.index := s.cards[p.index].(flipped := false)])
    else s
  }

  /** `resetPair`: forgets both selections and releases the lock. */
  function ResetPair(s: Session): Session
  {
    s.(first := None, second := None, lock := false)
  }

  /** Whether interval `id` is still running. */
  predicate Live(s: Session, id: nat)
  {
    1 <= id <= s.intervals && id !in s.cleared
  }

  /** `stopTimer`: clears the interval `timerId` names (nothing, while it is null). */
  function StopTimer(s: Session): Session
  {
    s.(cleared := s.cleared + {s.timerId})
  }

  /** `startTimer`: starts a new interval and keeps its id in `timerId`. */
  function StartTimer(s: Session): Session
  {
    s.(intervals := s.intervals + 1, timerId := s.intervals + 1)
  }

  /** `winGame`, without the dialog: stops the timer. */
  function WinGame(s: Session): Session
  {
    StopTimer(s)
  }

  // ---------------------------------------------------------------------
  // The event handlers

  /** A click on card `i` of the board on the page; the flag says whether
      the click ended the game. */
  function Flip(s: Session, i: nat): (Session, bool)
    requires i < |s.cards|
  {
    if s.lock || s.cards[i].flipped then (s, false)
    else
      var p := Pick(s.board, i, s.cards[i].token);
      var shown := s.(cards := s.cards[i := s.cards[i].(flipped := true)]);
      if s.first.None? then (shown.(first := Some(p)), false)
      else Compare(shown.(second := Some(p), moves := s.moves + 1,
                          movesText := Decimal(s.moves + 1), lock := true))
  }

  /** The second half of a click that completes a pair: equal tokens mark
      both cards matched and release the pair at once, different tokens
      schedule the rollback; then, if no card is left unmatched, the game is
      won. */
  function Compare(s: Session): (Session, bool)
    requires s.first.Some? && s.second.Some?
  {
    var settled :=
      if s.first.value.token == s.second.value.token
      then ResetPair(MarkMatched(MarkMatched(s, s.first.value), s.second.value))
      else s.(rollbackPending := true);
    if CountUnmatched(settled.cards) == 0 then (WinGame(settled), true) else (settled, false)
  }

  /** The 600 ms timeout scheduled by a mismatch: turns both selected cards
      face down and releases the lock. */
  function FireRollback(s: Session): Session
    requires s.rollbackPending && s.first.Some? && s.second.Some?
  {
    ResetPair(Hide(Hide(s, s.first.value), s.second.value).(rollbackPending := false))
  }

  /** One firing of the running interval `id`: a second more on the clock. */
  function Tick(s: Session, id: nat): Session
    requires Live(s, id)
  {
    s.(elapsed := s.elapsed + 1, timerText := Format(s.elapsed + 1))
  }

  /** The start button, exactly as the page handles it, given the deck that
      `makeDeck` dealt (see `Deck.MakeDeck`): the new deck, the counters and
      their texts zeroed, the reset button enabled, a new board, and the
      timer restarted. The selections, the lock and a pending rollback are
      left as they were. */
  function Start(s: Session, deck: seq<Token>): Session
  {
    var zeroed := s.(deck := deck, moves := 0, elapsed := 0, movesText := "0",
                     timerText := "00:00", resetEnabled := true);
    var rendered := zeroed.(board := s.board + 1, cards := FreshCards(deck));
    StartTimer(StopTimer(rendered))
  }

  /** The reset button clicks the start button. */
  function Reset(s: Session, deck: seq<Token>): (r: Session)
    ensures r.moves == 0 && r.elapsed == 0 && r.resetEnabled && r.deck == deck
  {
    Start(s, deck)
  }

  /** The start handler as evidently intended: it also forgets both
      selections, releases the lock and cancels a pending rollback. */
  function StartClean(s: Session, deck: seq<Token>): Session
  {
    ResetPair(Start(s, deck)).(rollbackPending := false)
  }
}
