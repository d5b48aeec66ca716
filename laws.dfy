/** What the game's handlers promise, proved about the functions of `Rules`:
    the invariant every handler keeps, what a click does in each case, the
    rollback that undoes a mismatch, the win condition, the timer, and the
    pairing of matched cards that the start handler can break. */
module Laws {
  import opened Deck
  import opened Clock
  import opened Rules

  // ---------------------------------------------------------------------
  // The invariant

  /** A card that is face up but not matched. */
  ghost predicate Exposed(c: Card)
  {
    c.flipped && !c.matched
  }

  /** Whether card `k` of the board on the page is one of the current selections. */
  ghost predicate Selected(s: Session, k: nat)
  {
    (Current(s, s.first) && s.first.value.index == k)
    || (Current(s, s.second) && s.second.value.index == k)
  }

  /** A pick names a board already rendered; on the board on the page it
      names a card that exists and carries the pick's token. */
  ghost predicate PickOk(s: Session, p: Option<Pick>)
  {
    p.Some? ==>
      p.value.board <= s.board
      && (p.value.board == s.board ==>
            p.value.index < |s.cards| && s.cards[p.value.index].token == p.value.token)
  }

  /** The board shows the deck, and a matched card stays face up. */
  ghost predicate CardsOk(s: Session)
  {
    |s.cards| == |s.deck|
    && forall k :: 0 <= k < |s.cards| ==>
         s.cards[k].token == s.deck[k] && (s.cards[k].matched ==> s.cards[k].flipped)
  }

  /** A second selection only follows a first; the lock is held exactly while
      a second selection exists, and that is exactly while a rollback is
      pending, which happens only for two different tokens; the cards face up
      and unmatched are exactly the selected cards of the board on the page. */
  ghost predicate SelectionOk(s: Session)
  {
    && PickOk(s, s.first) && PickOk(s, s.second)
    && (s.second.Some? ==> s.first.Some?)
    && (s.lock <==> s.second.Some?)
    && (s.rollbackPending <==> s.lock)
    && (s.rollbackPending ==> s.first.value.token != s.second.value.token)
    && (Current(s, s.first) && Current(s, s.second) ==> s.first.value.index != s.second.value.index)
    && (forall k :: 0 <= k < |s.cards| ==> (Exposed(s.cards[k]) <==> Selected(s, k)))
  }

  /** At most one interval runs, the one `timerId` names. */
  ghost predicate TimerOk(s: Session)
  {
    s.timerId <= s.intervals
    && (forall id :: id in s.cleared ==> id <= s.intervals)
    && (forall id :: 1 <= id <= s.intervals && id !in s.cleared ==> id == s.timerId)
  }

  /** The counter and the timer show the move count and the elapsed time. */
  ghost predicate TextsOk(s: Session)
  {
    s.movesText == Decimal(s.moves) && s.timerText == Format(s.elapsed)
  }

  ghost predicate Inv(s: Session)
  {
    CardsOk(s) && SelectionOk(s) && TimerOk(s) && TextsOk(s)
  }

  lemma InitialInv()
    ensures Inv(Initial())
    ensures forall id :: !Live(Initial(), id)
  {
  }

  // ---------------------------------------------------------------------
  // Clicks

  /** Whether a click on card `i` is taken at all: the board is not locked
      and the card is face down. */
  ghost predicate Takes(s: Session, i: nat)
    requires i < |s.cards|
  {
    !s.lock && !s.cards[i].flipped
  }

  /** Whether a taken click is the second of a pair and so compares two cards. */
  ghost predicate Compares(s: Session, i: nat)
    requires i < |s.cards|
  {
    Takes(s, i) && s.first.Some?
  }

  /** A click while the board is locked, or on a card already face up (which
      includes every matched card), changes nothing. */
  lemma FlipIgnored(s: Session, i: nat)
    requires Inv(s) && i < |s.cards|
    requires s.lock || s.cards[i].flipped || s.cards[i].matched
    ensures Flip(s, i) == (s, false)
  {
  }

  /** The first click of a pair turns the card face up and selects it; it
      counts no move and takes no lock. */
  lemma FlipFirst(s: Session, i: nat)
    requires Inv(s) && i < |s.cards| && Takes(s, i) && s.first.None?
    ensures var (r, won) := Flip(s, i);
      && r.cards == s.cards[i := Card(s.cards[i].token, true, false)]
      && r.first == Some(Pick(s.board, i, s.cards[i].token)) && r.second.None?
      && r.moves == s.moves && !r.lock && !won
  {
  }

  /** A click touches only the cards, the selections, the lock, the move
      count and its text, and the pending timeout; a winning click also
      clears the running interval. */
  lemma FlipKeepsRest(s: Session, i: nat)
    requires i < |s.cards|
    ensures var (r, won) := Flip(s, i);
      && r.deck == s.deck && r.board == s.board && r.elapsed == s.elapsed
      && r.timerText == s.timerText && r.resetEnabled == s.resetEnabled
      && r.intervals == s.intervals && r.timerId == s.timerId
      && r.cleared == if won then s.cleared + {s.timerId} else s.cleared
  {
    if Compares(s, i) {
      var c := Compared(s, i);
      assert Flip(s, i) == Compare(c);
      CompareKeepsRest(c);
    }
  }

  /** The comparison changes only the cards, the selections, the lock and
      the pending timeout, and clears the running interval when it wins. */
  lemma CompareKeepsRest(c: Session)
    requires c.first.Some? && c.second.Some?
    ensures var (r, won) := Compare(c);
      && r.deck == c.deck && r.board == c.board && r.elapsed == c.elapsed
      && r.timerText == c.timerText && r.resetEnabled == c.resetEnabled
      && r.intervals == c.intervals && r.timerId == c.timerId
      && r.cleared == if won then c.cleared + {c.timerId} else c.cleared
  {
    var settled := if c.first.value.token == c.second.value.token
                   then Settled(c) else c.(rollbackPending := true);
    assert settled.deck == c.deck && settled.board == c.board && settled.elapsed == c.elapsed
      && settled.timerText == c.timerText && settled.resetEnabled == c.resetEnabled
      && settled.intervals == c.intervals && settled.timerId == c.timerId
      && settled.cleared == c.cleared;
    assert Compare(c) == if CountUnmatched(settled.cards) == 0 then (WinGame(settled), true) else (settled, false);
  }

  /** The state a click that completes a pair hands to `Compare`: the
      clicked card face up and selected second, one more move counted and
      shown, and the board locked. */
  ghost function Compared(s: Session, i: nat): Session
    requires i < |s.cards|
  {
    s.(cards := s.cards[i := s.cards[i].(flipped := true)],
       second := Some(Pick(s.board, i, s.cards[i].token)),
       moves := s.moves + 1, movesText := Decimal(s.moves + 1), lock := true)
  }

  /** The state after two cards with equal tokens are compared, before the
      win check. */
  ghost function Settled(c: Session): Session
    requires c.first.Some? && c.second.Some?
  {
    ResetPair(MarkMatched(MarkMatched(c, c.first.value), c.second.value))
  }

  /** The second click of a pair counts exactly one move. When the two tokens
      are equal both cards become matched and the selections and the lock are
      released at once; when they differ the lock is kept and a rollback is
      pending. */
  lemma FlipSecond(s: Session, i: nat)
    requires Inv(s) && i < |s.cards| && Compares(s, i)
    ensures var (r, won) := Flip(s, i);
      && r.moves == s.moves + 1 && r.movesText == Decimal(s.moves + 1)
      && r.cards[i] == Card(s.cards[i].token, true, s.first.value.token == s.cards[i].token)
      && (s.first.value.token == s.cards[i].token ==>
            !r.lock && r.first.None? && r.second.None? && !r.rollbackPending
            && (Current(s, s.first) ==> r.cards[s.first.value.index].matched))
      && (s.first.value.token != s.cards[i].token ==>
            r.lock && r.rollbackPending && r.first == s.first
            && r.second == Some(Pick(s.board, i, s.cards[i].token)) && !won)
  {
    var t := s.cards[i].token;
    var c := Compared(s, i);
    assert Flip(s, i) == Compare(c);
    if s.first.value.token == t {
      var settled := Settled(c);
      if Current(s, s.first) {
        assert Selected(s, s.first.value.index);
        assert settled.cards[s.first.value.index].matched;
      }
      assert settled.cards[i] == Card(t, true, true);
      assert Compare(c).0 == settled || Compare(c).0 == WinGame(settled);
    } else {
      var settled := c.(rollbackPending := true);
      assert settled.cards[i] == Card(t, true, false);
      assert CountUnmatched(settled.cards) != 0;
      assert Compare(c) == (settled, false);
    }
  }

  /** Settling a match changes only the two selected cards, and a stale
      first selection not even that one. */
  lemma SettledFrame(c: Session)
    requires c.first.Some? && c.second.Some?
    ensures |Settled(c).cards| == |c.cards|
    ensures forall k :: 0 <= k < |c.cards| && !Selected(c, k) ==> Settled(c).cards[k] == c.cards[k]
  {
  }

  /** A click that completes a pair changes at most the two selected cards. */
  lemma CompareChangesOnlyPair(s: Session, i: nat)
    requires Inv(s) && i < |s.cards| && Compares(s, i)
    ensures var r := Flip(s, i).0;
      |r.cards| == |s.cards|
      && forall k :: 0 <= k < |s.cards| && k != i && !(Current(s, s.first) && k == s.first.value.index) ==>
           r.cards[k] == s.cards[k]
  {
    var c := Compared(s, i);
    assert Flip(s, i) == Compare(c);
    CompareOutcome(c);
    SettledFrame(c);
  }

  /** A click changes at most the clicked card and the card of the first
      selection, when that is on the board on the page. */
  lemma FlipChangesOnlyPair(s: Session, i: nat)
    requires Inv(s) && i < |s.cards|
    ensures var r := Flip(s, i).0;
      |r.cards| == |s.cards|
      && forall k :: 0 <= k < |s.cards| && k != i && !(Current(s, s.first) && k == s.first.value.index) ==>
           r.cards[k] == s.cards[k]
  {
    if Compares(s, i) {
      CompareChangesOnlyPair(s, i);
    } else if Takes(s, i) {
      assert Flip(s, i).0.cards == s.cards[i := s.cards[i].(flipped := true)];
    }
  }

  /** A click never changes a matched card. */
  lemma FlipKeepsMatched(s: Session, i: nat)
    requires Inv(s) && i < |s.cards|
    ensures var r := Flip(s, i).0;
      |r.cards| == |s.cards|
      && forall k :: 0 <= k < |s.cards| && s.cards[k].matched ==> r.cards[k] == s.cards[k]
  {
    FlipChangesOnlyPair(s, i);
    if Takes(s, i) {
      assert !s.cards[i].matched;
      if Current(s, s.first) {
        assert Selected(s, s.first.value.index);
        assert !s.cards[s.first.value.index].matched;
      }
    }
  }

  // ---------------------------------------------------------------------
  // The invariant is kept

  /** Changing one card, without changing its token and keeping a matched
      card face up, keeps the board showing the deck. */
  lemma CardsUpdate(s: Session, r: Session, k: nat, c: Card)
    requires CardsOk(s) && k < |s.cards|
    requires r.deck == s.deck && r.cards == s.cards[k := c]
    requires c.token == s.cards[k].token && (c.matched ==> c.flipped)
    ensures CardsOk(r)
  {
  }

  /** A state with nothing selected, no lock and no card face up and
      unmatched keeps the selection part of the invariant. */
  lemma QuietSelection(r: Session)
    requires r.first.None? && r.second.None? && !r.lock && !r.rollbackPending
    requires forall k :: 0 <= k < |r.cards| ==> !Exposed(r.cards[k])
    ensures SelectionOk(r)
  {
  }

  lemma FirstPickKeepsInv(s: Session, i: nat)
    requires Inv(s) && i < |s.cards| && Takes(s, i) && s.first.None?
    ensures Inv(Flip(s, i).0)
  {
    var c := s.cards[i];
    var r := s.(cards := s.cards[i := c.(flipped := true)], first := Some(Pick(s.board, i, c.token)));
    assert Flip(s, i).0 == r;
    assert !Selected(s, i);
    CardsUpdate(s, r, i, c.(flipped := true));
    assert forall k :: 0 <= k < |r.cards| ==> (Selected(r, k) <==> k == i);
  }

  /** What `Compare` returns, by the outcome of the comparison: the settled
      state, with the timer stopped exactly when the flag says the game is
      won, and won exactly when no settled card is unmatched. A comparison of
      two different tokens handed over by a click never wins. */
  lemma CompareOutcome(c: Session)
    requires c.first.Some? && c.second.Some?
    ensures var settled := if c.first.value.token == c.second.value.token
                           then Settled(c) else c.(rollbackPending := true);
      && (Compare(c).1 <==> forall k :: 0 <= k < |settled.cards| ==> settled.cards[k].matched)
      && (Compare(c).1 ==> Compare(c).0 == WinGame(settled))
      && (!Compare(c).1 ==> Compare(c).0 == settled)
    ensures Comparing(c) && c.first.value.token != c.second.value.token ==>
      Compare(c) == (c.(rollbackPending := true), false)
  {
    var settled := if c.first.value.token == c.second.value.token
                   then Settled(c) else c.(rollbackPending := true);
    assert Compare(c) == if CountUnmatched(settled.cards) == 0 then (WinGame(settled), true) else (settled, false);
    if Comparing(c) && c.first.value.token != c.second.value.token {
      var j := c.second.value.index;
      assert Selected(c, j);
      assert !settled.cards[j].matched;
    }
  }

  /** Stopping the timer keeps the invariant. */
  lemma WinGameKeepsInv(r: Session)
    requires Inv(r)
    ensures Inv(WinGame(r))
  {
  }

  /** The state handed to `Compare`: both selections made, the second on
      the board on the page, the lock taken, and the invariant otherwise. */
  ghost predicate Comparing(c: Session)
  {
    && CardsOk(c) && TimerOk(c) && TextsOk(c)
    && c.first.Some? && c.second.Some? && c.lock && !c.rollbackPending
    && PickOk(c, c.first) && PickOk(c, c.second) && Current(c, c.second)
    && (Current(c, c.first) ==> c.first.value.index != c.second.value.index)
    && (forall k :: 0 <= k < |c.cards| ==> (Exposed(c.cards[k]) <==> Selected(c, k)))
  }

  lemma ComparedOk(s: Session, i: nat)
    requires Inv(s) && i < |s.cards| && Compares(s, i)
    ensures Comparing(Compared(s, i))
  {
    var c := Compared(s, i);
    assert !Selected(s, i);
    CardsUpdate(s, c, i, s.cards[i].(flipped := true));
    assert forall k :: 0 <= k < |c.cards| ==> (Selected(c, k) <==> Selected(s, k) || k == i);
  }

  lemma SettledInv(c: Session)
    requires Comparing(c) && c.first.value.token == c.second.value.token
    ensures Inv(Settled(c))
  {
    var r := Settled(c);
    var i := c.second.value.index;
    var t := c.second.value.token;
    var mid: Session;
    if Current(c, c.first) {
      var j := c.first.value.index;
      mid := c.(cards := c.cards[j := Card(t, true, true)]);
      CardsUpdate(c, mid, j, Card(t, true, true));
      assert r.cards == mid.cards[i := Card(t, true, true)];
    } else {
      mid := c;
      assert r.cards == c.cards[i := Card(t, true, true)];
    }
    CardsUpdate(mid, r, i, Card(t, true, true));
    assert forall k :: 0 <= k < |r.cards| ==> !Exposed(r.cards[k]) by {
      forall k | 0 <= k < |r.cards| ensures !Exposed(r.cards[k]) {
        if !Selected(c, k) {
          assert r.cards[k] == c.cards[k];
        }
      }
    }
    QuietSelection(r);
  }

  lemma PendingInv(c: Session)
    requires Comparing(c) && c.first.value.token != c.second.value.token
    ensures Inv(c.(rollbackPending := true))
  {
  }

  lemma CompareKeepsInv(c: Session)
    requires Comparing(c)
    ensures Inv(Compare(c).0)
  {
    CompareOutcome(c);
    if c.first.value.token == c.second.value.token {
      SettledInv(c);
      WinGameKeepsInv(Settled(c));
    } else {
      PendingInv(c);
      WinGameKeepsInv(c.(rollbackPending := true));
    }
  }

  lemma FlipKeepsInv(s: Session, i: nat)
    requires Inv(s) && i < |s.cards|
    ensures Inv(Flip(s, i).0)
  {
    if !Takes(s, i) {
    } else if s.first.None? {
      FirstPickKeepsInv(s, i);
    } else {
      assert Flip(s, i) == Compare(Compared(s, i));
      ComparedOk(s, i);
      CompareKeepsInv(Compared(s, i));
    }
  }

  /** The rollback turns exactly the selected cards of the board on the page
      face down. */
  lemma RollbackCards(s: Session)
    requires Inv(s) && s.rollbackPending
    ensures |FireRollback(s).cards| == |s.cards|
    ensures forall k :: 0 <= k < |s.cards| ==>
      FireRollback(s).cards[k] == if Selected(s, k) then s.cards[k].(flipped := false) else s.cards[k]
  {
    var p1 := s.first.value;
    var p2 := s.second.value;
    var h1 := Hide(s, p1);
    var h2 := Hide(h1, p2);
    assert FireRollback(s).cards == h2.cards;
    assert forall k :: 0 <= k < |s.cards| ==>
      h1.cards[k] == if Current(s, s.first) && k == p1.index then s.cards[k].(flipped := false) else s.cards[k];
  }

  lemma FireRollbackKeepsInv(s: Session)
    requires Inv(s) && s.rollbackPending
    ensures Inv(FireRollback(s))
  {
    var r := FireRollback(s);
    RollbackCards(s);
    assert CardsOk(r);
    QuietSelection(r);
  }

  lemma TickKeepsInv(s: Session, id: nat)
    requires Inv(s) && Live(s, id)
    ensures Inv(Tick(s, id))
  {
  }

  lemma StartKeepsInv(s: Session, deck: seq<Token>)
    requires Inv(s)
    ensures Inv(Start(s, deck))
  {
    var r := Start(s, deck);
    assert Decimal(0) == "0";
    assert Format(0) == "00:00" by {
      FormatExamples();
    }
    assert forall k :: 0 <= k < |r.cards| ==> !Exposed(r.cards[k]) && !Selected(r, k);
  }

  lemma StartCleanKeepsInv(s: Session, deck: seq<Token>)
    requires Inv(s)
    ensures Inv(StartClean(s, deck))
  {
    StartKeepsInv(s, deck);
  }

  // ---------------------------------------------------------------------
  // What the invariant gives

  /** The cards face up and unmatched. */
  ghost function ExposedCards(s: Session): set<nat>
  {
    set k | 0 <= k < |s.cards| && Exposed(s.cards[k])
  }

  /** At most two cards are ever face up without being matched. */
  lemma {:induction false} SubsetCard(a: set<nat>, b: set<nat>)
    requires a <= b
    ensures |a| <= |b|
    decreases |a|
  {
    if a != {} {
      var x :| x in a;
      SubsetCard(a - {x}, b - {x});
    }
  }

  lemma AtMostTwoExposed(s: Session)
    requires Inv(s)
    ensures |ExposedCards(s)| <= 2
    ensures |ExposedCards(s)| == 2 ==> s.lock
  {
    var e := ExposedCards(s);
    var f: set<nat> := if Current(s, s.first) then {s.first.value.index} else {};
    var g: set<nat> := if Current(s, s.second) then {s.second.value.index} else {};
    assert e <= f + g;
    SubsetCard(e, f + g);
    assert |f + g| <= |f| + |g| by {
      assert |f + g| + |f * g| == |f| + |g|;
    }
    if !s.lock {
      assert g == {} && f + g == f;
    }
  }

  /** A mismatch undone: from a state with nothing selected, clicking two
      face-down cards with different tokens and letting the rollback fire
      leaves every card as it was, releases the lock, and counts one move. */
  lemma MismatchRollsBack(s: Session, a: nat, b: nat)
    requires Inv(s) && a < |s.cards| && b < |s.cards| && a != b
    requires !s.lock && s.first.None?
    requires !s.cards[a].flipped && !s.cards[b].flipped
    requires s.cards[a].token != s.cards[b].token
    ensures var s1 := Flip(s, a).0;
      b < |s1.cards| && Compares(s1, b)
      && var s2 := Flip(s1, b).0;
      s2.rollbackPending && s2.first.Some? && s2.second.Some?
      && var r := FireRollback(s2);
      r.cards == s.cards && r.first.None? && r.second.None? && !r.lock
      && r.moves == s.moves + 1
  {
    var s1 := Flip(s, a).0;
    FlipFirst(s, a);
    FlipKeepsInv(s, a);
    FlipSecond(s1, b);
    var s2 := Flip(s1, b).0;
    var r := FireRollback(s2);
    assert r.cards == s.cards by {
      assert s2.cards == s.cards[a := Card(s.cards[a].token, true, false)][b := Card(s.cards[b].token, true, false)];
    }
  }

  /** A click ends the game exactly when it compares two cards and leaves no
      card unmatched; then the tokens were equal, and no interval is left
      running, so no later tick moves the clock. */
  lemma WinCondition(s: Session, i: nat)
    requires Inv(s) && i < |s.cards|
    ensures var (r, won) := Flip(s, i);
      && (won <==> Compares(s, i) && forall k :: 0 <= k < |r.cards| ==> r.cards[k].matched)
      && (won ==> s.first.value.token == s.cards[i].token)
      && (won ==> forall id :: !Live(r, id))
  {
    var (r, won) := Flip(s, i);
    if Compares(s, i) {
      FlipSecond(s, i);
    }
  }

  /** The timer text of a session whose texts are in step shows exactly the
      elapsed seconds. */
  lemma TimerShowsElapsed(s: Session)
    requires TextsOk(s)
    ensures ParseClock(s.timerText) == Some(s.elapsed)
  {
    FormatRoundTrip(s.elapsed);
  }

  /** The mismatch timeout touches only the cards, the selections, the lock
      and the pending flag: the moves, the clock, the deck, the board, the
      reset button and the intervals stay as they were. */
  lemma FireRollbackKeepsRest(s: Session)
    requires s.rollbackPending && s.first.Some? && s.second.Some?
    ensures var r := FireRollback(s);
      && r.moves == s.moves && r.movesText == s.movesText
      && r.elapsed == s.elapsed && r.timerText == s.timerText
      && r.deck == s.deck && r.board == s.board && r.resetEnabled == s.resetEnabled
      && r.intervals == s.intervals && r.cleared == s.cleared && r.timerId == s.timerId
  {
  }

  /** An interval firing touches only the clock: the cards, the moves, the
      selections, the lock, the pending flag and the intervals stay as they
      were. */
  lemma TickKeepsRest(s: Session, id: nat)
    requires Live(s, id)
    ensures var r := Tick(s, id);
      && r.cards == s.cards && r.moves == s.moves && r.movesText == s.movesText
      && r.first == s.first && r.second == s.second && r.lock == s.lock
      && r.rollbackPending == s.rollbackPending && r.deck == s.deck && r.board == s.board
      && r.intervals == s.intervals && r.cleared == s.cleared && r.timerId == s.timerId
  {
  }

  /** A tick counts one second and shows it. */
  lemma TickShowsElapsed(s: Session, id: nat)
    requires TextsOk(s) && Live(s, id)
    ensures Tick(s, id).elapsed == s.elapsed + 1
    ensures ParseClock(Tick(s, id).timerText) == Some(s.elapsed + 1)
  {
    TimerShowsElapsed(Tick(s, id));
  }

  /** The start handler puts the dealt deck on a fresh board, zeroes both
      counters, and leaves exactly one interval running, a new one; it keeps
      the selections, the lock and a pending rollback. */
  lemma StartDeals(s: Session, deck: seq<Token>)
    requires Inv(s)
    ensures var r := Start(s, deck);
      && r.deck == deck && r.cards == FreshCards(deck) && r.board == s.board + 1
      && r.moves == 0 && r.elapsed == 0 && r.resetEnabled
      && ParseClock(r.timerText) == Some(0)
      && (forall id :: Live(r, id) <==> id == r.timerId) && !Live(s, r.timerId)
      && r.first == s.first && r.second == s.second && r.lock == s.lock
      && r.rollbackPending == s.rollbackPending
  {
    StartKeepsInv(s, deck);
    FormatRoundTrip(0);
  }

  // ---------------------------------------------------------------------
  // Matched cards come in pairs, unless a selection outlives its board

  /** No selection names a button of an earlier board. */
  ghost predicate Clean(s: Session)
  {
    (s.first.Some? ==> s.first.value.board == s.board)
    && (s.second.Some? ==> s.second.value.board == s.board)
  }

  /** Every token has an even number of matched cards. */
  ghost predicate Paired(s: Session)
  {
    forall t :: MatchedCount(s.cards, t) % 2 == 0
  }

  lemma {:induction false} MatchedCountUpdate(cs: seq<Card>, k: nat, c: Card, t: Token)
    requires k < |cs|
    ensures MatchedCount(cs[k := c], t) + (if cs[k].matched && cs[k].token == t then 1 else 0)
         == MatchedCount(cs, t) + (if c.matched && c.token == t then 1 else 0)
  {
    if k > 0 {
      MatchedCountUpdate(cs[1..], k - 1, c, t);
      assert cs[k := c][1..] == cs[1..][k - 1 := c];
    }
  }

  lemma {:induction false} NoneMatched(cs: seq<Card>, t: Token)
    requires forall k :: 0 <= k < |cs| ==> !cs[k].matched
    ensures MatchedCount(cs, t) == 0
  {
    if cs != [] {
      NoneMatched(cs[1..], t);
    }
  }

  /** When every card is matched, the matched cards of a token are all its cards. */
  lemma {:induction false} AllMatchedCount(cs: seq<Card>, t: Token)
    requires forall k :: 0 <= k < |cs| ==> cs[k].matched
    ensures MatchedCount(cs, t) == multiset(Tokens(cs))[t]
  {
    if cs != [] {
      AllMatchedCount(cs[1..], t);
      assert Tokens(cs) == [cs[0].token] + Tokens(cs[1..]);
    }
  }

  /** A token with an odd number of matched cards, in a deck that holds it an
      even number of times, keeps the game from being won. */
  lemma OddMatchedBlocksWin(s: Session, t: Token)
    requires CardsOk(s)
    requires multiset(s.deck)[t] % 2 == 0 && MatchedCount(s.cards, t) % 2 == 1
    ensures CountUnmatched(s.cards) > 0
  {
    assert Tokens(s.cards) == s.deck;
    if CountUnmatched(s.cards) == 0 {
      AllMatchedCount(s.cards, t);
    }
  }

  /** Two boards that differ only in which cards are face up have the same
      matched cards. */
  lemma {:induction false} SameMatches(a: seq<Card>, b: seq<Card>, t: Token)
    requires |a| == |b|
    requires forall k :: 0 <= k < |a| ==> a[k].matched == b[k].matched && a[k].token == b[k].token
    ensures MatchedCount(a, t) == MatchedCount(b, t)
  {
    if a != [] {
      SameMatches(a[1..], b[1..], t);
    }
  }

  /** Comparing two cards of the board on the page adds two matched cards
      of their token when the tokens are equal, and changes no matched card
      otherwise. */
  lemma ComparePairs(c: Session, t: Token)
    requires Comparing(c) && Current(c, c.first)
    ensures MatchedCount(Compare(c).0.cards, t) == MatchedCount(c.cards, t) +
      (if c.first.value.token == c.second.value.token == t then 2 else 0)
  {
    CompareOutcome(c);
    if c.first.value.token == c.second.value.token {
      assert Compare(c).0.cards == Settled(c).cards;
      var j := c.first.value.index;
      var i := c.second.value.index;
      assert Selected(c, j) && Selected(c, i);
      var marked := c.cards[j := c.cards[j].(matched := true)];
      assert Settled(c).cards == marked[i := marked[i].(matched := true)];
      MatchedCountUpdate(c.cards, j, c.cards[j].(matched := true), t);
      MatchedCountUpdate(marked, i, marked[i].(matched := true), t);
    } else {
      assert Compare(c).0.cards == c.cards;
    }
  }

  /** Adding zero or two keeps the parity, adding one flips it. */
  lemma ParityAdd(x: nat, d: nat)
    requires d <= 2
    ensures (x + d) % 2 == if d == 1 then 1 - x % 2 else x % 2
  {
  }

  /** Comparing two cards of the board on the page changes the number of
      matched cards of every token by an even amount. */
  lemma CompareKeepsParity(c: Session)
    requires Comparing(c) && Current(c, c.first)
    ensures forall t :: MatchedCount(Compare(c).0.cards, t) % 2 == MatchedCount(c.cards, t) % 2
  {
    forall t ensures MatchedCount(Compare(c).0.cards, t) % 2 == MatchedCount(c.cards, t) % 2 {
      ComparePairs(c, t);
      ParityAdd(MatchedCount(c.cards, t), if c.first.value.token == c.second.value.token == t then 2 else 0);
    }
  }

  /** Turning a card face up matches no card. */
  lemma ShowKeepsMatches(cs: seq<Card>, i: nat)
    requires i < |cs|
    ensures forall t :: MatchedCount(cs[i := cs[i].(flipped := true)], t) == MatchedCount(cs, t)
  {
    forall t ensures MatchedCount(cs[i := cs[i].(flipped := true)], t) == MatchedCount(cs, t) {
      SameMatches(cs[i := cs[i].(flipped := true)], cs, t);
    }
  }

  /** In a session without stale selections, a click keeps the selections
      fresh and changes the number of matched cards of every token by an
      even amount. */
  lemma CleanFlipKeepsPairs(s: Session, i: nat)
    requires Inv(s) && Clean(s) && i < |s.cards|
    ensures Clean(Flip(s, i).0)
    ensures forall t :: MatchedCount(Flip(s, i).0.cards, t) % 2 == MatchedCount(s.cards, t) % 2
  {
    if !Takes(s, i) {
      return;
    }
    ShowKeepsMatches(s.cards, i);
    if s.first.None? {
      assert Flip(s, i).0.cards == s.cards[i := s.cards[i].(flipped := true)];
      return;
    }
    var c := Compared(s, i);
    assert Flip(s, i) == Compare(c);
    ComparedOk(s, i);
    CompareOutcome(c);
    CompareKeepsParity(c);
  }

  /** The rollback leaves no selection, no lock and no pending rollback,
      and changes no matched card; an interval firing changes no card. */
  lemma OtherEventsKeepPairs(s: Session, id: nat)
    requires Inv(s)
    ensures s.rollbackPending ==> var r := FireRollback(s);
      && r.first.None? && r.second.None? && !r.lock && !r.rollbackPending && Clean(r)
      && (forall k :: 0 <= k < |s.cards| && s.cards[k].matched ==> r.cards[k] == s.cards[k])
      && (forall t :: MatchedCount(r.cards, t) == MatchedCount(s.cards, t))
    ensures Live(s, id) ==> Tick(s, id).cards == s.cards && (Clean(s) ==> Clean(Tick(s, id)))
  {
    if s.rollbackPending {
      RollbackCards(s);
      forall t ensures MatchedCount(FireRollback(s).cards, t) == MatchedCount(s.cards, t) {
        SameMatches(FireRollback(s).cards, s.cards, t);
      }
    }
  }

  /** The corrected start deals as the start handler does (the deck on a
      fresh board, zeroed counters, exactly one new interval running) and
      leaves no selection, no lock and no pending rollback; no card of the
      fresh board is matched. */
  lemma StartCleanKeepsPairs(s: Session, deck: seq<Token>)
    requires Inv(s)
    ensures var r := StartClean(s, deck);
      && r.deck == deck && r.cards == FreshCards(deck) && r.board == s.board + 1
      && r.moves == 0 && r.elapsed == 0 && r.resetEnabled
      && ParseClock(r.timerText) == Some(0)
      && (forall id :: Live(r, id) <==> id == r.timerId) && !Live(s, r.timerId)
      && Clean(r) && Paired(r) && !r.lock && !r.rollbackPending && r.first.None? && r.second.None?
  {
    StartDeals(s, deck);
    var r := StartClean(s, deck);
    forall t ensures MatchedCount(r.cards, t) == 0 {
      NoneMatched(r.cards, t);
    }
  }

  /** The start handler as written keeps a first selection made on the
      previous board, and the new board holds a face-down card with the
      selected token. */
  lemma StartKeepsStaleSelection(s: Session, deck: seq<Token>)
    requires Inv(s) && s.first.Some? && !s.lock
    requires forall t :: multiset(deck)[t] == 2
    ensures var r := Start(s, deck);
      && r.first == s.first && !Current(r, r.first) && !r.lock && Paired(r)
      && exists i :: 0 <= i < |r.cards| && r.cards[i] == Card(s.first.value.token, false, false)
  {
    var r := Start(s, deck);
    var t := s.first.value.token;
    assert t in multiset(deck);
    var i :| 0 <= i < |deck| && deck[i] == t;
    assert r.cards[i] == Card(t, false, false);
    forall u ensures MatchedCount(r.cards, u) == 0 {
      NoneMatched(r.cards, u);
    }
  }

  /** The effect of a stale selection: clicking, on the new board, a card
      with the same token as the first selection of the old board compares
      the two, counts a move, and matches the new card alone. The token then
      has an odd number of matched cards, so the game on this board can no
      longer be won. */
  lemma StaleSelectionMatchesOneCard(s: Session, i: nat, t: Token)
    requires Inv(s) && Paired(s) && i < |s.cards|
    requires s.first.Some? && !Current(s, s.first) && !s.lock
    requires !s.cards[i].flipped && s.cards[i].token == t == s.first.value.token
    requires multiset(s.deck)[t] % 2 == 0
    ensures var (r, won) := Flip(s, i);
      && r.moves == s.moves + 1 && !won
      && r.cards == s.cards[i := Card(t, true, true)]
      && MatchedCount(r.cards, t) % 2 == 1
      && CountUnmatched(r.cards) > 0
      && Clean(r) && Inv(r)
  {
    StaleCompared(s, i, t);
    StaleMatchedOdd(s, i, t);
    StaleSettled(s, i);
    FlipKeepsInv(s, i);
  }

  /** The comparison of that click ends with the selections released and the
      game going on. */
  lemma StaleCompared(s: Session, i: nat, t: Token)
    requires Inv(s) && Paired(s) && i < |s.cards|
    requires s.first.Some? && !Current(s, s.first) && !s.lock
    requires !s.cards[i].flipped && s.cards[i].token == t == s.first.value.token
    requires multiset(s.deck)[t] % 2 == 0
    ensures Flip(s, i) == (Settled(Compared(s, i)), false)
  {
    StaleMatchedOdd(s, i, t);
    StaleSettled(s, i);
    CompareOutcome(Compared(s, i));
  }

  /** After that comparison the token's matched count is odd, so some card
      stays unmatched. */
  lemma StaleMatchedOdd(s: Session, i: nat, t: Token)
    requires Inv(s) && Paired(s) && i < |s.cards|
    requires s.first.Some? && !Current(s, s.first) && !s.lock
    requires !s.cards[i].flipped && s.cards[i].token == t == s.first.value.token
    requires multiset(s.deck)[t] % 2 == 0
    ensures MatchedCount(Settled(Compared(s, i)).cards, t) % 2 == 1
    ensures CountUnmatched(Settled(Compared(s, i)).cards) > 0
  {
    StaleSettled(s, i);
    OneMoreMatchedBlocksWin(Settled(Compared(s, i)), t, MatchedCount(s.cards, t));
  }

  /** One matched card more than an even count of its token leaves an odd
      count, and so a card unmatched. */
  lemma OneMoreMatchedBlocksWin(r: Session, t: Token, m: nat)
    requires CardsOk(r) && multiset(r.deck)[t] % 2 == 0
    requires m % 2 == 0 && MatchedCount(r.cards, t) == m + 1
    ensures MatchedCount(r.cards, t) % 2 == 1 && CountUnmatched(r.cards) > 0
  {
    ParityAdd(m, 1);
    OddMatchedBlocksWin(r, t);
  }

  /** With a stale first selection, the click compares equal tokens: the
      move is counted, the selections are released and only the clicked card
      becomes matched. */
  lemma StaleSettled(s: Session, i: nat)
    requires Inv(s) && i < |s.cards|
    requires s.first.Some? && !Current(s, s.first) && !s.lock
    requires !s.cards[i].flipped && s.cards[i].token == s.first.value.token
    ensures Flip(s, i) == Compare(Compared(s, i))
    ensures var r := Settled(Compared(s, i));
      && r.cards == s.cards[i := Card(s.cards[i].token, true, true)]
      && r.moves == s.moves + 1 && r.deck == s.deck && CardsOk(r) && Clean(r)
      && MatchedCount(r.cards, s.cards[i].token) == MatchedCount(s.cards, s.cards[i].token) + 1
  {
    var t := s.cards[i].token;
    var r := Settled(Compared(s, i));
    assert !s.cards[i].matched;
    assert r.cards == s.cards[i := Card(t, true, true)];
    CardsUpdate(s, r, i, Card(t, true, true));
    MatchedCountUpdate(s.cards, i, Card(t, true, true), t);
  }

  /** A board that cannot be won any more: the invariant holds, no selection
      is stale, and token `t`, which the deck holds an even number of times,
      has an odd number of matched cards. */
  ghost predicate Unwinnable(s: Session, t: Token)
  {
    Inv(s) && Clean(s) && multiset(s.deck)[t] % 2 == 0 && MatchedCount(s.cards, t) % 2 == 1
  }

  /** The click of `StaleSelectionMatchesOneCard` leaves the board unwinnable. */
  lemma StaleClickLeavesUnwinnable(s: Session, i: nat, t: Token)
    requires Inv(s) && Paired(s) && i < |s.cards|
    requires s.first.Some? && !Current(s, s.first) && !s.lock
    requires !s.cards[i].flipped && s.cards[i].token == t == s.first.value.token
    requires multiset(s.deck)[t] % 2 == 0
    ensures Unwinnable(Flip(s, i).0, t)
  {
    StaleSelectionMatchesOneCard(s, i, t);
    StaleSettled(s, i);
    assert Flip(s, i).0.deck == s.deck;
  }

  /** On such a board no click wins, and every click leaves it unwinnable. */
  lemma FlipStaysUnwinnable(s: Session, i: nat, t: Token)
    requires Unwinnable(s, t) && i < |s.cards|
    ensures !Flip(s, i).1 && Unwinnable(Flip(s, i).0, t)
  {
    var r := Flip(s, i).0;
    FlipKeepsInv(s, i);
    CleanFlipKeepsPairs(s, i);
    WinCondition(s, i);
    assert r.deck == s.deck;
    OddMatchedBlocksWin(r, t);
  }

  /** The mismatch timeout and an interval firing leave such a board
      unwinnable too. */
  lemma OtherEventsStayUnwinnable(s: Session, id: nat, t: Token)
    requires Unwinnable(s, t)
    ensures s.rollbackPending ==> Unwinnable(FireRollback(s), t)
    ensures Live(s, id) ==> Unwinnable(Tick(s, id), t)
  {
    OtherEventsKeepPairs(s, id);
    if s.rollbackPending {
      FireRollbackKeepsInv(s);
    }
    if Live(s, id) {
      TickKeepsInv(s, id);
    }
  }
}
