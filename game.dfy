/** The memory game as the page runs it: module variables and card buttons
    updated in place by the click handlers, the start and reset handlers,
    the interval callback and the mismatch timeout. Every handler is proved
    to change the state exactly as the matching function of `Rules` says, so
    everything `Laws` proves of those functions holds of the page. */
module Page {
  import opened Deck
  import opened Clock
  import opened Rules
  import opened Laws

  /** Counting the unmatched cards one at a time from the front gives the
      same number as `CountUnmatched`. */
  lemma {:induction false} CountUnmatchedSnoc(cs: seq<Card>, c: Card)
    ensures CountUnmatched(cs + [c]) == CountUnmatched(cs) + (if c.matched then 0 else 1)
  {
    if cs != [] {
      assert (cs + [c])[1..] == cs[1..] + [c];
      CountUnmatchedSnoc(cs[1..], c);
    } else {
      assert [c][1..] == [];
    }
  }

  class Game {
    var deck: seq<Token>
    /** The card buttons of the board on the page. */
    var cards: array<Card>
    /** How many boards have been rendered. */
    var board: nat
    var first: Option<Pick>
    var second: Option<Pick>
    var lock: bool
    var moves: nat
    var elapsed: nat
    /** Whether the mismatch timeout is scheduled and has not fired. */
    var rollbackPending: bool
    /** Intervals started so far (ids 1..intervals) and ids cleared. */
    var intervals: nat
    var cleared: set<nat>
    /** The id stored by the last `startTimer`, 0 while it is null. */
    var timerId: nat
    var movesText: string
    var timerText: string
    var resetEnabled: bool

    /** The whole page state as a value. */
    ghost function Snapshot(): Session
      reads this, cards
    {
      Session(deck, cards[..], board, first, second, lock, moves, elapsed, rollbackPending,
              intervals, cleared, timerId, movesText, timerText, resetEnabled)
    }

    ghost predicate Valid()
      reads this, cards
    {
      Inv(Snapshot())
    }

    /** The page as loaded, before the first start. */
    constructor ()
      ensures Valid() && Snapshot() == Initial()
    {
      deck := [];
      cards := new Card[0];
      board := 0;
      first := None;
      second := None;
      lock := false;
      moves := 0;
      elapsed := 0;
      rollbackPending := false;
      intervals := 0;
      cleared := {};
      timerId := 0;
      movesText := Decimal(0);
      timerText := Format(0);
      resetEnabled := false;
      new;
      assert cards[..] == [];
      InitialInv();
    }

    /** The length of the page's `remaining`: the cards not matched. */
    method CountRemaining() returns (n: nat)
      ensures n == CountUnmatched(cards[..])
      ensures n == 0 <==> forall k :: 0 <= k < cards.Length ==> cards[k].matched
    {
      n := 0;
      var k := 0;
      while k < cards.Length
        invariant 0 <= k <= cards.Length
        invariant n == CountUnmatched(cards[..k])
      {
        assert cards[..k + 1] == cards[..k] + [cards[k]];
        CountUnmatchedSnoc(cards[..k], cards[k]);
        if !cards[k].matched {
          n := n + 1;
        }
        k := k + 1;
      }
      assert cards[..k] == cards[..];
    }

    /** Sets `data-matched` on a picked button; a button of an earlier board
        is detached, and nothing on the page changes. */
    method MarkMatched(p: Pick)
      modifies cards
      ensures Snapshot() == Rules.MarkMatched(old(Snapshot()), p)
    {
      if p.board == board && p.index < cards.Length {
        cards[p.index] := cards[p.index].(matched := true);
      }
    }

    /** Clears `data-state` on a picked button. */
    method Hide(p: Pick)
      modifies cards
      ensures Snapshot() == Rules.Hide(old(Snapshot()), p)
    {
      if p.board == board && p.index < cards.Length {
        cards[p.index] := cards[p.index].(flipped := false);
      }
    }

    method ResetPair()
      modifies this
      ensures cards == old(cards)
      ensures Snapshot() == Rules.ResetPair(old(Snapshot()))
    {
      first := None;
      second := None;
      lock := false;
    }

    method StopTimer()
      modifies this
      ensures cards == old(cards)
      ensures Snapshot() == Rules.StopTimer(old(Snapshot()))
    {
      cleared := cleared + {timerId};
    }

    method StartTimer()
      modifies this
      ensures cards == old(cards)
      ensures Snapshot() == Rules.StartTimer(old(Snapshot()))
    {
      intervals := intervals + 1;
      timerId := intervals;
    }

    method WinGame()
      modifies this
      ensures cards == old(cards)
      ensures Snapshot() == Rules.WinGame(old(Snapshot()))
    {
      StopTimer();
    }

    /** Turns card `i` face up. */
    method Show(i: nat)
      requires i < cards.Length
      modifies cards
      ensures Snapshot() == old(Snapshot()).(cards := old(cards[..])[i := old(cards[i]).(flipped := true)])
    {
      cards[i] := cards[i].(flipped := true);
    }

    /** Records the second selection, counts the move and locks the board. */
    method TakeSecond(p: Pick)
      modifies this
      ensures cards == old(cards)
      ensures Snapshot() == old(Snapshot()).(second := Some(p), moves := old(moves) + 1,
                                             movesText := Decimal(old(moves) + 1), lock := true)
    {
      second := Some(p);
      moves := moves + 1;
      movesText := Decimal(moves);
      lock := true;
    }

    /** Compares the two selected cards and checks for the end of the game. */
    method Compare() returns (won: bool)
      requires first.Some? && second.Some?
      modifies this, cards
      ensures cards == old(cards)
      ensures (Snapshot(), won) == Rules.Compare(old(Snapshot()))
    {
      ghost var s := Snapshot();
      if first.value.token == second.value.token {
        MarkMatched(first.value);
        MarkMatched(second.value);
        ResetPair();
      } else {
        rollbackPending := true;
      }
      var remaining := CountRemaining();
      won := remaining == 0;
      if won {
        WinGame();
      }
    }

    /** The click handler's steps on card `i`; `won` says whether the click
        ended the game. */
    method Click(i: nat) returns (won: bool)
      requires i < cards.Length
      modifies this, cards
      ensures cards == old(cards)
      ensures (Snapshot(), won) == Rules.Flip(old(Snapshot()), i)
    {
      ghost var s := Snapshot();
      if lock || cards[i].flipped {
        return false;
      }
      Show(i);
      var p := Pick(board, i, cards[i].token);
      if first.None? {
        first := Some(p);
        return false;
      }
      TakeSecond(p);
      ghost var c := Snapshot();
      won := Compare();
      assert (Snapshot(), won) == Rules.Compare(c);
    }

    /** A click on card `i` keeps the page's invariant. */
    method Flip(i: nat) returns (won: bool)
      requires Valid() && i < cards.Length
      modifies this, cards
      ensures Valid() && cards == old(cards)
      ensures (Snapshot(), won) == Rules.Flip(old(Snapshot()), i)
    {
      FlipKeepsInv(Snapshot(), i);
      won := Click(i);
    }

    /** The mismatch timeout firing. */
    method FireRollback()
      requires Valid() && rollbackPending
      modifies this, cards
      ensures Valid() && cards == old(cards)
      ensures Snapshot() == Rules.FireRollback(old(Snapshot()))
    {
      FireRollbackKeepsInv(Snapshot());
      Hide(first.value);
      Hide(second.value);
      ResetPair();
      rollbackPending := false;
    }

    /** The running interval `id` firing. */
    method Tick(id: nat)
      requires Valid() && Live(Snapshot(), id)
      modifies this
      ensures Valid() && cards == old(cards)
      ensures Snapshot() == Rules.Tick(old(Snapshot()), id)
    {
      ghost var s := Snapshot();
      TickKeepsInv(s, id);
      elapsed := elapsed + 1;
      timerText := Format(elapsed);
      assert Snapshot() == Rules.Tick(s, id);
    }

    /** `renderBoard`: a new button, face down and unmatched, for every card
        of the deck. */
    method RenderBoard()
      modifies this
      ensures fresh(cards)
      ensures Snapshot() == old(Snapshot()).(board := old(board) + 1, cards := FreshCards(deck))
    {
      var d := deck;
      board := board + 1;
      cards := new Card[|d|](k requires 0 <= k < |d| => Card(d[k], false, false));
      assert cards[..] == FreshCards(d);
    }

    /** The counters, their texts and the reset button, as the start
        handler sets them before rendering. */
    method ZeroCounters(d: seq<Token>)
      modifies this
      ensures cards == old(cards)
      ensures Snapshot() == old(Snapshot()).(deck := d, moves := 0, elapsed := 0, movesText := "0",
                                             timerText := "00:00", resetEnabled := true)
    {
      deck := d;
      moves := 0;
      elapsed := 0;
      movesText := "0";
      timerText := "00:00";
      resetEnabled := true;
    }

    /** The start button with the deck `makeDeck` dealt. */
    method Deal(d: seq<Token>)
      requires Valid()
      modifies this
      ensures Valid() && fresh(cards)
      ensures Snapshot() == Rules.Start(old(Snapshot()), d)
    {
      ghost var s := Snapshot();
      StartKeepsInv(s, d);
      ZeroCounters(d);
      RenderBoard();
      ghost var r := Snapshot();
      StopTimer();
      StartTimer();
      assert Snapshot() == Rules.StartTimer(Rules.StopTimer(r));
    }

    /** The start button. */
    method Start(choices: seq<nat>)
      requires Valid()
      modifies this
      ensures Valid() && fresh(cards)
      ensures Snapshot() == Rules.Start(old(Snapshot()), MakeDeck(choices))
    {
      var d := MakeDeck(choices);
      Deal(d);
    }

    /** The reset button, which clicks the start button. */
    method Reset(choices: seq<nat>)
      requires Valid()
      modifies this
      ensures Valid() && fresh(cards)
      ensures Snapshot() == Rules.Reset(old(Snapshot()), MakeDeck(choices))
    {
      Start(choices);
    }

    /** The close button of the win dialog, which hides the dialog and clicks
        the start button. */
    method CloseDialog(choices: seq<nat>)
      requires Valid()
      modifies this
      ensures Valid() && fresh(cards)
      ensures Snapshot() == Rules.Start(old(Snapshot()), MakeDeck(choices))
    {
      Start(choices);
    }

    /** The start button as evidently intended (see `Rules.StartClean`). */
    method StartClean(choices: seq<nat>)
      requires Valid()
      modifies this
      ensures Valid() && fresh(cards)
      ensures Snapshot() == Rules.StartClean(old(Snapshot()), MakeDeck(choices))
    {
      ghost var s := Snapshot();
      StartCleanKeepsInv(s, MakeDeck(choices));
      Start(choices);
      ResetPair();
      rollbackPending := false;
    }
  }
}
