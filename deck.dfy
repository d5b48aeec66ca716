/** The deck of the memory game: the fixed list of eight symbols, the doubling
    that gives every symbol two cards, and the shuffle.

    The page shuffles by sorting with a random comparator. The model does not
    try to say anything about the distribution: the random source becomes a
    parameter, a list of choices, and `Shuffle` takes, at each step, the
    remaining element that the next choice names. Every choice list yields a
    permutation (`ShuffleIsPermutation`) and every permutation is yielded by some
    choice list (`ShuffleReachesEveryPermutation`), so the set of possible decks
    is exactly the set of orderings of the doubled list. */
module Deck {

  /** The eight pair tokens of the symbol list. The page keeps a token as the
      text of a card's `data-token` attribute and only ever compares two of
      them for equality, so the model keeps them as the eight distinct values
      of an enumeration; `Id` gives the text. */
  datatype Token = Straw | Berry | Rasp | Orange | Lemon | Grape | Honey | Melon

  /** The `id` text of a symbol entry. */
  function Id(t: Token): string
  {
    match t
    case Straw => "straw"
    case Berry => "berry"
    case Rasp => "rasp"
    case Orange => "orange"
    case Lemon => "lemon"
    case Grape => "grape"
    case Honey => "honey"
    case Melon => "melon"
  }

  /** The face drawn on the back of a card with this token. */
  function Emoji(t: Token): string
  {
    match t
    case Straw => "\U{1F353}"
    case Berry => "\U{1F33A}"
    case Rasp => "\U{1F352}"
    case Orange => "\U{1F34A}"
    case Lemon => "\U{1F34B}"
    case Grape => "\U{1F347}"
    case Honey => "\U{1F36F}"
    case Melon => "\U{1F348}"
  }

  /** The symbol list, in the page's order. */
  function MemCards(): seq<Token>
  {
    [Straw, Berry, Rasp, Orange, Lemon, Grape, Honey, Melon]
  }

  /** Every entry twice in a row: the page's `flatMap(c => [c, c])`. */
  function Doubled(cs: seq<Token>): (r: seq<Token>)
    ensures |r| == 2 * |cs|
  {
    if cs == [] then [] else [cs[0], cs[0]] + Doubled(cs[1..])
  }

  /** `arr` without its element at position `j`. */
  function RemoveAt<T>(arr: seq<T>, j: nat): (r: seq<T>)
    requires j < |arr|
    ensures |r| == |arr| - 1
  {
    arr[..j] + arr[j + 1..]
  }

  /** The position that the next choice names among `n` remaining elements;
      a missing choice names the first, and any choice at or past the end
      names the last. */
  function Choose(choices: seq<nat>, n: nat): (j: nat)
    requires n > 0
    ensures j < n
  {
    var c := if choices == [] then 0 else choices[0];
    if c < n then c else n - 1
  }

  /** The choices left after the first one is used. */
  function Rest(choices: seq<nat>): seq<nat>
  {
    if choices == [] then [] else choices[1..]
  }

  /** Takes the element the next choice names and shuffles the rest with the
      remaining choices. */
  function Shuffle<T>(arr: seq<T>, choices: seq<nat>): (r: seq<T>)
    ensures |r| == |arr|
    decreases |arr|
  {
    if arr == [] then []
    else
      var j := Choose(choices, |arr|);
      [arr[j]] + Shuffle(RemoveAt(arr, j), Rest(choices))
  }

  /** A fresh deck: the doubled symbol list, reordered by the choices. */
  function MakeDeck(choices: seq<nat>): (d: seq<Token>)
    ensures |d| == 16
  {
    Shuffle(Doubled(MemCards()), choices)
  }

  lemma RemoveAtKeepsRest<T>(arr: seq<T>, j: nat)
    requires j < |arr|
    ensures multiset(RemoveAt(arr, j)) + multiset{arr[j]} == multiset(arr)
  {
    assert arr == arr[..j] + [arr[j]] + arr[j + 1..];
  }

  /** The shuffle only reorders: it deals every element exactly as often as it occurs. */
  lemma {:induction false} ShuffleIsPermutation<T>(arr: seq<T>, choices: seq<nat>)
    ensures multiset(Shuffle(arr, choices)) == multiset(arr)
    decreases |arr|
  {
    if arr != [] {
      var j := Choose(choices, |arr|);
      var rest := Shuffle(RemoveAt(arr, j), Rest(choices));
      assert Shuffle(arr, choices) == [arr[j]] + rest;
      ShuffleIsPermutation(RemoveAt(arr, j), Rest(choices));
      RemoveAtKeepsRest(arr, j);
    }
  }

  /** The first position of `x` in `arr`. */
  ghost function IndexOf<T>(arr: seq<T>, x: T): (j: nat)
    requires x in arr
    ensures j < |arr| && arr[j] == x
  {
    if arr[0] == x then 0 else 1 + IndexOf(arr[1..], x)
  }

  /** The choices under which the shuffle deals `q`, for any reordering `q` of `arr`. */
  ghost function ChoicesFor<T>(arr: seq<T>, q: seq<T>): seq<nat>
    requires multiset(q) == multiset(arr)
    decreases |arr|
  {
    if arr == [] then []
    else
      CancelFirst(arr, q);
      var j := IndexOf(arr, q[0]);
      [j] + ChoicesFor(RemoveAt(arr, j), q[1..])
  }

  /** Taking the first element off `q` and its first occurrence off `arr`
      leaves two lists that are still orderings of each other. */
  lemma CancelFirst<T>(arr: seq<T>, q: seq<T>)
    requires multiset(q) == multiset(arr) && arr != []
    ensures q != [] && q[0] in arr
    ensures multiset(q[1..]) == multiset(RemoveAt(arr, IndexOf(arr, q[0])))
  {
    assert |q| == |multiset(q)| == |arr|;
    assert q == [q[0]] + q[1..];
    assert q[0] in multiset(arr);
    var j := IndexOf(arr, q[0]);
    RemoveAtKeepsRest(arr, j);
    assert multiset(q[1..]) == multiset(q) - multiset{q[0]};
  }

  lemma {:induction false} ShuffleChoicesFor<T>(arr: seq<T>, q: seq<T>)
    requires multiset(q) == multiset(arr)
    ensures Shuffle(arr, ChoicesFor(arr, q)) == q
    decreases |arr|
  {
    if arr == [] {
      assert |q| == |multiset(q)| == 0;
    } else {
      CancelFirst(arr, q);
      var j := IndexOf(arr, q[0]);
      var rest := RemoveAt(arr, j);
      var choices := ChoicesFor(arr, q);
      assert choices == [j] + ChoicesFor(rest, q[1..]);
      ShuffleChoicesFor(rest, q[1..]);
      assert Choose(choices, |arr|) == j && Rest(choices) == ChoicesFor(rest, q[1..]);
      assert Shuffle(arr, choices) == [q[0]] + q[1..];
    }
  }

  /** Any reordering of `arr` is what some list of choices produces: modelling
      the random source as a choice list leaves out no deck the page could deal. */
  lemma ShuffleReachesEveryPermutation<T>(arr: seq<T>, q: seq<T>)
    requires multiset(q) == multiset(arr)
    ensures exists choices :: Shuffle(arr, choices) == q
  {
    ShuffleChoicesFor(arr, q);
  }

  /** Two entries of the symbol list never share their id text, so comparing
      tokens is comparing the `data-token` texts. */
  lemma IdInjective(a: Token, b: Token)
    ensures Id(a) == Id(b) <==> a == b
  {
    if a != b {
      // the eight ids start with eight different letters
      assert Id(a)[0] != Id(b)[0];
    }
  }

  /** Entry `k` sits at positions `2k` and `2k+1` of the doubled list. */
  lemma {:induction false} DoubledPositions(cs: seq<Token>, k: nat)
    requires k < |cs|
    ensures Doubled(cs)[2 * k] == cs[k] && Doubled(cs)[2 * k + 1] == cs[k]
  {
    if k > 0 {
      assert Doubled(cs) == [cs[0], cs[0]] + Doubled(cs[1..]);
      DoubledPositions(cs[1..], k - 1);
    }
  }

  lemma {:induction false} DoubledCounts(cs: seq<Token>)
    ensures multiset(Doubled(cs)) == multiset(cs) + multiset(cs)
  {
    if cs != [] {
      assert Doubled(cs) == [cs[0], cs[0]] + Doubled(cs[1..]);
      assert cs == [cs[0]] + cs[1..];
      DoubledCounts(cs[1..]);
    }
  }

  /** Each token occurs once in the symbol list. */
  lemma MemCardsOnce(t: Token)
    ensures multiset(MemCards())[t] == 1
  {
    assert MemCards() == [Straw, Berry, Rasp, Orange, Lemon, Grape, Honey, Melon];
    match t
    case Straw =>
    case Berry =>
    case Rasp =>
    case Orange =>
    case Lemon =>
    case Grape =>
    case Honey =>
    case Melon =>
  }

  /** Doubling a list that holds every token once and shuffling it holds every token twice. */
  lemma ShuffledPairs(cs: seq<Token>, choices: seq<nat>)
    requires forall t :: multiset(cs)[t] == 1
    ensures forall t :: multiset(Shuffle(Doubled(cs), choices))[t] == 2
  {
    ShuffleIsPermutation(Doubled(cs), choices);
    DoubledCounts(cs);
  }

  /** Every dealt deck holds each of the eight tokens exactly twice. */
  lemma MakeDeckPairsTokens(choices: seq<nat>)
    ensures forall t :: multiset(MakeDeck(choices))[t] == 2
  {
    forall t ensures multiset(MemCards())[t] == 1 {
      MemCardsOnce(t);
    }
    ShuffledPairs(MemCards(), choices);
  }

  /** Every dealt deck is an ordering of the doubled symbol list, and every
      ordering of it can be dealt. */
  lemma MakeDeckDealsExactlyOrderings(choices: seq<nat>, q: seq<Token>)
    ensures multiset(MakeDeck(choices)) == multiset(Doubled(MemCards()))
    ensures multiset(q) == multiset(Doubled(MemCards())) ==> exists cs :: MakeDeck(cs) == q
  {
    var doubled := Doubled(MemCards());
    ShuffleIsPermutation(doubled, choices);
    if multiset(q) == multiset(doubled) {
      ShuffleChoicesFor(doubled, q);
      assert MakeDeck(ChoicesFor(doubled, q)) == q;
    }
  }
}
