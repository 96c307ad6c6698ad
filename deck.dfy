/**
 * The deck: built in a fixed order (suit by suit, Two to Ace), shuffled, and
 * dealt from the back.
 */
module Decks {
  import opened Cards

  /** The order in which the constructor pushes the 52 cards: suit 0 first, each suit from Two up to Ace. */
  function StandardOrder(): (d: seq<Card>)
    ensures |d| == 52
    ensures forall i :: 0 <= i < 52 ==> d[i] == Card(i % 13 + 2, SuitOf(i / 13))
  {
    seq(52, i requires 0 <= i < 52 => Card(i % 13 + 2, SuitOf(i / 13)))
  }

  /** No card occurs twice. */
  predicate Distinct(s: seq<Card>)
  {
    forall i, j :: 0 <= i < j < |s| ==> s[i] != s[j]
  }

  /** Where the constructor puts a card: 13 slots per suit, ranks from Two. */
  function Position(c: Card): (i: nat)
    ensures i < 52 && StandardOrder()[i] == c
  {
    13 * SuitIndex(c.suit) + c.rank - 2
  }

  /** The constructor's order holds every card of the 52 exactly once. */
  lemma StandardOrderIsFullDeck()
    ensures Distinct(StandardOrder())
    ensures forall c: Card :: multiset(StandardOrder())[c] == 1
  {
    var d := StandardOrder();
    forall c: Card ensures multiset(d)[c] == 1 {
      var p := Position(c);
      DistinctCount(d, c);
    }
  }

  /** In a sequence without repeats a member occurs once. */
  lemma {:induction false} DistinctCount(s: seq<Card>, c: Card)
    requires Distinct(s) && c in s
    ensures multiset(s)[c] == 1
  {
    assert s == [s[0]] + s[1..];
    assert multiset(s) == multiset{s[0]} + multiset(s[1..]);
    if s[0] == c {
      assert c !in s[1..] by {
        forall k | 0 <= k < |s[1..]| ensures s[1..][k] != c {
          assert s[1..][k] == s[k + 1];
        }
      }
    } else {
      DistinctCount(s[1..], c);
    }
  }

  /** A card whose count is at most one in `s` never appears at two positions of `s`. */
  lemma CountsBelowTwoDistinct(s: seq<Card>)
    requires forall c: Card :: multiset(s)[c] <= 1
    ensures Distinct(s)
  {
    forall i, j | 0 <= i < j < |s| ensures s[i] != s[j] {
      assert s == s[..i] + [s[i]] + s[i + 1..j] + [s[j]] + s[j + 1..];
      assert multiset(s) == multiset(s[..i]) + multiset{s[i]} + multiset(s[i + 1..j]) + multiset{s[j]} + multiset(s[j + 1..]);
      assert multiset(s)[s[i]] >= multiset{s[i]}[s[i]] + multiset{s[j]}[s[i]];
    }
  }

  /** Exchange the cards at positions `i` and `j`. */
  function Swap(s: seq<Card>, i: nat, j: nat): (t: seq<Card>)
    requires i < |s| && j < |s|
    ensures |t| == |s| && multiset(t) == multiset(s)
  {
    s[i := s[j]][j := s[i]]
  }

  /** `rolls[i]` is a position the random engine may pick when the shuffle is at position `i`. */
  predicate RollsFit(rolls: seq<nat>, n: nat)
  {
    |rolls| == n && forall i :: 0 <= i < n ==> rolls[i] <= i
  }

  /**
   * The shuffle as a sequence of swaps: for i from the top position down to 1,
   * swap position i with position rolls[i], a value in 0..i. std::shuffle's own
   * loop order and its use of the engine are unspecified by the language
   * standard; what the rest of the model relies on is only that the result
   * is a permutation of the input.
   */
  function Shuffle(s: seq<Card>, rolls: seq<nat>, i: nat): (r: seq<Card>)
    requires i < |s| && RollsFit(rolls, |s|)
    ensures |r| == |s| && multiset(r) == multiset(s)
    decreases i
  {
    if i == 0 then s else Shuffle(Swap(s, i, rolls[i]), rolls, i - 1)
  }

  /** Every card is held exactly once by `drawn` and `cards` together. */
  ghost predicate Partition(drawn: seq<Card>, cards: seq<Card>)
  {
    forall c: Card :: multiset(drawn)[c] + multiset(cards)[c] == 1
  }

  /**
   * Cards dealt and cards left split a full deck: together they are the 52
   * cards, so no card is dealt twice and no dealt card is still in the deck.
   */
  lemma SplitOfFullDeck(drawn: seq<Card>, cards: seq<Card>)
    requires Partition(drawn, cards)
    ensures multiset(drawn) + multiset(cards) == multiset(StandardOrder())
    ensures |drawn| + |cards| == 52
    ensures Distinct(drawn) && Distinct(cards)
    ensures forall c :: c in drawn ==> c !in cards
  {
    StandardOrderIsFullDeck();
    forall c: Card ensures (multiset(drawn) + multiset(cards))[c] == multiset(StandardOrder())[c] {
      assert multiset(drawn)[c] + multiset(cards)[c] == 1;
    }
    assert multiset(drawn) + multiset(cards) == multiset(StandardOrder());
    assert |multiset(drawn) + multiset(cards)| == |multiset(StandardOrder())|;
    forall c: Card ensures multiset(drawn)[c] <= 1 && multiset(cards)[c] <= 1 {
      assert multiset(drawn)[c] + multiset(cards)[c] == 1;
    }
    CountsBelowTwoDistinct(drawn);
    CountsBelowTwoDistinct(cards);
    forall c | c in drawn ensures c !in cards {
      assert multiset(drawn)[c] + multiset(cards)[c] == 1;
    }
  }

  /** A reordering of the standard order, with nothing dealt yet, holds every card once. */
  lemma FreshDeckPartition(cards: seq<Card>)
    requires multiset(cards) == multiset(StandardOrder())
    ensures Partition([], cards)
  {
    StandardOrderIsFullDeck();
    forall c: Card ensures multiset([])[c] + multiset(cards)[c] == 1 {
      assert multiset(cards)[c] == multiset(StandardOrder())[c];
    }
  }

  /** The constructor's two loops: suits 0 to 3, and within each suit ranks 2 to 14. */
  method BuildCards() returns (built: seq<Card>)
    ensures built == StandardOrder()
  {
    built := [];
    for s := 0 to 4
      invariant built == StandardOrder()[..13 * s]
    {
      for r := 2 to 15
        invariant built == StandardOrder()[..13 * s + r - 2]
      {
        PositionOf(s, r);
        built := built + [Card(r, SuitOf(s))];
      }
    }
  }

  lemma PositionOf(s: int, r: int)
    requires 0 <= s < 4 && 2 <= r <= 14
    ensures (13 * s + r - 2) % 13 == r - 2 && (13 * s + r - 2) / 13 == s
  {
  }

  class Deck {
    /** The cards still in the deck; the back is the next one dealt. */
    var cards: seq<Card>
    /** The cards dealt so far, in the order they were dealt. */
    ghost var drawn: seq<Card>

    /** Each of the 52 cards is either dealt or still in the deck, exactly once. */
    ghost predicate Valid()
      reads this
    {
      Partition(drawn, cards)
    }

    /**
     * Pushes the 52 cards suit by suit, ranks Two to Ace, then shuffles them
     * with the engine's `rolls`.
     */
    constructor (rolls: seq<nat>)
      requires RollsFit(rolls, 52)
      ensures Valid() && drawn == [] && |cards| == 52
      ensures cards == Shuffle(StandardOrder(), rolls, |rolls| - 1)
    {
      var built := BuildCards();
      var shuffled := Shuffle(built, rolls, |built| - 1);
      FreshDeckPartition(shuffled);
      cards := shuffled;
      drawn := [];
    }

    /** Takes the card at the back of the deck. An empty deck is not allowed (back() on an empty vector). */
    method Draw() returns (c: Card)
      requires Valid() && |cards| > 0
      modifies this
      ensures Valid()
      ensures c == old(cards)[|old(cards)| - 1]
      ensures cards == old(cards)[..|old(cards)| - 1]
      ensures drawn == old(drawn) + [c]
    {
      c := cards[|cards| - 1];
      assert cards == cards[..|cards| - 1] + [c];
      assert multiset(cards) == multiset(cards[..|cards| - 1]) + multiset{c};
      cards := cards[..|cards| - 1];
      drawn := drawn + [c];
    }
  }
}
