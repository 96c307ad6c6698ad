/**
 * What evaluateFive promises: the category it picks agrees with the poker
 * definitions stated through rank counts, and each tie-break vector lists the
 * ranks that define the hand, then its kickers.
 */
module HandProperties {
  import opened Cards
  import opened Ranking
  import opened RankCounts
  import opened HandEvaluator

  /** Sorting five cards yields five ranks in range, highest first, with the hand's ranks. */
  lemma SortedRanksSpec(hand: seq<Card>)
    requires |hand| == 5
    ensures FiveSorted(SortedRanks(hand))
    ensures multiset(SortedRanks(hand)) == multiset(Ranks(hand))
  {
    SortByRankSpec(hand);
    assert |SortByRank(hand)| == |multiset(hand)| == 5;
    RanksPermutation(SortByRank(hand), hand);
  }

  /** "Some rank occurs n times" is "some entry of the frequency list has count n". */
  lemma OfAKindInFrequencies(rs: seq<int>, n: nat)
    requires InRankRange(rs)
    ensures HasOfAKind(rs, n) <==>
      exists i :: 0 <= i < |Frequencies(rs)| && Frequencies(rs)[i].count == n
  {
    var f := Frequencies(rs);
    FrequenciesSpec(rs);
    if HasOfAKind(rs, n) {
      var x :| x in rs && Count(rs, x) == n;
      assert Describes(rs, Group(x, n));
      var i :| 0 <= i < |f| && f[i] == Group(x, n);
    }
    if exists i :: 0 <= i < |f| && f[i].count == n {
      var i :| 0 <= i < |f| && f[i].count == n;
      assert f[i] in f;
    }
  }

  /** Two pairs of different ranks show up as two entries with count 2. */
  lemma TwoPairInFrequencies(rs: seq<int>)
    requires InRankRange(rs)
    ensures HasTwoPair(rs) <==>
      exists i, j :: 0 <= i < |Frequencies(rs)| && 0 <= j < |Frequencies(rs)| && i != j &&
        Frequencies(rs)[i].count == 2 && Frequencies(rs)[j].count == 2
  {
    var f := Frequencies(rs);
    FrequenciesSpec(rs);
    if HasTwoPair(rs) {
      var x, y :| x in rs && y in rs && x != y && Count(rs, x) == 2 && Count(rs, y) == 2;
      assert Describes(rs, Group(x, 2)) && Describes(rs, Group(y, 2));
      var i :| 0 <= i < |f| && f[i] == Group(x, 2);
      var j :| 0 <= j < |f| && f[j] == Group(y, 2);
    }
    if exists i, j :: 0 <= i < |f| && 0 <= j < |f| && i != j && f[i].count == 2 && f[j].count == 2 {
      var i, j :| 0 <= i < |f| && 0 <= j < |f| && i != j && f[i].count == 2 && f[j].count == 2;
      assert f[i] in f && f[j] in f;
      SortedRanksDistinct(f, rs, i, j);
    }
  }

  /** Given a straight flush, "highest card Ace and lowest Ten" is exactly A-K-Q-J-10. */
  lemma RoyalTest(rs: seq<int>)
    requires FiveSorted(rs) && IsStraight(rs)
    ensures (rs[0] == Ace && rs[4] == Ten) <==> rs == Broadway
  {
    if rs != Wheel && rs[0] == Ace {
      assert rs == [rs[0], rs[1], rs[2], rs[3], rs[4]];
    }
  }

  /** The first entry of a sorted frequency list has the largest count. */
  lemma TopCountIsLargest(f: seq<Group>)
    requires StrictlySorted(f)
    ensures forall i :: 0 <= i < |f| ==> f[i].count <= f[0].count
  {
    forall i | 0 < i < |f| ensures f[i].count <= f[0].count {
      assert Before(f[0], f[i]);
    }
  }

  /** Some entry of the frequency list has count `n`. */
  predicate SomeCount(f: seq<Group>, n: nat)
  {
    exists i :: 0 <= i < |f| && f[i].count == n
  }

  /** Two different entries of the frequency list have count 2. */
  predicate TwoPairCounts(f: seq<Group>)
  {
    exists i, j :: 0 <= i < |f| && 0 <= j < |f| && i != j && f[i].count == 2 && f[j].count == 2
  }

  /** On a five-card frequency list, the chain's tests on the first two entries see every count there is. */
  lemma CountTests(f: seq<Group>)
    requires FiveCardShape(f)
    ensures |f| >= 1
    ensures f[0].count == 4 <==> SomeCount(f, 4)
    ensures f[0].count == 3 <==> SomeCount(f, 3)
    ensures f[0].count == 3 ==> |f| >= 2 && (f[1].count == 2 <==> SomeCount(f, 2))
    ensures f[0].count != 3 ==> (f[0].count == 2 <==> SomeCount(f, 2))
    ensures f[0].count == 2 ==> |f| >= 2 && (f[1].count == 2 <==> TwoPairCounts(f))
    ensures f[0].count != 2 ==> !TwoPairCounts(f)
  {
    FiveCardPartitions(f);
    TopCountIsLargest(f);
    if CountsAre(f, [5]) {
      ChainTestsSingle(f);
    } else if CountsAre(f, [4, 1]) {
      assert f[0].count == 4 && f[1].count == 1;
    } else if CountsAre(f, [3, 2]) {
      assert f[0].count == 3 && f[1].count == 2;
    } else if CountsAre(f, [3, 1, 1]) {
      assert f[0].count == 3 && f[1].count == 1 && f[2].count == 1;
    } else if CountsAre(f, [2, 2, 1]) {
      assert f[0].count == 2 && f[1].count == 2 && f[2].count == 1;
    } else if CountsAre(f, [2, 1, 1, 1]) {
      assert f[0].count == 2 && f[1].count == 1 && f[2].count == 1 && f[3].count == 1;
      forall i | 1 <= i < |f| ensures f[i].count == 1 {
      }
    } else {
      assert f[0].count == 1;
    }
  }

  /** The facts the chain's tests on `freq[0]` and `freq[1]` stand for. */
  lemma ChainTests(rs: seq<int>)
    requires InRankRange(rs) && |rs| == 5
    ensures FiveCardShape(Frequencies(rs))
    ensures var f := Frequencies(rs);
      && (f[0].count == 4 <==> HasOfAKind(rs, 4))
      && (f[0].count == 3 <==> HasOfAKind(rs, 3))
      && (f[0].count == 3 ==> |f| >= 2 && (f[1].count == 2 <==> HasOfAKind(rs, 2)))
      && (f[0].count != 3 ==> (f[0].count == 2 <==> HasOfAKind(rs, 2)))
      && (f[0].count == 2 ==> |f| >= 2 && (f[1].count == 2 <==> HasTwoPair(rs)))
      && (f[0].count != 2 ==> !HasTwoPair(rs))
  {
    var f := Frequencies(rs);
    FrequenciesShape(rs);
    CountTests(f);
    OfAKindInFrequencies(rs, 4);
    OfAKindInFrequencies(rs, 3);
    OfAKindInFrequencies(rs, 2);
    TwoPairInFrequencies(rs);
  }

  lemma ChainTestsSingle(f: seq<Group>)
    requires CountsAre(f, [5])
    ensures |f| == 1 && f[0].count == 5
  {
  }

  /**
   * The first-match chain over positions in the frequency list picks the same
   * category as the poker definitions over rank counts.
   */
  lemma ClassifyIsPokerCategory(rs: seq<int>, flush: bool)
    requires FiveSorted(rs)
    ensures FiveCardShape(Frequencies(rs))
    ensures Classify(rs, flush, IsStraight(rs), Frequencies(rs)).handType == PokerCategory(rs, flush)
  {
    ChainTests(rs);
    if flush && IsStraight(rs) {
      RoyalTest(rs);
    }
  }

  /**
   * The tie-break vector of every category: the ranks that make the hand, by
   * count and then by rank, followed by the kickers from high to low; a flush
   * or high card lists all five ranks; any straight lists only its top card.
   */
  lemma ClassifyTieBreaks(rs: seq<int>, flush: bool)
    requires FiveSorted(rs)
    ensures FiveCardShape(Frequencies(rs))
    ensures var r := Classify(rs, flush, IsStraight(rs), Frequencies(rs)); var v := r.values;
      && (r.handType in {RoyalFlush, StraightFlush, Straight} ==> v == [rs[0]])
      && (r.handType in {Flush, HighCard} ==> v == rs)
      && (r.handType == FourOfAKind ==> |v| == 2 && Count(rs, v[0]) == 4 && Count(rs, v[1]) == 1)
      && (r.handType == FullHouse ==> |v| == 2 && Count(rs, v[0]) == 3 && Count(rs, v[1]) == 2)
      && (r.handType == ThreeOfAKind ==>
            |v| == 3 && Count(rs, v[0]) == 3 && Count(rs, v[1]) == 1 && Count(rs, v[2]) == 1 && v[1] > v[2])
      && (r.handType == TwoPair ==>
            |v| == 3 && Count(rs, v[0]) == 2 && Count(rs, v[1]) == 2 && v[0] > v[1] && Count(rs, v[2]) == 1)
      && (r.handType == OnePair ==>
            |v| == 4 && Count(rs, v[0]) == 2 && Count(rs, v[1]) == 1 && Count(rs, v[2]) == 1 &&
            Count(rs, v[3]) == 1 && v[1] > v[2] > v[3])
  {
    GroupFacts(rs);
  }

  /**
   * What the chain reads from the frequency list of five sorted ranks: its
   * shape, each entry's count in the hand, and the rank order within a count.
   */
  lemma GroupFacts(rs: seq<int>)
    requires FiveSorted(rs)
    ensures var f := Frequencies(rs);
      && FiveCardShape(f)
      && (CountsAre(f, [5]) || CountsAre(f, [4, 1]) || CountsAre(f, [3, 2]) || CountsAre(f, [3, 1, 1])
          || CountsAre(f, [2, 2, 1]) || CountsAre(f, [2, 1, 1, 1]) || CountsAre(f, [1, 1, 1, 1, 1]))
      && (forall i :: 0 <= i < |f| ==> Count(rs, f[i].rank) == f[i].count)
      && (|f| >= 3 ==> Before(f[0], f[1]) && Before(f[1], f[2]))
      && (|f| >= 4 ==> Before(f[2], f[3]))
  {
    var f := Frequencies(rs);
    FrequenciesSpec(rs);
    FrequenciesShape(rs);
    FiveCardPartitions(f);
    forall i | 0 <= i < |f| ensures Count(rs, f[i].rank) == f[i].count {
      assert f[i] in f;
    }
    if |f| >= 3 {
      assert Before(f[0], f[1]) && Before(f[1], f[2]);
    }
    if |f| >= 4 {
      assert Before(f[2], f[3]);
    }
  }

  /** evaluateFive's category is the poker category of the hand's sorted ranks and suits. */
  lemma EvaluateCategory(hand: seq<Card>)
    requires |hand| == 5
    ensures Evaluate(hand).handType == PokerCategory(SortedRanks(hand), AllSameSuit(hand))
  {
    SortedRanksSpec(hand);
    ClassifyIsPokerCategory(SortedRanks(hand), AllSameSuit(hand));
  }

  /** Royal flush exactly for A-K-Q-J-10 of one suit. */
  lemma RoyalIffBroadway(hand: seq<Card>)
    requires |hand| == 5
    ensures Evaluate(hand).handType == RoyalFlush <==> AllSameSuit(hand) && SortedRanks(hand) == Broadway
  {
    EvaluateCategory(hand);
    BroadwayIsStraight();
  }

  lemma BroadwayIsStraight()
    ensures IsStraight(Broadway)
  {
    assert Broadway[0] == Broadway[1] + 1 && Broadway[1] == Broadway[2] + 1;
    assert Broadway[2] == Broadway[3] + 1 && Broadway[3] == Broadway[4] + 1;
  }

  /** In a strictly decreasing sequence every value occurs once. */
  lemma {:induction false} StrictlyDecreasingCounts(rs: seq<int>)
    requires forall i, j :: 0 <= i < j < |rs| ==> rs[i] > rs[j]
    ensures forall x :: x in rs ==> Count(rs, x) == 1
  {
    if rs != [] {
      StrictlyDecreasingCounts(rs[1..]);
      assert rs == [rs[0]] + rs[1..];
      assert multiset(rs) == multiset{rs[0]} + multiset(rs[1..]);
      assert rs[0] !in rs[1..];
    }
  }

  /** A straight has five different ranks. */
  lemma StraightHasNoRepeats(rs: seq<int>)
    requires FiveSorted(rs) && IsStraight(rs)
    ensures !HasOfAKind(rs, 4) && !HasOfAKind(rs, 3) && !HasOfAKind(rs, 2)
  {
    StraightIsRun(rs);
    StrictlyDecreasingCounts(rs);
  }

  /**
   * Any straight is valued by its first card after sorting: straight flush
   * (royal for A-K-Q-J-10) when suited, plain straight otherwise.
   */
  lemma StraightValue(hand: seq<Card>)
    requires |hand| == 5 && IsStraight(SortedRanks(hand))
    ensures var rs := SortedRanks(hand);
      Evaluate(hand) == EvalResult(
        if !AllSameSuit(hand) then Straight else if rs == Broadway then RoyalFlush else StraightFlush,
        [rs[0]])
  {
    var rs := SortedRanks(hand);
    SortedRanksSpec(hand);
    StraightHasNoRepeats(rs);
    ClassifyIsPokerCategory(rs, AllSameSuit(hand));
    ClassifyTieBreaks(rs, AllSameSuit(hand));
  }

  /** A-5-4-3-2 of one suit is a straight flush, never royal, and its tie-break is the Ace, 14. */
  lemma WheelStraightFlush(hand: seq<Card>)
    requires |hand| == 5 && AllSameSuit(hand) && SortedRanks(hand) == Wheel
    ensures Evaluate(hand) == EvalResult(StraightFlush, [Ace])
  {
    StraightValue(hand);
  }

  /** An unsuited A-5-4-3-2 is a straight whose tie-break is the Ace, 14. */
  lemma UnsuitedWheelValue(hand: seq<Card>)
    requires |hand| == 5 && !AllSameSuit(hand) && SortedRanks(hand) == Wheel
    ensures Evaluate(hand) == EvalResult(Straight, [Ace])
  {
    StraightValue(hand);
  }

  /** An unsuited K-Q-J-10-9 is a straight whose tie-break is the King, 13. */
  lemma UnsuitedKingHighValue(hand: seq<Card>)
    requires |hand| == 5 && !AllSameSuit(hand) && SortedRanks(hand) == [King, Queen, Jack, Ten, 9]
    ensures Evaluate(hand) == EvalResult(Straight, [King])
  {
    assert IsStraight([King, Queen, Jack, Ten, 9]);
    StraightValue(hand);
  }

  /**
   * Because the wheel's tie-break is 14, an unsuited A-5-4-3-2 outranks an
   * unsuited K-Q-J-10-9.
   */
  lemma WheelOutranksKingHighStraight(wheel: seq<Card>, kingHigh: seq<Card>)
    requires |wheel| == 5 && !AllSameSuit(wheel) && SortedRanks(wheel) == Wheel
    requires |kingHigh| == 5 && !AllSameSuit(kingHigh) && SortedRanks(kingHigh) == [King, Queen, Jack, Ten, 9]
    ensures Beats(Evaluate(wheel), Evaluate(kingHigh))
  {
    UnsuitedWheelValue(wheel);
    UnsuitedKingHighValue(kingHigh);
    WheelBeatsKing();
  }

  /** An unsuited A-K-Q-J-10 is a straight whose tie-break is the Ace, 14. */
  lemma UnsuitedBroadwayValue(hand: seq<Card>)
    requires |hand| == 5 && !AllSameSuit(hand) && SortedRanks(hand) == Broadway
    ensures Evaluate(hand) == EvalResult(Straight, [Ace])
  {
    BroadwayIsStraight();
    StraightValue(hand);
  }

  /**
   * With the wheel valued 14, an unsuited A-5-4-3-2 and an unsuited
   * A-K-Q-J-10 evaluate equal: neither beats the other, so they split a pot.
   */
  lemma WheelTiesBroadwayStraight(wheel: seq<Card>, broadway: seq<Card>)
    requires |wheel| == 5 && !AllSameSuit(wheel) && SortedRanks(wheel) == Wheel
    requires |broadway| == 5 && !AllSameSuit(broadway) && SortedRanks(broadway) == Broadway
    ensures Evaluate(wheel) == Evaluate(broadway)
    ensures !Beats(Evaluate(wheel), Evaluate(broadway)) && !Beats(Evaluate(broadway), Evaluate(wheel))
  {
    UnsuitedWheelValue(wheel);
    UnsuitedBroadwayValue(broadway);
    BeatsIrreflexive(Evaluate(wheel));
  }

  lemma WheelBeatsKing()
    ensures Beats(EvalResult(Straight, [Ace]), EvalResult(Straight, [King]))
  {
    assert [Ace][1..] == [];
  }

  /** Every evaluated hand beats the search's starting sentinel {HIGH_CARD, {0}}. */
  lemma EveryHandBeatsSentinel(hand: seq<Card>)
    requires |hand| == 5
    ensures Beats(Evaluate(hand), Sentinel)
  {
    SortedRanksSpec(hand);
    ClassifyTieBreaks(SortedRanks(hand), AllSameSuit(hand));
    SentinelLoses(Evaluate(hand));
  }

  /** The evaluation depends on which five cards are held, not on their order. */
  lemma EvaluateIgnoresOrder(h1: seq<Card>, h2: seq<Card>)
    requires |h1| == 5 && multiset(h1) == multiset(h2)
    ensures |h2| == 5 && Evaluate(h1) == Evaluate(h2)
  {
    assert |h2| == |multiset(h2)| == 5;
    SortByRankSpec(h2);
    assert multiset(SortByRank(h2)) == multiset(h1);
    SortedRanksUnique(SortByRank(h2), h1);
    SameSuitPermutation(h1, h2);
  }

  /** A straight is five distinct ranks spanning four steps, or the wheel. */
  lemma StraightIsRun(rs: seq<int>)
    requires FiveSorted(rs)
    ensures IsStraight(rs) <==>
      (rs[0] > rs[1] > rs[2] > rs[3] > rs[4] && rs[0] - rs[4] == 4) || rs == Wheel
  {
    assert rs[0] >= rs[1] >= rs[2] >= rs[3] >= rs[4];
  }
}
