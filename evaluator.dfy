/**
 * Classification of a five-card hand: flush and straight checks, the rank
 * frequency table, and the priority chain that picks the category and the
 * tie-break values.
 */
module HandEvaluator {
  import opened Cards
  import opened Ranking
  import opened RankCounts

  /** The ranks of a hand, position by position. */
  function Ranks(hand: seq<Card>): (rs: seq<int>)
    ensures |rs| == |hand| && forall i :: 0 <= i < |hand| ==> rs[i] == hand[i].rank
  {
    seq(|hand|, i requires 0 <= i < |hand| => hand[i].rank as int)
  }

  predicate SortedByRank(hand: seq<Card>)
  {
    forall i, j :: 0 <= i < j < |hand| ==> hand[i].rank >= hand[j].rank
  }

  predicate SortedDesc(rs: seq<int>)
  {
    forall i, j :: 0 <= i < j < |rs| ==> rs[i] >= rs[j]
  }

  /** Five ranks in range, highest first: what the chain reads after sorting. */
  predicate FiveSorted(rs: seq<int>)
  {
    |rs| == 5 && SortedDesc(rs) && InRankRange(rs)
  }

  /** Every card has the suit of the first card. */
  predicate AllSameSuit(hand: seq<Card>)
  {
    forall i :: 0 <= i < |hand| ==> hand[i].suit == hand[0].suit
  }

  /** Consecutive ranks one apart, or exactly A-5-4-3-2 (the wheel). */
  predicate IsStraight(rs: seq<int>)
    requires |rs| == 5
  {
    (forall i :: 0 <= i < 4 ==> rs[i] == rs[i + 1] + 1) || rs == [Ace, Five, Four, Three, Two]
  }

  /** Some rank of the hand occurs exactly `n` times. */
  predicate HasOfAKind(rs: seq<int>, n: nat)
  {
    exists x :: x in rs && Count(rs, x) == n
  }

  /** Two different ranks of the hand occur exactly twice each. */
  predicate HasTwoPair(rs: seq<int>)
  {
    exists x, y :: x in rs && y in rs && x != y && Count(rs, x) == 2 && Count(rs, y) == 2
  }

  const Broadway: seq<int> := [Ace, King, Queen, Jack, Ten]
  const Wheel: seq<int> := [Ace, Five, Four, Three, Two]

  /**
   * The category of five sorted ranks stated with rank counts rather than with
   * positions in the frequency list: the reference the chain is checked against.
   */
  function PokerCategory(rs: seq<int>, flush: bool): HandRank
    requires |rs| == 5
  {
    var straight := IsStraight(rs);
    if flush && straight then (if rs == Broadway then RoyalFlush else StraightFlush)
    else if HasOfAKind(rs, 4) then FourOfAKind
    else if HasOfAKind(rs, 3) && HasOfAKind(rs, 2) then FullHouse
    else if flush then Flush
    else if straight then Straight
    else if HasOfAKind(rs, 3) then ThreeOfAKind
    else if HasTwoPair(rs) then TwoPair
    else if HasOfAKind(rs, 2) then OnePair
    else HighCard
  }

  /**
   * The priority chain at the end of evaluateFive: `rs` are the sorted ranks,
   * `freq` the sorted frequency list; the first matching category wins.
   */
  function Classify(rs: seq<int>, isFlush: bool, isStraight: bool, freq: seq<Group>): (r: EvalResult)
    requires |rs| == 5 && FiveCardShape(freq)
    ensures (r.handType == RoyalFlush || r.handType == StraightFlush) <==> isFlush && isStraight
    ensures r.handType == Flush ==> isFlush && !isStraight
    ensures r.handType == Straight ==> isStraight && !isFlush
  {
    FiveCardIndices(freq);
    if isFlush && isStraight then
      EvalResult(if rs[0] == Ace && rs[4] == Ten then RoyalFlush else StraightFlush, [rs[0]])
    else if freq[0].count == 4 then
      EvalResult(FourOfAKind, [freq[0].rank, freq[1].rank])
    else if freq[0].count == 3 && freq[1].count == 2 then
      EvalResult(FullHouse, [freq[0].rank, freq[1].rank])
    else if isFlush then
      EvalResult(Flush, rs)
    else if isStraight then
      EvalResult(Straight, [rs[0]])
    else if freq[0].count == 3 then
      EvalResult(ThreeOfAKind, [freq[0].rank, freq[1].rank, freq[2].rank])
    else if freq[0].count == 2 && freq[1].count == 2 then
      EvalResult(TwoPair, [freq[0].rank, freq[1].rank, freq[2].rank])
    else if freq[0].count == 2 then
      EvalResult(OnePair, [freq[0].rank, freq[1].rank, freq[2].rank, freq[3].rank])
    else
      EvalResult(HighCard, rs)
  }

  // ---------------------------------------------------------------------------
  // Sorting by rank

  function Insert(c: Card, s: seq<Card>): seq<Card>
  {
    if s == [] || c.rank >= s[0].rank then [c] + s else [s[0]] + Insert(c, s[1..])
  }

  /** A fixed arrangement of the hand by descending rank (insertion sort). */
  function SortByRank(hand: seq<Card>): seq<Card>
  {
    if hand == [] then [] else Insert(hand[0], SortByRank(hand[1..]))
  }

  /** The hand's ranks, highest first. */
  function SortedRanks(hand: seq<Card>): (rs: seq<int>)
    ensures |rs| == |hand|
  {
    SortByRankSpec(hand);
    assert |SortByRank(hand)| == |multiset(hand)|;
    Ranks(SortByRank(hand))
  }

  lemma {:induction false} InsertSpec(c: Card, s: seq<Card>)
    requires SortedByRank(s)
    ensures |Insert(c, s)| == |s| + 1
    ensures Insert(c, s)[0] == c || Insert(c, s)[0] == s[0]
    ensures SortedByRank(Insert(c, s))
    ensures multiset(Insert(c, s)) == multiset{c} + multiset(s)
  {
    if s != [] && c.rank < s[0].rank {
      var tail := s[1..];
      assert SortedByRank(tail) by {
        forall i, j | 0 <= i < j < |tail| ensures tail[i].rank >= tail[j].rank {
          assert tail[i] == s[i + 1] && tail[j] == s[j + 1];
        }
      }
      InsertSpec(c, tail);
      var t := Insert(c, tail);
      assert s[0].rank >= t[0].rank;
      var r := [s[0]] + t;
      assert Insert(c, s) == r;
      forall i, j | 0 <= i < j < |r| ensures r[i].rank >= r[j].rank {
        if i == 0 {
          assert r[j] == t[j - 1];
          assert t[0].rank >= t[j - 1].rank;
        } else {
          assert r[i] == t[i - 1] && r[j] == t[j - 1];
        }
      }
      assert s == [s[0]] + tail;
      assert multiset(s) == multiset{s[0]} + multiset(tail);
    }
  }

  lemma {:induction false} SortByRankSpec(hand: seq<Card>)
    ensures SortedByRank(SortByRank(hand))
    ensures multiset(SortByRank(hand)) == multiset(hand)
  {
    if hand != [] {
      SortByRankSpec(hand[1..]);
      InsertSpec(hand[0], SortByRank(hand[1..]));
      assert hand == [hand[0]] + hand[1..];
    }
  }

  lemma RanksAppend(a: seq<Card>, b: seq<Card>)
    ensures Ranks(a + b) == Ranks(a) + Ranks(b)
  {
  }

  /** Permuting cards permutes their ranks. */
  lemma {:induction false} RanksPermutation(s: seq<Card>, t: seq<Card>)
    requires multiset(s) == multiset(t)
    ensures multiset(Ranks(s)) == multiset(Ranks(t))
    decreases |s|
  {
    if s == [] {
      assert |t| == |multiset(t)| == 0;
    } else {
      var c := s[0];
      assert c in multiset(t);
      var k :| 0 <= k < |t| && t[k] == c;
      var t' := t[..k] + t[k + 1..];
      assert t == t[..k] + [c] + t[k + 1..];
      assert multiset(t) == multiset(t[..k]) + multiset{c} + multiset(t[k + 1..]);
      assert multiset(t') == multiset(t[..k]) + multiset(t[k + 1..]);
      assert s == [c] + s[1..];
      assert multiset(s) == multiset{c} + multiset(s[1..]);
      assert multiset(s[1..]) == multiset(s) - multiset{c};
      assert multiset(t') == multiset(t) - multiset{c};
      RanksPermutation(s[1..], t');
      RanksAppend(t[..k] + [c], t[k + 1..]);
      RanksAppend(t[..k], [c]);
      RanksAppend(t[..k], t[k + 1..]);
      RanksAppend([c], s[1..]);
    }
  }

  /** Two descending sequences holding the same ranks are equal. */
  lemma {:induction false} SortedDescUnique(a: seq<int>, b: seq<int>)
    requires SortedDesc(a) && SortedDesc(b) && multiset(a) == multiset(b)
    ensures a == b
    decreases |a|
  {
    assert |a| == |multiset(a)| == |multiset(b)| == |b|;
    if a != [] {
      assert a[0] in multiset(b) && b[0] in multiset(a);
      assert a[0] == b[0];
      assert a == [a[0]] + a[1..] && b == [b[0]] + b[1..];
      assert multiset(a) == multiset{a[0]} + multiset(a[1..]);
      assert multiset(b) == multiset{b[0]} + multiset(b[1..]);
      assert multiset(a[1..]) == multiset(a) - multiset{a[0]};
      assert multiset(b[1..]) == multiset(b) - multiset{b[0]};
      SortedDescUnique(a[1..], b[1..]);
    }
  }

  /** However std::sort arranges cards of equal rank, the sorted ranks are the same. */
  lemma SortedRanksUnique(sorted: seq<Card>, hand: seq<Card>)
    requires SortedByRank(sorted) && multiset(sorted) == multiset(hand)
    ensures Ranks(sorted) == SortedRanks(hand)
  {
    SortByRankSpec(hand);
    RanksPermutation(sorted, SortByRank(hand));
    SortedDescUnique(Ranks(sorted), SortedRanks(hand));
  }

  lemma SameSuitPermutation(s: seq<Card>, t: seq<Card>)
    requires multiset(s) == multiset(t)
    ensures AllSameSuit(s) == AllSameSuit(t)
  {
    SameSuitSubset(s, t);
    SameSuitSubset(t, s);
  }

  lemma SameSuitSubset(s: seq<Card>, t: seq<Card>)
    requires multiset(s) == multiset(t)
    ensures AllSameSuit(s) ==> AllSameSuit(t)
  {
    if AllSameSuit(s) && |t| > 0 {
      forall i | 0 <= i < |t| ensures t[i].suit == s[0].suit {
        assert t[i] in multiset(t);
        var j :| 0 <= j < |s| && s[j] == t[i];
      }
    }
  }

  // ---------------------------------------------------------------------------
  // The evaluation itself

  /** The value evaluateFive returns for a five-card hand. */
  function Evaluate(hand: seq<Card>): (r: EvalResult)
    requires |hand| == 5
    ensures (r.handType == RoyalFlush || r.handType == StraightFlush) <==>
      AllSameSuit(hand) && IsStraight(SortedRanks(hand))
    ensures r.handType == Flush ==> AllSameSuit(hand) && !IsStraight(SortedRanks(hand))
    ensures r.handType == Straight ==> IsStraight(SortedRanks(hand)) && !AllSameSuit(hand)
  {
    var rs := SortedRanks(hand);
    SortByRankSpec(hand);
    assert |SortByRank(hand)| == |multiset(hand)| == 5;
    FrequenciesShape(rs);
    Classify(rs, AllSameSuit(hand), IsStraight(rs), Frequencies(rs))
  }

  /** checkFlush: true iff every card has the suit of the first. */
  method CheckFlush(hand: seq<Card>) returns (b: bool)
    ensures b == AllSameSuit(hand)
  {
    var i := 1;
    while i < |hand|
      invariant 1 <= i
      invariant forall k :: 1 <= k < i && k < |hand| ==> hand[k].suit == hand[0].suit
    {
      if hand[i].suit != hand[0].suit {
        return false;
      }
      i := i + 1;
    }
    return true;
  }

  /** checkStraight on five cards sorted by descending rank. */
  method CheckStraight(hand: seq<Card>) returns (b: bool)
    requires |hand| == 5
    ensures b == IsStraight(Ranks(hand))
  {
    var isNormalStraight := true;
    var i := 0;
    while i < |hand| - 1
      invariant 0 <= i <= |hand| - 1
      invariant isNormalStraight
      invariant forall k :: 0 <= k < i ==> hand[k].rank == hand[k + 1].rank + 1
    {
      if hand[i].rank != hand[i + 1].rank + 1 {
        assert Ranks(hand)[i] != Ranks(hand)[i + 1] + 1;
        isNormalStraight := false;
        break;
      }
      i := i + 1;
    }
    if isNormalStraight {
      return true;
    }
    assert !(forall k :: 0 <= k < 4 ==> Ranks(hand)[k] == Ranks(hand)[k + 1] + 1);
    if hand[0].rank == Ace && hand[1].rank == Five && hand[2].rank == Four &&
       hand[3].rank == Three && hand[4].rank == Two {
      return true;
    }
    return false;
  }

  predicate NoDuplicates(s: seq<Group>)
  {
    forall i, j :: 0 <= i < j < |s| ==> s[i] != s[j]
  }

  lemma {:induction false} NoDuplicatesMultiset(s: seq<Group>, g: Group)
    requires NoDuplicates(s)
    ensures multiset(s)[g] == if g in s then 1 else 0
  {
    if s != [] {
      assert s == [s[0]] + s[1..];
      NoDuplicatesMultiset(s[1..], g);
      if g == s[0] {
        assert g !in s[1..];
      }
    }
  }

  /** The loop `counts[c.rank]++` over the sorted hand. */
  method CountRanks(hand: seq<Card>) returns (counts: map<int, nat>)
    ensures forall x :: x in counts <==> x in Ranks(hand)
    ensures forall x :: x in counts ==> counts[x] == Count(Ranks(hand), x)
  {
    var rs := Ranks(hand);
    counts := map[];
    for i := 0 to |hand|
      invariant forall x :: x in counts <==> x in rs[..i]
      invariant forall x :: x in counts ==> counts[x] == Count(rs[..i], x)
    {
      assert rs[..i + 1] == rs[..i] + [hand[i].rank];
      var k := hand[i].rank as int;
      counts := counts[k := if k in counts then counts[k] + 1 else 1];
    }
    assert rs[..|hand|] == rs;
  }

  /** Copying the map into `freq`: std::map visits its ranks in ascending order. */
  method CollectGroups(counts: map<int, nat>, ghost rs: seq<int>) returns (freq: seq<Group>)
    requires InRankRange(rs)
    requires forall x :: x in counts <==> x in rs
    requires forall x :: x in counts ==> counts[x] == Count(rs, x)
    ensures Lists(freq, rs)
    ensures NoDuplicates(freq)
  {
    freq := [];
    for k := 2 to 15
      invariant forall g :: g in freq <==> Describes(rs, g) && g.rank < k
      invariant forall i :: 0 <= i < |freq| ==> freq[i].rank < k
      invariant forall i, j :: 0 <= i < j < |freq| ==> freq[i].rank < freq[j].rank
    {
      if k in counts {
        freq := freq + [Group(k, counts[k])];
      }
    }
    forall g | Describes(rs, g) ensures g.rank < 15 {
      var i :| 0 <= i < |rs| && rs[i] == g.rank;
    }
  }

  /** The sorted frequency list equals the reference list `Frequencies`. */
  lemma SortedGroupsAreFrequencies(ordered: seq<Group>, freq: seq<Group>, rs: seq<int>)
    requires InRankRange(rs) && Lists(freq, rs) && NoDuplicates(freq)
    requires StrictlySorted(ordered) && multiset(ordered) == multiset(freq)
    ensures ordered == Frequencies(rs)
  {
    FrequenciesSpec(rs);
    var expected := Frequencies(rs);
    forall g ensures g in ordered <==> g in expected {
      assert g in ordered <==> g in multiset(ordered);
    }
    SortedUnique(ordered, expected);
  }

  /** A sorted arrangement of a duplicate-free frequency list exists. */
  lemma SortedGroupsExist(freq: seq<Group>, rs: seq<int>)
    requires InRankRange(rs) && Lists(freq, rs) && NoDuplicates(freq)
    ensures StrictlySorted(Frequencies(rs)) && multiset(Frequencies(rs)) == multiset(freq)
  {
    FrequenciesSpec(rs);
    var expected := Frequencies(rs);
    forall g ensures multiset(expected)[g] == multiset(freq)[g] {
      NoDuplicatesMultiset(expected, g);
      NoDuplicatesMultiset(freq, g);
    }
  }

  /** evaluateFive: sort, check flush and straight, count ranks, sort the counts, classify. */
  method EvaluateFive(hand: seq<Card>) returns (r: EvalResult)
    requires |hand| == 5
    ensures r == Evaluate(hand)
  {
    SortByRankSpec(hand);
    // std::sort by descending rank; cards of equal rank may end up in any order.
    var sorted: seq<Card> :| SortedByRank(sorted) && multiset(sorted) == multiset(hand);
    assert |sorted| == |multiset(sorted)| == 5;
    var isFlush := CheckFlush(sorted);
    var isStraight := CheckStraight(sorted);
    var rs := Ranks(sorted);
    var counts := CountRanks(sorted);
    var freq := CollectGroups(counts, rs);
    // std::sort of freq by (count desc, rank desc).
    SortedGroupsExist(freq, rs);
    var ordered: seq<Group> :| StrictlySorted(ordered) && multiset(ordered) == multiset(freq);
    SortedGroupsAreFrequencies(ordered, freq, rs);
    SortedRanksUnique(sorted, hand);
    SameSuitPermutation(sorted, hand);
    FrequenciesShape(rs);
    r := Classify(rs, isFlush, isStraight, ordered);
  }
}
