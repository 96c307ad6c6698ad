/**
 * One hand as main plays it: blinds, the deal of two hole cards each and a
 * five-card board, each player's best five of seven, the winners (all players
 * tied on the best result) and the pot paid to them.
 */
module Showdown {
  import opened Cards
  import opened Ranking
  import opened BestFive
  import opened Decks

  const StartingChips := 1000
  const SmallBlind := 10
  const BigBlind := 20

  /** The positions of `results` holding a result equal to `b` (operator==), in increasing order. */
  function Tied(results: seq<EvalResult>, b: EvalResult): (w: seq<nat>)
    ensures forall k :: 0 <= k < |w| ==> w[k] < |results| && results[w[k]] == b
    ensures forall i :: 0 <= i < |results| && results[i] == b ==> i in w
    ensures forall k, l :: 0 <= k < l < |w| ==> w[k] < w[l]
  {
    if results == [] then []
    else
      var n := |results| - 1;
      Tied(results[..n], b) + (if results[n] == b then [n] else [])
  }

  /** There are at most as many tied positions as results. */
  lemma {:induction false} TiedLength(results: seq<EvalResult>, b: EvalResult)
    ensures |Tied(results, b)| <= |results|
  {
    if results != [] {
      TiedLength(results[..|results| - 1], b);
    }
  }

  /** Extending the results by one adds its position to the tie list exactly when it equals `b`. */
  lemma TiedSnoc(results: seq<EvalResult>, i: nat, b: EvalResult)
    requires i < |results|
    ensures Tied(results[..i + 1], b) == Tied(results[..i], b) + (if results[i] == b then [i] else [])
  {
    assert results[..i + 1][..i] == results[..i];
  }

  /** A result that occurs nowhere has no ties. */
  lemma {:induction false} TiedAbsent(results: seq<EvalResult>, b: EvalResult)
    requires b !in results
    ensures Tied(results, b) == []
  {
    if results != [] {
      var n := |results| - 1;
      assert b !in results[..n] by {
        forall k | 0 <= k < n ensures results[..n][k] != b {
          assert results[..n][k] == results[k];
        }
      }
      TiedAbsent(results[..n], b);
    }
  }

  /** `best` occurs in `results` and no result beats it. */
  predicate IsMaximum(results: seq<EvalResult>, best: EvalResult)
  {
    best in results && forall r :: r in results ==> !Beats(r, best)
  }

  /**
   * One step of the winner loop keeps `best` the maximum: a result beating it
   * takes its place and occurs nowhere before; any other leaves it in place.
   */
  lemma MaximumSnoc(prefix: seq<EvalResult>, best: EvalResult, r: EvalResult)
    requires IsMaximum(prefix, best)
    ensures Beats(r, best) ==> IsMaximum(prefix + [r], r) && r !in prefix
    ensures !Beats(r, best) ==> IsMaximum(prefix + [r], best)
  {
    if Beats(r, best) {
      forall q | q in prefix + [r] ensures !Beats(q, r) {
        if q == r {
          BeatsIrreflexive(r);
        } else if Beats(q, r) {
          BeatsTransitive(q, r, best);
        }
      }
      BeatsIrreflexive(best);
    }
  }

  /**
   * The winner loop of main: a result that beats the best so far restarts the
   * winner list with its position; one equal to it joins the list.
   */
  method SelectWinners(results: seq<EvalResult>) returns (bestHand: EvalResult, winners: seq<nat>)
    requires |results| > 0
    ensures IsMaximum(results, bestHand)
    ensures winners == Tied(results, bestHand)
  {
    bestHand := results[0];
    winners := [0];
    assert results[..1] == [results[0]];
    BeatsIrreflexive(bestHand);
    for i := 1 to |results|
      invariant IsMaximum(results[..i], bestHand)
      invariant winners == Tied(results[..i], bestHand)
    {
      var r := results[i];
      WinnerStep(results, i, bestHand);
      if Beats(r, bestHand) {
        bestHand := r;
        winners := [i];
      } else if r == bestHand {
        winners := winners + [i];
      }
    }
    assert results[..|results|] == results;
  }

  /**
   * One round of the winner loop: a result that beats the maximum so far is
   * the new maximum and the only position tied with it; otherwise the maximum
   * stays and the position joins the ties when it is equal.
   */
  lemma WinnerStep(results: seq<EvalResult>, i: nat, best: EvalResult)
    requires i < |results| && IsMaximum(results[..i], best)
    ensures Beats(results[i], best) ==>
      IsMaximum(results[..i + 1], results[i]) && Tied(results[..i + 1], results[i]) == [i]
    ensures !Beats(results[i], best) ==>
      IsMaximum(results[..i + 1], best) &&
      Tied(results[..i + 1], best) == Tied(results[..i], best) + (if results[i] == best then [i] else [])
  {
    var r := results[i];
    assert results[..i + 1] == results[..i] + [r];
    MaximumSnoc(results[..i], best, r);
    if Beats(r, best) {
      TiedSnoc(results, i, r);
      TiedAbsent(results[..i], r);
    } else {
      TiedSnoc(results, i, best);
    }
  }

  /** The winners are exactly the players whose result no other result beats. */
  lemma WinnersAreUnbeaten(results: seq<EvalResult>, bestHand: EvalResult, i: nat)
    requires IsMaximum(results, bestHand) && i < |results|
    ensures i in Tied(results, bestHand) <==> forall j :: 0 <= j < |results| ==> !Beats(results[j], results[i])
  {
    if forall j :: 0 <= j < |results| ==> !Beats(results[j], results[i]) {
      var k :| 0 <= k < |results| && results[k] == bestHand;
      BeatsTrichotomy(results[i], bestHand);
    } else {
      var j :| 0 <= j < |results| && Beats(results[j], results[i]);
      assert !Beats(results[j], bestHand) by {
        assert results[j] in results;
      }
    }
  }

  /** What each winner receives: the whole pot for a single winner, otherwise pot / (number of winners), rounded down. */
  function Share(pot: int, n: nat): (s: int)
    requires pot >= 0 && n > 0
    ensures 0 <= s * n <= pot < s * n + n
    ensures n == 1 ==> s == pot
  {
    if n == 1 then pot else pot / n
  }

  function Sum(s: seq<int>): int
  {
    if s == [] then 0 else Sum(s[..|s| - 1]) + s[|s| - 1]
  }

  lemma SumPair(a: int, b: int)
    ensures Sum([a, b]) == a + b
  {
    assert [a][..0] == [];
    assert Sum([a]) == a;
    assert [a, b][..1] == [a];
  }

  /** Adding `x` to one entry adds `x` to the sum. */
  lemma {:induction false} SumUpdate(s: seq<int>, i: nat, x: int)
    requires i < |s|
    ensures Sum(s[i := s[i] + x]) == Sum(s) + x
  {
    var n := |s| - 1;
    var t := s[i := s[i] + x];
    assert t[..n] == if i < n then s[..n][i := s[i] + x] else s[..n];
    if i < n {
      SumUpdate(s[..n], i, x);
    }
  }

  /** `now` is `orig` after the first `k` winners have each received `amount`. */
  predicate PaidUpTo(orig: seq<int>, now: seq<int>, winners: seq<nat>, k: nat, amount: int)
    requires k <= |winners|
  {
    |now| == |orig| &&
    (forall i :: 0 <= i < |now| ==> now[i] == orig[i] + (if i in winners[..k] then amount else 0)) &&
    Sum(now) == Sum(orig) + k * amount
  }

  /** Paying the next winner, who has not been paid yet, extends the payout by one winner. */
  lemma PayStep(orig: seq<int>, now: seq<int>, winners: seq<nat>, k: nat, amount: int)
    requires k < |winners| && winners[k] < |now|
    requires forall a, b :: 0 <= a < b < |winners| ==> winners[a] < winners[b]
    requires PaidUpTo(orig, now, winners, k, amount)
    ensures PaidUpTo(orig, now[winners[k] := now[winners[k]] + amount], winners, k + 1, amount)
  {
    var idx := winners[k];
    assert winners[..k + 1] == winners[..k] + [idx];
    assert idx !in winners[..k];
    SumUpdate(now, idx, amount);
  }

  /**
   * The payout of main: every winner's chips grow by the share; nobody
   * else's change. The winner list holds each position once.
   */
  method AwardPot(chips: array<int>, winners: seq<nat>, pot: int)
    requires pot >= 0 && |winners| > 0
    requires forall k :: 0 <= k < |winners| ==> winners[k] < chips.Length
    requires forall k, l :: 0 <= k < l < |winners| ==> winners[k] < winners[l]
    modifies chips
    ensures forall i :: 0 <= i < chips.Length ==>
      chips[i] == old(chips[i]) + (if i in winners then Share(pot, |winners|) else 0)
    ensures Sum(chips[..]) == Sum(old(chips[..])) + |winners| * Share(pot, |winners|)
  {
    if |winners| == 1 {
      var winnerIdx := winners[0];
      PayStep(chips[..], chips[..], winners, 0, pot);
      chips[winnerIdx] := chips[winnerIdx] + pot;
      assert chips[..] == old(chips[..])[winnerIdx := old(chips[winnerIdx]) + pot];
      PaidAll(old(chips[..]), chips[..], winners, pot);
    } else {
      var splitAmount := pot / |winners|;
      PaySplit(chips, winners, splitAmount);
      PaidAll(old(chips[..]), chips[..], winners, splitAmount);
    }
  }

  /** The split-pot loop of main: each winner in turn receives `amount`. */
  method PaySplit(chips: array<int>, winners: seq<nat>, amount: int)
    requires forall k :: 0 <= k < |winners| ==> winners[k] < chips.Length
    requires forall k, l :: 0 <= k < l < |winners| ==> winners[k] < winners[l]
    modifies chips
    ensures PaidUpTo(old(chips[..]), chips[..], winners, |winners|, amount)
  {
    for k := 0 to |winners|
      invariant PaidUpTo(old(chips[..]), chips[..], winners, k, amount)
    {
      var idx := winners[k];
      ghost var before := chips[..];
      PayStep(old(chips[..]), before, winners, k, amount);
      chips[idx] := chips[idx] + amount;
      assert chips[..] == before[idx := before[idx] + amount];
    }
  }

  /** Once every winner is paid, exactly the winners' entries grew by `amount`. */
  lemma PaidAll(orig: seq<int>, now: seq<int>, winners: seq<nat>, amount: int)
    requires PaidUpTo(orig, now, winners, |winners|, amount)
    ensures |now| == |orig|
    ensures forall i :: 0 <= i < |now| ==> now[i] == orig[i] + (if i in winners then amount else 0)
    ensures Sum(now) == Sum(orig) + |winners| * amount
  {
    assert winners[..|winners|] == winners;
  }

  /** The blinds of main: player 0 posts the small blind, player 1 the big blind, and the pot holds both. */
  method PostBlinds(chips: array<int>) returns (pot: int)
    requires chips.Length == 2
    modifies chips
    ensures chips[0] == old(chips[0]) - SmallBlind && chips[1] == old(chips[1]) - BigBlind
    ensures pot == SmallBlind + BigBlind
    ensures Sum(chips[..]) + pot == Sum(old(chips[..]))
  {
    chips[0] := chips[0] - SmallBlind;
    chips[1] := chips[1] - BigBlind;
    pot := SmallBlind + BigBlind;
    assert chips[..][..1] == [chips[0]];
    assert old(chips[..])[..1] == [old(chips[0])];
  }

  /** The last `m` cards of `cards`, back first: the order in which `m` draws take them. */
  function FromBack(cards: seq<Card>, m: nat): (t: seq<Card>)
    requires m <= |cards|
    ensures |t| == m
    ensures forall k :: 0 <= k < m ==> t[k] == cards[|cards| - 1 - k]
  {
    if m == 0 then [] else FromBack(cards, m - 1) + [cards[|cards| - m]]
  }

  /** A part of a sequence without repeats has none either. */
  lemma DistinctSuffix(a: seq<Card>, b: seq<Card>)
    requires Distinct(a + b)
    ensures Distinct(b)
  {
    forall i, j | 0 <= i < j < |b| ensures b[i] != b[j] {
      assert b[i] == (a + b)[|a| + i] && b[j] == (a + b)[|a| + j];
    }
  }

  /** Cards dealt after `before`, from a deck that keeps the full set, repeat nothing and are gone from what is left. */
  lemma DealtAreFresh(before: seq<Card>, dealt: seq<Card>, cards: seq<Card>)
    requires Partition(before + dealt, cards)
    ensures Distinct(dealt)
    ensures forall c :: c in dealt ==> c !in cards
  {
    SplitOfFullDeck(before + dealt, cards);
    DistinctSuffix(before, dealt);
    forall c | c in dealt ensures c !in cards {
      assert c in before + dealt;
    }
  }

  /** One more draw from the back: what is left shrinks by one card and that card extends the dealt prefix. */
  lemma DrawStep(start: seq<Card>, m: nat)
    requires m < |start|
    ensures start[..|start| - m][|start| - m - 1] == start[|start| - 1 - m]
    ensures start[..|start| - m][..|start| - m - 1] == start[..|start| - m - 1]
    ensures FromBack(start, m + 1) == FromBack(start, m) + [start[|start| - 1 - m]]
  {
  }

  /** Two more draws from the back: the deck loses its last two cards and they extend the dealt cards in that order. */
  lemma DrawTwo(prev: seq<Card>, start: seq<Card>, m: nat)
    requires m + 2 <= |start|
    ensures start[..|start| - m][|start| - m - 1] == start[|start| - 1 - m]
    ensures start[..|start| - m][|start| - m - 2] == start[|start| - 2 - m]
    ensures start[..|start| - m][..|start| - m - 2] == start[..|start| - m - 2]
    ensures prev + FromBack(start, m) + [start[|start| - 1 - m], start[|start| - 2 - m]] == prev + FromBack(start, m + 2)
  {
    DrawStep(start, m);
    DrawStep(start, m + 1);
  }

  /** Taking `a + b` cards from the back is taking `a`, then `b` from what is left. */
  lemma FromBackSplit(s: seq<Card>, a: nat, b: nat)
    requires a + b <= |s|
    ensures FromBack(s, a + b) == FromBack(s, a) + FromBack(s[..|s| - a], b)
  {
    var rest := s[..|s| - a];
    forall k | 0 <= k < a + b ensures FromBack(s, a + b)[k] == (FromBack(s, a) + FromBack(rest, b))[k] {
      if k >= a {
        assert FromBack(rest, b)[k - a] == rest[|rest| - 1 - (k - a)];
      }
    }
  }

  /** One player's hole cards: two draws from the back, the last card first. */
  method DealPair(deck: Deck) returns (pair: seq<Card>)
    requires deck.Valid() && |deck.cards| >= 2
    modifies deck
    ensures deck.Valid()
    ensures pair == [old(deck.cards)[|old(deck.cards)| - 1], old(deck.cards)[|old(deck.cards)| - 2]]
    ensures deck.cards == old(deck.cards)[..|old(deck.cards)| - 2]
    ensures deck.drawn == old(deck.drawn) + pair
  {
    var first := deck.Draw();
    var second := deck.Draw();
    pair := [first, second];
  }

  /** The first round of main's deal: each of the two players takes two cards from the back. */
  method DealHoleCards(deck: Deck) returns (hands: seq<seq<Card>>)
    requires deck.Valid() && |deck.cards| >= 4
    modifies deck
    ensures deck.Valid()
    ensures |hands| == 2 && |hands[0]| == 2 && |hands[1]| == 2
    ensures hands[0] + hands[1] == FromBack(old(deck.cards), 4)
    ensures deck.cards == old(deck.cards)[..|old(deck.cards)| - 4]
    ensures deck.drawn == old(deck.drawn) + (hands[0] + hands[1])
  {
    ghost var start := deck.cards;
    ghost var n := |start|;
    hands := [];
    for p := 0 to 2
      invariant deck.Valid()
      invariant |hands| == p
      invariant hands == HoleHands(start, p)
      invariant deck.cards == start[..n - 2 * p]
      invariant deck.drawn == old(deck.drawn) + FromBack(start, 2 * p)
    {
      DrawTwo(old(deck.drawn), start, 2 * p);
      var pair := DealPair(deck);
      hands := hands + [pair];
    }
    HoleCardsFromBack(start);
  }

  /** The pairs the first `p` players receive from `start`: player q takes the cards at positions 2q and 2q + 1 from the back. */
  function HoleHands(start: seq<Card>, p: nat): (hands: seq<seq<Card>>)
    requires 2 * p <= |start|
    ensures |hands| == p
  {
    if p == 0 then []
    else HoleHands(start, p - 1) + [[start[|start| - 2 * p + 1], start[|start| - 2 * p]]]
  }

  /** Both players' pairs, one after the other, are the last four cards in draw order. */
  lemma HoleCardsFromBack(start: seq<Card>)
    requires |start| >= 4
    ensures |HoleHands(start, 2)[0]| == 2 && |HoleHands(start, 2)[1]| == 2
    ensures HoleHands(start, 2)[0] + HoleHands(start, 2)[1] == FromBack(start, 4)
  {
    assert HoleHands(start, 1) == [[start[|start| - 1], start[|start| - 2]]];
  }

  /** The flop (three cards), the turn and the river, each taken from the back. */
  method DealBoard(deck: Deck) returns (board: seq<Card>)
    requires deck.Valid() && |deck.cards| >= 5
    modifies deck
    ensures deck.Valid()
    ensures board == FromBack(old(deck.cards), 5)
    ensures deck.cards == old(deck.cards)[..|old(deck.cards)| - 5]
    ensures deck.drawn == old(deck.drawn) + board
  {
    ghost var start := deck.cards;
    board := [];
    for i := 0 to 3
      invariant deck.Valid()
      invariant |board| == i && board == FromBack(start, i)
      invariant deck.cards == start[..|start| - i]
      invariant deck.drawn == old(deck.drawn) + board
    {
      DrawStep(start, |board|);
      var c := deck.Draw();
      board := board + [c];
    }
    DrawStep(start, |board|);
    var turn := deck.Draw();
    board := board + [turn];
    DrawStep(start, |board|);
    var river := deck.Draw();
    board := board + [river];
  }

  /**
   * The deal of main: two cards to each of the two players, then the flop,
   * the turn and the river. The nine cards are the last nine of the deck,
   * back first; they are different from each other and none of them is left
   * in the deck.
   */
  method Deal(deck: Deck) returns (hands: seq<seq<Card>>, board: seq<Card>)
    requires deck.Valid() && |deck.cards| >= 9
    modifies deck
    ensures deck.Valid()
    ensures |hands| == 2 && |hands[0]| == 2 && |hands[1]| == 2 && |board| == 5
    ensures hands[0] + hands[1] + board == FromBack(old(deck.cards), 9)
    ensures deck.cards == old(deck.cards)[..|old(deck.cards)| - 9]
    ensures deck.drawn == old(deck.drawn) + (hands[0] + hands[1] + board)
    ensures Distinct(hands[0] + hands[1] + board)
    ensures forall c :: c in hands[0] + hands[1] + board ==> c !in deck.cards
  {
    ghost var start := deck.cards;
    hands := DealHoleCards(deck);
    ghost var afterHoles := deck.cards;
    board := DealBoard(deck);
    FromBackSplit(start, 4, 5);
    assert afterHoles[..|afterHoles| - 5] == start[..|start| - 9];
    ghost var dealt := hands[0] + hands[1] + board;
    assert deck.drawn == old(deck.drawn) + dealt;
    DealtAreFresh(old(deck.drawn), dealt, deck.cards);
  }

  /** Every player's result is the best five of their hole cards and the board. */
  ghost predicate AllBest(hands: seq<seq<Card>>, board: seq<Card>, results: seq<EvalResult>)
    requires |board| == 5 && forall i :: 0 <= i < |hands| ==> |hands[i]| == 2
  {
    |results| == |hands| && forall i :: 0 <= i < |hands| ==> IsBest(hands[i] + board, results[i])
  }

  /** Appending the next player's best result keeps every result so far the best for its player. */
  lemma BestSnoc(hands: seq<seq<Card>>, board: seq<Card>, results: seq<EvalResult>, res: EvalResult)
    requires |board| == 5 && |results| < |hands| && forall q :: 0 <= q < |hands| ==> |hands[q]| == 2
    requires forall q :: 0 <= q < |results| ==> IsBest(hands[q] + board, results[q])
    requires IsBest(hands[|results|] + board, res)
    ensures forall q :: 0 <= q < |results| + 1 ==> IsBest(hands[q] + board, (results + [res])[q])
  {
    forall q | 0 <= q < |results| + 1 ensures IsBest(hands[q] + board, (results + [res])[q]) {
      if q < |results| {
        assert (results + [res])[q] == results[q];
      } else {
        assert (results + [res])[q] == res;
      }
    }
  }

  /** The showdown of main: every player's hole cards with the board, and the best five of those seven. */
  method EvaluatePlayers(hands: seq<seq<Card>>, board: seq<Card>) returns (results: seq<EvalResult>)
    requires |board| == 5 && forall i :: 0 <= i < |hands| ==> |hands[i]| == 2
    ensures AllBest(hands, board, results)
  {
    results := [];
    for i := 0 to |hands|
      invariant |results| == i
      invariant forall q :: 0 <= q < i ==> IsBest(hands[q] + board, results[q])
    {
      var seven := hands[i] + board;
      var res := GetBestFive(seven);
      BestSnoc(hands, board, results, res);
      results := results + [res];
    }
  }

  /** With main's pot of 30 and one or two winners, the payout hands out the whole pot. */
  lemma MainPotPaidInFull(n: nat)
    requires 1 <= n <= 2
    ensures n * Share(SmallBlind + BigBlind, n) == SmallBlind + BigBlind
  {
  }

  /**
   * The end of main's hand for two players: the showdown, the winners and
   * the payout. The winners are the players no other player beats, and the
   * whole pot goes to them.
   */
  method SettleHand(chips: array<int>, hands: seq<seq<Card>>, board: seq<Card>, pot: int)
    returns (results: seq<EvalResult>, winners: seq<nat>)
    requires chips.Length == 2 && pot == SmallBlind + BigBlind
    requires |hands| == 2 && |hands[0]| == 2 && |hands[1]| == 2 && |board| == 5
    modifies chips
    ensures |results| == 2 && AllBest(hands, board, results)
    ensures forall i :: 0 <= i < 2 ==>
      (i in winners <==> forall j :: 0 <= j < 2 ==> !Beats(results[j], results[i]))
    ensures 1 <= |winners| <= 2
    ensures chips[0] == old(chips[0]) + (if 0 in winners then Share(pot, |winners|) else 0)
    ensures chips[1] == old(chips[1]) + (if 1 in winners then Share(pot, |winners|) else 0)
    ensures Sum(chips[..]) == Sum(old(chips[..])) + pot
  {
    results := EvaluatePlayers(hands, board);
    winners := DecideWinners(results);
    MainPotPaidInFull(|winners|);
    ghost var paid := |winners| * Share(pot, |winners|);
    assert paid == pot;
    AwardPot(chips, winners, pot);
  }

  /**
   * The winner loop of main for its two players: the winners are exactly the
   * players nobody beats, one or two of them, in seat order.
   */
  method DecideWinners(results: seq<EvalResult>) returns (winners: seq<nat>)
    requires |results| == 2
    ensures forall i :: 0 <= i < 2 ==>
      (i in winners <==> forall j :: 0 <= j < 2 ==> !Beats(results[j], results[i]))
    ensures 1 <= |winners| <= 2
    ensures forall k :: 0 <= k < |winners| ==> winners[k] < 2
    ensures forall k, l :: 0 <= k < l < |winners| ==> winners[k] < winners[l]
  {
    var bestHand;
    bestHand, winners := SelectWinners(results);
    forall i | 0 <= i < 2
      ensures i in winners <==> forall j :: 0 <= j < 2 ==> !Beats(results[j], results[i])
    {
      WinnersAreUnbeaten(results, bestHand, i);
    }
    ghost var k :| 0 <= k < 2 && results[k] == bestHand;
    assert k in winners;
    TiedLength(results, bestHand);
  }

  /** The two players of main sit down with 1000 chips each. */
  method SeatPlayers() returns (chips: array<int>)
    ensures fresh(chips) && chips.Length == 2
    ensures chips[0] == StartingChips && chips[1] == StartingChips
    ensures Sum(chips[..]) == 2 * StartingChips
  {
    chips := new int[2];
    chips[0], chips[1] := StartingChips, StartingChips;
    assert chips[..] == [StartingChips, StartingChips];
    SumPair(StartingChips, StartingChips);
  }

  /**
   * One hand of main for two players with 1000 chips each: the deck shuffled
   * with `rolls`, the blinds, the deal, the showdown and the payout. The
   * chips in play stay the 2000 the players started with.
   */
  method PlayHand(rolls: seq<nat>) returns (chips: array<int>, hands: seq<seq<Card>>, board: seq<Card>,
                                            results: seq<EvalResult>, winners: seq<nat>)
    requires RollsFit(rolls, 52)
    ensures fresh(chips) && chips.Length == 2
    ensures |hands| == 2 && |hands[0]| == 2 && |hands[1]| == 2 && |board| == 5
    ensures Distinct(hands[0] + hands[1] + board)
    ensures |results| == 2 && AllBest(hands, board, results)
    ensures forall i :: 0 <= i < 2 ==>
      (i in winners <==> forall j :: 0 <= j < 2 ==> !Beats(results[j], results[i]))
    ensures 1 <= |winners| <= 2
    ensures chips[0] == StartingChips - SmallBlind + (if 0 in winners then Share(SmallBlind + BigBlind, |winners|) else 0)
    ensures chips[1] == StartingChips - BigBlind + (if 1 in winners then Share(SmallBlind + BigBlind, |winners|) else 0)
    ensures Sum(chips[..]) == 2 * StartingChips
    ensures hands[0] + hands[1] + board == DealtCards(rolls)
  {
    var pot;
    chips, pot, hands, board := OpenHand(rolls);
    ghost var before0, before1 := chips[0], chips[1];
    results, winners := SettleHand(chips, hands, board, pot);
    assert chips[0] == before0 + (if 0 in winners then Share(pot, |winners|) else 0);
    assert chips[1] == before1 + (if 1 in winners then Share(pot, |winners|) else 0);
  }

  /** The nine cards a hand deals from the deck shuffled with `rolls`: its last nine, back first. */
  function DealtCards(rolls: seq<nat>): (d: seq<Card>)
    requires RollsFit(rolls, 52)
    ensures |d| == 9
  {
    FromBack(Shuffle(StandardOrder(), rolls, 51), 9)
  }

  /**
   * The start of main's hand: a shuffled deck, both players seated with 1000
   * chips, the blinds posted, and the hole cards and board dealt.
   */
  method OpenHand(rolls: seq<nat>) returns (chips: array<int>, pot: int, hands: seq<seq<Card>>, board: seq<Card>)
    requires RollsFit(rolls, 52)
    ensures fresh(chips) && chips.Length == 2
    ensures chips[0] == StartingChips - SmallBlind && chips[1] == StartingChips - BigBlind
    ensures pot == SmallBlind + BigBlind && Sum(chips[..]) + pot == 2 * StartingChips
    ensures |hands| == 2 && |hands[0]| == 2 && |hands[1]| == 2 && |board| == 5
    ensures hands[0] + hands[1] + board == DealtCards(rolls)
    ensures Distinct(hands[0] + hands[1] + board)
  {
    var deck := new Deck(rolls);
    chips := SeatPlayers();
    pot := PostBlinds(chips);
    hands, board := Deal(deck);
  }
}
