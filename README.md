# Texas Hold'em hand evaluation, modelled in Dafny

This project models the hand-evaluation core of a two-player Texas Hold'em
program (`poker_project_with_cpp.cpp`) and proves what it computes. It covers:

- the card, suit, rank and category types, and `EvalResult` with its `operator>` and `operator==`;
- `HandEvaluator`:
  - `checkFlush` and `checkStraight`;
  - `evaluateFive`, which sorts the cards, counts ranks, sorts the frequency list and runs the category chain;
  - `getBestFive`, which steps a seven-position mask with `std::prev_permutation` and keeps the best of the 21 five-card subsets;
- the `Deck` class: the constructor (52 cards, then a shuffle) and `draw`;
- one hand as `main` plays it: starting chips, blinds, the deal, each player's best five of seven, the winner loop and the pot payout.

Modules, one per file:

| file | module | contents |
|---|---|---|
| `cards.dfy` | `Cards` | suits, ranks 2..14, cards, the ten categories |
| `ranking.dfy` | `Ranking` | `EvalResult`, `Beats` (`operator>`), lexicographic vector order, its order laws |
| `frequencies.dfy` | `RankCounts` | the rank-frequency list and its sort order |
| `evaluator.dfy` | `HandEvaluator` | `CheckFlush`, `CheckStraight`, `CountRanks`, `CollectGroups`, `EvaluateFive` and the reference function `Evaluate` |
| `hand_properties.dfy` | `HandProperties` | what `Evaluate` promises: categories, tie-break vectors, royal/wheel behaviour |
| `best_five.dfy` | `BestFive` | `std::prev_permutation` on a mask, the 21 masks, `GetBestFive` |
| `deck.dfy` | `Decks` | the `Deck` class, its construction, shuffle and `Draw` |
| `showdown.dfy` | `Showdown` | blinds, deal, showdown, winner selection and payout of one hand |

Imperative code is kept imperative:
- `CheckFlush`, `CheckStraight`, `CountRanks`, `CollectGroups`, `Pick`, `GetBestFive`, the deal, the winner loop and the payout are methods with loops and invariants.
- `Deck` is a class with a `cards` field that its methods reassign.
- Chips live in an `array<int>`.

Each method is proved against a specification function:
- `EvaluateFive` returns `Evaluate(hand)`.
- `GetBestFive` returns a result satisfying `IsBest`: it is the value of some five-of-seven subset, and no subset's value beats it.
- `SelectWinners` returns the maximum and `Tied(results, best)`.

The properties of those functions are proved as lemmas.

The shuffle's random engine is replaced by a parameter. The shuffle is modelled as a sequence of swaps: from the top position down, position `i` is swapped with position `rolls[i]`, a value between 0 and `i`. The proofs use only one fact about it, proved for every `rolls`: the result is a permutation of the 52 cards.

**The wheel.** In poker the wheel (A-5-4-3-2) is the lowest straight: its high card counts as 5. The code values it 14 instead. Both `STRAIGHT` and `STRAIGHT_FLUSH` carry `hand[0].rank`, and after sorting by rank that card is the Ace. The model follows the code. `HandProperties.WheelOutranksKingHighStraight` and `HandProperties.WheelTiesBroadwayStraight` prove what that means: an unsuited wheel beats an unsuited K-Q-J-10-9, and it ties an unsuited A-K-Q-J-10.

## Model

| member | source | states |
|---|---|---|
| `Cards.SuitOf` | poker_project_with_cpp.cpp:138-140 | the cast `(Suit)s` for s in 0..3 gives the suit at position s of the enumeration |
| `Cards.OrdInjective` | poker_project_with_cpp.cpp:12 | distinct categories have distinct positions, and Royal Flush is the highest |
| `Ranking.LexGreater` | poker_project_with_cpp.cpp:29 | `values > other.values` on `std::vector<int>`: a greater vector is non-empty and differs from the other; `LexGreaterIsFirstDifference`, `LexIrreflexive`, `LexTransitive` and `LexTrichotomy` prove it is the lexicographic strict order |
| `Ranking.LexGreaterIsFirstDifference` | poker_project_with_cpp.cpp:29 | `values > other.values` holds iff the first position where the vectors differ favours the left one, or the right one is a proper prefix of the left |
| `Ranking.LexIrreflexive` | poker_project_with_cpp.cpp:29 | no vector is greater than itself |
| `Ranking.LexTransitive` | poker_project_with_cpp.cpp:29 | the vector comparison is transitive |
| `Ranking.LexTrichotomy` | poker_project_with_cpp.cpp:29 | for two vectors exactly one of greater, smaller, equal holds |
| `Ranking.Beats` | poker_project_with_cpp.cpp:27-30 | `EvalResult::operator>`: a winner's category is at least the loser's, and the two results differ; `BeatsIrreflexive`, `BeatsTransitive`, `BeatsTrichotomy` and `CategoryDecides` prove it a strict total order deciding by category first |
| `Ranking.BeatsIrreflexive` | poker_project_with_cpp.cpp:27-30 | no result beats itself |
| `Ranking.BeatsTransitive` | poker_project_with_cpp.cpp:27-30 | `operator>` on results is transitive |
| `Ranking.BeatsTrichotomy` | poker_project_with_cpp.cpp:27-33 | for any two results exactly one of `a > b`, `b > a`, `a == b` holds |
| `Ranking.CategoryDecides` | poker_project_with_cpp.cpp:28 | a higher category wins whatever the tie-break vectors hold |
| `Ranking.SentinelLoses` | poker_project_with_cpp.cpp:117 | `{HIGH_CARD, {0}}` loses to any result above high card or whose first value is a rank |
| `RankCounts.Before` | poker_project_with_cpp.cpp:82-84 | the comparator lambda: an entry that comes first has at least the other's count and is a different entry |
| `RankCounts.Frequencies` | poker_project_with_cpp.cpp:75-84 | the sorted `freq` vector: strictly ordered by the comparator, and each entry's count is its rank's count in the hand; `FrequenciesSpec` adds that every rank of the hand is listed |
| `RankCounts.FreqFromMembers` | poker_project_with_cpp.cpp:75-84 | the frequency list holds exactly the (rank, count) pairs of ranks in the hand, with their counts |
| `RankCounts.FreqFromSorted` | poker_project_with_cpp.cpp:82-84 | the frequency list is strictly ordered by count descending, then rank descending |
| `RankCounts.FrequenciesSpec` | poker_project_with_cpp.cpp:75-84 | the frequency list is sorted by the comparator and lists every rank of the hand once, with its count |
| `RankCounts.TotalIsLength` | poker_project_with_cpp.cpp:75-80 | the counts of the frequency list add up to the number of cards |
| `RankCounts.SortedUnique` | poker_project_with_cpp.cpp:82-84 | two lists sorted by the comparator with the same entries are equal, so the sort result is determined |
| `RankCounts.FrequenciesShape` | poker_project_with_cpp.cpp:75-84 | for five ranks the list is sorted, has no empty entry, and its counts add up to 5 |
| `RankCounts.FiveCardPartitions` | poker_project_with_cpp.cpp:92-111 | the counts of a five-card list are one of 5, 4+1, 3+2, 3+1+1, 2+2+1, 2+1+1+1, 1+1+1+1+1 |
| `RankCounts.FiveCardIndices` | poker_project_with_cpp.cpp:92-111 | every `freq[k]` the chain reads exists |
| `HandEvaluator.Classify` | poker_project_with_cpp.cpp:87-113 | the chain returns royal or straight flush iff the hand is flush and straight; Flush only for a non-straight flush; Straight only for a non-flush straight |
| `HandEvaluator.Evaluate` | poker_project_with_cpp.cpp:67-114 | the value evaluateFive returns: royal or straight flush iff the sorted hand is suited and a straight; Flush and Straight only for the one without the other; `EvaluateCategory`, `ClassifyTieBreaks` and `EvaluateIgnoresOrder` give its category, tie-breaks and order independence |
| `HandEvaluator.InsertSpec` | poker_project_with_cpp.cpp:68-70 | inserting a card into a rank-descending list keeps it descending and adds exactly that card |
| `HandEvaluator.SortByRankSpec` | poker_project_with_cpp.cpp:68-70 | the reference sort orders by descending rank and is a permutation of the hand |
| `HandEvaluator.RanksPermutation` | poker_project_with_cpp.cpp:68-70 | permuting the cards permutes their ranks |
| `HandEvaluator.SortedDescUnique` | poker_project_with_cpp.cpp:68-70 | two descending sequences with the same ranks are equal |
| `HandEvaluator.SortedRanksUnique` | poker_project_with_cpp.cpp:68-70 | however `std::sort` orders cards of equal rank, the sorted ranks are the same |
| `HandEvaluator.SameSuitPermutation` | poker_project_with_cpp.cpp:72 | the flush test gives the same answer for any order of the cards |
| `HandEvaluator.CheckFlush` | poker_project_with_cpp.cpp:39-43 | returns true iff every card has the suit of the first card |
| `HandEvaluator.CheckStraight` | poker_project_with_cpp.cpp:46-65 | on five cards, returns true iff consecutive ranks differ by exactly one or the ranks are exactly A, 5, 4, 3, 2 |
| `HandEvaluator.CountRanks` | poker_project_with_cpp.cpp:75-76 | the map's keys are the ranks of the hand, and each value is how often that rank occurs |
| `HandEvaluator.CollectGroups` | poker_project_with_cpp.cpp:78-80 | the copied list holds each rank of the hand once with its count, without duplicates |
| `HandEvaluator.SortedGroupsAreFrequencies` | poker_project_with_cpp.cpp:82-84 | sorting the copied list by the comparator yields the reference frequency list |
| `HandEvaluator.SortedGroupsExist` | poker_project_with_cpp.cpp:82-84 | the reference frequency list is a sorted permutation of the copied list |
| `HandEvaluator.EvaluateFive` | poker_project_with_cpp.cpp:67-114 | the method returns `Evaluate(hand)`, the function whose properties `HandProperties` proves |
| `HandProperties.SortedRanksSpec` | poker_project_with_cpp.cpp:68-70 | sorting five cards gives five in-range ranks, highest first, holding the hand's ranks |
| `HandProperties.OfAKindInFrequencies` | poker_project_with_cpp.cpp:75-84 | some rank occurs n times iff some frequency entry has count n |
| `HandProperties.TwoPairInFrequencies` | poker_project_with_cpp.cpp:107 | two different ranks occur twice iff two frequency entries have count 2 |
| `HandProperties.RoyalTest` | poker_project_with_cpp.cpp:88 | for a straight, `hand[0] == ACE && hand[4] == TEN` holds exactly for A-K-Q-J-10 |
| `HandProperties.TopCountIsLargest` | poker_project_with_cpp.cpp:82-84 | the first entry of the sorted frequency list has the largest count |
| `HandProperties.ChainTests` | poker_project_with_cpp.cpp:92-111 | each test on `freq[0].second` and `freq[1].second` means what its category requires (quads, trips, full house, two pair, pair) |
| `HandProperties.ClassifyIsPokerCategory` | poker_project_with_cpp.cpp:87-113 | the first-match chain returns exactly one category, the poker category defined through rank counts |
| `HandProperties.ClassifyTieBreaks` | poker_project_with_cpp.cpp:87-113 | the tie-break vectors: quads [quad, kicker]; full house [trips, pair]; trips [trips, k1 > k2]; two pair [high pair, low pair, kicker]; pair [pair, k1 > k2 > k3]; flush and high card all five ranks; any straight [top card] |
| `HandProperties.CountTests` | poker_project_with_cpp.cpp:92-111 | on a five-card frequency list, the first entry has count 4 (or 3) exactly when some entry does; after a 3 in front, the second entry has count 2 exactly when some entry does, and otherwise the first has count 2 exactly when some entry does; with a 2 in front, the second is a 2 exactly when there are two pairs, and without one there are never two pairs |
| `HandProperties.GroupFacts` | poker_project_with_cpp.cpp:82-111 | the frequency list of five cards has one of the seven shapes, each entry's count is its rank's count in the hand, and equal counts list higher ranks first |
| `HandProperties.EvaluateCategory` | poker_project_with_cpp.cpp:67-113 | evaluateFive's category is the poker category of the hand's sorted ranks and suits |
| `HandProperties.RoyalIffBroadway` | poker_project_with_cpp.cpp:87-89 | Royal Flush iff the hand is suited and its ranks are A-K-Q-J-10 |
| `HandProperties.StraightHasNoRepeats` | poker_project_with_cpp.cpp:46-65 | a straight has five different ranks |
| `HandProperties.StraightValue` | poker_project_with_cpp.cpp:87-102 | any straight evaluates to Straight, Straight Flush or Royal Flush with the single tie-break `hand[0].rank` |
| `HandProperties.WheelStraightFlush` | poker_project_with_cpp.cpp:87-89 | a suited A-5-4-3-2 is a Straight Flush, never royal, valued [14] |
| `HandProperties.UnsuitedWheelValue` | poker_project_with_cpp.cpp:101-102 | an unsuited A-5-4-3-2 is a Straight valued [14] |
| `HandProperties.UnsuitedKingHighValue` | poker_project_with_cpp.cpp:101-102 | an unsuited K-Q-J-10-9 is a Straight valued [13] |
| `HandProperties.UnsuitedBroadwayValue` | poker_project_with_cpp.cpp:101-102 | an unsuited A-K-Q-J-10 is a Straight valued [14] |
| `HandProperties.WheelOutranksKingHighStraight` | poker_project_with_cpp.cpp:101-102 | as written, an unsuited wheel beats an unsuited K-high straight |
| `HandProperties.WheelTiesBroadwayStraight` | poker_project_with_cpp.cpp:101-102 | as written, an unsuited wheel and an unsuited A-K-Q-J-10 straight are equal, and neither beats the other |
| `HandProperties.EveryHandBeatsSentinel` | poker_project_with_cpp.cpp:117 | every evaluated five-card hand beats the sentinel `{HIGH_CARD, {0}}` |
| `HandProperties.EvaluateIgnoresOrder` | poker_project_with_cpp.cpp:67-70 | the evaluation depends only on which five cards are held, not on their order |
| `HandProperties.StraightIsRun` | poker_project_with_cpp.cpp:46-65 | a straight is five strictly decreasing ranks spanning four steps, or the wheel |
| `BestFive.Picked` | poker_project_with_cpp.cpp:122-124 | the selected cards number as many as the selected positions, and each comes from the seven |
| `BestFive.Pick` | poker_project_with_cpp.cpp:122-124 | the copy loop builds exactly the cards at the selected positions, in order |
| `BestFive.LastDescent` | poker_project_with_cpp.cpp:128 | finds the last position i with mask[i] > mask[i+1], or reports that there is none |
| `BestFive.LastUnselected` | poker_project_with_cpp.cpp:128 | finds the last position whose element is smaller than the descent's, everything after it being selected |
| `BestFive.PrevPermutation` | poker_project_with_cpp.cpp:128 | `std::prev_permutation` on a mask: keeps the length and answers true iff some selected position is followed by an unselected one (the mask is not the smallest arrangement); `PrevPermutationOfPair` gives the next mask for every five-of-seven mask |
| `BestFive.DescentOfPair` | poker_project_with_cpp.cpp:128 | on a mask with unselected pair (a, b), the swap partner is b and the descent is b-1 or a-1 |
| `BestFive.PrevPermutationOfPair` | poker_project_with_cpp.cpp:128 | `prev_permutation` moves the unselected pair (a, b) to the next pair; on (0, 1) it answers false and wraps to 1111100 |
| `BestFive.LastStep` | poker_project_with_cpp.cpp:128 | on 0011111 `prev_permutation` returns false and leaves 1111100 |
| `BestFive.StepWithinRow` | poker_project_with_cpp.cpp:128 | when b > a+1, the next mask unselects (a, b-1) |
| `BestFive.StepToNextRow` | poker_project_with_cpp.cpp:128 | when b = a+1, the next mask unselects (a-1, 6) |
| `BestFive.PairAt` | poker_project_with_cpp.cpp:118-128 | round k's unselected pair is a valid pair whose rank in the visiting order is k |
| `BestFive.MaskStep` | poker_project_with_cpp.cpp:118-128 | the loop starts at 1111100; each call moves from round k's mask to round k+1's, and the 21st call answers false |
| `BestFive.MaskAtIsFive` | poker_project_with_cpp.cpp:118-119 | every visited mask selects exactly five of the seven positions |
| `BestFive.PredecessorPair` | poker_project_with_cpp.cpp:118-128 | every valid pair after the first is the step after a valid pair whose index is one less |
| `BestFive.PairAtIndex` | poker_project_with_cpp.cpp:118-128 | every valid pair is visited, in the round given by its index |
| `BestFive.UnselectedPair` | poker_project_with_cpp.cpp:118-128 | a five-of-seven mask is determined by its two unselected positions |
| `BestFive.FiveMaskListed` | poker_project_with_cpp.cpp:118-128 | every five-of-seven mask is visited in one of the 21 rounds |
| `BestFive.MasksDistinct` | poker_project_with_cpp.cpp:118-128 | different rounds visit different masks, so each subset is visited exactly once |
| `BestFive.BestAmongStep` | poker_project_with_cpp.cpp:127 | `if (res > best) best = res` keeps best an unbeaten member of the values seen |
| `BestFive.BestAmongAllMasks` | poker_project_with_cpp.cpp:116-131 | after all 21 masks the running best is the value of some subset, and no subset beats it |
| `BestFive.EvaluateMask` | poker_project_with_cpp.cpp:122-126 | a round's result is evaluateFive of the selected cards, and it beats the sentinel |
| `BestFive.GetBestFive` | poker_project_with_cpp.cpp:116-131 | the result is the evaluation of one five-card subset of the seven, and no subset's evaluation beats it |
| `BestFive.BestIsUnique` | poker_project_with_cpp.cpp:116-131 | the best result of seven cards is unique, so getBestFive's answer is determined |
| `Decks.Position` | poker_project_with_cpp.cpp:137-140 | every card has a slot in the constructor's order |
| `Decks.StandardOrderIsFullDeck` | poker_project_with_cpp.cpp:137-140 | the constructor's order holds each of the 52 cards exactly once |
| `Decks.Swap` | poker_project_with_cpp.cpp:145 | a swap keeps the cards and their counts |
| `Decks.Shuffle` | poker_project_with_cpp.cpp:145 | the shuffle keeps the length and is a permutation of its input |
| `Decks.SplitOfFullDeck` | poker_project_with_cpp.cpp:134-151 | when every card is dealt or left exactly once, there are 52 together, none repeats, and none is in both |
| `Decks.FreshDeckPartition` | poker_project_with_cpp.cpp:137-146 | a permutation of the standard order, with nothing dealt, holds every card exactly once |
| `Decks.BuildCards` | poker_project_with_cpp.cpp:138-140 | the two nested loops build exactly `StandardOrder()`, the definition that `Position` and `StandardOrderIsFullDeck` prove to be a full deck with no repeats |
| `Decks.Deck.constructor` | poker_project_with_cpp.cpp:137-146 | the new deck is the shuffled standard order: 52 cards, each card exactly once, nothing dealt |
| `Decks.Deck.Draw` | poker_project_with_cpp.cpp:147-151 | on a non-empty deck, returns the last card, leaves the prefix and records the card as dealt; each card stays accounted for exactly once |
| `Showdown.Tied` | poker_project_with_cpp.cpp:240-252 | the tied positions are exactly the indices whose result equals the given one, in increasing order |
| `Showdown.MaximumSnoc` | poker_project_with_cpp.cpp:245-251 | a result beating the maximum becomes the new maximum and occurs nowhere before; any other leaves the maximum |
| `Showdown.WinnerStep` | poker_project_with_cpp.cpp:244-252 | one round of the winner loop: a better result restarts the winners with its index; an equal one joins them |
| `Showdown.SelectWinners` | poker_project_with_cpp.cpp:240-252 | `bestHand` occurs in the results and nothing beats it; `winners` is exactly the indices equal to it, in increasing order |
| `Showdown.WinnersAreUnbeaten` | poker_project_with_cpp.cpp:240-252 | a player is a winner iff no player's result beats theirs |
| `Showdown.Share` | poker_project_with_cpp.cpp:255-262 | the share is the whole pot for one winner, otherwise pot / n rounded down: share * n <= pot < share * n + n |
| `Showdown.SumUpdate` | poker_project_with_cpp.cpp:258 | adding x to one player's chips adds x to the total |
| `Showdown.PayStep` | poker_project_with_cpp.cpp:263-266 | paying the next winner, not yet paid, extends the payout by that winner |
| `Showdown.PaySplit` | poker_project_with_cpp.cpp:262-266 | the split loop adds the amount to every winner's chips exactly once, and the total grows by winners * amount |
| `Showdown.PaidAll` | poker_project_with_cpp.cpp:262-266 | once every winner is paid, exactly the winners' chips grew by the amount |
| `Showdown.AwardPot` | poker_project_with_cpp.cpp:255-267 | every winner's chips grow by the share, nobody else's change, and the total grows by winners * share |
| `Showdown.PostBlinds` | poker_project_with_cpp.cpp:173-182 | player 0 pays 10 and player 1 pays 20, the pot is 30, and no chips are lost |
| `Showdown.FromBack` | poker_project_with_cpp.cpp:147-151 | m draws take the deck's last m cards, the back card first |
| `Showdown.DealtAreFresh` | poker_project_with_cpp.cpp:189-214 | cards dealt from a deck that keeps every card once repeat nothing and are no longer in the deck |
| `Showdown.DealPair` | poker_project_with_cpp.cpp:190 | `{deck.draw(), deck.draw()}` is the last card, then the one before it; both leave the deck |
| `Showdown.HoleCardsFromBack` | poker_project_with_cpp.cpp:189-195 | the two players' pairs, in order, are the deck's last four cards in draw order |
| `Showdown.DealHoleCards` | poker_project_with_cpp.cpp:189-195 | each player gets two cards; together they are the last four cards, and the deck keeps the rest |
| `Showdown.DealBoard` | poker_project_with_cpp.cpp:200-214 | flop, turn and river are the next five cards from the back |
| `Showdown.Deal` | poker_project_with_cpp.cpp:189-214 | the nine dealt cards are the deck's last nine, all different, and none is left in the deck |
| `Showdown.EvaluatePlayers` | poker_project_with_cpp.cpp:227-237 | every player's result is getBestFive of their hole cards and the board |
| `Showdown.MainPotPaidInFull` | poker_project_with_cpp.cpp:255-266 | with a pot of 30 and one or two winners, the payout hands out the whole pot |
| `Showdown.SettleHand` | poker_project_with_cpp.cpp:227-267 | results are each player's best five; winners are exactly the unbeaten players (one or two); each winner's chips grow by the share of the pot, a non-winner's stay; the total grows by the whole pot |
| `Showdown.DecideWinners` | poker_project_with_cpp.cpp:240-252 | the winners are exactly the players nobody beats, one or two of them, in increasing seat order |
| `Showdown.SeatPlayers` | poker_project_with_cpp.cpp:168-171 | both players start with 1000 chips, 2000 in all |
| `Showdown.OpenHand` | poker_project_with_cpp.cpp:167-217 | after the blinds player 0 holds 990 and player 1 holds 980, the pot is 30, and the nine dealt cards are the last nine of the standard order shuffled with `rolls`, taken from the back, and all different |
| `Showdown.PlayHand` | poker_project_with_cpp.cpp:164-267 | one hand of main: the dealt cards are the last nine of the shuffled deck, taken from the back, and distinct; results are best fives, winners are the unbeaten players; player 0 ends with 990 and player 1 with 980, each plus the share of the 30-chip pot if a winner; 2000 chips stay in play |

## Left out

- Console output is not modelled: `Card::toString`, the `handTypes` name table, and all printing in `main` are display only.
- The random engine is not modelled. `std::random_device`, `default_random_engine` and the exact way `std::shuffle` draws its numbers are replaced by the `rolls` parameter of the constructor. Any sequence of swap positions is allowed; the proofs use only that the shuffled deck is a permutation of the standard order, not which permutation a given seed yields.
- `std::sort` of the cards may put cards of equal rank in any order. `EvaluateFive` chooses some rank-descending arrangement. `SortedRanksUnique` and `SameSuitPermutation` show that the result does not depend on that choice.
- The `Player` struct is not modelled. Chips are an `array<int>` of two entries, hands a sequence of card pairs. `name`, `isAI`, `folded` and `currentBet` are left out: only display code reads them (`isAI` decides, at line 191, whether the hole cards are printed).
- Integer overflow is not modelled. Chips and the pot are unbounded integers; the program's values (1000 chips, a 30-chip pot) are far from 32-bit limits.
- `Showdown.Share`: requires a non-negative pot. The conversion of a negative `int` pot when it is divided by `winners.size()` (a `size_t`) is not modelled. The program's pot is always 30.
- `Decks.Deck.Draw`: requires a non-empty deck. `cards.back()` on an empty vector is undefined behaviour, and the program draws only 9 of 52 cards.
- `HandEvaluator.EvaluateFive`: requires exactly five cards. The program only calls `evaluateFive` with five.
- `HandEvaluator.CheckStraight`: requires exactly five cards. `checkStraight` scans a vector of any length, but its only caller passes five.
- `BestFive.GetBestFive`: requires exactly seven cards. `getBestFive` would ignore cards past the seventh, but `main` always passes two hole cards plus the five-card board.
- `Showdown.SelectWinners`: requires at least one result. `results[0]` on an empty vector is undefined behaviour, and `main` always has two players.
- There is no betting round. The program has none either: after the blinds it deals straight through to the showdown.
