/**
 * getBestFive: the best five-card result among the 21 five-card subsets of a
 * seven-card hand, enumerated with a selection mask stepped by
 * std::prev_permutation.
 */
module BestFive {
  import opened Cards
  import opened Ranking
  import opened HandEvaluator
  import opened HandProperties

  /** The number of selected positions. */
  function TrueCount(m: seq<bool>): nat
  {
    if m == [] then 0 else TrueCount(m[..|m| - 1]) + (if m[|m| - 1] then 1 else 0)
  }

  /** A selection of exactly five of seven positions. */
  predicate IsFiveMask(m: seq<bool>)
  {
    |m| == 7 && TrueCount(m) == 5
  }

  /** The cards of `s` at the selected positions, in their original order. */
  function Picked(s: seq<Card>, m: seq<bool>): (r: seq<Card>)
    requires |s| == |m|
    ensures |r| == TrueCount(m)
    ensures forall c :: c in r ==> c in s
  {
    if s == [] then []
    else
      var n := |s| - 1;
      Picked(s[..n], m[..n]) + (if m[n] then [s[n]] else [])
  }

  /** `s` read backwards. */
  function Reverse(s: seq<bool>): (r: seq<bool>)
    ensures |r| == |s|
    ensures forall i :: 0 <= i < |s| ==> r[i] == s[|s| - 1 - i]
  {
    if s == [] then [] else Reverse(s[1..]) + [s[0]]
  }

  /** The largest `i < k` where a selected position is followed by an unselected one, or -1. */
  function LastDescent(m: seq<bool>, k: int): (i: int)
    requires 0 <= k < |m|
    ensures -1 <= i < k
    ensures i >= 0 ==> m[i] && !m[i + 1]
    ensures forall p :: i < p < k ==> !(m[p] && !m[p + 1])
  {
    if k == 0 then -1 else if m[k - 1] && !m[k] then k - 1 else LastDescent(m, k - 1)
  }

  /** The largest `j < k` with `m[j]` unselected, or -1. */
  function LastUnselected(m: seq<bool>, k: int): (j: int)
    requires 0 <= k <= |m|
    ensures -1 <= j < k
    ensures j >= 0 ==> !m[j]
    ensures forall p :: j < p < k ==> m[p]
  {
    if k == 0 then -1 else if !m[k - 1] then k - 1 else LastUnselected(m, k - 1)
  }

  /**
   * std::prev_permutation on a mask (`true` greater than `false`): find the
   * last position `i` with m[i] > m[i+1]; if there is none the mask is the
   * smallest arrangement, so it is reversed into the largest and the result
   * is false. Otherwise swap m[i] with the last element smaller than it,
   * reverse everything after `i` and answer true.
   */
  function PrevPermutation(m: seq<bool>): (res: (bool, seq<bool>))
    requires |m| >= 1
    ensures |res.1| == |m|
    ensures res.0 <==> exists p :: 0 <= p < |m| - 1 && m[p] && !m[p + 1]
  {
    var i := LastDescent(m, |m| - 1);
    if i < 0 then (false, Reverse(m))
    else
      var j := LastUnselected(m, |m|);
      var swapped := m[i := false][j := true];
      (true, swapped[..i + 1] + Reverse(swapped[i + 1..]))
  }

  /** The starting mask: five selected positions followed by two unselected ones. */
  const FirstMask: seq<bool> := [true, true, true, true, true, false, false]

  /** The number of masks the loop visits: 7 choose 5. */
  const MaskCount := 21

  /** The mask over seven positions that selects all of them except `a` and `b`. */
  function Unselect(a: int, b: int): (m: seq<bool>)
    ensures |m| == 7
    ensures forall i :: 0 <= i < 7 ==> m[i] == (i != a && i != b)
  {
    seq(7, i => i != a && i != b)
  }

  /** Two unselected positions, the first before the second. */
  predicate ValidPair(a: int, b: int)
  {
    0 <= a < b <= 6
  }

  /** The unselected pair of the next mask: `b` moves one down while it can, otherwise `a` moves one down and `b` restarts at the end. */
  function NextPair(a: int, b: int): (int, int)
  {
    if b > a + 1 then (a, b - 1) else (a - 1, 6)
  }

  /** The number of pairs visited before the first pair whose lower position is `a`. */
  function PairsAbove(a: int): nat
  {
    if a >= 5 then 0 else if a == 4 then 1 else if a == 3 then 3 else if a == 2 then 6 else if a == 1 then 10 else 15
  }

  /** The round in which the loop holds the mask unselecting `a` and `b`. */
  function PairIndex(a: int, b: int): int
  {
    PairsAbove(a) + 6 - b
  }

  /** The unselected pair of the mask of round `k`. */
  function PairAt(k: nat): (p: (int, int))
    requires k < MaskCount
    ensures ValidPair(p.0, p.1) && PairIndex(p.0, p.1) == k
  {
    if k == 0 then (5, 6) else NextPair(PairAt(k - 1).0, PairAt(k - 1).1)
  }

  /** The mask the do/while loop holds in round `k`, from the largest arrangement down to the smallest. */
  function MaskAt(k: nat): seq<bool>
    requires k < MaskCount
  {
    Unselect(PairAt(k).0, PairAt(k).1)
  }

  /** Where prev_permutation finds its descent and its swap partner in a mask unselecting `a` and `b`. */
  lemma DescentOfPair(a: int, b: int)
    requires ValidPair(a, b)
    ensures LastUnselected(Unselect(a, b), 7) == b
    ensures LastDescent(Unselect(a, b), 6) == if b > a + 1 then b - 1 else a - 1
  {
    var m := Unselect(a, b);
    var j := LastUnselected(m, 7);
    assert !m[b];
    var i := LastDescent(m, 6);
    if b > a + 1 {
      assert m[b - 1] && !m[b];
    } else if a > 0 {
      assert m[a - 1] && !m[a];
    }
  }

  /**
   * prev_permutation on a five-of-seven mask moves its unselected pair to the
   * next pair; on the smallest mask (positions 0 and 1 unselected) it answers
   * false and wraps back to the first mask.
   */
  lemma PrevPermutationOfPair(a: int, b: int)
    requires ValidPair(a, b)
    ensures PrevPermutation(Unselect(a, b)) ==
      if a == 0 && b == 1 then (false, FirstMask) else (true, Unselect(NextPair(a, b).0, NextPair(a, b).1))
  {
    if a == 0 && b == 1 {
      LastStep();
    } else if b > a + 1 {
      StepWithinRow(a, b);
    } else {
      StepToNextRow(a);
    }
  }

  /** On the smallest mask there is no descent: prev_permutation reverses it into the first mask and answers false. */
  lemma LastStep()
    ensures PrevPermutation(Unselect(0, 1)) == (false, FirstMask)
  {
    DescentOfPair(0, 1);
    assert Reverse(Unselect(0, 1)) == FirstMask;
  }

  /**
   * The descent sits just before `b`: swapping moves `b` one down, and the
   * part after the descent, all selected, reads the same backwards.
   */
  lemma StepWithinRow(a: int, b: int)
    requires ValidPair(a, b) && b > a + 1
    ensures PrevPermutation(Unselect(a, b)) == (true, Unselect(a, b - 1))
  {
    DescentOfPair(a, b);
    var sw := Unselect(a, b)[b - 1 := false][b := true];
    assert sw == Unselect(a, b - 1);
    assert Reverse(sw[b..]) == sw[b..];
    assert sw[..b] + sw[b..] == sw;
  }

  /**
   * The two unselected positions are adjacent: the descent sits just before
   * `a`, the swap leaves `a - 1` and `a` unselected, and reversing the part
   * from `a` on sends the unselected `a` to the last position.
   */
  lemma StepToNextRow(a: int)
    requires 0 < a < 6
    ensures PrevPermutation(Unselect(a, a + 1)) == (true, Unselect(a - 1, 6))
  {
    DescentOfPair(a, a + 1);
    var sw := Unselect(a, a + 1)[a - 1 := false][a + 1 := true];
    var r := sw[..a] + Reverse(sw[a..]);
    forall p | 0 <= p < 7 ensures r[p] == Unselect(a - 1, 6)[p] {
      if p >= a {
        assert r[p] == sw[a..][6 - p] == sw[a + 6 - p];
      }
    }
    assert r == Unselect(a - 1, 6);
  }

  /** Each call of prev_permutation moves to the next mask; on the last one it answers false and wraps back to the first. */
  lemma MaskStep(k: nat)
    requires k < MaskCount
    ensures MaskAt(0) == FirstMask
    ensures PrevPermutation(MaskAt(k)) == if k + 1 < MaskCount then (true, MaskAt(k + 1)) else (false, FirstMask)
  {
    assert MaskAt(0) == Unselect(5, 6);
    var p := PairAt(k);
    PrevPermutationOfPair(p.0, p.1);
  }

  lemma TrueCountSeven(m: seq<bool>)
    requires |m| == 7
    ensures TrueCount(m) == (if m[0] then 1 else 0) + (if m[1] then 1 else 0) + (if m[2] then 1 else 0)
      + (if m[3] then 1 else 0) + (if m[4] then 1 else 0) + (if m[5] then 1 else 0) + (if m[6] then 1 else 0)
  {
    assert m[..0] == [];
    TrueCountPrefix(m, 1);
    TrueCountPrefix(m, 2);
    TrueCountPrefix(m, 3);
    TrueCountPrefix(m, 4);
    TrueCountPrefix(m, 5);
    TrueCountPrefix(m, 6);
    TrueCountPrefix(m, 7);
    assert m[..7] == m;
  }

  lemma TrueCountPrefix(m: seq<bool>, k: nat)
    requires 0 < k <= |m|
    ensures TrueCount(m[..k]) == TrueCount(m[..k - 1]) + (if m[k - 1] then 1 else 0)
  {
    assert m[..k][..k - 1] == m[..k - 1];
  }

  /** Every mask the loop visits selects exactly five of the seven cards. */
  lemma MaskAtIsFive(k: nat)
    requires k < MaskCount
    ensures IsFiveMask(MaskAt(k))
  {
    TrueCountSeven(MaskAt(k));
  }

  /** Every pair of positions is the unselected pair of some round. */
  lemma {:induction false} PairAtIndex(a: int, b: int)
    requires ValidPair(a, b)
    ensures 0 <= PairIndex(a, b) < MaskCount && PairAt(PairIndex(a, b)) == (a, b)
    decreases PairIndex(a, b)
  {
    var k := PairIndex(a, b);
    if k > 0 {
      var q := PredecessorPair(a, b);
      PairAtIndex(q.0, q.1);
      assert PairAt(k) == NextPair(PairAt(k - 1).0, PairAt(k - 1).1);
    }
  }

  /** The pair visited in the round before the pair (a, b), when there is one. */
  lemma PredecessorPair(a: int, b: int) returns (q: (int, int))
    requires ValidPair(a, b) && PairIndex(a, b) > 0
    ensures ValidPair(q.0, q.1) && PairIndex(q.0, q.1) == PairIndex(a, b) - 1
    ensures NextPair(q.0, q.1) == (a, b)
    ensures 0 <= PairIndex(a, b) < MaskCount
  {
    if b < 6 {
      q := (a, b + 1);
    } else {
      q := (a + 1, a + 2);
    }
  }

  /** The two unselected positions of a five-of-seven mask. */
  lemma UnselectedPair(m: seq<bool>) returns (a: int, b: int)
    requires IsFiveMask(m)
    ensures ValidPair(a, b) && m == Unselect(a, b)
  {
    TrueCountSeven(m);
    a, b :| 0 <= a < b < 7 && !m[a] && !m[b];
  }

  /** Every selection of five positions out of seven is visited by the loop. */
  lemma FiveMaskListed(m: seq<bool>)
    requires IsFiveMask(m)
    ensures exists k :: 0 <= k < MaskCount && m == MaskAt(k)
  {
    var a, b := UnselectedPair(m);
    PairAtIndex(a, b);
    assert m == MaskAt(PairIndex(a, b));
  }

  /** Different rounds hold different masks, so no five-card subset is visited twice. */
  lemma MasksDistinct(k: nat, l: nat)
    requires k < MaskCount && l < MaskCount && k != l
    ensures MaskAt(k) != MaskAt(l)
  {
    var p, q := PairAt(k), PairAt(l);
    assert p != q;
    var x := if p.0 != q.0 && p.0 != q.1 then p.0 else p.1;
    assert MaskAt(k)[x] != MaskAt(l)[x];
  }

  /** The loop that copies the selected cards of the seven into the candidate hand. */
  method Pick(seven: seq<Card>, mask: seq<bool>) returns (current: seq<Card>)
    requires |seven| == |mask|
    ensures current == Picked(seven, mask)
  {
    current := [];
    for i := 0 to |seven|
      invariant current == Picked(seven[..i], mask[..i])
    {
      assert seven[..i + 1][..i] == seven[..i] && mask[..i + 1][..i] == mask[..i];
      if mask[i] {
        current := current + [seven[i]];
      }
    }
    assert seven[..|seven|] == seven && mask[..|mask|] == mask;
  }

  /** `best` is the value of some five-card subset of `seven` and no subset's value beats it. */
  ghost predicate IsBest(seven: seq<Card>, best: EvalResult)
    requires |seven| == 7
  {
    (exists m {:trigger Picked(seven, m)} :: IsFiveMask(m) && best == Evaluate(Picked(seven, m))) &&
    (forall m {:trigger Picked(seven, m)} :: IsFiveMask(m) ==> !Beats(Evaluate(Picked(seven, m)), best))
  }

  /** The value of the five cards a mask selects (the sentinel for anything that is not a five-of-seven mask). */
  function MaskValue(seven: seq<Card>, m: seq<bool>): EvalResult
  {
    if |seven| == 7 && IsFiveMask(m) then Evaluate(Picked(seven, m)) else Sentinel
  }

  /** The values `value` gives the masks `ms`, in order. */
  function Values(value: seq<bool> -> EvalResult, ms: seq<seq<bool>>): (vs: seq<EvalResult>)
    ensures |vs| == |ms|
    ensures forall l :: 0 <= l < |ms| ==> vs[l] == value(ms[l])
  {
    if ms == [] then [] else Values(value, ms[..|ms| - 1]) + [value(ms[|ms| - 1])]
  }

  /** `best` is the largest of `vals` (the sentinel while `vals` is empty): it occurs in `vals` and nothing there beats it. */
  predicate BestAmong(vals: seq<EvalResult>, best: EvalResult)
  {
    (if vals == [] then best == Sentinel else best in vals) &&
    forall v :: v in vals ==> !Beats(v, best)
  }

  /** One round of the loop: a candidate that beats the best so far replaces it. */
  lemma BestAmongStep(vals: seq<EvalResult>, best: EvalResult, v: EvalResult)
    requires BestAmong(vals, best)
    requires vals == [] ==> Beats(v, Sentinel)
    ensures BestAmong(vals + [v], if Beats(v, best) then v else best)
  {
    BeatsIrreflexive(v);
    if Beats(v, best) {
      forall u | u in vals ensures !Beats(u, v) {
        if Beats(u, v) {
          BeatsTransitive(u, v, best);
        }
      }
    }
  }

  /** The masks of the first `k` rounds, in order. */
  function MasksBefore(k: nat): (ms: seq<seq<bool>>)
    requires k <= MaskCount
    ensures |ms| == k
  {
    if k == 0 then [] else MasksBefore(k - 1) + [MaskAt(k - 1)]
  }

  lemma {:induction false} MasksBeforeIndex(k: nat)
    requires k <= MaskCount
    ensures forall l :: 0 <= l < k ==> MasksBefore(k)[l] == MaskAt(l)
  {
    if k > 0 {
      MasksBeforeIndex(k - 1);
    }
  }

  /** Once every one of the 21 masks is seen, the running best is the best over every five-card subset. */
  lemma BestAmongAllMasks(seven: seq<Card>, seen: seq<seq<bool>>, best: EvalResult)
    requires |seven| == 7 && |seen| == MaskCount
    requires forall l :: 0 <= l < MaskCount ==> seen[l] == MaskAt(l)
    requires BestAmong(Values(m => MaskValue(seven, m), seen), best)
    ensures IsBest(seven, best)
  {
    var vals := Values(m => MaskValue(seven, m), seen);
    forall m | IsFiveMask(m) ensures !Beats(Evaluate(Picked(seven, m)), best) {
      FiveMaskListed(m);
      var l :| 0 <= l < MaskCount && m == MaskAt(l);
      SeenValue(seven, seen, l);
      assert vals[l] in vals;
    }
    var l :| 0 <= l < MaskCount && best == vals[l];
    SeenValue(seven, seen, l);
  }

  /** The value recorded for the `l`-th mask is the evaluation of the five cards it selects. */
  lemma SeenValue(seven: seq<Card>, seen: seq<seq<bool>>, l: nat)
    requires |seven| == 7 && l < |seen| == MaskCount && seen[l] == MaskAt(l)
    ensures IsFiveMask(MaskAt(l))
    ensures Values(m => MaskValue(seven, m), seen)[l] == Evaluate(Picked(seven, MaskAt(l)))
  {
    MaskAtIsFive(l);
  }

  /** Builds the five cards a mask selects and evaluates them. */
  method EvaluateMask(seven: seq<Card>, mask: seq<bool>) returns (res: EvalResult)
    requires |seven| == 7 && IsFiveMask(mask)
    ensures res == Evaluate(Picked(seven, mask))
    ensures Beats(res, Sentinel)
  {
    var current := Pick(seven, mask);
    res := EvaluateFive(current);
    EveryHandBeatsSentinel(current);
  }

  /**
   * getBestFive: visits the 21 masks, evaluates each selected five and keeps
   * the first result that beats the best so far, starting from the sentinel.
   */
  method GetBestFive(seven: seq<Card>) returns (best: EvalResult)
    requires |seven| == 7
    ensures IsBest(seven, best)
  {
    best := Sentinel;
    var mask := FirstMask;
    var more := true;
    var k := 0;
    ghost var seen: seq<seq<bool>> := [];
    ghost var value := m => MaskValue(seven, m);
    MaskStep(0);
    while more
      invariant 0 <= k <= MaskCount && |seen| == k
      invariant more ==> k < MaskCount && mask == MaskAt(k)
      invariant !more ==> k == MaskCount
      invariant seen == MasksBefore(k)
      invariant BestAmong(Values(value, seen), best)
      decreases MaskCount - k
    {
      MaskAtIsFive(k);
      var res := EvaluateMask(seven, mask);
      assert res == value(mask);
      BestAmongStep(Values(value, seen), best, res);
      if Beats(res, best) {
        best := res;
      }
      seen := seen + [mask];
      MaskStep(k);
      var step := PrevPermutation(mask);
      more, mask := step.0, step.1;
      k := k + 1;
    }
    MasksBeforeIndex(MaskCount);
    BestAmongAllMasks(seven, seen, best);
  }

  /** Two results that are both best for the same seven cards are equal: the search's answer is determined. */
  lemma BestIsUnique(seven: seq<Card>, b1: EvalResult, b2: EvalResult)
    requires |seven| == 7 && IsBest(seven, b1) && IsBest(seven, b2)
    ensures b1 == b2
  {
    var m1 :| IsFiveMask(m1) && b1 == Evaluate(Picked(seven, m1));
    var m2 :| IsFiveMask(m2) && b2 == Evaluate(Picked(seven, m2));
    BeatsTrichotomy(b1, b2);
  }
}
