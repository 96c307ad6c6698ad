/** Evaluated hands and the order in which they are compared. */
module Ranking {
  import opened Cards

  /** A classified hand: its category and the tie-break values compared when categories agree. */
  datatype EvalResult = EvalResult(handType: HandRank, values: seq<int>)

  /** The starting candidate of the best-five search: high card with the single value 0. */
  const Sentinel: EvalResult := EvalResult(HighCard, [0])

  /**
   * `a > b` on vectors of int: `b` is lexicographically smaller than `a`,
   * a proper prefix being smaller than any of its extensions.
   */
  predicate LexGreater(a: seq<int>, b: seq<int>)
    ensures LexGreater(a, b) ==> |a| > 0 && a != b
    decreases |a|
  {
    if |b| == 0 then |a| > 0
    else if |a| == 0 then false
    else if a[0] != b[0] then a[0] > b[0]
    else LexGreater(a[1..], b[1..])
  }

  /** Position `k` is where `a` and `b` first part ways, and it favours `a`. */
  predicate FirstDifferenceFavours(a: seq<int>, b: seq<int>, k: nat)
  {
    k <= |a| && k <= |b| && a[..k] == b[..k] &&
    ((k < |a| && k < |b| && a[k] > b[k]) || (k == |b| && k < |a|))
  }

  /** `EvalResult::operator>`: the category decides; equal categories fall back to the values. */
  predicate Beats(a: EvalResult, b: EvalResult)
    ensures Beats(a, b) ==> a.handType.Ord() >= b.handType.Ord() && a != b
  {
    if a.handType != b.handType then a.handType.Ord() > b.handType.Ord()
    else LexGreater(a.values, b.values)
  }

  /** The recursive comparison is the textbook lexicographic order: the first difference decides. */
  lemma {:induction false} LexGreaterIsFirstDifference(a: seq<int>, b: seq<int>)
    ensures LexGreater(a, b) <==> exists k: nat :: FirstDifferenceFavours(a, b, k)
    decreases |a|
  {
    if |b| == 0 {
      if |a| > 0 {
        assert FirstDifferenceFavours(a, b, 0);
      }
    } else if |a| == 0 {
    } else if a[0] != b[0] {
      if a[0] > b[0] {
        assert FirstDifferenceFavours(a, b, 0);
      }
      forall k: nat | FirstDifferenceFavours(a, b, k) ensures a[0] > b[0] {
        if k > 0 {
          assert a[..k][0] == b[..k][0];
        }
      }
    } else {
      LexGreaterIsFirstDifference(a[1..], b[1..]);
      if LexGreater(a[1..], b[1..]) {
        var k: nat :| FirstDifferenceFavours(a[1..], b[1..], k);
        assert a[..k + 1] == [a[0]] + a[1..][..k];
        assert b[..k + 1] == [b[0]] + b[1..][..k];
        assert FirstDifferenceFavours(a, b, k + 1);
      }
      forall k: nat | FirstDifferenceFavours(a, b, k) ensures LexGreater(a[1..], b[1..]) {
        assert k > 0;
        assert a[1..][..k - 1] == a[..k][1..];
        assert b[1..][..k - 1] == b[..k][1..];
        assert FirstDifferenceFavours(a[1..], b[1..], k - 1);
      }
    }
  }

  lemma {:induction false} LexIrreflexive(a: seq<int>)
    ensures !LexGreater(a, a)
    decreases |a|
  {
    if |a| > 0 {
      LexIrreflexive(a[1..]);
    }
  }

  lemma {:induction false} LexTransitive(a: seq<int>, b: seq<int>, c: seq<int>)
    requires LexGreater(a, b) && LexGreater(b, c)
    ensures LexGreater(a, c)
    decreases |a|
  {
    if |c| > 0 && |b| > 0 && |a| > 0 && a[0] == b[0] == c[0] {
      LexTransitive(a[1..], b[1..], c[1..]);
    }
  }

  /** Exactly one of `a > b`, `b > a`, `a == b` holds for vectors. */
  lemma {:induction false} LexTrichotomy(a: seq<int>, b: seq<int>)
    ensures LexGreater(a, b) || LexGreater(b, a) || a == b
    ensures !(LexGreater(a, b) && LexGreater(b, a))
    ensures a == b ==> !LexGreater(a, b)
    decreases |a|
  {
    if |a| > 0 && |b| > 0 && a[0] == b[0] {
      LexTrichotomy(a[1..], b[1..]);
      if a[1..] == b[1..] {
        assert a == [a[0]] + a[1..] && b == [b[0]] + b[1..];
      }
    }
    if a == b {
      LexIrreflexive(a);
    }
  }

  /** `operator>` on results is irreflexive. */
  lemma BeatsIrreflexive(a: EvalResult)
    ensures !Beats(a, a)
  {
    LexIrreflexive(a.values);
  }

  /** `operator>` on results is transitive. */
  lemma BeatsTransitive(a: EvalResult, b: EvalResult, c: EvalResult)
    requires Beats(a, b) && Beats(b, c)
    ensures Beats(a, c)
  {
    OrdInjective(a.handType, b.handType);
    OrdInjective(b.handType, c.handType);
    OrdInjective(a.handType, c.handType);
    if a.handType == b.handType == c.handType {
      LexTransitive(a.values, b.values, c.values);
    }
  }

  /** For any two results exactly one of `a > b`, `b > a` and `a == b` (operator==) holds. */
  lemma BeatsTrichotomy(a: EvalResult, b: EvalResult)
    ensures Beats(a, b) || Beats(b, a) || a == b
    ensures !(Beats(a, b) && Beats(b, a))
    ensures a == b ==> !Beats(a, b)
  {
    OrdInjective(a.handType, b.handType);
    LexTrichotomy(a.values, b.values);
  }

  /** A higher category wins whatever the tie-break values say. */
  lemma CategoryDecides(a: EvalResult, b: EvalResult)
    requires a.handType.Ord() > b.handType.Ord()
    ensures Beats(a, b) && !Beats(b, a)
  {
  }

  /** The sentinel loses to every result whose category is above high card or whose first value is a rank. */
  lemma SentinelLoses(a: EvalResult)
    requires a.handType != HighCard || (|a.values| > 0 && a.values[0] >= 2)
    ensures Beats(a, Sentinel)
  {
    OrdInjective(a.handType, HighCard);
  }
}
