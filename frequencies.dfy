/**
 * Rank frequencies of a hand: each rank that occurs together with how often it
 * occurs, ordered by count (most frequent first) and then by rank (highest first).
 */
module RankCounts {

  /** One entry of the frequency list: a rank and how many cards carry it. */
  datatype Group = Group(rank: int, count: nat)

  /** How many times `x` occurs in `rs`. */
  function Count(rs: seq<int>, x: int): nat
  {
    multiset(rs)[x]
  }

  /** The comparator handed to std::sort: higher count first, then higher rank. */
  predicate Before(a: Group, b: Group)
    ensures Before(a, b) ==> a.count >= b.count && a != b
  {
    a.count > b.count || (a.count == b.count && a.rank > b.rank)
  }

  predicate StrictlySorted(f: seq<Group>)
  {
    forall i, j :: 0 <= i < j < |f| ==> Before(f[i], f[j])
  }

  /** `g` is the entry the frequency list of `rs` holds for `g.rank`. */
  predicate Describes(rs: seq<int>, g: Group)
  {
    g.rank in rs && g.count == Count(rs, g.rank)
  }

  /** `f` holds exactly one entry per rank occurring in `rs`, with that rank's count. */
  ghost predicate Lists(f: seq<Group>, rs: seq<int>)
  {
    forall g :: g in f <==> Describes(rs, g)
  }

  predicate InRankRange(rs: seq<int>)
  {
    forall i :: 0 <= i < |rs| ==> 2 <= rs[i] <= 14
  }

  /** The sum of the counts of a frequency list. */
  function Total(f: seq<Group>): nat
  {
    if f == [] then 0 else f[0].count + Total(f[1..])
  }

  /** The counts of `f`, in order, are `c`. */
  predicate CountsAre(f: seq<Group>, c: seq<nat>)
  {
    |f| == |c| && forall i :: 0 <= i < |f| ==> f[i].count == c[i]
  }

  /**
   * The entries with count `c` and rank at most `r`, then all entries with a
   * smaller count, each block by descending rank.
   */
  function FreqFrom(rs: seq<int>, c: nat, r: int): seq<Group>
    requires 1 <= r <= 14
    decreases c, r
  {
    if c == 0 then []
    else if r == 1 then FreqFrom(rs, c - 1, 14)
    else (if Count(rs, r) == c then [Group(r, c)] else []) + FreqFrom(rs, c, r - 1)
  }

  /** The frequency list of a sequence of ranks, in the order std::sort leaves it. */
  function Frequencies(rs: seq<int>): (f: seq<Group>)
    ensures StrictlySorted(f)
    ensures forall g :: g in f ==> 1 <= g.count == Count(rs, g.rank)
  {
    FreqFromMembers(rs, |rs|, 14);
    FreqFromSorted(rs, |rs|, 14);
    FreqFrom(rs, |rs|, 14)
  }

  /** A frequency list of five cards: sorted, no empty entry, counts adding up to five. */
  predicate FiveCardShape(f: seq<Group>)
  {
    StrictlySorted(f) && (forall i :: 0 <= i < |f| ==> f[i].count >= 1) && Total(f) == 5
  }

  lemma {:induction false} CountAtMostLength(rs: seq<int>, x: int)
    ensures Count(rs, x) <= |rs|
  {
    if rs != [] {
      assert rs == [rs[0]] + rs[1..];
      CountAtMostLength(rs[1..], x);
    }
  }

  lemma {:induction false} FreqFromMembers(rs: seq<int>, c: nat, r: int)
    requires 1 <= r <= 14
    ensures forall g :: g in FreqFrom(rs, c, r) <==>
      2 <= g.rank <= 14 && 1 <= g.count == Count(rs, g.rank) &&
      (g.count < c || (g.count == c && g.rank <= r))
    decreases c, r
  {
    if c == 0 {
    } else if r == 1 {
      FreqFromMembers(rs, c - 1, 14);
    } else {
      FreqFromMembers(rs, c, r - 1);
    }
  }

  lemma {:induction false} FreqFromSorted(rs: seq<int>, c: nat, r: int)
    requires 1 <= r <= 14
    ensures StrictlySorted(FreqFrom(rs, c, r))
    decreases c, r
  {
    if c == 0 {
    } else if r == 1 {
      FreqFromSorted(rs, c - 1, 14);
    } else {
      FreqFromSorted(rs, c, r - 1);
      FreqFromMembers(rs, c, r - 1);
      var tail := FreqFrom(rs, c, r - 1);
      if Count(rs, r) == c {
        forall h | h in tail ensures Before(Group(r, c), h) {
        }
        ConsSorted(Group(r, c), tail);
      }
    }
  }

  /** An entry that comes before every entry of a sorted list can be put in front of it. */
  lemma ConsSorted(g: Group, tail: seq<Group>)
    requires StrictlySorted(tail) && forall h :: h in tail ==> Before(g, h)
    ensures StrictlySorted([g] + tail)
  {
    var f := [g] + tail;
    forall i, j | 0 <= i < j < |f| ensures Before(f[i], f[j]) {
      assert f[j] == tail[j - 1] && f[j] in tail;
      if i > 0 {
        assert f[i] == tail[i - 1];
      }
    }
  }

  /** The frequency list is sorted by (count, rank) and lists every rank of the hand once, with its count. */
  lemma FrequenciesSpec(rs: seq<int>)
    requires InRankRange(rs)
    ensures StrictlySorted(Frequencies(rs))
    ensures Lists(Frequencies(rs), rs)
  {
    FreqFromMembers(rs, |rs|, 14);
    FreqFromSorted(rs, |rs|, 14);
    forall g ensures g in Frequencies(rs) <==> Describes(rs, g) {
      if Describes(rs, g) {
        var i :| 0 <= i < |rs| && rs[i] == g.rank;
        CountAtMostLength(rs, g.rank);
      }
    }
  }

  /** `rs` with every occurrence of `x` taken out. */
  function Remove(rs: seq<int>, x: int): seq<int>
  {
    if rs == [] then [] else (if rs[0] == x then [] else [rs[0]]) + Remove(rs[1..], x)
  }

  lemma {:induction false} RemoveSpec(rs: seq<int>, x: int)
    ensures |Remove(rs, x)| == |rs| - Count(rs, x)
    ensures forall y :: Count(Remove(rs, x), y) == if y == x then 0 else Count(rs, y)
  {
    if rs != [] {
      assert rs == [rs[0]] + rs[1..];
      assert multiset(rs) == multiset{rs[0]} + multiset(rs[1..]);
      RemoveSpec(rs[1..], x);
      var rest := Remove(rs[1..], x);
      if rs[0] != x {
        assert Remove(rs, x) == [rs[0]] + rest;
        assert multiset(Remove(rs, x)) == multiset{rs[0]} + multiset(rest);
      } else {
        assert Remove(rs, x) == rest;
      }
    }
  }

  /** A strictly sorted list never holds two entries for one rank. */
  lemma SortedRanksDistinct(f: seq<Group>, rs: seq<int>, i: int, j: int)
    requires StrictlySorted(f) && Lists(f, rs)
    requires 0 <= i < |f| && 0 <= j < |f| && i != j
    ensures f[i].rank != f[j].rank
  {
    assert f[i] in f && f[j] in f;
  }

  /** A list naming each rank of `rs` once, with its count, has counts adding up to `|rs|`. */
  lemma {:induction false} TotalIsLength(f: seq<Group>, rs: seq<int>)
    requires StrictlySorted(f) && Lists(f, rs)
    ensures Total(f) == |rs|
    decreases |f|
  {
    if f == [] {
      if rs != [] {
        assert Describes(rs, Group(rs[0], Count(rs, rs[0])));
        assert false;
      }
    } else {
      var x := f[0].rank;
      var rest := Remove(rs, x);
      RemoveSpec(rs, x);
      assert f[0] in f;
      forall g ensures g in f[1..] <==> Describes(rest, g) {
        if g in f[1..] {
          var j :| 0 <= j < |f[1..]| && f[1..][j] == g;
          assert f[j + 1] == g && f[j + 1] in f;
          SortedRanksDistinct(f, rs, 0, j + 1);
        }
        if Describes(rest, g) {
          assert g.rank in multiset(rest);
          assert Describes(rs, g);
          var j :| 0 <= j < |f| && f[j] == g;
          assert j != 0;
          assert f[1..][j - 1] == g;
        }
      }
      TotalIsLength(f[1..], rest);
    }
  }

  /** Two strictly sorted lists with the same entries are the same list. */
  lemma {:induction false} SortedUnique(f: seq<Group>, h: seq<Group>)
    requires StrictlySorted(f) && StrictlySorted(h)
    requires forall g :: g in f <==> g in h
    ensures f == h
    decreases |f|
  {
    if f == [] {
      assert forall i :: 0 <= i < |h| ==> h[i] in h;
    } else {
      assert f[0] in f;
      assert h != [];
      assert h[0] in h;
      var i :| 0 <= i < |h| && h[i] == f[0];
      var j :| 0 <= j < |f| && f[j] == h[0];
      assert f[0] == h[0];
      forall g ensures g in f[1..] <==> g in h[1..] {
        if g in f[1..] {
          var k :| 0 <= k < |f[1..]| && f[1..][k] == g;
          assert f[k + 1] == g && g in h;
          var m :| 0 <= m < |h| && h[m] == g;
          assert m != 0;
          assert h[1..][m - 1] == g;
        }
        if g in h[1..] {
          var k :| 0 <= k < |h[1..]| && h[1..][k] == g;
          assert h[k + 1] == g && g in f;
          var m :| 0 <= m < |f| && f[m] == g;
          assert m != 0;
          assert f[1..][m - 1] == g;
        }
      }
      SortedUnique(f[1..], h[1..]);
      assert f == [f[0]] + f[1..] && h == [h[0]] + h[1..];
    }
  }

  /** The frequency list of five ranks in range has the shape evaluateFive relies on. */
  lemma FrequenciesShape(rs: seq<int>)
    requires |rs| == 5 && InRankRange(rs)
    ensures FiveCardShape(Frequencies(rs))
  {
    var f := Frequencies(rs);
    FrequenciesSpec(rs);
    TotalIsLength(f, rs);
    forall i | 0 <= i < |f| ensures f[i].count >= 1 {
      assert f[i] in f;
    }
  }

  lemma {:induction false} TotalAtLeastLength(f: seq<Group>)
    requires forall i :: 0 <= i < |f| ==> f[i].count >= 1
    ensures Total(f) >= |f|
  {
    if f != [] {
      TotalAtLeastLength(f[1..]);
    }
  }

  lemma TotalUnfold(f: seq<Group>, k: nat)
    requires k < |f|
    ensures Total(f[k..]) == f[k].count + Total(f[k + 1..])
  {
    assert f[k..][1..] == f[k + 1..];
  }

  /**
   * The counts of a five-card frequency list form one of the seven ways of
   * writing 5 as a non-increasing sum of positive parts.
   */
  lemma FiveCardPartitions(f: seq<Group>)
    requires FiveCardShape(f)
    ensures CountsAre(f, [5]) || CountsAre(f, [4, 1]) || CountsAre(f, [3, 2]) || CountsAre(f, [3, 1, 1])
         || CountsAre(f, [2, 2, 1]) || CountsAre(f, [2, 1, 1, 1]) || CountsAre(f, [1, 1, 1, 1, 1])
  {
    TotalAtLeastLength(f);
    assert f[0..] == f;
    var n := |f|;
    for k := 0 to n
      invariant Total(f) == Total(f[k..]) + (if k > 0 then f[0].count else 0) + (if k > 1 then f[1].count else 0)
        + (if k > 2 then f[2].count else 0) + (if k > 3 then f[3].count else 0) + (if k > 4 then f[4].count else 0)
    {
      TotalUnfold(f, k);
    }
    assert f[n..] == [];
    forall i | 0 <= i < n - 1 ensures f[i].count >= f[i + 1].count {
      assert Before(f[i], f[i + 1]);
    }
  }

  /** The positions of a five-card frequency list that evaluateFive reads exist. */
  lemma FiveCardIndices(f: seq<Group>)
    requires FiveCardShape(f)
    ensures |f| >= 1
    ensures f[0].count == 4 ==> |f| >= 2
    ensures f[0].count == 3 ==> |f| >= 2 && (f[1].count != 2 ==> |f| >= 3)
    ensures f[0].count == 2 ==> |f| >= 3 && (f[1].count != 2 ==> |f| >= 4)
  {
    FiveCardPartitions(f);
  }
}
