/** The ranking engine of getTopKSimilar (app.js:136-183), generic over the
    score of each catalog position: `scores[i]` is the score the engine would
    compute for embedding i. */
module Ranking {
  import opened Wrappers
  import opened Wines

  /** One entry of the `scores` array: a catalog position and its score. */
  datatype Scored = Scored(index: nat, score: real)

  /** The order the sort leaves entries in: higher score first; the sort is
      stable and entries are pushed in ascending position, so equal scores
      keep ascending position. */
  predicate Before(x: Scored, y: Scored)
  {
    x.score > y.score || (x.score == y.score && x.index < y.index)
  }

  predicate SortedDesc(s: seq<Scored>)
  {
    forall i, j :: 0 <= i < j < |s| ==> Before(s[i], s[j])
  }

  predicate IndicesAscending(s: seq<Scored>)
  {
    forall i, j :: 0 <= i < j < |s| ==> s[i].index < s[j].index
  }

  /** The `scores` array after the scan of positions 0 .. n-1. */
  function Candidates(wines: seq<Wine>, scores: seq<real>, opts: SearchOptions, n: nat): (r: seq<Scored>)
    requires n <= |scores|
    ensures |r| <= n
  {
    if n == 0 then []
    else
      Candidates(wines, scores, opts, n - 1)
      + (if Eligible(wines, opts, n - 1) then [Scored(n - 1, scores[n - 1])] else [])
  }

  /** Reference sort: insertion of each entry into the sorted rest. */
  function Insert(x: Scored, s: seq<Scored>): (r: seq<Scored>)
    ensures |r| == |s| + 1
  {
    if s == [] then [x]
    else if Before(x, s[0]) then [x] + s
    else [s[0]] + Insert(x, s[1..])
  }

  /** Reference sort: descending by `Before`. */
  function SortDesc(s: seq<Scored>): (r: seq<Scored>)
    ensures |r| == |s|
  {
    if s == [] then [] else Insert(s[0], SortDesc(s[1..]))
  }

  /** What getTopKSimilar returns, before each position is replaced by its
      wine: the first topK entries of the sorted candidates. */
  function Ranked(wines: seq<Wine>, scores: seq<real>, opts: SearchOptions, topK: nat): (r: seq<Scored>)
    ensures |r| <= topK
    ensures forall k :: 0 <= k < |r| ==> r[k].index < |scores| && r[k].index < |wines|
  {
    var c := Candidates(wines, scores, opts, |scores|);
    CandidatesAscending(wines, scores, opts, |scores|);
    CandidatesEligible(wines, scores, opts, |scores|);
    SortDescSorted(c);
    var sorted := SortDesc(c);
    assert forall k :: 0 <= k < |sorted| ==> sorted[k] in multiset(c);
    if topK < |sorted| then sorted[..topK] else sorted
  }

  // ---------------------------------------------------------------------
  // The scan

  /** The scan pushes positions below n in ascending order. */
  lemma {:induction false} CandidatesAscending(wines: seq<Wine>, scores: seq<real>, opts: SearchOptions, n: nat)
    requires n <= |scores|
    ensures IndicesAscending(Candidates(wines, scores, opts, n))
    ensures forall k :: 0 <= k < |Candidates(wines, scores, opts, n)| ==> Candidates(wines, scores, opts, n)[k].index < n
  {
    if n > 0 {
      CandidatesAscending(wines, scores, opts, n - 1);
    }
  }

  /** The scan pushes only eligible positions, each with its own score. */
  lemma {:induction false} CandidatesEligible(wines: seq<Wine>, scores: seq<real>, opts: SearchOptions, n: nat)
    requires n <= |scores|
    ensures forall k :: 0 <= k < |Candidates(wines, scores, opts, n)| ==>
      var c := Candidates(wines, scores, opts, n)[k];
      c.index < n && Eligible(wines, opts, c.index) && c.score == scores[c.index]
  {
    if n > 0 {
      CandidatesEligible(wines, scores, opts, n - 1);
    }
  }

  /** Every eligible position is pushed, and nothing else is. */
  lemma {:induction false} CandidatesComplete(wines: seq<Wine>, scores: seq<real>, opts: SearchOptions, n: nat, i: nat)
    requires i < n <= |scores|
    ensures Eligible(wines, opts, i) <==> Scored(i, scores[i]) in Candidates(wines, scores, opts, n)
  {
    var prev := Candidates(wines, scores, opts, n - 1);
    CandidatesAscending(wines, scores, opts, n - 1);
    if i < n - 1 {
      CandidatesComplete(wines, scores, opts, n - 1, i);
    } else {
      assert Scored(n - 1, scores[n - 1]) !in prev;
    }
  }

  /** Options under which the same positions are eligible give the same scan. */
  lemma {:induction false} CandidatesAgree(wines: seq<Wine>, scores: seq<real>, o1: SearchOptions, o2: SearchOptions, n: nat)
    requires n <= |scores|
    requires forall i :: 0 <= i < n ==> Eligible(wines, o1, i) == Eligible(wines, o2, i)
    ensures Candidates(wines, scores, o1, n) == Candidates(wines, scores, o2, n)
  {
    if n > 0 {
      CandidatesAgree(wines, scores, o1, o2, n - 1);
    }
  }

  // ---------------------------------------------------------------------
  // The sort

  /** An entry that comes before every entry of a sorted sequence can be
      put in front of it. */
  lemma SortedCons(x: Scored, s: seq<Scored>)
    requires SortedDesc(s)
    requires forall k :: 0 <= k < |s| ==> Before(x, s[k])
    ensures SortedDesc([x] + s)
  {
    var r := [x] + s;
    forall i, j | 0 <= i < j < |r|
      ensures Before(r[i], r[j])
    {
      assert r[j] == s[j - 1];
      if i > 0 {
        assert r[i] == s[i - 1];
      }
    }
  }

  /** Inserting an entry with a new position into a sorted sequence keeps it
      sorted and adds exactly that entry. */
  lemma {:induction false} InsertSorted(x: Scored, s: seq<Scored>)
    requires SortedDesc(s)
    requires forall k :: 0 <= k < |s| ==> s[k].index != x.index
    ensures SortedDesc(Insert(x, s))
    ensures multiset(Insert(x, s)) == multiset(s) + multiset{x}
  {
    if s == [] {
    } else if Before(x, s[0]) {
      forall k | 0 <= k < |s|
        ensures Before(x, s[k])
      {
        if k > 0 {
          assert Before(s[0], s[k]);
        }
      }
      SortedCons(x, s);
    } else {
      var tail := s[1..];
      assert s == [s[0]] + tail;
      SortedTail(s);
      InsertSorted(x, tail);
      var rest := Insert(x, tail);
      assert Before(s[0], x);
      forall k | 0 <= k < |rest|
        ensures Before(s[0], rest[k])
      {
        assert rest[k] in multiset(rest);
        if rest[k] != x {
          assert rest[k] in multiset(tail);
          var m :| 0 <= m < |tail| && tail[m] == rest[k];
          assert s[m + 1] == rest[k];
        }
      }
      SortedCons(s[0], rest);
    }
  }

  /** The reference sort orders entries with distinct positions and keeps
      exactly the same entries. */
  lemma {:induction false} SortDescSorted(s: seq<Scored>)
    requires IndicesAscending(s)
    ensures SortedDesc(SortDesc(s))
    ensures multiset(SortDesc(s)) == multiset(s)
  {
    if s != [] {
      SortDescSorted(s[1..]);
      var rest := SortDesc(s[1..]);
      forall k | 0 <= k < |rest|
        ensures rest[k].index != s[0].index
      {
        assert rest[k] in multiset(s[1..]);
        assert rest[k] in s[1..];
      }
      InsertSorted(s[0], rest);
      assert s == [s[0]] + s[1..];
    }
  }

  lemma SortedTail(s: seq<Scored>)
    requires SortedDesc(s) && s != []
    ensures SortedDesc(s[1..])
  {
    forall i, j | 0 <= i < j < |s| - 1
      ensures Before(s[1..][i], s[1..][j])
    {
      assert s[1..][i] == s[i + 1] && s[1..][j] == s[j + 1];
    }
  }

  /** Two sorted arrangements of the same entries are the same sequence, so
      the order the engine produces is fully determined. */
  lemma {:induction false} SortedUnique(s1: seq<Scored>, s2: seq<Scored>)
    requires SortedDesc(s1) && SortedDesc(s2)
    requires multiset(s1) == multiset(s2)
    ensures s1 == s2
  {
    assert |s1| == |multiset(s1)| == |multiset(s2)| == |s2|;
    if s1 != [] {
      assert s1[0] in multiset(s2);
      assert s2[0] in multiset(s1);
      var k :| 0 <= k < |s2| && s2[k] == s1[0];
      var m :| 0 <= m < |s1| && s1[m] == s2[0];
      if k != 0 && m != 0 {
        assert false;
      }
      assert s1[0] == s2[0];
      assert s1 == [s1[0]] + s1[1..];
      assert s2 == [s2[0]] + s2[1..];
      assert multiset(s1) == multiset{s1[0]} + multiset(s1[1..]);
      assert multiset(s2) == multiset{s2[0]} + multiset(s2[1..]);
      assert multiset(s1[1..]) == multiset(s1) - multiset{s1[0]};
      assert multiset(s2[1..]) == multiset(s2) - multiset{s2[0]};
      SortedTail(s1);
      SortedTail(s2);
      SortedUnique(s1[1..], s2[1..]);
    }
  }

  /** Exchanges two neighbouring entries of the array. */
  method SwapDown(a: array<Scored>, j: nat)
    requires 0 < j < a.Length
    modifies a
    ensures a[..] == old(a[..])[j - 1 := old(a[j])][j := old(a[j - 1])]
  {
    a[j - 1], a[j] := a[j], a[j - 1];
  }

  /** Placing x, whose position is after all of s, behind the last entry of
      the sorted s that scores at least as much keeps the whole sorted. */
  lemma PlaceSorted(s: seq<Scored>, x: Scored, j: nat)
    requires SortedDesc(s) && j <= |s|
    requires forall k :: 0 <= k < |s| ==> s[k].index < x.index
    requires forall m :: j <= m < |s| ==> s[m].score < x.score
    requires j == 0 || s[j - 1].score >= x.score
    ensures SortedDesc(s[..j] + [x] + s[j..])
  {
    var r := s[..j] + [x] + s[j..];
    forall k, m | 0 <= k < m < |r|
      ensures Before(r[k], r[m])
    {
      if m < j {
        assert r[k] == s[k] && r[m] == s[m];
      } else if m == j {
        assert r[k] == s[k] && r[m] == x;
        assert Before(s[j - 1], x);
        if k < j - 1 {
          assert Before(s[k], s[j - 1]);
        }
      } else if k == j {
        assert r[k] == x && r[m] == s[m - 1];
      } else if k < j {
        assert r[k] == s[k] && r[m] == s[m - 1];
      } else {
        assert r[k] == s[k - 1] && r[m] == s[m - 1];
      }
    }
  }

  /** Exchanging the entry x at j with its left neighbour moves x one place
      to the left in the arrangement SinkLast maintains. */
  lemma SwapStep(p: seq<Scored>, x: Scored, i: nat, j: nat, before: seq<Scored>)
    requires 0 < j <= i < |p|
    requires before == p[..j] + [x] + p[j..i] + p[i + 1..]
    ensures before[j - 1] == p[j - 1] && before[j] == x
    ensures before[j - 1 := x][j := p[j - 1]] == p[..j - 1] + [x] + p[j - 1..i] + p[i + 1..]
  {
    var after := before[j - 1 := x][j := p[j - 1]];
    var want := p[..j - 1] + [x] + p[j - 1..i] + p[i + 1..];
    assert |after| == |want|;
    forall k | 0 <= k < |after|
      ensures after[k] == want[k]
    {
      if k < j - 1 {
        assert after[k] == before[k] == p[k];
      } else if j < k <= i {
        assert after[k] == before[k] == p[k - 1];
      } else if i < k {
        assert after[k] == before[k] == p[k];
      }
    }
  }

  /** Where SinkLast stops, the first i + 1 entries are sorted. */
  lemma SinkDone(p: seq<Scored>, x: Scored, i: nat, j: nat, r: seq<Scored>)
    requires j <= i < |p| && x == p[i]
    requires r == p[..j] + [x] + p[j..i] + p[i + 1..]
    requires SortedDesc(p[..i])
    requires PositionsSplit(p, i)
    requires forall m :: j <= m < i ==> p[m].score < x.score
    requires j == 0 || p[j - 1].score >= x.score
    ensures SortedDesc(r[..i + 1])
  {
    var s := p[..i];
    assert forall k :: 0 <= k < |s| ==> s[k].index < x.index;
    PlaceSorted(s, x, j);
    assert r[..i + 1] == s[..j] + [x] + s[j..];
  }

  /** Every entry before i has a lower position than every entry from i on. */
  predicate PositionsSplit(s: seq<Scored>, i: nat)
  {
    forall k, m :: 0 <= k < i <= m < |s| ==> s[k].index < s[m].index
  }

  /** One pass of the insertion sort: moves a[i] left past every entry with a
      lower score, so that a[..i+1] becomes sorted; returns where it landed. */
  method SinkLast(a: array<Scored>, i: nat) returns (j: nat)
    requires i < a.Length
    requires SortedDesc(a[..i])
    requires PositionsSplit(a[..], i)
    modifies a
    ensures j <= i
    ensures a[..] == old(a[..j]) + [old(a[i])] + old(a[j..i]) + old(a[i + 1..])
    ensures SortedDesc(a[..i + 1])
  {
    ghost var p := a[..];
    ghost var x := a[i];
    j := i;
    assert p == p[..i] + [x] + p[i..i] + p[i + 1..];
    while j > 0 && a[j - 1].score < a[j].score
      invariant 0 <= j <= i
      invariant a[..] == p[..j] + [x] + p[j..i] + p[i + 1..]
      invariant forall m :: j <= m < i ==> p[m].score < x.score
    {
      SwapStep(p, x, i, j, a[..]);
      SwapDown(a, j);
      j := j - 1;
    }
    if j > 0 {
      SwapStep(p, x, i, j, a[..]);
    }
    SinkDone(p, x, i, j, a[..]);
  }

  /** The state of the insertion sort of o before pass i: the first i
      entries are sorted, the rest are still o's, every sorted entry has a
      lower position than every unsorted one, and nothing was lost. */
  ghost predicate SortState(s: seq<Scored>, o: seq<Scored>, i: nat)
  {
    && |s| == |o| && i <= |s|
    && SortedDesc(s[..i])
    && (forall k :: i <= k < |s| ==> s[k] == o[k])
    && PositionsSplit(s, i)
    && multiset(s) == multiset(o)
  }

  /** A pass at i takes the sort from its state before pass i to its state
      before pass i + 1. */
  lemma PassKeeps(o: seq<Scored>, b: seq<Scored>, r: seq<Scored>, i: nat, j: nat)
    requires IndicesAscending(o)
    requires SortState(b, o, i) && j <= i < |b|
    requires r == b[..j] + [b[i]] + b[j..i] + b[i + 1..]
    requires SortedDesc(r[..i + 1])
    ensures SortState(r, o, i + 1)
  {
    assert b == b[..j] + b[j..i] + [b[i]] + b[i + 1..];
    forall k, m | 0 <= k < i + 1 <= m < |r|
      ensures r[k].index < r[m].index
    {
      assert r[m] == b[m] == o[m];
      if k < j {
        assert r[k] == b[k];
      } else if k == j {
        assert r[k] == b[i] == o[i];
      } else {
        assert r[k] == b[k - 1];
      }
    }
  }

  /** Stable insertion sort of the `scores` array in place by descending
      score (scores.sort((a, b) => b.score - a.score)). */
  method SortByScore(a: array<Scored>)
    requires IndicesAscending(a[..])
    modifies a
    ensures SortedDesc(a[..])
    ensures multiset(a[..]) == multiset(old(a[..]))
  {
    ghost var o := a[..];
    var i := 0;
    assert SortState(a[..], o, 0);
    while i < a.Length
      invariant 0 <= i <= a.Length
      invariant SortState(a[..], o, i)
    {
      ghost var b := a[..];
      var j := SinkLast(a, i);
      PassKeeps(o, b, a[..], i, j);
      i := i + 1;
    }
    assert a[..] == a[..a.Length];
  }

  // ---------------------------------------------------------------------
  // What the engine returns

  /** At most topK entries, and fewer only when fewer positions are eligible. */
  lemma RankedLength(wines: seq<Wine>, scores: seq<real>, opts: SearchOptions, topK: nat)
    ensures var n := |Candidates(wines, scores, opts, |scores|)|;
      |Ranked(wines, scores, opts, topK)| == if topK < n then topK else n
  {
    var c := Candidates(wines, scores, opts, |scores|);
    CandidatesAscending(wines, scores, opts, |scores|);
    SortDescSorted(c);
    assert |SortDesc(c)| == |multiset(SortDesc(c))| == |multiset(c)| == |c|;
  }

  /** The result is sorted: scores never increase along it. */
  lemma RankedSorted(wines: seq<Wine>, scores: seq<real>, opts: SearchOptions, topK: nat)
    ensures SortedDesc(Ranked(wines, scores, opts, topK))
    ensures forall i, j :: 0 <= i < j < |Ranked(wines, scores, opts, topK)| ==>
      Ranked(wines, scores, opts, topK)[i].score >= Ranked(wines, scores, opts, topK)[j].score
  {
    var c := Candidates(wines, scores, opts, |scores|);
    CandidatesAscending(wines, scores, opts, |scores|);
    SortDescSorted(c);
  }

  /** In a sorted sequence, an entry whose position does not occur in a
      prefix r comes after every entry of r. */
  lemma PrefixComesFirst(sorted: seq<Scored>, r: seq<Scored>, e: Scored)
    requires SortedDesc(sorted) && |r| <= |sorted| && r == sorted[..|r|]
    requires e in multiset(sorted)
    requires forall k :: 0 <= k < |r| ==> r[k].index != e.index
    ensures forall k :: 0 <= k < |r| ==> Before(r[k], e) && r[k].score >= e.score
  {
    var j :| 0 <= j < |sorted| && sorted[j] == e;
    forall k | 0 <= k < |r|
      ensures Before(r[k], e) && r[k].score >= e.score
    {
      assert r[k] == sorted[k];
      assert k < j;
    }
  }

  /** Every returned entry is an eligible position: not excluded, backed by
      a wine, accepted by the filters, and carrying its own score. */
  lemma RankedEligible(wines: seq<Wine>, scores: seq<real>, opts: SearchOptions, topK: nat)
    ensures forall k :: 0 <= k < |Ranked(wines, scores, opts, topK)| ==>
      var x := Ranked(wines, scores, opts, topK)[k];
      && x.index !in opts.excludeIndices
      && Eligible(wines, opts, x.index)
      && x.score == scores[x.index]
  {
    var c := Candidates(wines, scores, opts, |scores|);
    CandidatesAscending(wines, scores, opts, |scores|);
    CandidatesEligible(wines, scores, opts, |scores|);
    SortDescSorted(c);
    var sorted := SortDesc(c);
    var r := Ranked(wines, scores, opts, topK);
    assert r == sorted[..|r|];
    forall k | 0 <= k < |r|
      ensures r[k] in multiset(c)
    {
      assert r[k] == sorted[k];
      assert sorted[k] in multiset(sorted);
    }
  }

  /** An eligible position that was left out ranks after every returned
      entry; in particular it scores no higher than any of them. */
  lemma RankedBeatsLeftOut(wines: seq<Wine>, scores: seq<real>, opts: SearchOptions, topK: nat, i: nat)
    requires i < |scores| && Eligible(wines, opts, i)
    requires forall k :: 0 <= k < |Ranked(wines, scores, opts, topK)| ==> Ranked(wines, scores, opts, topK)[k].index != i
    ensures forall k :: 0 <= k < |Ranked(wines, scores, opts, topK)| ==>
      Before(Ranked(wines, scores, opts, topK)[k], Scored(i, scores[i]))
      && Ranked(wines, scores, opts, topK)[k].score >= scores[i]
  {
    var c := Candidates(wines, scores, opts, |scores|);
    CandidatesComplete(wines, scores, opts, |scores|, i);
    CandidatesAscending(wines, scores, opts, |scores|);
    SortDescSorted(c);
    var r := Ranked(wines, scores, opts, topK);
    PrefixComesFirst(SortDesc(c), r, Scored(i, scores[i]));
  }

  /** When at most topK positions are eligible, all of them are returned. */
  lemma RankedAllWhenFew(wines: seq<Wine>, scores: seq<real>, opts: SearchOptions, topK: nat, i: nat)
    requires |Candidates(wines, scores, opts, |scores|)| <= topK
    requires i < |scores| && Eligible(wines, opts, i)
    ensures Scored(i, scores[i]) in Ranked(wines, scores, opts, topK)
  {
    var c := Candidates(wines, scores, opts, |scores|);
    CandidatesAscending(wines, scores, opts, |scores|);
    CandidatesComplete(wines, scores, opts, |scores|, i);
    SortDescSorted(c);
    assert Scored(i, scores[i]) in multiset(SortDesc(c));
  }

  /** The country and variety filters ignore letter case: filter strings that
      agree once lower-cased give the same result. */
  lemma RankedCaseInsensitive(wines: seq<Wine>, scores: seq<real>, o1: SearchOptions, o2: SearchOptions, topK: nat)
    requires Lower(o1.filterCountry) == Lower(o2.filterCountry)
    requires Lower(o1.filterVariety) == Lower(o2.filterVariety)
    requires o1.maxPrice == o2.maxPrice && o1.excludeIndices == o2.excludeIndices
    ensures Ranked(wines, scores, o1, topK) == Ranked(wines, scores, o2, topK)
  {
    forall i | 0 <= i < |scores|
      ensures Eligible(wines, o1, i) == Eligible(wines, o2, i)
    {
      if i < |wines| {
        MatchesTextCaseInsensitive(o1.filterCountry, o2.filterCountry, wines[i].record.country);
        MatchesTextCaseInsensitive(o1.filterVariety, o2.filterVariety, wines[i].record.variety);
      }
    }
    CandidatesAgree(wines, scores, o1, o2, |scores|);
  }

  // ---------------------------------------------------------------------
  // A two-wine catalog: A (France, price 10) scores 1.0, B (Italy, price 50)
  // scores 0.0 against the query.

  function TwoWines(): (r: seq<Wine>)
  {
    [ Wine(Record(Some("France"), None, Numeric(10.0)), 0),
      Wine(Record(Some("Italy"), None, Numeric(50.0)), 1) ]
  }

  /** Without filters both are returned, A first. */
  lemma TwoWinesUnfiltered()
    ensures Ranked(TwoWines(), [1.0, 0.0], NoFilters, 2) == [Scored(0, 1.0), Scored(1, 0.0)]
  {
    var c := Candidates(TwoWines(), [1.0, 0.0], NoFilters, 2);
    assert Candidates(TwoWines(), [1.0, 0.0], NoFilters, 1) == [Scored(0, 1.0)];
    assert c == [Scored(0, 1.0), Scored(1, 0.0)];
    assert SortDesc([Scored(1, 0.0)]) == [Scored(1, 0.0)];
  }

  /** A price bound of 20 leaves only A. */
  lemma TwoWinesUnderTwenty()
    ensures Ranked(TwoWines(), [1.0, 0.0], SearchOptions("", "", Some(20.0), {}), 2) == [Scored(0, 1.0)]
  {
    var opts := SearchOptions("", "", Some(20.0), {});
    assert Candidates(TwoWines(), [1.0, 0.0], opts, 1) == [Scored(0, 1.0)];
    assert !Eligible(TwoWines(), opts, 1);
    assert Candidates(TwoWines(), [1.0, 0.0], opts, 2) == [Scored(0, 1.0)];
    assert SortDesc([Scored(0, 1.0)]) == [Scored(0, 1.0)];
  }

  /** Excluding A, as the favourites use case does when A is the selection,
      leaves only B although A scores higher. */
  lemma TwoWinesExcludingFirst()
    ensures Ranked(TwoWines(), [1.0, 0.0], SearchOptions("", "", None, {0}), 2) == [Scored(1, 0.0)]
  {
    var opts := SearchOptions("", "", None, {0});
    assert Candidates(TwoWines(), [1.0, 0.0], opts, 1) == [];
    assert Candidates(TwoWines(), [1.0, 0.0], opts, 2) == [Scored(1, 0.0)];
    assert SortDesc([Scored(1, 0.0)]) == [Scored(1, 0.0)];
  }
}
