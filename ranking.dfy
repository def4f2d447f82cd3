/**
  The ranking step of `search_similar`: the results are sorted in place by
  similarity, highest first, with a stable sort, so results with equal
  similarity keep the order of the store.

  Stability is stated with `WithScore`: for every similarity value, the results
  carrying it appear in the same order before and after the sort.
*/
module Ranking {
  import opened Embeddings

  /** One entry of the `results` list of a search. */
  datatype ScoredSentence = ScoredSentence(text: Text, similarity: real, timestamp: string)

  /** Non-increasing by similarity. */
  predicate SortedDesc(s: seq<ScoredSentence>)
  {
    forall a, b :: 0 <= a < b < |s| ==> s[a].similarity >= s[b].similarity
  }

  /** The entries of s whose similarity is `score`, in their order in s. */
  function WithScore(s: seq<ScoredSentence>, score: real): seq<ScoredSentence>
  {
    if s == [] then []
    else (if s[0].similarity == score then [s[0]] else []) + WithScore(s[1..], score)
  }

  /** t holds, for every score, the same entries in the same order as s. */
  ghost predicate SameTies(t: seq<ScoredSentence>, s: seq<ScoredSentence>)
  {
    forall score :: WithScore(t, score) == WithScore(s, score)
  }

  /** What the stable descending sort of s produces. */
  ghost predicate StablySortedFrom(t: seq<ScoredSentence>, s: seq<ScoredSentence>)
  {
    SortedDesc(t) && SameTies(t, s)
  }

  lemma {:induction false} WithScoreAppend(a: seq<ScoredSentence>, b: seq<ScoredSentence>, score: real)
    ensures WithScore(a + b, score) == WithScore(a, score) + WithScore(b, score)
  {
    if a != [] {
      assert (a + b)[1..] == a[1..] + b;
      WithScoreAppend(a[1..], b, score);
    } else {
      assert a + b == b;
    }
  }

  lemma {:induction false} WithScoreMembers(s: seq<ScoredSentence>, score: real)
    ensures forall x :: x in WithScore(s, score) <==> x in s && x.similarity == score
  {
    if s != [] {
      WithScoreMembers(s[1..], score);
      assert s == [s[0]] + s[1..];
    }
  }

  /** Exchanging two neighbours with different similarities keeps every tie group's order. */
  lemma SwapKeepsTies(s: seq<ScoredSentence>, j: nat)
    requires 0 < j < |s|
    requires s[j - 1].similarity != s[j].similarity
    ensures SameTies(s[j - 1 := s[j]][j := s[j - 1]], s)
  {
    var t := s[j - 1 := s[j]][j := s[j - 1]];
    var front, back := s[..j - 1], s[j + 1..];
    assert s == front + [s[j - 1], s[j]] + back;
    assert t == front + [s[j], s[j - 1]] + back;
    forall score
      ensures WithScore(t, score) == WithScore(s, score)
    {
      WithScoreAppend(front + [s[j - 1], s[j]], back, score);
      WithScoreAppend(front, [s[j - 1], s[j]], score);
      WithScoreAppend(front + [s[j], s[j - 1]], back, score);
      WithScoreAppend(front, [s[j], s[j - 1]], score);
      assert [s[j - 1], s[j]][1..] == [s[j]];
      assert [s[j], s[j - 1]][1..] == [s[j - 1]];
    }
  }

  lemma {:induction false} CountThroughScore(s: seq<ScoredSentence>, x: ScoredSentence)
    ensures multiset(s)[x] == multiset(WithScore(s, x.similarity))[x]
  {
    if s != [] {
      CountThroughScore(s[1..], x);
      assert s == [s[0]] + s[1..];
    }
  }

  /** Keeping every tie group makes the result a permutation of the input. */
  lemma TiesKeepMultiset(t: seq<ScoredSentence>, s: seq<ScoredSentence>)
    requires SameTies(t, s)
    ensures multiset(t) == multiset(s)
  {
    forall x
      ensures multiset(t)[x] == multiset(s)[x]
    {
      CountThroughScore(t, x);
      CountThroughScore(s, x);
    }
  }

  /**
    The stable descending sort has exactly one possible result: two sequences
    sorted by similarity that agree on every tie group are equal.
  */
  lemma {:induction false} StableSortUnique(t1: seq<ScoredSentence>, t2: seq<ScoredSentence>)
    requires SortedDesc(t1) && SortedDesc(t2) && SameTies(t1, t2)
    ensures t1 == t2
  {
    if t1 == [] || t2 == [] {
      var t := if t1 == [] then t2 else t1;
      if t != [] {
        WithScoreMembers(t1, t[0].similarity);
        WithScoreMembers(t2, t[0].similarity);
        assert false;
      }
    } else {
      var m1, m2 := t1[0].similarity, t2[0].similarity;
      WithScoreMembers(t1, m2);
      WithScoreMembers(t2, m2);
      WithScoreMembers(t1, m1);
      WithScoreMembers(t2, m1);
      assert t2[0] in WithScore(t2, m2);
      assert t1[0] in WithScore(t1, m1);
      assert m1 == m2;
      assert WithScore(t1, m1) == [t1[0]] + WithScore(t1[1..], m1);
      assert WithScore(t2, m1) == [t2[0]] + WithScore(t2[1..], m1);
      assert t1[0] == WithScore(t1, m1)[0] == WithScore(t2, m1)[0] == t2[0];
      forall score
        ensures WithScore(t1[1..], score) == WithScore(t2[1..], score)
      {
        if score == m1 {
          assert WithScore(t1, m1)[1..] == WithScore(t1[1..], m1);
          assert WithScore(t2, m1)[1..] == WithScore(t2[1..], m1);
        } else {
          assert WithScore(t1, score) == WithScore(t1[1..], score);
          assert WithScore(t2, score) == WithScore(t2[1..], score);
        }
      }
      StableSortUnique(t1[1..], t2[1..]);
      assert t1 == [t1[0]] + t1[1..] && t2 == [t2[0]] + t2[1..];
    }
  }

  lemma SameTiesTransitive(t: seq<ScoredSentence>, u: seq<ScoredSentence>, s: seq<ScoredSentence>)
    requires SameTies(t, u) && SameTies(u, s)
    ensures SameTies(t, s)
  {
  }

  /**
    `results.sort(key=lambda x: x["similarity"], reverse=True)`, as an
    insertion sort: each entry in turn is moved left into the sorted prefix.
  */
  method SortBySimilarity(a: array<ScoredSentence>)
    modifies a
    ensures StablySortedFrom(a[..], old(a[..]))
  {
    for i := 0 to a.Length
      invariant SortedDesc(a[..i])
      invariant SameTies(a[..], old(a[..]))
    {
      ghost var before := a[..];
      InsertIntoPrefix(a, i);
      SameTiesTransitive(a[..], before, old(a[..]));
    }
  }

  /**
    Moves a[i] left past the entries with a strictly lower similarity, never
    past an equal one, so the prefix a[..i + 1] becomes sorted.
  */
  method InsertIntoPrefix(a: array<ScoredSentence>, i: nat)
    requires i < a.Length && SortedDesc(a[..i])
    modifies a
    ensures SortedDesc(a[..i + 1])
    ensures SameTies(a[..], old(a[..]))
    ensures a[i + 1..] == old(a[i + 1..])
  {
    var j := i;
    while j > 0 && a[j - 1].similarity < a[j].similarity
      invariant 0 <= j <= i
      invariant forall p, q :: 0 <= p < q <= i && p != j && q != j ==> a[p].similarity >= a[q].similarity
      invariant forall q :: j < q <= i ==> a[j].similarity > a[q].similarity
      invariant SameTies(a[..], old(a[..]))
      invariant a[i + 1..] == old(a[i + 1..])
    {
      ghost var before := a[..];
      SwapKeepsTies(a[..], j);
      a[j - 1], a[j] := a[j], a[j - 1];
      SameTiesTransitive(a[..], before, old(a[..]));
      j := j - 1;
    }
  }
}
