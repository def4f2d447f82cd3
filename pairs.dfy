/**
  The pair loop of `compute_similarity`: for N texts, one record per pair
  i < j, ascending i then ascending j, labelled with the 1-based indices.
*/
module Pairs {
  import opened Wrappers
  import opened Responses
  import opened Embeddings
  import opened Labels

  datatype PairSimilarity = PairSimilarity(pair: string, similarity: real)

  /** The pairs (i, j) for lo <= j < hi, ascending j: one run of the inner loop. */
  function Row(i: nat, lo: nat, hi: nat): seq<(nat, nat)>
  {
    if hi <= lo then [] else Row(i, lo, hi - 1) + [(i, hi - 1)]
  }

  /** The pairs the outer loop has produced after its first i rounds over n texts. */
  function PairsBelow(i: nat, n: nat): seq<(nat, nat)>
  {
    if i == 0 then [] else PairsBelow(i - 1, n) + Row(i - 1, i, n)
  }

  /** Every pair the loops produce over n texts, in the order produced. */
  function AllPairs(n: nat): seq<(nat, nat)>
  {
    PairsBelow(n, n)
  }

  /** Lexicographic order on index pairs. */
  predicate LexLess(p: (nat, nat), q: (nat, nat))
  {
    p.0 < q.0 || (p.0 == q.0 && p.1 < q.1)
  }

  lemma {:induction false} RowShape(i: nat, lo: nat, hi: nat)
    requires lo <= hi
    ensures |Row(i, lo, hi)| == hi - lo
    ensures forall k :: 0 <= k < hi - lo ==> Row(i, lo, hi)[k] == (i, lo + k)
  {
    if lo < hi {
      RowShape(i, lo, hi - 1);
    }
  }

  lemma {:induction false} PairsBelowCount(i: nat, n: nat)
    requires i <= n
    ensures 2 * |PairsBelow(i, n)| == i * (2 * n - i - 1)
  {
    if i > 0 {
      PairsBelowCount(i - 1, n);
      RowShape(i - 1, i, n);
      calc {
        2 * |PairsBelow(i, n)|;
        2 * |PairsBelow(i - 1, n)| + 2 * (n - i);
        (i - 1) * (2 * n - i) + 2 * (n - i);
        i * (2 * n - i - 1);
      }
    }
  }

  /** N texts give N(N-1)/2 pairs. */
  lemma PairCount(n: nat)
    ensures |AllPairs(n)| == n * (n - 1) / 2
  {
    PairsBelowCount(n, n);
  }

  lemma RowMembers(i: nat, lo: nat, hi: nat)
    requires lo <= hi
    ensures forall p :: p in Row(i, lo, hi) <==> p.0 == i && lo <= p.1 < hi
  {
  }

  lemma {:induction false} PairsBelowMembers(i: nat, n: nat)
    requires i <= n
    ensures forall p :: p in PairsBelow(i, n) <==> p.0 < i && p.0 < p.1 < n
  {
    if i > 0 {
      PairsBelowMembers(i - 1, n);
      RowMembers(i - 1, i, n);
      var before, row := PairsBelow(i - 1, n), Row(i - 1, i, n);
      assert PairsBelow(i, n) == before + row;
      forall p: (nat, nat)
        ensures p in before + row <==> p.0 < i && p.0 < p.1 < n
      {
        assert p in before + row <==> p in before || p in row;
      }
    }
  }

  /** A pair (i, j) is produced exactly when 0 <= i < j < n. */
  lemma AllPairsMembers(n: nat)
    ensures forall p :: p in AllPairs(n) <==> p.0 < p.1 < n
  {
    PairsBelowMembers(n, n);
  }

  lemma {:induction false} PairsBelowOrdered(i: nat, n: nat)
    requires i <= n
    ensures forall a, b :: 0 <= a < b < |PairsBelow(i, n)| ==> LexLess(PairsBelow(i, n)[a], PairsBelow(i, n)[b])
  {
    if i > 0 {
      PairsBelowOrdered(i - 1, n);
      PairsBelowMembers(i - 1, n);
      RowShape(i - 1, i, n);
      var before, row := PairsBelow(i - 1, n), Row(i - 1, i, n);
      var all := PairsBelow(i, n);
      forall a, b | 0 <= a < b < |all|
        ensures LexLess(all[a], all[b])
      {
        if b >= |before| && a < |before| {
          assert all[a] in before;
        }
      }
    }
  }

  /** Pairs come strictly ascending by i, then by j; in particular no pair repeats. */
  lemma PairsOrdered(n: nat)
    ensures forall a, b :: 0 <= a < b < |AllPairs(n)| ==> LexLess(AllPairs(n)[a], AllPairs(n)[b])
  {
    PairsBelowOrdered(n, n);
  }

  /** Every pair in ps is (i, j) with i < j < n. */
  predicate InRange(ps: seq<(nat, nat)>, n: nat)
  {
    forall p :: p in ps ==> p.0 < p.1 < n
  }

  /** The record the inner loop appends for the pair p. */
  function PairRecord(embs: seq<Embedding>, sim: Similarity, p: (nat, nat)): PairSimilarity
    requires p.0 < |embs| && p.1 < |embs|
  {
    PairSimilarity(PairLabel(p.0 + 1, p.1 + 1), sim(embs[p.0], embs[p.1]))
  }

  /** The records for a list of pairs, in the same order. */
  function Records(embs: seq<Embedding>, sim: Similarity, ps: seq<(nat, nat)>): seq<PairSimilarity>
    requires InRange(ps, |embs|)
  {
    seq(|ps|, k requires 0 <= k < |ps| => PairRecord(embs, sim, ps[k]))
  }

  /** The `similarities` list for the embeddings of the request's texts. */
  function Pairwise(embs: seq<Embedding>, sim: Similarity): seq<PairSimilarity>
  {
    AllPairsMembers(|embs|);
    Records(embs, sim, AllPairs(|embs|))
  }

  lemma PairwiseLength(embs: seq<Embedding>, sim: Similarity)
    ensures |Pairwise(embs, sim)| == |AllPairs(|embs|)|
  {
  }

  /** Record k of the result is the record of the k-th pair. */
  lemma PairwiseAt(embs: seq<Embedding>, sim: Similarity, k: nat)
    requires k < |AllPairs(|embs|)|
    ensures |Pairwise(embs, sim)| == |AllPairs(|embs|)|
    ensures AllPairs(|embs|)[k].0 < AllPairs(|embs|)[k].1 < |embs|
    ensures Pairwise(embs, sim)[k] == PairRecord(embs, sim, AllPairs(|embs|)[k])
  {
    AllPairsMembers(|embs|);
    assert AllPairs(|embs|)[k] in AllPairs(|embs|);
  }

  /**
    N embeddings give N(N-1)/2 records; record k names, in its label, the
    1-based indices of the k-th pair (i, j), with i < j, and carries the
    similarity of embeddings i and j.
  */
  lemma PairwiseShape(embs: seq<Embedding>, sim: Similarity)
    ensures |Pairwise(embs, sim)| == |AllPairs(|embs|)| == |embs| * (|embs| - 1) / 2
    ensures forall k :: 0 <= k < |Pairwise(embs, sim)| ==>
              var p := AllPairs(|embs|)[k];
              && p.0 < p.1 < |embs|
              && Pairwise(embs, sim)[k].pair == PairLabel(p.0 + 1, p.1 + 1)
              && ParseLabel(Pairwise(embs, sim)[k].pair) == Some((p.0 + 1, p.1 + 1))
              && Pairwise(embs, sim)[k].similarity == sim(embs[p.0], embs[p.1])
  {
    var n := |embs|;
    PairCount(n);
    PairwiseLength(embs, sim);
    forall k | 0 <= k < |Pairwise(embs, sim)|
      ensures var p := AllPairs(n)[k];
              && p.0 < p.1 < n
              && Pairwise(embs, sim)[k].pair == PairLabel(p.0 + 1, p.1 + 1)
              && ParseLabel(Pairwise(embs, sim)[k].pair) == Some((p.0 + 1, p.1 + 1))
              && Pairwise(embs, sim)[k].similarity == sim(embs[p.0], embs[p.1])
    {
      PairwiseAt(embs, sim, k);
      var p := AllPairs(n)[k];
      LabelRoundTrip(p.0 + 1, p.1 + 1);
    }
  }

  lemma PairsOfThree()
    ensures AllPairs(3) == [(0, 1), (0, 2), (1, 2)]
  {
  }

  /** Three texts give "1 vs 2", "1 vs 3", "2 vs 3", in that order. */
  lemma ThreeTexts(embs: seq<Embedding>, sim: Similarity)
    requires |embs| == 3
    ensures Pairwise(embs, sim) ==
              [ PairSimilarity("1 vs 2", sim(embs[0], embs[1])),
                PairSimilarity("1 vs 3", sim(embs[0], embs[2])),
                PairSimilarity("2 vs 3", sim(embs[1], embs[2])) ]
  {
    PairsOfThree();
    PairwiseLength(embs, sim);
    PairwiseAt(embs, sim, 0);
    PairwiseAt(embs, sim, 1);
    PairwiseAt(embs, sim, 2);
    assert NatToString(1) == "1" && NatToString(2) == "2" && NatToString(3) == "3";
    assert PairLabel(1, 2) == "1 vs 2" && PairLabel(1, 3) == "1 vs 3" && PairLabel(2, 3) == "2 vs 3";
  }

  /**
    A bare string of two or more characters passes the length check but is
    embedded as a single text, so there is no pair to report.
  */
  lemma BareStringNoPairs(embs: seq<Embedding>, sim: Similarity)
    requires |embs| == 1
    ensures Pairwise(embs, sim) == []
  {
  }

  /** `not texts or len(texts) < 2`: the field is missing, or holds fewer than two items. */
  predicate EnoughTexts(texts: Option<TextInput>)
  {
    && texts.Some?
    && match texts.value
       case One(t) => |t| >= 2
       case Many(ts) => |ts| >= 2
  }

  /**
    The handler: too few texts are refused before any provider request; a
    provider failure is a server error; otherwise every pair's record, in order.
  */
  method ComputeSimilarity(embedOne: Provider, sim: Similarity, texts: Option<TextInput>)
    returns (r: Result<seq<PairSimilarity>, Failure>, requested: seq<Text>)
    ensures !EnoughTexts(texts) ==> r == Failure(BadRequest) && requested == []
    ensures EnoughTexts(texts) ==>
              var ts := AsList(texts.value);
              var k := FirstFailure(embedOne, ts);
              if k == |ts| then
                r == Success(Pairwise(Embedded(embedOne, ts), sim)) && requested == ts
              else
                r == Failure(ServerError(embedOne(ts[k]).error)) && requested == ts[..k + 1]
  {
    if !EnoughTexts(texts) {
      return Failure(BadRequest), [];
    }
    var embeddings;
    embeddings, requested := GetUpstageEmbeddings(embedOne, texts.value);
    if embeddings.Failure? {
      return Failure(ServerError(embeddings.error)), requested;
    }
    SuccessIsEmbedded(embedOne, AsList(texts.value), embeddings.value);
    var similarities := SimilarityPairs(embeddings.value, sim);
    r := Success(similarities);
  }

  /** The pairs of round i are within range. */
  lemma RowInRange(i: nat, n: nat)
    requires i < n
    ensures InRange(Row(i, i + 1, n), n)
  {
    RowMembers(i, i + 1, n);
  }

  /** Appending the pair p to the pairs done appends its record. */
  lemma RecordsAppend(embs: seq<Embedding>, sim: Similarity, done: seq<(nat, nat)>, p: (nat, nat))
    requires InRange(done, |embs|) && p.0 < p.1 < |embs|
    ensures InRange(done + [p], |embs|)
    ensures Records(embs, sim, done + [p]) == Records(embs, sim, done) + [PairRecord(embs, sim, p)]
  {
  }

  /** The records of two lists of pairs, one after the other. */
  lemma RecordsConcat(embs: seq<Embedding>, sim: Similarity, xs: seq<(nat, nat)>, ys: seq<(nat, nat)>)
    requires InRange(xs, |embs|) && InRange(ys, |embs|)
    ensures InRange(xs + ys, |embs|)
    ensures Records(embs, sim, xs + ys) == Records(embs, sim, xs) + Records(embs, sim, ys)
  {
  }

  /** The outer loop: one round per first index i, each appending its row. */
  method SimilarityPairs(vecs: seq<Embedding>, sim: Similarity) returns (similarities: seq<PairSimilarity>)
    ensures similarities == Pairwise(vecs, sim)
  {
    var n := |vecs|;
    similarities := [];
    for i := 0 to n
      invariant InRange(PairsBelow(i, n), n)
      invariant similarities == Records(vecs, sim, PairsBelow(i, n))
    {
      similarities := AppendRow(vecs, sim, i, similarities);
      RowInRange(i, n);
      RecordsConcat(vecs, sim, PairsBelow(i, n), Row(i, i + 1, n));
    }
  }

  /** The inner loop of round i: the records of (i, i + 1) .. (i, n - 1), appended in that order. */
  method AppendRow(vecs: seq<Embedding>, sim: Similarity, i: nat, prefix: seq<PairSimilarity>)
    returns (similarities: seq<PairSimilarity>)
    requires i < |vecs|
    ensures InRange(Row(i, i + 1, |vecs|), |vecs|)
    ensures similarities == prefix + Records(vecs, sim, Row(i, i + 1, |vecs|))
  {
    var n := |vecs|;
    similarities := prefix;
    for j := i + 1 to n
      invariant InRange(Row(i, i + 1, j), n)
      invariant similarities == prefix + Records(vecs, sim, Row(i, i + 1, j))
    {
      RecordsAppend(vecs, sim, Row(i, i + 1, j), (i, j));
      similarities := similarities + [PairRecord(vecs, sim, (i, j))];
    }
  }
}
