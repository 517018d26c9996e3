/**
 * Passage selection of `retrieve_passages_semantic`.
 *
 * TF-IDF projection and cosine similarity are not modelled: the caller passes
 * `sims`, one similarity per passage, and `order`, the index order produced by
 * `np.argsort(sims)[::-1]` — a permutation of the passage indices whose scores
 * never increase. Nothing is assumed about the order of tied scores.
 */
module Retrieval {
  import opened Wrappers
  import opened Text

  /** A `(passage, score)` pair. */
  type Scored = (string, real)

  const DefaultTopN: int := 3
  /**
   * Python's `1e-6` is the double nearest to 10^-6, slightly below it; this is
   * that double's exact value, so `score >= min_score` on doubles and on their
   * exact real values agree.
   */
  const DefaultMinScore: real := 0.000000999999999999999954748111825886258685613938723690807819366455078125

  /** `(query or "").strip()` */
  function NormalizeQuery(query: Option<string>): (r: string)
    ensures query.None? ==> r == ""
    ensures query.Some? ==> |r| <= |query.value|
    ensures r == [] || (!IsSpace(r[0]) && !IsSpace(r[|r| - 1]))
  {
    var s := match query case None => "" case Some(s) => s;
    var t := TrimStart(s);
    var r := TrimEnd(t);
    assert r != [] ==> r[0] == t[0];
    r
  }

  /** The query is dropped exactly when it is `None`, empty or whitespace only. */
  lemma NormalizeQueryEmptyIff(query: Option<string>)
    ensures NormalizeQuery(query) == "" <==> query == None || AllSpace(query.value)
  {
    match query
    case None => StripEmptyIff("");
    case Some(s) => StripEmptyIff(s);
  }

  predicate IndicesIn(s: seq<nat>, n: nat) {
    forall k :: 0 <= k < |s| ==> s[k] < n
  }

  predicate Distinct(s: seq<nat>) {
    forall j, k :: 0 <= j < k < |s| ==> s[j] != s[k]
  }

  /** `order` lists every index below `n` exactly once. */
  predicate IsPermutationOf(order: seq<nat>, n: nat) {
    |order| == n && Distinct(order) && IndicesIn(order, n) && forall i: nat :: i < n ==> i in order
  }

  predicate RankedDescending(sims: seq<real>, order: seq<nat>)
    requires IndicesIn(order, |sims|)
  {
    forall j, k :: 0 <= j < k < |order| ==> sims[order[j]] >= sims[order[k]]
  }

  /** What `cosine_similarity` and `np.argsort(...)[::-1]` guarantee to the loop. */
  predicate WellRanked(kb: seq<string>, sims: seq<real>, order: seq<nat>) {
    |sims| == |kb| && IsPermutationOf(order, |sims|) && RankedDescending(sims, order)
  }

  /** The indices of `order`, in order, whose score clears `minScore`. */
  function Qualifying(sims: seq<real>, minScore: real, order: seq<nat>): (q: seq<nat>)
    requires IndicesIn(order, |sims|)
    ensures |q| <= |order| && IndicesIn(q, |sims|)
    decreases |order|
  {
    if order == [] then []
    else
      var last := order[|order| - 1];
      Qualifying(sims, minScore, order[..|order| - 1]) + (if sims[last] >= minScore then [last] else [])
  }

  /** The qualifying indices are exactly the indices of `order` whose score clears `minScore`. */
  lemma {:induction false} QualifyingMembers(sims: seq<real>, minScore: real, order: seq<nat>)
    requires IndicesIn(order, |sims|)
    ensures forall x :: x in Qualifying(sims, minScore, order) <==> x in order && x < |sims| && sims[x] >= minScore
    decreases |order|
  {
    if order != [] {
      var init := order[..|order| - 1];
      QualifyingMembers(sims, minScore, init);
      assert order == init + [order[|order| - 1]];
    }
  }

  /** `s[:n]` for a count that may be zero or negative (which keeps nothing). */
  function Take(s: seq<nat>, n: int): (r: seq<nat>)
    ensures |r| == (if n <= 0 then 0 else if n < |s| then n else |s|)
    ensures r == s[..|r|]
  {
    if n <= 0 then [] else if n < |s| then s[..n] else s
  }

  /** The indices the selection loop keeps: the first `topN` qualifying ones. */
  function Selected(sims: seq<real>, minScore: real, topN: int, order: seq<nat>): seq<nat>
    requires IndicesIn(order, |sims|)
  {
    Take(Qualifying(sims, minScore, order), topN)
  }

  function PairsOf(kb: seq<string>, sims: seq<real>, idx: seq<nat>): (r: seq<Scored>)
    requires |sims| == |kb| && IndicesIn(idx, |sims|)
    ensures |r| == |idx|
  {
    seq(|idx|, k requires 0 <= k < |idx| => (kb[idx[k]], sims[idx[k]]))
  }

  /** The list `retrieve_passages_semantic` returns for a non-empty query. */
  function Retrieved(kb: seq<string>, sims: seq<real>, order: seq<nat>, topN: int, minScore: real): seq<Scored>
    requires WellRanked(kb, sims, order)
  {
    PairsOf(kb, sims, Selected(sims, minScore, topN, order))
  }

  /**
   * `retrieve_passages_semantic(query, top_n, min_score)`. The scores are only
   * required to be well ranked when the normalised query is non-empty: an
   * empty query returns before any similarity is computed.
   */
  method RetrievePassages(query: Option<string>, kb: seq<string>, sims: seq<real>, order: seq<nat>,
                          topN: int, minScore: real)
    returns (results: seq<Scored>)
    requires WellRanked(kb, sims, order) || NormalizeQuery(query) == ""
    ensures NormalizeQuery(query) == "" ==> results == []
    ensures NormalizeQuery(query) != "" ==> results == Retrieved(kb, sims, order, topN, minScore)
  {
    var q := NormalizeQuery(query);
    if q == "" {
      return [];
    }
    results := SelectPassages(kb, sims, order, topN, minScore);
  }

  /**
   * The selection loop of `retrieve_passages_semantic`, walking `sorted_idx`
   * with its early `break`. The loop itself only needs the indices to be in
   * range; the ranking matters to what the result means (see the lemmas).
   */
  method SelectPassages(kb: seq<string>, sims: seq<real>, order: seq<nat>, topN: int, minScore: real)
    returns (results: seq<Scored>)
    requires |sims| == |kb| && IndicesIn(order, |sims|)
    ensures results == PairsOf(kb, sims, Selected(sims, minScore, topN, order))
  {
    results := [];
    var i := 0;
    while i < |order|
      invariant 0 <= i <= |order|
      invariant results == PairsOf(kb, sims, Qualifying(sims, minScore, order[..i]))
      invariant |results| <= (if topN < 0 then 0 else topN)
    {
      if |results| >= topN {
        FullPrefixIsSelected(sims, minScore, topN, order, i);
        break;
      }
      var idx := order[i];
      var score := sims[idx];
      QualifyingStep(sims, minScore, order, i);
      if score >= minScore {
        PairsOfSnoc(kb, sims, Qualifying(sims, minScore, order[..i]), idx);
        results := results + [(kb[idx], score)];
      }
      i := i + 1;
    }
    if i == |order| {
      assert order[..i] == order;
      assert Qualifying(sims, minScore, order) == Selected(sims, minScore, topN, order);
    }
  }

  /** Looking at one more index of `order` adds it to the qualifying ones exactly when it qualifies. */
  lemma QualifyingStep(sims: seq<real>, minScore: real, order: seq<nat>, i: nat)
    requires IndicesIn(order, |sims|) && i < |order|
    ensures Qualifying(sims, minScore, order[..i + 1]) ==
      Qualifying(sims, minScore, order[..i]) + (if sims[order[i]] >= minScore then [order[i]] else [])
  {
    assert order[..i + 1][..i] == order[..i];
  }

  lemma PairsOfSnoc(kb: seq<string>, sims: seq<real>, idx: seq<nat>, x: nat)
    requires |sims| == |kb| && IndicesIn(idx, |sims|) && x < |sims|
    ensures IndicesIn(idx + [x], |sims|)
    ensures PairsOf(kb, sims, idx + [x]) == PairsOf(kb, sims, idx) + [(kb[x], sims[x])]
  {
  }

  lemma {:induction false} QualifyingAppend(sims: seq<real>, minScore: real, a: seq<nat>, b: seq<nat>)
    requires IndicesIn(a, |sims|) && IndicesIn(b, |sims|)
    ensures IndicesIn(a + b, |sims|)
    ensures Qualifying(sims, minScore, a + b) == Qualifying(sims, minScore, a) + Qualifying(sims, minScore, b)
    decreases |b|
  {
    if b == [] {
      assert a + b == a;
    } else {
      var b', x := b[..|b| - 1], b[|b| - 1];
      assert b == b' + [x];
      assert a + b == (a + b') + [x];
      QualifyingAppend(sims, minScore, a, b');
      QualifyingSnoc(sims, minScore, a + b', x);
      QualifyingSnoc(sims, minScore, b', x);
      var qa, qb', t := Qualifying(sims, minScore, a), Qualifying(sims, minScore, b'),
        (if sims[x] >= minScore then [x] else []);
      assert (qa + qb') + t == qa + (qb' + t);
    }
  }

  lemma QualifyingSnoc(sims: seq<real>, minScore: real, s: seq<nat>, x: nat)
    requires IndicesIn(s, |sims|) && x < |sims|
    ensures IndicesIn(s + [x], |sims|)
    ensures Qualifying(sims, minScore, s + [x]) ==
      Qualifying(sims, minScore, s) + (if sims[x] >= minScore then [x] else [])
  {
    assert (s + [x])[..|s|] == s;
  }

  /** Once the loop has collected `topN` qualifying indices, they are the selection. */
  lemma FullPrefixIsSelected(sims: seq<real>, minScore: real, topN: int, order: seq<nat>, i: nat)
    requires IndicesIn(order, |sims|) && i <= |order|
    requires |Qualifying(sims, minScore, order[..i])| >= topN
    requires |Qualifying(sims, minScore, order[..i])| <= (if topN < 0 then 0 else topN)
    ensures Qualifying(sims, minScore, order[..i]) == Selected(sims, minScore, topN, order)
  {
    assert order == order[..i] + order[i..];
    QualifyingAppend(sims, minScore, order[..i], order[i..]);
  }

  /** The result never has more than `topN` entries, and none when `topN <= 0`. */
  lemma SelectedBound(sims: seq<real>, minScore: real, topN: int, order: seq<nat>)
    requires IndicesIn(order, |sims|)
    ensures topN <= 0 ==> Selected(sims, minScore, topN, order) == []
    ensures topN > 0 ==> |Selected(sims, minScore, topN, order)| <= topN
  {
  }

  /** Every selected index is a passage index whose score clears the threshold, and none repeats. */
  lemma SelectedSound(sims: seq<real>, minScore: real, topN: int, order: seq<nat>)
    requires IndicesIn(order, |sims|) && Distinct(order)
    ensures var s := Selected(sims, minScore, topN, order);
      IndicesIn(s, |sims|) && Distinct(s) && forall k :: 0 <= k < |s| ==> sims[s[k]] >= minScore
  {
    QualifyingDistinct(sims, minScore, order);
    QualifyingMembers(sims, minScore, order);
    var q := Qualifying(sims, minScore, order);
    var s := Selected(sims, minScore, topN, order);
    forall k | 0 <= k < |s| ensures s[k] in q && sims[s[k]] >= minScore {
      assert s[k] == q[k];
    }
  }

  lemma {:induction false} QualifyingDistinct(sims: seq<real>, minScore: real, order: seq<nat>)
    requires IndicesIn(order, |sims|) && Distinct(order)
    ensures Distinct(Qualifying(sims, minScore, order))
    decreases |order|
  {
    if order != [] {
      var init := order[..|order| - 1];
      var last := order[|order| - 1];
      forall p | 0 <= p < |init| ensures init[p] != last {
        assert init[p] == order[p];
      }
      QualifyingDistinct(sims, minScore, init);
      QualifyingMembers(sims, minScore, init);
    }
  }

  /** Qualifying indices keep the descending order of `order`. */
  lemma {:induction false} QualifyingDescending(sims: seq<real>, minScore: real, order: seq<nat>)
    requires IndicesIn(order, |sims|) && RankedDescending(sims, order)
    ensures RankedDescending(sims, Qualifying(sims, minScore, order))
    decreases |order|
  {
    if order != [] {
      var init := order[..|order| - 1];
      var last := order[|order| - 1];
      assert RankedDescending(sims, init) by {
        forall j, k | 0 <= j < k < |init| ensures sims[init[j]] >= sims[init[k]] {
          assert init[j] == order[j] && init[k] == order[k];
        }
      }
      QualifyingDescending(sims, minScore, init);
      QualifyingMembers(sims, minScore, init);
      var qi := Qualifying(sims, minScore, init);
      if sims[last] >= minScore {
        forall x | x in qi ensures sims[x] >= sims[last] {
          var p :| 0 <= p < |init| && init[p] == x;
          assert order[p] == x;
        }
        AppendBelow(sims, qi, last);
      }
    }
  }

  /** Appending an index that scores no higher than every earlier one keeps the order descending. */
  lemma AppendBelow(sims: seq<real>, s: seq<nat>, x: nat)
    requires IndicesIn(s, |sims|) && RankedDescending(sims, s) && x < |sims|
    requires forall y :: y in s ==> sims[y] >= sims[x]
    ensures IndicesIn(s + [x], |sims|) && RankedDescending(sims, s + [x])
  {
    var t := s + [x];
    forall j, k | 0 <= j < k < |t| ensures sims[t[j]] >= sims[t[k]] {
      assert t[j] == s[j] && s[j] in s;
      if k < |s| {
        assert t[k] == s[k];
      }
    }
  }

  /** Returned scores never increase from one entry to the next. */
  lemma RetrievedDescending(kb: seq<string>, sims: seq<real>, order: seq<nat>, topN: int, minScore: real)
    requires WellRanked(kb, sims, order)
    ensures var r := Retrieved(kb, sims, order, topN, minScore);
      forall j, k :: 0 <= j < k < |r| ==> r[j].1 >= r[k].1
  {
    QualifyingDescending(sims, minScore, order);
    var q := Qualifying(sims, minScore, order);
    var s := Selected(sims, minScore, topN, order);
    var r := Retrieved(kb, sims, order, topN, minScore);
    forall j, k | 0 <= j < k < |r| ensures r[j].1 >= r[k].1 {
      assert r[j].1 == sims[q[j]] && r[k].1 == sims[q[k]];
      assert sims[q[j]] >= sims[q[k]];
    }
  }

  /** Every returned pair is `(kb[i], sims[i])` for a distinct index `i` whose score clears `minScore`. */
  lemma RetrievedSound(kb: seq<string>, sims: seq<real>, order: seq<nat>, topN: int, minScore: real)
    requires WellRanked(kb, sims, order)
    ensures var r := Retrieved(kb, sims, order, topN, minScore);
      var s := Selected(sims, minScore, topN, order);
      |r| == |s| && Distinct(s) &&
      forall k :: 0 <= k < |r| ==> s[k] < |kb| && r[k] == (kb[s[k]], sims[s[k]]) && r[k].1 >= minScore
  {
    SelectedSound(sims, minScore, topN, order);
  }

  /** The indices whose score clears the threshold. */
  function QualifyingSet(sims: seq<real>, minScore: real): set<nat> {
    set i: nat | i < |sims| && sims[i] >= minScore
  }

  lemma {:induction false} DistinctCard(s: seq<nat>)
    requires Distinct(s)
    ensures |set x: nat | x in s| == |s|
    decreases |s|
  {
    if s != [] {
      var init := s[..|s| - 1];
      var last := s[|s| - 1];
      assert Distinct(init);
      DistinctCard(init);
      forall p | 0 <= p < |init| ensures init[p] != last {
        assert init[p] == s[p];
      }
      assert last !in init;
      var before := set x: nat | x in init;
      assert last !in before;
      assert (set x: nat | x in s) == before + {last};
      assert |before + {last}| == |before| + 1;
    } else {
      assert (set x: nat | x in s) == {};
    }
  }

  /** The result holds exactly `min(topN, #qualifying)` entries (none for `topN <= 0`). */
  lemma SelectedCount(sims: seq<real>, minScore: real, topN: int, order: seq<nat>)
    requires IsPermutationOf(order, |sims|)
    ensures var c := |QualifyingSet(sims, minScore)|;
      |Selected(sims, minScore, topN, order)| == if topN <= 0 then 0 else if topN < c then topN else c
  {
    var q := Qualifying(sims, minScore, order);
    QualifyingDistinct(sims, minScore, order);
    QualifyingMembers(sims, minScore, order);
    DistinctCard(q);
    assert (set x: nat | x in q) == QualifyingSet(sims, minScore);
  }

  /** No qualifying passage is left out in favour of a lower-scoring one. */
  lemma SelectedKeepsBest(sims: seq<real>, minScore: real, topN: int, order: seq<nat>, i: nat)
    requires IsPermutationOf(order, |sims|) && RankedDescending(sims, order)
    requires i < |sims| && sims[i] >= minScore
    requires i !in Selected(sims, minScore, topN, order)
    ensures forall k :: 0 <= k < |Selected(sims, minScore, topN, order)| ==>
      sims[Selected(sims, minScore, topN, order)[k]] >= sims[i]
  {
    var q := Qualifying(sims, minScore, order);
    var s := Selected(sims, minScore, topN, order);
    QualifyingMembers(sims, minScore, order);
    assert i in q;
    var p :| 0 <= p < |q| && q[p] == i;
    forall k | 0 <= k < |s| ensures s[k] != i {
      assert s[k] == q[k];
    }
    assert p >= |s|;
    QualifyingDescending(sims, minScore, order);
    forall k | 0 <= k < |s| ensures sims[s[k]] >= sims[i] {
      assert s[k] == q[k];
      assert sims[q[k]] >= sims[q[p]];
    }
  }

  /** When no score reaches `minScore` (a query sharing no term with the corpus), nothing is returned. */
  lemma NothingClearsThreshold(kb: seq<string>, sims: seq<real>, order: seq<nat>, topN: int, minScore: real)
    requires WellRanked(kb, sims, order)
    requires forall i :: 0 <= i < |sims| ==> sims[i] < minScore
    ensures Retrieved(kb, sims, order, topN, minScore) == []
  {
    SelectedCount(sims, minScore, topN, order);
    assert QualifyingSet(sims, minScore) == {};
  }
}
