/**
 The ranking step shared by both scripts: Python's
 `sorted(results, key=lambda x: x[2], reverse=True)` over the collected
 `(index, text, score)` triples.

 Python's sort is stable even with `reverse=True`: entries whose keys are equal
 keep the order they had in the input. The model is a stable insertion sort,
 and nothing here depends on how the scores were computed.
 */
module Ranking {

  /** One collected result: the candidate's position in the sentence list, its text and its score. */
  datatype Scored = Scored(idx: nat, text: string, score: real)

  /** Scores never increase from left to right. */
  ghost predicate Descending(s: seq<Scored>) {
    forall i, j :: 0 <= i < j < |s| ==> s[i].score >= s[j].score
  }

  /** The entries of `s` whose score is exactly `v`, in their order in `s`. */
  function WithScore(s: seq<Scored>, v: real): seq<Scored> {
    if |s| == 0 then []
    else (if s[0].score == v then [s[0]] else []) + WithScore(s[1..], v)
  }

  /**
   `r` keeps the relative order of equally scored entries of `s`: for every
   score, both list the entries with that score in the same order.
   */
  ghost predicate StableWrt(r: seq<Scored>, s: seq<Scored>) {
    forall v :: WithScore(r, v) == WithScore(s, v)
  }

  /** Indices strictly increase from left to right, as they do in the collected results. */
  ghost predicate IncreasingIdx(s: seq<Scored>) {
    forall i, j :: 0 <= i < j < |s| ==> s[i].idx < s[j].idx
  }

  /** Among equally scored entries the smaller index comes first. */
  ghost predicate TiesByIdx(s: seq<Scored>) {
    forall i, j :: 0 <= i < j < |s| && s[i].score == s[j].score ==> s[i].idx < s[j].idx
  }

  /** No index occurs twice. */
  ghost predicate DistinctIdx(s: seq<Scored>) {
    forall i, j :: 0 <= i < j < |s| ==> s[i].idx != s[j].idx
  }

  /**
   Places `x` into the descending list `s` in front of the first entry whose
   score does not exceed its own, so `x` precedes every entry of `s` that it ties with.
   */
  function Insert(x: Scored, s: seq<Scored>): (r: seq<Scored>)
    requires Descending(s)
    ensures |r| == |s| + 1
    ensures multiset(r) == multiset(s) + multiset{x}
    ensures Descending(r)
  {
    if |s| == 0 || s[0].score <= x.score then
      [x] + s
    else
      var rest := Insert(x, s[1..]);
      InsertedBelowHead(x, s, rest);
      assert s == [s[0]] + s[1..];
      [s[0]] + rest
  }

  /**
   When `x` scores below the head of `s`, the head is at least as high as
   every entry of the list `x` was inserted into.
   */
  lemma InsertedBelowHead(x: Scored, s: seq<Scored>, rest: seq<Scored>)
    requires Descending(s) && |s| > 0 && x.score < s[0].score
    requires multiset(rest) == multiset(s[1..]) + multiset{x}
    requires Descending(rest)
    ensures Descending([s[0]] + rest)
  {
    forall k | 0 <= k < |rest|
      ensures rest[k].score <= s[0].score
    {
      assert rest[k] in multiset(rest);
      if rest[k] != x {
        assert rest[k] in multiset(s[1..]);
        var m :| 0 <= m < |s[1..]| && s[1..][m] == rest[k];
        assert s[m + 1] == rest[k];
      }
    }
    var r := [s[0]] + rest;
    forall i, j | 0 <= i < j < |r|
      ensures r[i].score >= r[j].score
    {
      if i == 0 {
        assert r[j] == rest[j - 1];
      } else {
        assert r[i] == rest[i - 1] && r[j] == rest[j - 1];
      }
    }
  }

  /** The model of `sorted(results, key=score, reverse=True)`. */
  function SortByScoreDesc(s: seq<Scored>): (r: seq<Scored>)
    ensures |r| == |s|
    ensures multiset(r) == multiset(s)
    ensures Descending(r)
  {
    if |s| == 0 then []
    else
      assert s == [s[0]] + s[1..];
      Insert(s[0], SortByScoreDesc(s[1..]))
  }

  /** Inserting `x` adds it in front of the entries it ties with and leaves every other score's entries alone. */
  lemma {:induction false} InsertWithScore(x: Scored, s: seq<Scored>, v: real)
    requires Descending(s)
    ensures WithScore(Insert(x, s), v) == (if x.score == v then [x] else []) + WithScore(s, v)
  {
    if |s| == 0 || s[0].score <= x.score {
      assert ([x] + s)[1..] == s;
    } else {
      var rest := Insert(x, s[1..]);
      InsertWithScore(x, s[1..], v);
      var r := [s[0]] + rest;
      assert r[1..] == rest;
      assert WithScore(r, v) == (if s[0].score == v then [s[0]] else []) + WithScore(rest, v);
      assert WithScore(s, v) == (if s[0].score == v then [s[0]] else []) + WithScore(s[1..], v);
      if x.score == v {
        assert s[0].score != v;
      }
    }
  }

  /**
   Stability: for every score, the sorted list holds the entries with that
   score in exactly the order the input held them.
   */
  lemma {:induction false} SortStable(s: seq<Scored>)
    ensures StableWrt(SortByScoreDesc(s), s)
  {
    if |s| != 0 {
      SortStable(s[1..]);
      forall v
        ensures WithScore(SortByScoreDesc(s), v) == WithScore(s, v)
      {
        InsertWithScore(s[0], SortByScoreDesc(s[1..]), v);
      }
    }
  }

  /** Every entry of `Insert(x, s)` is `x` or an entry of `s`. */
  lemma InsertMembers(x: Scored, s: seq<Scored>)
    requires Descending(s)
    ensures forall y :: y in Insert(x, s) ==> y == x || y in s
  {
    forall y | y in Insert(x, s)
      ensures y == x || y in s
    {
      assert y in multiset(Insert(x, s));
    }
  }

  /** In a list with distinct indices and ties in index order, the head precedes every tied entry after it. */
  lemma HeadPrecedesTail(s: seq<Scored>)
    requires |s| > 0 && TiesByIdx(s) && DistinctIdx(s)
    ensures forall y :: y in s[1..] ==> y.idx != s[0].idx && (y.score == s[0].score ==> s[0].idx < y.idx)
  {
    forall y | y in s[1..]
      ensures y.idx != s[0].idx && (y.score == s[0].score ==> s[0].idx < y.idx)
    {
      var m :| 0 <= m < |s[1..]| && s[1..][m] == y;
      assert s[m + 1] == y;
    }
  }

  /**
   Inserting an entry whose index is below every index of `s` keeps ties in
   index order and keeps the indices distinct.
   */
  lemma {:induction false} InsertKeepsTies(x: Scored, s: seq<Scored>)
    requires Descending(s) && TiesByIdx(s) && DistinctIdx(s)
    requires forall k :: 0 <= k < |s| ==> x.idx < s[k].idx
    ensures TiesByIdx(Insert(x, s)) && DistinctIdx(Insert(x, s))
  {
    if |s| != 0 && x.score < s[0].score {
      var rest := Insert(x, s[1..]);
      InsertKeepsTies(x, s[1..]);
      InsertMembers(x, s[1..]);
      HeadPrecedesTail(s);
      var r := [s[0]] + rest;
      assert r == Insert(x, s);
      forall i, j | 0 <= i < j < |r|
        ensures r[i].idx != r[j].idx
        ensures r[i].score == r[j].score ==> r[i].idx < r[j].idx
      {
        assert r[j] == rest[j - 1];
        if i > 0 {
          assert r[i] == rest[i - 1];
        } else {
          assert r[j] in rest;
        }
      }
    }
  }

  /**
   Sorting a list whose indices increase puts equally scored entries in
   ascending index order and never duplicates an index.
   */
  lemma {:induction false} SortKeepsTies(s: seq<Scored>)
    requires IncreasingIdx(s)
    ensures TiesByIdx(SortByScoreDesc(s)) && DistinctIdx(SortByScoreDesc(s))
  {
    if |s| != 0 {
      var tail := SortByScoreDesc(s[1..]);
      SortKeepsTies(s[1..]);
      forall k | 0 <= k < |tail|
        ensures s[0].idx < tail[k].idx
      {
        assert tail[k] in multiset(s[1..]);
        var m :| 0 <= m < |s[1..]| && s[1..][m] == tail[k];
        assert s[m + 1] == tail[k];
      }
      InsertKeepsTies(s[0], tail);
    }
  }

  /** When no entry of `s` scores `v`, no entry is selected. */
  lemma {:induction false} WithScoreNone(s: seq<Scored>, v: real)
    requires forall k :: 0 <= k < |s| ==> s[k].score != v
    ensures WithScore(s, v) == []
  {
    if |s| != 0 {
      WithScoreNone(s[1..], v);
    }
  }

  /** The entries scoring like the head of `s` start with the head. */
  lemma WithScoreOfHead(s: seq<Scored>)
    ensures |s| > 0 ==> WithScore(s, s[0].score) == [s[0]] + WithScore(s[1..], s[0].score)
  {
  }

  /** No entry of a descending list scores above its head. */
  lemma WithScoreAboveTop(s: seq<Scored>, v: real)
    ensures Descending(s) && (|s| == 0 || s[0].score < v) ==> WithScore(s, v) == []
  {
    if Descending(s) && |s| > 0 && s[0].score < v {
      WithScoreNone(s, v);
    }
  }

  /**
   A descending list is determined by its per-score entries: two descending
   lists that agree on `WithScore` for every score are equal.
   */
  lemma {:induction false} DescendingDeterminedByScores(r: seq<Scored>, t: seq<Scored>)
    requires Descending(r) && Descending(t)
    requires StableWrt(r, t)
    ensures r == t
  {
    WithScoreOfHead(r);
    WithScoreOfHead(t);
    if |r| == 0 || |t| == 0 {
      if |r| != |t| {
        assert false;
      }
    } else {
      var m, m' := r[0].score, t[0].score;
      WithScoreAboveTop(t, m);
      WithScoreAboveTop(r, m');
      if m != m' {
        assert false;
      }
      var wr, wt := WithScore(r, m), WithScore(t, m);
      assert wr == wt;
      assert r[0] == wr[0] && t[0] == wt[0];
      assert WithScore(r[1..], m) == wr[1..] && WithScore(t[1..], m) == wt[1..];
      forall v
        ensures WithScore(r[1..], v) == WithScore(t[1..], v)
      {
        if v != m {
          assert WithScore(r, v) == WithScore(t, v);
          assert WithScore(r, v) == WithScore(r[1..], v);
          assert WithScore(t, v) == WithScore(t[1..], v);
        }
      }
      DescendingDeterminedByScores(r[1..], t[1..]);
      assert r == [r[0]] + r[1..] && t == [t[0]] + t[1..];
    }
  }

  /**
   The sort is the only stable descending arrangement of its input: any list
   that is descending and keeps equal scores in input order is the sorted list.
   */
  lemma SortIsUnique(s: seq<Scored>, r: seq<Scored>)
    requires Descending(r) && StableWrt(r, s)
    ensures r == SortByScoreDesc(s)
  {
    SortStable(s);
    DescendingDeterminedByScores(r, SortByScoreDesc(s));
  }

  /**
   The results the scripts collect before sorting: one entry per candidate,
   in sentence order, for the indices `1..|sentences|-1`, each carrying the
   text of its sentence.
   */
  ghost predicate IsCandidateList(results: seq<Scored>, sentences: seq<string>) {
    && |results| + 1 == |sentences|
    && forall k :: 0 <= k < |results| ==> results[k].idx == k + 1 && results[k].text == sentences[k + 1]
  }

  /** Every entry of the sorted candidates is the collected entry for its own index. */
  lemma SortedEntriesMatchCandidates(results: seq<Scored>, sentences: seq<string>)
    requires IsCandidateList(results, sentences)
    ensures forall t :: t in SortByScoreDesc(results) ==>
              1 <= t.idx < |sentences| && t == results[t.idx - 1] && t.text == sentences[t.idx]
  {
    var sorted := SortByScoreDesc(results);
    forall t | t in sorted
      ensures 1 <= t.idx < |sentences| && t == results[t.idx - 1]
    {
      assert t in multiset(results);
      var k :| 0 <= k < |results| && results[k] == t;
    }
  }

  /** Every collected entry survives the sort. */
  lemma CandidatesSurviveSort(results: seq<Scored>)
    ensures forall k :: 0 <= k < |results| ==> results[k] in SortByScoreDesc(results)
  {
    var sorted := SortByScoreDesc(results);
    forall k | 0 <= k < |results|
      ensures results[k] in sorted
    {
      assert results[k] in multiset(sorted);
    }
  }

  /**
   What ranking the collected results guarantees: one entry per candidate
   index and none for the reference sentence, each entry unchanged from the
   collected one for its index (so text and score stay with their index), in
   descending score order, ties in ascending index order.
   */
  lemma RankCandidates(results: seq<Scored>, sentences: seq<string>)
    requires IsCandidateList(results, sentences)
    ensures |SortByScoreDesc(results)| == |sentences| - 1
    ensures multiset(SortByScoreDesc(results)) == multiset(results)
    ensures forall t :: t in SortByScoreDesc(results) ==>
              1 <= t.idx < |sentences| && t == results[t.idx - 1] && t.text == sentences[t.idx]
    ensures forall k :: 0 <= k < |results| ==> results[k] in SortByScoreDesc(results)
    ensures DistinctIdx(SortByScoreDesc(results))
    ensures Descending(SortByScoreDesc(results))
    ensures TiesByIdx(SortByScoreDesc(results))
    ensures StableWrt(SortByScoreDesc(results), results)
  {
    SortStable(results);
    SortKeepsTies(results);
    SortedEntriesMatchCandidates(results, sentences);
    CandidatesSurviveSort(results);
  }

  /**
   Ties under `reverse=True`: with scores 0.5, 0.9, 0.5 for indices 1, 2, 3
   the ranking is 2, 1, 3. The tied entries keep their input order; reversing
   an ascending stable sort would have put 3 before 1.
   */
  lemma ReverseKeepsTieOrder()
    ensures var results := [Scored(1, "A", 0.5), Scored(2, "B", 0.9), Scored(3, "C", 0.5)];
            SortByScoreDesc(results) == [results[1], results[0], results[2]]
  {
    var results := [Scored(1, "A", 0.5), Scored(2, "B", 0.9), Scored(3, "C", 0.5)];
    assert SortByScoreDesc(results[3..]) == [];
    assert SortByScoreDesc(results[2..]) == results[2..];
    assert SortByScoreDesc(results[1..]) == results[1..];
    assert Insert(results[0], results[1..]) == [results[1]] + Insert(results[0], results[2..]);
  }
}
