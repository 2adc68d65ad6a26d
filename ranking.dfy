/** The ranking pipeline of the ask handler in server.js: score every stored
    chunk against the question vector, sort by descending similarity with a
    stable sort, keep the first three and join their contents. */
module Ranking {
  import opened Numeric
  import opened JsStrings
  import opened Similarity
  import opened Corpus

  /** One element of `similarities`: `{content, similarity}`. */
  datatype Scored = Scored(content: string, similarity: real)

  /** How many contexts `slice(0, 3)` keeps. */
  const ContextDepth: nat := 3

  /** What `join` puts between two contexts. */
  const ContextSeparator: string := "\n---\n"

  /** `documentVectors.map(doc => ({content, similarity: cosineSimilarity(q, doc.vector)}))`. */
  function ScoreAll(docs: seq<DocVector>, q: Vector, normalise: Normaliser): (r: seq<Scored>)
    requires forall i :: 0 <= i < |docs| ==> |q| <= |docs[i].vector|
    ensures |r| == |docs|
    ensures forall i :: 0 <= i < |docs| ==>
              r[i] == Scored(docs[i].content, CosineSimilarity(q, docs[i].vector, normalise))
  {
    seq(|docs|, i requires 0 <= i < |docs| =>
      Scored(docs[i].content, CosineSimilarity(q, docs[i].vector, normalise)))
  }

  // ---------------------------------------------------------------------
  // the stable descending sort

  /** Inserts `x` in front of the first element that does not score higher,
      so it lands after every higher score and before every equal one. */
  function Insert(x: Scored, s: seq<Scored>): seq<Scored>
    decreases |s|
  {
    if |s| == 0 || x.similarity >= s[0].similarity then [x] + s
    else [s[0]] + Insert(x, s[1..])
  }

  /** `similarities.sort((a, b) => b.similarity - a.similarity)`; the ECMAScript
      sort is stable, so equal similarities keep their order. */
  function SortBySimilarity(s: seq<Scored>): seq<Scored>
    decreases |s|
  {
    if |s| == 0 then [] else Insert(s[0], SortBySimilarity(s[1..]))
  }

  predicate NonIncreasing(s: seq<Scored>)
  {
    forall i, j :: 0 <= i < j < |s| ==> s[i].similarity >= s[j].similarity
  }

  /** The elements of `s` whose similarity is `v`, in their order in `s`. */
  function WithSimilarity(s: seq<Scored>, v: real): seq<Scored>
    decreases |s|
  {
    if |s| == 0 then []
    else if s[0].similarity == v then [s[0]] + WithSimilarity(s[1..], v)
    else WithSimilarity(s[1..], v)
  }

  /** Inserting into a non-increasing sequence keeps it non-increasing. */
  lemma {:induction false} InsertSorted(x: Scored, s: seq<Scored>)
    requires NonIncreasing(s)
    ensures NonIncreasing(Insert(x, s))
    decreases |s|
  {
    if |s| > 0 && x.similarity < s[0].similarity {
      InsertSorted(x, s[1..]);
      InsertBounded(x, s[1..], s[0].similarity);
      ConsNonIncreasing(s[0], Insert(x, s[1..]));
    }
  }

  /** A head that scores at least as high as every element of a
      non-increasing tail gives a non-increasing sequence. */
  lemma ConsNonIncreasing(y: Scored, t: seq<Scored>)
    requires NonIncreasing(t)
    requires forall j :: 0 <= j < |t| ==> t[j].similarity <= y.similarity
    ensures NonIncreasing([y] + t)
  {
    var u := [y] + t;
    forall i, j | 0 <= i < j < |u| ensures u[i].similarity >= u[j].similarity {
      assert u[j] == t[j - 1];
      if i > 0 {
        assert u[i] == t[i - 1];
      }
    }
  }

  /** An insertion adds exactly the inserted element. */
  lemma {:induction false} InsertPermutes(x: Scored, s: seq<Scored>)
    ensures multiset(Insert(x, s)) == multiset(s) + multiset{x}
    decreases |s|
  {
    if |s| == 0 || x.similarity >= s[0].similarity {
      assert Insert(x, s) == [x] + s;
    } else {
      InsertPermutes(x, s[1..]);
      assert Insert(x, s) == [s[0]] + Insert(x, s[1..]);
      assert s == [s[0]] + s[1..];
    }
  }

  /** Every element of an insertion is `x` or an element of `s`, so a bound
      on both bounds the result. */
  lemma {:induction false} InsertBounded(x: Scored, s: seq<Scored>, bound: real)
    requires x.similarity <= bound
    requires forall j :: 0 <= j < |s| ==> s[j].similarity <= bound
    ensures forall j :: 0 <= j < |Insert(x, s)| ==> Insert(x, s)[j].similarity <= bound
    decreases |s|
  {
    if |s| > 0 && x.similarity < s[0].similarity {
      InsertBounded(x, s[1..], bound);
    }
  }

  /** For each similarity value the insertion keeps `x` in front of the
      elements of `s` that share it. */
  lemma {:induction false} InsertStable(x: Scored, s: seq<Scored>, v: real)
    ensures WithSimilarity(Insert(x, s), v) ==
            (if x.similarity == v then [x] else []) + WithSimilarity(s, v)
    decreases |s|
  {
    if |s| == 0 || x.similarity >= s[0].similarity {
      assert Insert(x, s) == [x] + s;
      assert ([x] + s)[1..] == s;
    } else {
      InsertStable(x, s[1..], v);
      var t := [s[0]] + Insert(x, s[1..]);
      assert t[1..] == Insert(x, s[1..]);
      if s[0].similarity == v {
        assert x.similarity != v;
      }
    }
  }

  /** The sort orders by non-increasing similarity and is a permutation. */
  lemma SortSorts(s: seq<Scored>)
    ensures NonIncreasing(SortBySimilarity(s))
    ensures multiset(SortBySimilarity(s)) == multiset(s)
  {
    SortOrders(s);
    SortPermutes(s);
  }

  lemma {:induction false} SortOrders(s: seq<Scored>)
    ensures NonIncreasing(SortBySimilarity(s))
    decreases |s|
  {
    if |s| > 0 {
      SortOrders(s[1..]);
      InsertSorted(s[0], SortBySimilarity(s[1..]));
    }
  }

  lemma {:induction false} SortPermutes(s: seq<Scored>)
    ensures multiset(SortBySimilarity(s)) == multiset(s)
    decreases |s|
  {
    if |s| > 0 {
      SortPermutes(s[1..]);
      InsertPermutes(s[0], SortBySimilarity(s[1..]));
      assert s == [s[0]] + s[1..];
      assert multiset(s) == multiset(s[1..]) + multiset{s[0]};
    }
  }

  /** The sort is stable: for every similarity value, the elements that have
      it come out in the order they went in. Together with SortSorts this
      determines the output completely. */
  lemma {:induction false} SortStable(s: seq<Scored>, v: real)
    ensures WithSimilarity(SortBySimilarity(s), v) == WithSimilarity(s, v)
    decreases |s|
  {
    if |s| > 0 {
      SortStable(s[1..], v);
      InsertStable(s[0], SortBySimilarity(s[1..]), v);
    }
  }

  lemma SortLength(s: seq<Scored>)
    ensures |SortBySimilarity(s)| == |s|
  {
    SortSorts(s);
    assert |multiset(SortBySimilarity(s))| == |multiset(s)|;
  }

  // ---------------------------------------------------------------------
  // top contexts

  /** `.slice(0, 3)` of the sorted scores. */
  function TopScored(s: seq<Scored>): seq<Scored>
  {
    var sorted := SortBySimilarity(s);
    sorted[..Min(ContextDepth, |sorted|)]
  }

  /** `.map(ctx => ctx.content)`. */
  function Contents(s: seq<Scored>): (r: seq<string>)
    ensures |r| == |s| && forall i :: 0 <= i < |s| ==> r[i] == s[i].content
  {
    seq(|s|, i requires 0 <= i < |s| => s[i].content)
  }

  /** `topContexts`: the joined contents of the three best-scoring chunks. */
  function TopContexts(docs: seq<DocVector>, q: Vector, normalise: Normaliser): string
    requires forall i :: 0 <= i < |docs| ==> |q| <= |docs[i].vector|
  {
    Join(Contents(TopScored(ScoreAll(docs, q, normalise))), ContextSeparator)
  }

  /** The selection keeps min(3, n) scores, in non-increasing order, drawn
      from the input. */
  lemma TopScoredShape(s: seq<Scored>)
    ensures var top := TopScored(s);
            |top| == Min(ContextDepth, |s|) && NonIncreasing(top) && multiset(top) <= multiset(s)
  {
    var sorted := SortBySimilarity(s);
    SortSorts(s);
    SortLength(s);
    var k := Min(ContextDepth, |sorted|);
    assert sorted == sorted[..k] + sorted[k..];
    assert multiset(sorted) == multiset(sorted[..k]) + multiset(sorted[k..]);
  }

  /** No score left out of the selection beats a kept one. */
  lemma TopScoredBest(s: seq<Scored>)
    ensures var top := TopScored(s);
            forall x, i :: x in multiset(s) - multiset(top) && 0 <= i < |top| ==>
              x.similarity <= top[i].similarity
  {
    var sorted := SortBySimilarity(s);
    SortOrders(s);
    SortPermutes(s);
    var k := Min(ContextDepth, |sorted|);
    PrefixBeatsRest(sorted, k);
    assert TopScored(s) == sorted[..k];
  }

  /** In a non-increasing sequence nothing outside the first k elements
      beats any of them. */
  lemma PrefixBeatsRest(sorted: seq<Scored>, k: nat)
    requires NonIncreasing(sorted) && k <= |sorted|
    ensures forall x, i :: x in multiset(sorted) - multiset(sorted[..k]) && 0 <= i < k ==>
              x.similarity <= sorted[..k][i].similarity
  {
    SplitMultiset(sorted, k);
    PrefixBeatsSuffix(sorted, k);
  }

  lemma SplitMultiset(s: seq<Scored>, k: nat)
    requires k <= |s|
    ensures multiset(s) - multiset(s[..k]) == multiset(s[k..])
  {
    assert s == s[..k] + s[k..];
  }

  /** In a non-increasing sequence nothing after position k beats anything
      before it. */
  lemma PrefixBeatsSuffix(s: seq<Scored>, k: nat)
    requires NonIncreasing(s) && k <= |s|
    ensures forall x, i :: x in multiset(s[k..]) && 0 <= i < k ==> x.similarity <= s[i].similarity
  {
    forall x: Scored, i | x in multiset(s[k..]) && 0 <= i < k
      ensures x.similarity <= s[i].similarity
    {
      var j :| 0 <= j < |s[k..]| && s[k..][j] == x;
      assert s[k + j] == x;
    }
  }

  /** For each similarity value the kept scores are the earliest that have
      it: ties go to the chunk stored first. */
  lemma TopScoredStable(s: seq<Scored>, v: real)
    ensures IsPrefix(WithSimilarity(TopScored(s), v), WithSimilarity(s, v))
  {
    var sorted := SortBySimilarity(s);
    var k := Min(ContextDepth, |sorted|);
    assert sorted == sorted[..k] + sorted[k..];
    SortStable(s, v);
    WithSimilarityAppend(sorted[..k], sorted[k..], v);
  }

  predicate IsPrefix(a: seq<Scored>, b: seq<Scored>)
  {
    |a| <= |b| && a == b[..|a|]
  }

  lemma {:induction false} WithSimilarityAppend(a: seq<Scored>, b: seq<Scored>, v: real)
    ensures WithSimilarity(a + b, v) == WithSimilarity(a, v) + WithSimilarity(b, v)
    decreases |a|
  {
    if |a| > 0 {
      assert (a + b)[1..] == a[1..] + b;
      WithSimilarityAppend(a[1..], b, v);
    } else {
      assert a + b == b;
    }
  }

  /** The context is the join of at most three stored contents, the best
      scoring one first. */
  lemma TopContextsSpec(docs: seq<DocVector>, q: Vector, normalise: Normaliser)
    requires forall i :: 0 <= i < |docs| ==> |q| <= |docs[i].vector|
    ensures var top := TopScored(ScoreAll(docs, q, normalise));
            |top| == Min(ContextDepth, |docs|) &&
            (forall i :: 0 <= i < |top| ==> exists j :: 0 <= j < |docs| && top[i].content == docs[j].content) &&
            TopContexts(docs, q, normalise) == Join(Contents(top), ContextSeparator)
  {
    var scored := ScoreAll(docs, q, normalise);
    var top := TopScored(scored);
    TopScoredShape(scored);
    forall i | 0 <= i < |top| ensures exists j :: 0 <= j < |docs| && top[i].content == docs[j].content {
      assert top[i] in multiset(scored);
      var j :| 0 <= j < |scored| && scored[j] == top[i];
      assert top[i].content == docs[j].content;
    }
  }
}
