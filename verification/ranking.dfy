/** `find_most_similar`: every stored embedding is scored against the query
    and the `(score, index)` pairs are sorted in descending tuple order, so
    equal scores put the larger index first. `handle_question` keeps the
    first five. The cosine similarity itself is the parameter `similarity`. */
module Ranking {

  /** One `(score, index)` tuple of `zip(similarity_scores, range(n))`. */
  datatype Scored = Scored(score: real, index: nat)

  /** Python's `a > b` on `(score, index)` tuples: by score, then by index. */
  predicate Above(a: Scored, b: Scored) {
    a.score > b.score || (a.score == b.score && a.index > b.index)
  }

  /** The order `sorted(..., reverse=True)` produces. */
  predicate SortedDesc(xs: seq<Scored>) {
    forall i, j :: 0 <= i < j < |xs| ==> Above(xs[i], xs[j])
  }

  predicate Distinct(xs: seq<Scored>) {
    forall i, j :: 0 <= i < j < |xs| ==> xs[i] != xs[j]
  }

  /** The scores of the query against each stored embedding, in order. */
  function Scores<V>(needle: V, haystack: seq<V>, similarity: (V, V) -> real): seq<real> {
    seq(|haystack|, i requires 0 <= i < |haystack| => similarity(needle, haystack[i]))
  }

  /** `zip(scores, range(len(scores)))`. */
  function Zip(scores: seq<real>): seq<Scored> {
    seq(|scores|, i requires 0 <= i < |scores| => Scored(scores[i], i))
  }

  /** A pair above every element of a descending list can go in front. */
  lemma ConsSorted(head: Scored, rest: seq<Scored>)
    requires SortedDesc(rest)
    requires forall k :: 0 <= k < |rest| ==> Above(head, rest[k])
    ensures SortedDesc([head] + rest)
  {
    var r := [head] + rest;
    assert forall k :: 1 <= k < |r| ==> r[k] == rest[k - 1];
  }

  /** A pair above `x` and above every element of `tail` is above every
      element of any permutation of `tail` plus `x`. */
  lemma AboveAll(head: Scored, x: Scored, tail: seq<Scored>, rest: seq<Scored>)
    requires multiset(rest) == multiset(tail) + multiset{x}
    requires Above(head, x)
    requires forall k :: 0 <= k < |tail| ==> Above(head, tail[k])
    ensures forall k :: 0 <= k < |rest| ==> Above(head, rest[k])
  {
    forall k | 0 <= k < |rest| ensures Above(head, rest[k]) {
      assert rest[k] in multiset(rest);
      assert rest[k] == x || rest[k] in tail;
    }
  }

  /** A pair above the head of a descending list goes in front of it. */
  lemma InsertFront(x: Scored, xs: seq<Scored>)
    requires SortedDesc(xs) && xs != [] && Above(x, xs[0])
    ensures SortedDesc([x] + xs)
  {
    assert forall k :: 0 <= k < |xs| ==> Above(x, xs[k]);
    ConsSorted(x, xs);
  }

  /** A pair below the head of a descending list is inserted after it: the
      head stays in front of the tail with the pair inserted. */
  lemma InsertAfterHead(x: Scored, xs: seq<Scored>, head: Scored, tail: seq<Scored>, rest: seq<Scored>)
    requires xs == [head] + tail
    requires x != head && !Above(x, head)
    requires forall k :: 0 <= k < |tail| ==> Above(head, tail[k])
    requires SortedDesc(rest) && multiset(rest) == multiset(tail) + multiset{x}
    ensures SortedDesc([head] + rest)
    ensures multiset([head] + rest) == multiset(xs) + multiset{x}
  {
    AboveAll(head, x, tail, rest);
    ConsSorted(head, rest);
  }

  /** Inserts `x` into a descending list at its place. */
  function Insert(x: Scored, xs: seq<Scored>): (r: seq<Scored>)
    requires SortedDesc(xs)
    requires x !in xs
    ensures SortedDesc(r)
    ensures multiset(r) == multiset(xs) + multiset{x}
    decreases |xs|
  {
    if xs == [] then [x]
    else if Above(x, xs[0]) then
      InsertFront(x, xs);
      [x] + xs
    else
      SortedTail(xs);
      var rest := Insert(x, xs[1..]);
      InsertAfterHead(x, xs, xs[0], xs[1..], rest);
      [xs[0]] + rest
  }

  /** Sorts distinct pairs into descending order (insertion sort). */
  function Sort(xs: seq<Scored>): (r: seq<Scored>)
    requires Distinct(xs)
    ensures SortedDesc(r)
    ensures multiset(r) == multiset(xs)
    decreases |xs|
  {
    if xs == [] then []
    else
      var init := xs[..|xs| - 1];
      var last := xs[|xs| - 1];
      var sorted := Sort(init);
      assert last !in multiset(init);
      assert xs == init + [last];
      Insert(last, sorted)
  }

  /** `find_most_similar(needle, haystack)`: a permutation of the pairs
      `(similarity(needle, haystack[i]), i)`, in descending tuple order. */
  function FindMostSimilar<V>(needle: V, haystack: seq<V>, similarity: (V, V) -> real): (ranked: seq<Scored>)
    ensures |ranked| == |haystack|
    ensures multiset(ranked) == multiset(Zip(Scores(needle, haystack, similarity)))
    ensures forall k :: 0 <= k < |ranked| ==>
      ranked[k].index < |haystack| && ranked[k].score == similarity(needle, haystack[ranked[k].index])
    ensures forall p, q :: 0 <= p < q < |ranked| ==> ranked[p].score >= ranked[q].score
    ensures forall p, q :: 0 <= p < q < |ranked| && ranked[p].score == ranked[q].score ==> ranked[p].index > ranked[q].index
  {
    var pairs := Zip(Scores(needle, haystack, similarity));
    var ranked := Sort(pairs);
    assert |ranked| == |pairs| by {
      assert |multiset(ranked)| == |multiset(pairs)|;
    }
    assert forall k :: 0 <= k < |ranked| ==> ranked[k] in multiset(pairs);
    ranked
  }

  /** The head of a descending list is the pair itself or above it, for
      every pair in the list. */
  lemma HeadAbove(a: seq<Scored>, y: Scored)
    requires SortedDesc(a) && y in multiset(a)
    ensures y == a[0] || Above(a[0], y)
  {
    var i :| 0 <= i < |a| && a[i] == y;
  }

  lemma SortedTail(a: seq<Scored>)
    requires SortedDesc(a) && a != []
    ensures SortedDesc(a[1..])
    ensures forall k :: 0 <= k < |a| - 1 ==> Above(a[0], a[1..][k])
    ensures multiset(a[1..]) == multiset(a) - multiset{a[0]}
  {
    assert a == [a[0]] + a[1..];
    assert forall k :: 0 <= k < |a| - 1 ==> a[1..][k] == a[k + 1];
  }

  /** Two descending lists with the same elements start with the same pair,
      and what follows it again has the same elements. */
  lemma SameHead(a: seq<Scored>, b: seq<Scored>)
    requires SortedDesc(a) && SortedDesc(b)
    requires multiset(a) == multiset(b)
    requires a != []
    ensures b != [] && a[0] == b[0]
    ensures SortedDesc(a[1..]) && SortedDesc(b[1..])
    ensures multiset(a[1..]) == multiset(b[1..])
  {
    assert |a| == |multiset(a)| && |b| == |multiset(b)|;
    var a0, b0 := a[0], b[0];
    assert a0 in multiset(a) && b0 in multiset(b);
    HeadAbove(a, b0);
    HeadAbove(b, a0);
    SortedTail(a);
    SortedTail(b);
  }

  /** A descending list is determined by its elements: any sort that
      returns a permutation in descending tuple order returns this one. */
  lemma {:induction false} SortedUnique(a: seq<Scored>, b: seq<Scored>)
    requires SortedDesc(a) && SortedDesc(b)
    requires multiset(a) == multiset(b)
    ensures a == b
    decreases |a|
  {
    if a == [] {
      assert |b| == |multiset(b)| == 0;
    } else {
      SameHead(a, b);
      SortedUnique(a[1..], b[1..]);
      assert a == [a[0]] + a[1..] && b == [b[0]] + b[1..];
    }
  }

  /** Every stored chunk is ranked exactly once: pair `i` sits at some
      position of the ranking. */
  lemma RankedSomewhere<V>(needle: V, haystack: seq<V>, similarity: (V, V) -> real, i: nat)
    requires i < |haystack|
    ensures var ranked := FindMostSimilar(needle, haystack, similarity);
      exists p :: 0 <= p < |ranked| && ranked[p] == Scored(similarity(needle, haystack[i]), i)
  {
    var pairs := Zip(Scores(needle, haystack, similarity));
    var ranked := FindMostSimilar(needle, haystack, similarity);
    assert pairs[i] == Scored(similarity(needle, haystack[i]), i);
    assert pairs[i] in multiset(ranked);
    assert pairs[i] in ranked;
  }

  /** Of two chunks with the same score, the one with the larger index is
      ranked first. */
  lemma TiedScoresLargerIndexFirst<V>(needle: V, haystack: seq<V>, similarity: (V, V) -> real, i: nat, j: nat)
    requires i < j < |haystack|
    requires similarity(needle, haystack[i]) == similarity(needle, haystack[j])
    ensures var ranked := FindMostSimilar(needle, haystack, similarity);
      exists p, q :: 0 <= p < q < |ranked| && ranked[p].index == j && ranked[q].index == i
  {
    var ranked := FindMostSimilar(needle, haystack, similarity);
    RankedSomewhere(needle, haystack, similarity, i);
    RankedSomewhere(needle, haystack, similarity, j);
    var q :| 0 <= q < |ranked| && ranked[q] == Scored(similarity(needle, haystack[i]), i);
    var p :| 0 <= p < |ranked| && ranked[p] == Scored(similarity(needle, haystack[j]), j);
    assert p != q;
    assert !(q < p && Above(ranked[q], ranked[p]));
  }

  /** How many chunks go into the context. */
  const ContextSize: nat := 5

  /** The slice `[:5]`: the first `min(5, n)` ranked pairs. */
  function Top(ranked: seq<Scored>): (top: seq<Scored>)
    ensures |top| == if |ranked| < ContextSize then |ranked| else ContextSize
    ensures forall k :: 0 <= k < |top| ==> top[k] == ranked[k]
  {
    if |ranked| <= ContextSize then ranked else ranked[..ContextSize]
  }

  /** The context is the most similar chunks: a chunk left out of the top
      scores no higher than any chunk kept. */
  lemma TopAreMostSimilar<V>(needle: V, haystack: seq<V>, similarity: (V, V) -> real, i: nat)
    requires i < |haystack|
    ensures var top := Top(FindMostSimilar(needle, haystack, similarity));
      (forall k :: 0 <= k < |top| ==> top[k].index != i) ==>
      forall k :: 0 <= k < |top| ==> top[k].score >= similarity(needle, haystack[i])
  {
    var ranked := FindMostSimilar(needle, haystack, similarity);
    var top := Top(ranked);
    RankedSomewhere(needle, haystack, similarity, i);
    var p :| 0 <= p < |ranked| && ranked[p] == Scored(similarity(needle, haystack[i]), i);
    if forall k :: 0 <= k < |top| ==> top[k].index != i {
      assert p >= |top|;
    }
  }
}
