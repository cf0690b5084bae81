/** `RAGApp.handle_question` up to the chat call: the prompt is stripped and
    rejected when empty, the stored embeddings are ranked against the
    prompt's embedding, and the paragraphs of the five best are joined with
    newlines into the context. The prompt's embedding is a parameter. */
module Assistant {
  import opened Results
  import opened Text
  import opened Ranking
  import Segmenter
  import EmbeddingCache

  /** What `handle_question` stops on: the "Please enter a question." box,
      or the `IndexError` of `self.paragraphs[item[1]]`. */
  datatype AskError = EmptyPrompt | IndexOutOfRange(index: nat)

  /** The items of `self.paragraphs[item[1]] for item in top`, evaluated in
      order; the first index past the end raises. */
  function Gather(paragraphs: seq<string>, top: seq<Scored>): (r: Result<seq<string>, AskError>)
    ensures r.Ok? <==> forall k :: 0 <= k < |top| ==> top[k].index < |paragraphs|
    ensures r.Ok? ==> |r.value| == |top| && forall k :: 0 <= k < |top| ==> r.value[k] == paragraphs[top[k].index]
    ensures r.Err? ==>
      exists k :: (0 <= k < |top| && r.error == IndexOutOfRange(top[k].index) && top[k].index >= |paragraphs| &&
                   forall j :: 0 <= j < k ==> top[j].index < |paragraphs|)
    decreases |top|
  {
    if top == [] then Ok([])
    else if top[0].index >= |paragraphs| then Err(IndexOutOfRange(top[0].index))
    else
      assert forall k :: 1 <= k < |top| ==> top[k] == top[1..][k - 1];
      match Gather(paragraphs, top[1..])
      case Err(e) => Err(e)
      case Ok(rest) => Ok([paragraphs[top[0].index]] + rest)
  }

  /** Every ranked index names a paragraph. */
  predicate InRange(paragraphs: seq<string>, top: seq<Scored>) {
    forall k :: 0 <= k < |top| ==> top[k].index < |paragraphs|
  }

  /** `index` is the first ranked index, in rank order, that names no
      paragraph: the one the generator raises on. */
  predicate FirstOutOfRange(paragraphs: seq<string>, top: seq<Scored>, index: nat) {
    exists k :: (0 <= k < |top| && top[k].index == index && index >= |paragraphs| &&
                 forall j :: 0 <= j < k ==> top[j].index < |paragraphs|)
  }

  /** The paragraphs the ranked pairs point at, in rank order. */
  function Chosen(paragraphs: seq<string>, top: seq<Scored>): seq<string>
    requires InRange(paragraphs, top)
  {
    seq(|top|, k requires 0 <= k < |top| => paragraphs[top[k].index])
  }

  /** `"\n".join(...)` over the gathered paragraphs: the chosen paragraphs
      one per line in rank order, or the error of the first bad index. */
  function BuildContext(paragraphs: seq<string>, top: seq<Scored>): (r: Result<string, AskError>)
    ensures r.Ok? <==> InRange(paragraphs, top)
    ensures r.Ok? ==> r.value == JoinWith("\n", Chosen(paragraphs, top))
    ensures r.Err? ==> r.error.IndexOutOfRange? && FirstOutOfRange(paragraphs, top, r.error.index)
  {
    match Gather(paragraphs, top)
    case Err(e) => Err(e)
    case Ok(chosen) =>
      assert chosen == Chosen(paragraphs, top);
      Ok(JoinWith("\n", chosen))
  }

  /** The context can be cut back at its newlines into the chosen
      paragraphs, in rank order, when none of them holds a newline. */
  lemma ContextRoundTrip(paragraphs: seq<string>, top: seq<Scored>)
    requires top != []
    requires forall k :: 0 <= k < |top| ==> top[k].index < |paragraphs|
    requires forall k :: 0 <= k < |top| ==> '\n' !in paragraphs[top[k].index]
    ensures BuildContext(paragraphs, top).Ok?
    ensures Split(BuildContext(paragraphs, top).value, '\n') == Chosen(paragraphs, top)
  {
    var chosen := Gather(paragraphs, top).value;
    assert chosen == Chosen(paragraphs, top);
    SplitJoin('\n', chosen);
  }

  /** `handle_question` from reading the prompt to building the context. */
  function AskContext<V>(prompt: string, paragraphs: seq<string>, embeddings: seq<V>,
                         promptEmbedding: V, similarity: (V, V) -> real): (r: Result<string, AskError>)
    ensures r == Err(EmptyPrompt) <==> Strip(prompt) == ""
    ensures Strip(prompt) != "" ==>
      (r.Ok? <==> InRange(paragraphs, Top(FindMostSimilar(promptEmbedding, embeddings, similarity))))
    ensures Strip(prompt) != "" && r.Ok? ==>
      r.value == JoinWith("\n", Chosen(paragraphs, Top(FindMostSimilar(promptEmbedding, embeddings, similarity))))
    ensures Strip(prompt) != "" && r.Err? ==>
      r.error.IndexOutOfRange? &&
      FirstOutOfRange(paragraphs, Top(FindMostSimilar(promptEmbedding, embeddings, similarity)), r.error.index)
    ensures Strip(prompt) != "" && |embeddings| <= |paragraphs| ==> r.Ok?
  {
    if Strip(prompt) == "" then Err(EmptyPrompt)
    else BuildContext(paragraphs, Top(FindMostSimilar(promptEmbedding, embeddings, similarity)))
  }

  /** When there are at most five embeddings every one of them is in the
      context, so the context is built exactly when there are no more
      embeddings than paragraphs. */
  lemma FewEmbeddingsInBoundsIff<V>(prompt: string, paragraphs: seq<string>, embeddings: seq<V>,
                                    promptEmbedding: V, similarity: (V, V) -> real)
    requires Strip(prompt) != ""
    requires |embeddings| <= ContextSize
    ensures AskContext(prompt, paragraphs, embeddings, promptEmbedding, similarity).Ok? <==> |embeddings| <= |paragraphs|
  {
    var ranked := FindMostSimilar(promptEmbedding, embeddings, similarity);
    if |embeddings| > |paragraphs| {
      var last := |embeddings| - 1;
      RankedSomewhere(promptEmbedding, embeddings, similarity, last);
      var p :| 0 <= p < |ranked| && ranked[p] == Scored(similarity(promptEmbedding, embeddings[last]), last);
      assert Top(ranked)[p].index >= |paragraphs|;
    }
  }

  /** With embeddings freshly computed for the document's own paragraphs,
      the context is always built, and its lines are the paragraphs of the
      (at most five) best-ranked chunks, in rank order. */
  lemma FreshEmbeddingsAnswer<V, E>(text: string, paragraphs: seq<string>,
                                    store: EmbeddingCache.Store<V>, filename: string, model: string,
                                    embed: (string, string) -> Result<V, E>, embeddings: seq<V>,
                                    prompt: string, promptEmbedding: V, similarity: (V, V) -> real)
    requires paragraphs == Segmenter.Paragraphs(ReadLines(text))
    requires EmbeddingCache.Load(store, filename).None?
    requires EmbeddingCache.GetEmbeddings(store, filename, model, paragraphs, embed).result == Ok(embeddings)
    requires Strip(prompt) != ""
    ensures AskContext(prompt, paragraphs, embeddings, promptEmbedding, similarity).Ok?
    ensures embeddings != [] ==>
      Split(AskContext(prompt, paragraphs, embeddings, promptEmbedding, similarity).value, '\n') ==
      Chosen(paragraphs, Top(FindMostSimilar(promptEmbedding, embeddings, similarity)))
  {
    var top := Top(FindMostSimilar(promptEmbedding, embeddings, similarity));
    if embeddings != [] {
      Segmenter.ReadLinesParagraphsOneLine(text);
      ContextRoundTrip(paragraphs, top);
    }
  }

  /** A cache file written for an older, longer version of the document is
      still used, and a question whose best match is past the current last
      paragraph raises `IndexError`. Here the file holds two embeddings, the
      document now has one paragraph, and the second embedding scores best. */
  lemma StaleCacheFails()
    ensures
      var store: EmbeddingCache.Store<int> := map[EmbeddingCache.CachePath("story.txt") := [0, 1]];
      var paragraphs := ["The only paragraph left."];
      var embed := (model: string, chunk: string) => Ok(|chunk|);
      var fetched := EmbeddingCache.GetEmbeddings<int, string>(store, "story.txt", "nomic-embed-text", paragraphs, embed);
      && fetched.result == Ok([0, 1])
      && AskContext("Who is left?", paragraphs, fetched.result.value, 0, (q: int, e: int) => e as real)
         == Err(IndexOutOfRange(1))
  {
    var similarity := (q: int, e: int) => e as real;
    var ranked := FindMostSimilar(0, [0, 1], similarity);
    var expected := [Scored(1.0, 1), Scored(0.0, 0)];
    assert Zip(Scores(0, [0, 1], similarity)) == [Scored(0.0, 0), Scored(1.0, 1)];
    assert multiset(expected) == multiset([Scored(0.0, 0), Scored(1.0, 1)]);
    SortedUnique(ranked, expected);
    assert Top(ranked) == expected;
    var prompt := "Who is left?";
    assert prompt[0] == 'W' && prompt[|prompt| - 1] == '?';
    assert Strip(prompt) == prompt by {
      StripTrimmed(prompt);
    }
  }
}
