/** `load_embeddings`, `save_embeddings` and `get_embeddings`: embeddings
    are cached per document, and a cached entry is returned without being
    checked against the chunks it is asked for. The directory of JSON files
    is a map from file path to the stored list; the embedding service is the
    parameter `embed`, which may fail. */
module EmbeddingCache {
  import opened Results

  /** The cache directory: file path to the list stored in that file. */
  type Store<V> = map<string, seq<V>>

  const Directory: string := "embeddings/"
  const Extension: string := ".json"

  /** The file a document's embeddings are kept in. The model name is not
      part of it. */
  function CachePath(filename: string): string {
    Directory + filename + Extension
  }

  /** Different documents are cached in different files. */
  lemma CachePathInjective(f: string, g: string)
    ensures CachePath(f) == CachePath(g) <==> f == g
  {
    if CachePath(f) == CachePath(g) {
      assert |f| == |g|;
      assert f == CachePath(f)[|Directory|..|Directory| + |f|];
      assert g == CachePath(g)[|Directory|..|Directory| + |g|];
    }
  }

  /** `load_embeddings`: the stored list, or `None` (Python's `False`) when
      the file does not exist. An empty stored list is still `Some`. */
  function Load<V>(store: Store<V>, filename: string): (r: Option<seq<V>>)
    ensures r.Some? <==> CachePath(filename) in store
    ensures r.Some? ==> r.value == store[CachePath(filename)]
  {
    if CachePath(filename) in store then Some(store[CachePath(filename)]) else None
  }

  /** `save_embeddings`: the document's file is (over)written with the list;
      the files of other documents are untouched. */
  function Save<V>(store: Store<V>, filename: string, embeddings: seq<V>): (saved: Store<V>)
    ensures Load(saved, filename) == Some(embeddings)
    ensures forall g :: g != filename ==> Load(saved, g) == Load(store, g)
  {
    var saved := store[CachePath(filename) := embeddings];
    assert forall g :: g != filename ==> CachePath(g) != CachePath(filename) by {
      forall g | g != filename ensures CachePath(g) != CachePath(filename) {
        CachePathInjective(g, filename);
      }
    }
    saved
  }

  /** The list comprehension of `get_embeddings`: one call of the service
      per chunk, in chunk order. The first failing call aborts it with that
      call's error. */
  function EmbedAll<V, E>(model: string, chunks: seq<string>, embed: (string, string) -> Result<V, E>): (r: Result<seq<V>, E>)
    ensures r.Ok? <==> forall i :: 0 <= i < |chunks| ==> embed(model, chunks[i]).Ok?
    ensures r.Ok? ==> |r.value| == |chunks| && forall i :: 0 <= i < |chunks| ==> embed(model, chunks[i]) == Ok(r.value[i])
    ensures r.Err? ==>
      exists i :: (0 <= i < |chunks| && embed(model, chunks[i]) == Err(r.error) &&
                   forall j :: 0 <= j < i ==> embed(model, chunks[j]).Ok?)
    decreases |chunks|
  {
    if chunks == [] then Ok([])
    else
      match embed(model, chunks[0])
      case Err(e) => Err(e)
      case Ok(v) =>
        match EmbedAll(model, chunks[1..], embed)
        case Err(e) =>
          assert forall i :: 1 <= i < |chunks| ==> chunks[i] == chunks[1..][i - 1];
          Err(e)
        case Ok(vs) =>
          assert forall i :: 1 <= i < |chunks| ==> chunks[i] == chunks[1..][i - 1];
          Ok([v] + vs)
  }

  /** The result of `get_embeddings` and the cache directory after it. */
  datatype Fetch<V, E> = Fetch(result: Result<seq<V>, E>, store: Store<V>)

  /** `get_embeddings`: a cached entry for the document is returned as it is
      and nothing is written; otherwise every chunk is embedded, the whole
      list is saved and returned. A failed call saves nothing. */
  function GetEmbeddings<V, E>(store: Store<V>, filename: string, model: string, chunks: seq<string>,
                               embed: (string, string) -> Result<V, E>): (f: Fetch<V, E>)
    // cache hit: the entry comes back untouched, whatever the chunks
    ensures Load(store, filename).Some? ==> f == Fetch(Ok(Load(store, filename).value), store)
    // cache miss: one embedding per chunk, in order, and the list is stored
    ensures Load(store, filename).None? ==>
      (f.result.Ok? <==> forall i :: 0 <= i < |chunks| ==> embed(model, chunks[i]).Ok?)
    ensures Load(store, filename).None? && f.result.Ok? ==>
      && |f.result.value| == |chunks|
      && (forall i :: 0 <= i < |chunks| ==> embed(model, chunks[i]) == Ok(f.result.value[i]))
      && f.store == Save(store, filename, f.result.value)
    // nothing is written on failure
    ensures f.result.Err? ==> f.store == store
    // after success the store holds exactly what was returned
    ensures f.result.Ok? ==> Load(f.store, filename) == Some(f.result.value)
    // other documents' files are untouched
    ensures forall g :: g != filename ==> Load(f.store, g) == Load(store, g)
  {
    match Load(store, filename)
    case Some(cached) => Fetch(Ok(cached), store)
    case None =>
      match EmbedAll(model, chunks, embed)
      case Err(e) => Fetch(Err(e), store)
      case Ok(embeddings) => Fetch(Ok(embeddings), Save(store, filename, embeddings))
  }

  /** Asking again for a document that was fetched once returns the same
      list and writes nothing, whatever chunks, model or service the second
      call is given: stale chunks are not noticed. */
  lemma Idempotent<V, E>(store: Store<V>, filename: string, model: string, chunks: seq<string>,
                         embed: (string, string) -> Result<V, E>,
                         model': string, chunks': seq<string>, embed': (string, string) -> Result<V, E>)
    requires GetEmbeddings(store, filename, model, chunks, embed).result.Ok?
    ensures var first := GetEmbeddings(store, filename, model, chunks, embed);
      GetEmbeddings(first.store, filename, model', chunks', embed') == first
  {
  }

  /** The miss test is "the file exists", not "the list is non-empty": a
      stored empty list is a hit, and the service is not called. */
  lemma EmptyEntryIsHit<V, E>(store: Store<V>, filename: string, model: string, chunks: seq<string>,
                              embed: (string, string) -> Result<V, E>)
    requires CachePath(filename) in store && store[CachePath(filename)] == []
    ensures GetEmbeddings(store, filename, model, chunks, embed) == Fetch(Ok([]), store)
  {
  }
}
