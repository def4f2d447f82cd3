/**
  The sentence store of backend.py and the handlers that use it:
  `load_sentences_db`, `save_sentence`, `reset_sentences`,
  `get_all_sentences` and `search_similar`.

  The JSON file is the `sentences` field of one `SentenceStore`: each handler's
  load-modify-rewrite of the file is one method that reads or reassigns it.
*/
module Store {
  import opened Wrappers
  import opened Responses
  import opened Embeddings
  import opened Ranking

  /** A stored record; records written by older versions may lack a timestamp. */
  datatype StoredSentence = StoredSentence(text: Text, embedding: Embedding, timestamp: Option<string>)

  /** One entry of `get_all_sentences`: the text and timestamp, never the embedding. */
  datatype Listing = Listing(text: Text, timestamp: string)

  /** `item.get("timestamp", "")`. */
  function TimestampOrEmpty(item: StoredSentence): string
  {
    match item.timestamp
    case Some(ts) => ts
    case None => ""
  }

  /** The `results` list of a search before it is sorted: one entry per record, in store order. */
  function Scored(items: seq<StoredSentence>, query: Embedding, sim: Similarity): (r: seq<ScoredSentence>)
    ensures |r| == |items|
  {
    seq(|items|, k requires 0 <= k < |items| =>
      ScoredSentence(items[k].text, sim(query, items[k].embedding), TimestampOrEmpty(items[k])))
  }

  /** A `sentence` or `query` field is accepted when present and not the empty string. */
  predicate Given(field: Option<Text>)
  {
    field.Some? && field.value != []
  }

  class SentenceStore {
    /** The `sentences` list of the database, in insertion order. */
    var sentences: seq<StoredSentence>

    /** `load_sentences_db`: the persisted list, or the empty list when no file exists. */
    constructor Load(persisted: Option<seq<StoredSentence>>)
      ensures persisted.None? ==> sentences == []
      ensures persisted.Some? ==> sentences == persisted.value
    {
      match persisted
      case None => sentences := [];
      case Some(items) => sentences := items;
    }

    /**
      `save_sentence`: a missing or empty sentence is refused; otherwise exactly
      one record is appended at the end, the earlier records unchanged, unless
      the provider fails, in which case nothing is written.
    */
    method SaveSentence(embedOne: Provider, sentence: Option<Text>, now: string)
      returns (r: Result<(), Failure>, requested: seq<Text>)
      modifies this
      ensures !Given(sentence) ==> r == Failure(BadRequest) && requested == [] && sentences == old(sentences)
      ensures Given(sentence) ==> requested == [sentence.value]
      ensures Given(sentence) && embedOne(sentence.value).Failure? ==>
                r == Failure(ServerError(embedOne(sentence.value).error)) && sentences == old(sentences)
      ensures Given(sentence) && embedOne(sentence.value).Success? ==>
                && r == Success(())
                && sentences == old(sentences) + [StoredSentence(sentence.value, embedOne(sentence.value).value, Some(now))]
    {
      if !Given(sentence) {
        return Failure(BadRequest), [];
      }
      var timestamp := now;
      var embeddings;
      embeddings, requested := GetUpstageEmbeddings(embedOne, One(sentence.value));
      if embeddings.Failure? {
        return Failure(ServerError(embeddings.error)), requested;
      }
      var embedding := embeddings.value[0];
      sentences := sentences + [StoredSentence(sentence.value, embedding, Some(timestamp))];
      r := Success(());
    }

    /** `reset_sentences`: the store becomes the empty list. */
    method ResetSentences()
      modifies this
      ensures sentences == []
    {
      sentences := [];
    }

    /**
      `get_all_sentences`: one entry per record, in store order, carrying the
      record's text and its timestamp, or "" when it has none.
    */
    method GetAllSentences() returns (listing: seq<Listing>)
      ensures |listing| == |sentences|
      ensures forall k :: 0 <= k < |sentences| ==>
                listing[k].text == sentences[k].text &&
                (sentences[k].timestamp.Some? ==> listing[k].timestamp == sentences[k].timestamp.value) &&
                (sentences[k].timestamp.None? ==> listing[k].timestamp == "")
    {
      listing := [];
      for k := 0 to |sentences|
        invariant |listing| == k
        invariant forall m :: 0 <= m < k ==> listing[m] == Listing(sentences[m].text, TimestampOrEmpty(sentences[m]))
      {
        var item := sentences[k];
        listing := listing + [Listing(item.text, TimestampOrEmpty(item))];
      }
    }

    /**
      `search_similar`: a missing or empty query is refused; an empty store is
      reported as not found before the provider is asked for anything; otherwise
      the query is embedded and every stored sentence is scored against it, and
      the result is the stable descending sort of the scores in store order.
    */
    method SearchSimilar(embedOne: Provider, sim: Similarity, query: Option<Text>)
      returns (r: Result<seq<ScoredSentence>, Failure>, requested: seq<Text>)
      ensures !Given(query) ==> r == Failure(BadRequest) && requested == []
      ensures Given(query) && sentences == [] ==> r == Failure(NotFound) && requested == []
      ensures Given(query) && sentences != [] ==> requested == [query.value]
      ensures Given(query) && sentences != [] && embedOne(query.value).Failure? ==>
                r == Failure(ServerError(embedOne(query.value).error))
      ensures Given(query) && sentences != [] && embedOne(query.value).Success? ==>
                && r.Success?
                && |r.value| == |sentences|
                && StablySortedFrom(r.value, Scored(sentences, embedOne(query.value).value, sim))
                && multiset(r.value) == multiset(Scored(sentences, embedOne(query.value).value, sim))
    {
      if !Given(query) {
        return Failure(BadRequest), [];
      }
      var db := sentences;
      if db == [] {
        return Failure(NotFound), [];
      }
      var embeddings;
      embeddings, requested := GetUpstageEmbeddings(embedOne, One(query.value));
      if embeddings.Failure? {
        return Failure(ServerError(embeddings.error)), requested;
      }
      var queryEmbedding := embeddings.value[0];
      var results: seq<ScoredSentence> := [];
      for k := 0 to |db|
        invariant results == Scored(db[..k], queryEmbedding, sim)
      {
        var item := db[k];
        results := results + [ScoredSentence(item.text, sim(queryEmbedding, item.embedding), TimestampOrEmpty(item))];
      }
      assert db[..|db|] == db;
      var ranked := new ScoredSentence[|results|](k requires 0 <= k < |results| => results[k]);
      assert ranked[..] == results;
      SortBySimilarity(ranked);
      TiesKeepMultiset(ranked[..], results);
      r := Success(ranked[..]);
    }
  }

  /**
    The store round trip: after a sentence is saved, listing the store shows
    the earlier entries unchanged, then the new sentence with the time of the save.
  */
  method SaveThenList(store: SentenceStore, embedOne: Provider, text: Text, now: string)
    returns (listing: seq<Listing>)
    requires text != [] && embedOne(text).Success?
    modifies store
    ensures |listing| == |old(store.sentences)| + 1
    ensures forall k :: 0 <= k < |old(store.sentences)| ==>
              listing[k] == Listing(old(store.sentences)[k].text, TimestampOrEmpty(old(store.sentences)[k]))
    ensures listing[|listing| - 1] == Listing(text, now)
  {
    var saved, requested := store.SaveSentence(embedOne, Some(text), now);
    listing := store.GetAllSentences();
  }

  /** After a reset, the listing is empty and a search answers not-found. */
  method ResetThenSearch(store: SentenceStore, embedOne: Provider, sim: Similarity, query: Text)
    returns (listing: seq<Listing>, found: Result<seq<ScoredSentence>, Failure>)
    requires query != []
    modifies store
    ensures listing == []
    ensures found == Failure(NotFound)
  {
    store.ResetSentences();
    listing := store.GetAllSentences();
    var requested;
    found, requested := store.SearchSimilar(embedOne, sim, Some(query));
  }
}
