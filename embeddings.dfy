/**
  The embedding fan-out of backend.py (`get_upstage_embeddings`).

  The provider is an uninterpreted function from one text to either an embedding
  or the message of the error it raised. The texts actually sent to the provider
  are returned as `requested`, so that contracts can say when it is called.
*/
module Embeddings {
  import opened Wrappers

  type Text = string

  /** An embedding vector; the model never looks at its numbers. */
  type Embedding = seq<real>

  /** One provider call: the embedding of one text, or the error message it raised. */
  type Provider = Text -> Result<Embedding, string>

  /**
    The cosine similarity of two embeddings, rounded to four decimals, as a
    comparable key; uninterpreted.
  */
  type Similarity = (Embedding, Embedding) -> real

  /** The `texts` argument, which is either a bare string or a list of strings. */
  datatype TextInput = One(text: Text) | Many(texts: seq<Text>)

  /** A bare string is treated as a one-element list. */
  function AsList(input: TextInput): seq<Text>
  {
    match input
    case One(t) => [t]
    case Many(ts) => ts
  }

  /** The index of the first text the provider fails on, or |ts| when it fails on none. */
  function FirstFailure(embedOne: Provider, ts: seq<Text>): (k: nat)
    ensures k <= |ts|
    ensures forall m :: 0 <= m < k ==> embedOne(ts[m]).Success?
    ensures k < |ts| ==> embedOne(ts[k]).Failure?
  {
    if ts == [] || embedOne(ts[0]).Failure? then 0
    else 1 + FirstFailure(embedOne, ts[1..])
  }

  /** The provider's embeddings of `ts`, in order, when it fails on none of them. */
  function Embedded(embedOne: Provider, ts: seq<Text>): seq<Embedding>
    requires FirstFailure(embedOne, ts) == |ts|
  {
    seq(|ts|, m requires 0 <= m < |ts| => embedOne(ts[m]).value)
  }

  /**
    One provider request per text, in input order; the first failure aborts the
    whole call with that error and no later text is sent.
  */
  method GetUpstageEmbeddings(embedOne: Provider, input: TextInput)
    returns (r: Result<seq<Embedding>, string>, requested: seq<Text>)
    ensures var ts := AsList(input);
            var k := FirstFailure(embedOne, ts);
            if k == |ts| then
              && r.Success?
              && |r.value| == |ts|
              && (forall m :: 0 <= m < |ts| ==> embedOne(ts[m]) == Success(r.value[m]))
              && requested == ts
            else
              && r == Failure(embedOne(ts[k]).error)
              && requested == ts[..k + 1]
  {
    var texts := AsList(input);
    var embeddings: seq<Embedding> := [];
    requested := [];
    for i := 0 to |texts|
      invariant requested == texts[..i]
      invariant |embeddings| == i
      invariant forall m :: 0 <= m < i ==> embedOne(texts[m]) == Success(embeddings[m])
    {
      requested := requested + [texts[i]];
      var response := embedOne(texts[i]);
      if response.Failure? {
        r := Failure(response.error);
        return;
      }
      embeddings := embeddings + [response.value];
    }
    r := Success(embeddings);
  }

  /** On success the embeddings returned are exactly `Embedded`. */
  lemma SuccessIsEmbedded(embedOne: Provider, ts: seq<Text>, es: seq<Embedding>)
    requires |es| == |ts|
    requires forall m :: 0 <= m < |ts| ==> embedOne(ts[m]) == Success(es[m])
    ensures FirstFailure(embedOne, ts) == |ts|
    ensures es == Embedded(embedOne, ts)
  {
  }
}
