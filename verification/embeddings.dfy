/** `OpenAiEmbeddingsProvider.embed`: batches of a hundred, each put back in order by the items' own indices. */
module Embeddings {
  import opened Text
  import opened StableSort

  type Vector = seq<real>

  datatype Item = Item(index: nat, embedding: Vector)

  datatype EmbedError = CallFailed | Incomplete(expected: nat, received: nat)

  const BATCH_SIZE: nat := 100

  /** The response to each batch; None when the call throws. */
  type Client = nat -> Option<seq<Item>>

  function Batch(texts: seq<string>, b: nat): seq<string> {
    var from := b * BATCH_SIZE;
    if from >= |texts| then []
    else texts[from..if from + BATCH_SIZE < |texts| then from + BATCH_SIZE else |texts|]
  }

  // ------------------------------------------------------- sorted by index

  /** `(a, b) => a.index - b.index` does not put a after b. */
  predicate NotAbove(a: Item, b: Item) {
    a.index <= b.index
  }

  function Ordered(s: seq<Item>): seq<Item> {
    Sort(s, NotAbove)
  }

  predicate Ascending(s: seq<Item>) {
    forall i, j | 0 <= i < j < |s| :: s[i].index < s[j].index
  }

  predicate DistinctIndices(s: seq<Item>) {
    forall i, j | 0 <= i < j < |s| :: s[i].index != s[j].index
  }

  lemma OrderedShape(s: seq<Item>)
    requires DistinctIndices(s)
    ensures Ascending(Ordered(s)) && SameElements(Ordered(s), s)
  {
    SortShape(s, NotAbove);
    hide Sort, PlaceIn;
    var ordered := Ordered(s);
    forall i, j | 0 <= i < j < |ordered|
      ensures ordered[i].index < ordered[j].index
    {
      assert Precedes(s, NotAbove, ordered[i], ordered[j]);
      assert ordered[i] in s && ordered[j] in s;
    }
  }

  lemma {:induction false} AtLeastPlace(s: seq<Item>, i: nat)
    requires Ascending(s) && i < |s|
    ensures s[i].index >= i
  {
    if i > 0 { AtLeastPlace(s, i - 1); }
  }

  lemma {:induction false} AtMostPlace(s: seq<Item>, i: nat)
    requires Ascending(s) && i < |s| && forall j | 0 <= j < |s| :: s[j].index < |s|
    ensures s[i].index <= i
    decreases |s| - i
  {
    if i + 1 < |s| { AtMostPlace(s, i + 1); }
  }

  // ------------------------------------------------------------ the method

  function EmbeddingsOf(s: seq<Item>): seq<Vector> {
    seq(|s|, i requires 0 <= i < |s| => s[i].embedding)
  }

  function BatchCount(texts: seq<string>): nat {
    (|texts| + BATCH_SIZE - 1) / BATCH_SIZE
  }

  /** What is wrong with the response to batch b, if anything. */
  function Problem(texts: seq<string>, client: Client, b: nat): Option<EmbedError> {
    match client(b)
    case None => Some(CallFailed)
    case Some(data) =>
      if |data| != |Batch(texts, b)| then Some(Incomplete(|Batch(texts, b)|, |data|)) else None
  }

  /** What the first n batches come to. */
  function Collected(texts: seq<string>, client: Client, n: nat): Result<seq<Vector>, EmbedError> {
    if n == 0 then Ok([])
    else
      var before := Collected(texts, client, n - 1);
      if before.Err? then before
      else if Problem(texts, client, n - 1).Some? then Err(Problem(texts, client, n - 1).value)
      else Ok(before.value + EmbeddingsOf(Ordered(client(n - 1).value)))
  }

  lemma CollectedNext(texts: seq<string>, client: Client, n: nat)
    ensures var before, now := Collected(texts, client, n), Collected(texts, client, n + 1);
            if before.Err? then now == before
            else match Problem(texts, client, n)
                 case Some(e) => now == Err(e)
                 case None => now == Ok(before.value + EmbeddingsOf(Ordered(client(n).value)))
  {
    hide Batch, Ordered;
  }

  lemma BatchesCovered(texts: seq<string>, n: nat)
    ensures n * BATCH_SIZE < |texts| <==> n < BatchCount(texts)
    ensures n * BATCH_SIZE / BATCH_SIZE == n
  {
  }

  method Embed(texts: seq<string>, client: Client) returns (r: Result<seq<Vector>, EmbedError>)
    ensures r == Collected(texts, client, BatchCount(texts))
  {
    var vectors: seq<Vector> := [];
    var offset := 0;
    ghost var n := 0;
    hide Batch, BatchCount, Ordered, EmbeddingsOf;
    while offset < |texts|
      invariant offset == n * BATCH_SIZE && n <= BatchCount(texts)
      invariant Collected(texts, client, n) == Ok(vectors)
      decreases |texts| - offset
    {
      BatchesCovered(texts, n);
      CollectedNext(texts, client, n);
      hide Collected;
      var batch := Batch(texts, offset / BATCH_SIZE);
      var response := client(offset / BATCH_SIZE);
      if response.None? {
        FirstProblem(texts, client, n, BatchCount(texts));
        return Err(CallFailed);
      }
      if |response.value| != |batch| {
        FirstProblem(texts, client, n, BatchCount(texts));
        return Err(Incomplete(|batch|, |response.value|));
      }
      vectors := Push(vectors, Ordered(response.value));
      offset, n := offset + BATCH_SIZE, n + 1;
    }
    BatchesCovered(texts, n);
    return Ok(vectors);
  }

  /** The inner loop. */
  method Push(vectors0: seq<Vector>, ordered: seq<Item>) returns (vectors: seq<Vector>)
    ensures vectors == vectors0 + EmbeddingsOf(ordered)
  {
    vectors := vectors0;
    for j := 0 to |ordered|
      invariant vectors == vectors0 + EmbeddingsOf(ordered)[..j]
    {
      vectors := vectors + [ordered[j].embedding];
    }
  }

  /** The first batch that goes wrong decides. */
  lemma {:induction false} FirstProblem(texts: seq<string>, client: Client, b: nat, n: nat)
    requires b < n && Collected(texts, client, b).Ok? && Problem(texts, client, b).Some?
    ensures Collected(texts, client, n) == Err(Problem(texts, client, b).value)
  {
    hide Problem, Ordered, Collected;
    if n > b + 1 {
      FirstProblem(texts, client, b, n - 1);
    }
    CollectedNext(texts, client, n - 1);
  }

  // ------------------------------------------------------------- the order

  /** The response gives each text of the batch its vector under the text's own place, in any order. */
  predicate Answers(data: seq<Item>, batch: seq<string>, vectorOf: string -> Vector) {
    && |data| == |batch| && DistinctIndices(data)
    && forall i | 0 <= i < |data| :: data[i].index < |batch| && data[i].embedding == vectorOf(batch[data[i].index])
  }

  function VectorsOf(texts: seq<string>, vectorOf: string -> Vector): seq<Vector> {
    seq(|texts|, i requires 0 <= i < |texts| => vectorOf(texts[i]))
  }

  lemma BatchInOrder(data: seq<Item>, batch: seq<string>, vectorOf: string -> Vector)
    requires Answers(data, batch, vectorOf)
    ensures EmbeddingsOf(Ordered(data)) == VectorsOf(batch, vectorOf)
  {
    var ordered := Ordered(data);
    OrderedShape(data);
    hide Ordered, Ascending, DistinctIndices;
    forall i | 0 <= i < |ordered|
      ensures ordered[i].index < |batch| && ordered[i].embedding == vectorOf(batch[ordered[i].index])
    {
      assert ordered[i] in data;
    }
    forall i | 0 <= i < |ordered|
      ensures ordered[i].index == i
    {
      AtLeastPlace(ordered, i);
      AtMostPlace(ordered, i);
    }
  }

  function Upto(texts: seq<string>, n: nat): nat {
    if n * BATCH_SIZE < |texts| then n * BATCH_SIZE else |texts|
  }

  lemma BatchNext(texts: seq<string>, n: nat, vectorOf: string -> Vector)
    ensures Upto(texts, n) <= Upto(texts, n + 1) <= |texts|
    ensures texts[..Upto(texts, n + 1)] == texts[..Upto(texts, n)] + Batch(texts, n)
    ensures VectorsOf(texts[..Upto(texts, n + 1)], vectorOf)
         == VectorsOf(texts[..Upto(texts, n)], vectorOf) + VectorsOf(Batch(texts, n), vectorOf)
  {
  }

  lemma NothingCollected(texts: seq<string>, client: Client, vectorOf: string -> Vector)
    ensures Collected(texts, client, 0) == Ok(VectorsOf(texts[..Upto(texts, 0)], vectorOf))
  {
    assert VectorsOf(texts[..Upto(texts, 0)], vectorOf) == [];
  }

  lemma {:induction false} CollectedInOrder(texts: seq<string>, client: Client, vectorOf: string -> Vector, n: nat)
    requires n <= BatchCount(texts)
    requires forall b: nat | b < BatchCount(texts) ::
               client(b).Some? && Answers(client(b).value, Batch(texts, b), vectorOf)
    ensures Collected(texts, client, n) == Ok(VectorsOf(texts[..Upto(texts, n)], vectorOf))
  {
    NothingCollected(texts, client, vectorOf);
    hide Collected, Ordered, Batch, BatchCount, EmbeddingsOf, Upto, VectorsOf, DistinctIndices;
    if n == 0 {
      return;
    }
    CollectedInOrder(texts, client, vectorOf, n - 1);
    assert Answers(client(n - 1).value, Batch(texts, n - 1), vectorOf);
    BatchInOrder(client(n - 1).value, Batch(texts, n - 1), vectorOf);
    BatchNext(texts, n - 1, vectorOf);
    CollectedNext(texts, client, n - 1);
  }

  /** For any number of texts and any order within each response, result i is the vector of text i. */
  lemma EmbedsInOrder(texts: seq<string>, client: Client, vectorOf: string -> Vector)
    requires forall b: nat | b < BatchCount(texts) ::
               client(b).Some? && Answers(client(b).value, Batch(texts, b), vectorOf)
    ensures Collected(texts, client, BatchCount(texts)) == Ok(VectorsOf(texts, vectorOf))
  {
    CollectedInOrder(texts, client, vectorOf, BatchCount(texts));
    assert texts[..Upto(texts, BatchCount(texts))] == texts;
  }

  // ---------------------------------------------------------------- the rules

  /** The batches are the texts in order, a hundred each but for the last, and none is empty. */
  lemma BatchesOfHundred(texts: seq<string>, b: nat)
    ensures b < BatchCount(texts) <==> 100 * b < |texts|
    ensures b < BatchCount(texts) ==>
              Batch(texts, b) == texts[100 * b..if b + 1 == BatchCount(texts) then |texts| else 100 * (b + 1)]
    ensures b + 1 == BatchCount(texts) ==> |texts| <= 100 * (b + 1)
  {
    BatchesCovered(texts, b);
    BatchesCovered(texts, b + 1);
  }

  /** Nothing is embedded unless every call succeeds with as many vectors as it was given texts; then there are as
      many vectors as texts. Otherwise the first batch that goes wrong says how. */
  lemma {:induction false} AllOrNothing(texts: seq<string>, client: Client, n: nat)
    requires n <= BatchCount(texts)
    ensures Collected(texts, client, n).Ok? <==>
            forall b | 0 <= b < n :: client(b).Some? && |client(b).value| == |Batch(texts, b)|
    ensures Collected(texts, client, n).Ok? ==>
              |Collected(texts, client, n).value| == if 100 * n < |texts| then 100 * n else |texts|
    ensures Collected(texts, client, n).Err? ==>
              exists b | 0 <= b < n ::
                && (forall k | 0 <= k < b :: client(k).Some? && |client(k).value| == |Batch(texts, k)|)
                && match client(b)
                   case None => Collected(texts, client, n).error == CallFailed
                   case Some(data) =>
                     |data| != |Batch(texts, b)|
                     && Collected(texts, client, n).error == Incomplete(|Batch(texts, b)|, |data|)
  {
    hide Batch, BatchCount, Ordered;
    if n > 0 {
      AllOrNothing(texts, client, n - 1);
      BatchesOfHundred(texts, n - 1);
      BatchesOfHundred(texts, n);
      if Collected(texts, client, n).Ok? {
        OrderedLength(client(n - 1).value);
      }
    }
  }

  lemma OrderedLength(data: seq<Item>)
    ensures |Ordered(data)| == |data|
  {
    SortLength(data, NotAbove);
  }
}
