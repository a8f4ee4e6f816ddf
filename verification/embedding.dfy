/** Generating embeddings in batches: the input is partitioned in order, and output i belongs to input i. */
module Embedding {
  import opened Wrappers
  import opened Bytes
  import opened Values
  import Utf8

  const OPENAI_MAX_TEXT_BYTES := 8_191
  const VOYAGE_PROMPT_BUDGET := 128
  const VOYAGE_MAX_TEXT_BYTES := 32_000 - VOYAGE_PROMPT_BUDGET

  datatype Provider = Openai | Voyage

  datatype Config = Config(provider: Provider, model: string, dimensions: nat, batchSize: nat)

  datatype EmbeddingError = Invalid | InvalidResponse | ProviderFailed

  datatype Answer<+T> = Done(value: T) | Error(error: EmbeddingError) {
    predicate IsFailure() {
      Error?
    }

    function PropagateFailure<U>(): Answer<U>
      requires Error?
    {
      Error(error)
    }

    function Extract(): T
      requires Done?
    {
      value
    }
  }

  type Embedding = seq<f32>

  datatype ProviderEmbedding = ProviderEmbedding(index: nat, embedding: Embedding)

  datatype ProviderResponse = ProviderResponse(data: seq<ProviderEmbedding>, totalTokens: u64)

  predicate BatchSizeOk(config: Config) {
    1 <= config.batchSize <= 128
  }

  function MaxTextBytes(provider: Provider): nat {
    match provider
    case Openai => OPENAI_MAX_TEXT_BYTES
    case Voyage => VOYAGE_MAX_TEXT_BYTES
  }

  predicate InputFits(config: Config, input: seq<string>) {
    forall i | 0 <= i < |input| :: |Utf8.Encode(input[i])| <= MaxTextBytes(config.provider)
  }

  function ValidateProviderInput(config: Config, input: seq<string>): Answer<()> {
    if InputFits(config, input) then Done(()) else Error(Invalid)
  }

  /* ----- Batches within the provider's budget ----- */

  function Budget(config: Config): nat {
    match config.provider
    case Openai => 300_000
    case Voyage =>
      if config.model == "voyage-4-lite" then 1_000_000
      else if config.model == "voyage-4" then 320_000
      else 120_000
  }

  function Cost(config: Config, text: string): nat {
    |Utf8.Encode(text)| + if config.provider == Voyage then VOYAGE_PROMPT_BUDGET else 0
  }

  function TotalCost(config: Config, input: seq<string>): nat {
    if input == [] then 0 else TotalCost(config, input[..|input| - 1]) + Cost(config, input[|input| - 1])
  }

  /** The longest prefix within the item limit and the budget. */
  ghost predicate LargestBatch(config: Config, input: seq<string>, count: nat) {
    && count <= |input| && count <= config.batchSize && TotalCost(config, input[..count]) <= Budget(config)
    && (count < |input| && count < config.batchSize ==> TotalCost(config, input[..count + 1]) > Budget(config))
  }

  method ProviderBatchSize(config: Config, input: seq<string>) returns (count: nat)
    ensures count <= |input| && LargestBatch(config, input, count)
  {
    hide Cost, Budget;
    var remaining := Budget(config);
    count := 0;
    while count < |input| && count < config.batchSize
      invariant count <= |input| && count <= config.batchSize
      invariant TotalCost(config, input[..count]) + remaining == Budget(config)
    {
      var cost := Cost(config, input[count]);
      assert input[..count + 1][..count] == input[..count];
      if cost > remaining {
        return;
      }
      remaining := remaining - cost;
      count := count + 1;
    }
  }

  /** One accepted text always fits: a batch is empty only when nothing is left. */
  lemma FirstTextFits(config: Config, input: seq<string>, count: nat)
    requires BatchSizeOk(config) && InputFits(config, input) && input != [] && LargestBatch(config, input, count)
    ensures count > 0
  {
    hide Utf8.Encode;
    assert input[..1][..0] == [] && input[..1][0] == input[0];
    assert TotalCost(config, input[..1]) == Cost(config, input[0]);
  }

  /* ----- Putting a response in order ----- */

  predicate Usable(e: Embedding, dimensions: nat) {
    |e| == dimensions && forall i | 0 <= i < |e| :: Finite32(e[i])
  }

  /** The first `n` answers are for different inputs and usable. */
  predicate ShapedTo(data: seq<ProviderEmbedding>, n: nat, count: nat, dimensions: nat)
    requires n <= |data|
  {
    && (forall i | 0 <= i < n :: data[i].index < count && Usable(data[i].embedding, dimensions))
    && forall i, j | 0 <= i < j < n :: data[i].index != data[j].index
  }

  /** As many answers as inputs, each for a different input, each usable. */
  predicate WellShaped(data: seq<ProviderEmbedding>, count: nat, dimensions: nat) {
    |data| == count && ShapedTo(data, |data|, count, dimensions)
  }

  lemma ShapedNext(data: seq<ProviderEmbedding>, n: nat, count: nat, dimensions: nat)
    requires n < |data| && ShapedTo(data, n, count, dimensions)
    ensures ShapedTo(data, n + 1, count, dimensions) <==>
            data[n].index < count && Usable(data[n].embedding, dimensions) && forall i | 0 <= i < n :: data[i].index != data[n].index
    ensures ShapedTo(data, |data|, count, dimensions) ==> ShapedTo(data, n + 1, count, dimensions)
  {
    hide Usable;
  }

  /** Slot k holds the embedding that was sent for input k. */
  ghost predicate InOrder(ordered: seq<Embedding>, data: seq<ProviderEmbedding>) {
    |ordered| == |data|
    && (forall i | 0 <= i < |data| :: data[i].index < |ordered| && ordered[data[i].index] == data[i].embedding)
  }

  /** The slots filled by the first answers. */
  ghost predicate SlotsFilled(slots: seq<Option<Embedding>>, data: seq<ProviderEmbedding>, n: nat) {
    && n <= |data|
    && (forall i | 0 <= i < n :: data[i].index < |slots| && slots[data[i].index] == Some(data[i].embedding))
    && forall k | 0 <= k < |slots| && slots[k].Some? :: exists i | 0 <= i < n :: data[i].index == k
  }

  function IndexesBefore(data: seq<ProviderEmbedding>, n: nat): set<nat>
    requires n <= |data|
  {
    set i | 0 <= i < n :: data[i].index
  }

  lemma {:induction false} DistinctIndexes(data: seq<ProviderEmbedding>, n: nat)
    requires n <= |data| && forall i, j | 0 <= i < j < n :: data[i].index != data[j].index
    ensures |IndexesBefore(data, n)| == n
  {
    if n > 0 {
      DistinctIndexes(data, n - 1);
      assert IndexesBefore(data, n) == IndexesBefore(data, n - 1) + {data[n - 1].index};
    }
  }

  function NumbersBelow(n: nat): (s: set<nat>)
    ensures |s| == n && forall k: nat :: k in s <==> k < n
  {
    if n == 0 then {} else NumbersBelow(n - 1) + {n - 1}
  }

  /** As many different indexes as slots reach every slot. */
  lemma EverySlotReached(data: seq<ProviderEmbedding>, k: nat) returns (i: nat)
    requires (forall j | 0 <= j < |data| :: data[j].index < |data|) && k < |data|
    requires forall j, l | 0 <= j < l < |data| :: data[j].index != data[l].index
    ensures i < |data| && data[i].index == k
  {
    var n := |data|;
    var used, all := IndexesBefore(data, n), NumbersBelow(n);
    DistinctIndexes(data, n);
    assert used <= all;
    assert used == all by {
      SubsetOfSameSize(used, all);
    }
    assert k in used;
    i :| i < n && data[i].index == k;
  }

  lemma SubsetOfSameSize<T>(a: set<T>, b: set<T>)
    requires a <= b && |a| == |b|
    ensures a == b
  {
    assert b == a + (b - a);
    assert |b - a| == 0;
  }

  /** Accepts exactly the well-shaped responses, and then slot k holds the embedding of input k: no slot can be
      left over. */
  method ValidateEmbeddings(data: seq<ProviderEmbedding>, count: nat, dimensions: nat)
    returns (r: Answer<seq<Embedding>>)
    ensures r.Done? <==> WellShaped(data, count, dimensions)
    ensures r.Done? ==> InOrder(r.value, data)
    ensures r.Error? ==> r.error == InvalidResponse
  {
    hide Usable, ShapedTo, SlotsFilled;
    if |data| != count {
      return Error(InvalidResponse);
    }
    var slots: array<Option<Embedding>> := new Option<Embedding>[count](_ => None);
    NothingFilled(slots[..], data, dimensions);
    for n := 0 to |data|
      invariant slots.Length == count && SlotsFilled(slots[..], data, n) && ShapedTo(data, n, count, dimensions)
    {
      var item := data[n];
      ShapedNext(data, n, count, dimensions);
      if item.index >= count {
        return Error(InvalidResponse);
      }
      SlotTaken(slots[..], data, n);
      assert slots[..][item.index] == slots[item.index];
      if slots[item.index].Some? || !Usable(item.embedding, dimensions) {
        return Error(InvalidResponse);
      }
      ghost var before := slots[..];
      slots[item.index] := Some(item.embedding);
      SlotFilled(before, data, n, slots[..]);
    }
    AllDistinct(data, count, dimensions);
    r := CollectSlots(slots[..], data);
  }

  lemma NothingFilled(slots: seq<Option<Embedding>>, data: seq<ProviderEmbedding>, dimensions: nat)
    requires forall k | 0 <= k < |slots| :: slots[k].None?
    ensures SlotsFilled(slots, data, 0) && ShapedTo(data, 0, |slots|, dimensions)
  {
  }

  lemma AllDistinct(data: seq<ProviderEmbedding>, count: nat, dimensions: nat)
    requires ShapedTo(data, |data|, count, dimensions)
    ensures forall i, j | 0 <= i < j < |data| :: data[i].index != data[j].index
  {
  }

  /** A slot is taken exactly when an earlier answer was for the same input. */
  lemma SlotTaken(slots: seq<Option<Embedding>>, data: seq<ProviderEmbedding>, n: nat)
    requires SlotsFilled(slots, data, n) && n < |data| && data[n].index < |slots|
    ensures slots[data[n].index].Some? <==> exists i | 0 <= i < n :: data[i].index == data[n].index
  {
  }

  lemma SlotFilled(before: seq<Option<Embedding>>, data: seq<ProviderEmbedding>, n: nat, after: seq<Option<Embedding>>)
    requires SlotsFilled(before, data, n) && n < |data| && data[n].index < |before| && before[data[n].index].None?
    requires after == before[data[n].index := Some(data[n].embedding)]
    ensures SlotsFilled(after, data, n + 1)
  {
    forall k | 0 <= k < |after| && after[k].Some?
      ensures exists i | 0 <= i < n + 1 :: data[i].index == k
    {
      if k == data[n].index {
        assert data[n].index == k;
      } else {
        assert before[k].Some?;
        var i :| 0 <= i < n && data[i].index == k;
      }
    }
  }

  /** The slots' values; a missing one would be an invalid response. */
  method CollectSlots(slots: seq<Option<Embedding>>, ghost data: seq<ProviderEmbedding>) returns (r: Answer<seq<Embedding>>)
    requires |slots| == |data| && SlotsFilled(slots, data, |data|)
    requires forall i, j | 0 <= i < j < |data| :: data[i].index != data[j].index
    ensures r.Done? && InOrder(r.value, data)
  {
    var values: seq<Embedding> := [];
    for k := 0 to |slots|
      invariant |values| == k && forall j | 0 <= j < k :: slots[j] == Some(values[j])
    {
      SlotIsFilled(slots, data, k);
      values := values + [slots[k].value];
    }
    return Done(values);
  }

  lemma SlotIsFilled(slots: seq<Option<Embedding>>, data: seq<ProviderEmbedding>, k: nat)
    requires k < |slots| == |data| && SlotsFilled(slots, data, |data|)
    requires forall i, j | 0 <= i < j < |data| :: data[i].index != data[j].index
    ensures slots[k].Some?
  {
    var i := EverySlotReached(data, k);
  }

  /* ----- All batches ----- */

  /** What the provider sends for a batch, if it answers at all. */
  type ProviderCall = seq<string> -> Option<ProviderResponse>

  /** The first batches of the input: each is the longest that still fits, of what the ones before it left. */
  ghost predicate Sent(config: Config, input: seq<string>, batches: seq<seq<string>>) {
    Joined(batches) <= input && forall k | 0 <= k < |batches| :: NextBatch(config, input, Joined(batches[..k]), batches[k])
  }

  ghost predicate NextBatch(config: Config, input: seq<string>, before: seq<string>, batch: seq<string>) {
    && 0 < |batch| && before + batch <= input
    && LargestBatch(config, input[|before|..], |batch|)
  }

  function Joined<T>(parts: seq<seq<T>>): seq<T> {
    if parts == [] then [] else Joined(parts[..|parts| - 1]) + parts[|parts| - 1]
  }

  lemma JoinedNext<T>(parts: seq<seq<T>>, part: seq<T>)
    ensures Joined(parts + [part]) == Joined(parts) + part
  {
    assert (parts + [part])[..|parts|] == parts;
  }

  /** The outputs of the batches: each is its provider response put in order. */
  ghost predicate Answers(
      config: Config, batches: seq<seq<string>>, outputs: seq<seq<Embedding>>, provider: ProviderCall)
  {
    && |outputs| == |batches|
    && forall k | 0 <= k < |batches| ::
         && WellAnswered(config, batches[k], provider)
         && InOrder(outputs[k], provider(batches[k]).value.data)
  }

  /** The tokens all answers report. */
  ghost function Tokens(batches: seq<seq<string>>, provider: ProviderCall): nat {
    if batches == [] then 0
    else
      var answer := provider(batches[|batches| - 1]);
      Tokens(batches[..|batches| - 1], provider) + if answer.Some? then answer.value.totalTokens else 0
  }

  lemma TokensNext(batches: seq<seq<string>>, batch: seq<string>, provider: ProviderCall)
    ensures Tokens(batches + [batch], provider)
            == Tokens(batches, provider) + if provider(batch).Some? then provider(batch).value.totalTokens else 0
  {
    assert (batches + [batch])[..|batches|] == batches;
  }

  /** The last batch sent is the one that failed: no answer, too many tokens in all, or not an answer to it. Those
      before it were answered. */
  ghost predicate Stuck(config: Config, input: seq<string>, batches: seq<seq<string>>, provider: ProviderCall) {
    && batches != [] && Sent(config, input, batches)
    && (forall k | 0 <= k < |batches| - 1 :: WellAnswered(config, batches[k], provider))
    && Tokens(batches[..|batches| - 1], provider) < 0x1_0000_0000_0000_0000
    && (|| !WellAnswered(config, batches[|batches| - 1], provider)
        || Tokens(batches, provider) >= 0x1_0000_0000_0000_0000)
  }

  ghost predicate WellAnswered(config: Config, batch: seq<string>, provider: ProviderCall) {
    provider(batch).Some? && WellShaped(provider(batch).value.data, |batch|, config.dimensions)
  }

  /** A run of the batches: the input partitioned in order, the answers put in order and joined, the tokens added. */
  ghost predicate Generated(
      config: Config, input: seq<string>, batches: seq<seq<string>>, outputs: seq<seq<Embedding>>, provider: ProviderCall,
      embeddings: seq<Embedding>, tokens: nat)
  {
    && Joined(batches) == input && Sent(config, input, batches) && Answers(config, batches, outputs, provider)
    && embeddings == Joined(outputs) && |embeddings| == |input|
    && tokens == Tokens(batches, provider)
  }

  /** Sends the whole input, batch by batch. For accepted input every batch makes progress, so the loop ends and
      the empty-batch error cannot happen; the outputs are the batches' answers, one after the other. */
  method GenerateBatches(config: Config, input: seq<string>, provider: ProviderCall)
    returns (r: Answer<(seq<Embedding>, u64)>)
    requires BatchSizeOk(config) && InputFits(config, input)
    ensures r.Error? ==> r.error != Invalid && exists batches :: Stuck(config, input, batches, provider)
    ensures r.Done? ==>
      exists batches, outputs :: Generated(config, input, batches, outputs, provider, r.value.0, r.value.1)
  {
    hide Cost, Budget, WellShaped, InOrder, InputFits, LargestBatch, Sent, Stuck, WellAnswered;
    var embeddings: seq<Embedding> := [];
    var totalTokens: u64 := 0;
    var start := 0;
    ghost var batches: seq<seq<string>>, outputs: seq<seq<Embedding>> := [], [];
    assert input[..0] == [];
    NothingSent(config, input);
    hide Joined, Tokens, Answers;
    while start < |input|
      invariant start <= |input| && Joined(batches) == input[..start] && Joined(outputs) == embeddings
      invariant Sent(config, input, batches) && Answers(config, batches, outputs, provider)
      invariant |embeddings| == start && totalTokens == Tokens(batches, provider)
      decreases |input| - start
    {
      var count := ProviderBatchSize(config, input[start..]);
      RestFits(config, input, start);
      FirstTextFits(config, input[start..], count);
      if count == 0 {
        return Error(Invalid);
      }
      var batch := input[start..][..count];
      var response := provider(batch);
      JoinedNext(batches, batch);
      TokensNext(batches, batch, provider);
      assert input[..start] + batch == input[..start + count];
      SentNext(config, input, batches, batch, start);
      StuckNow(config, input, batches, outputs, batch, provider);
      if response.None? {
        return Error(ProviderFailed);
      }
      if totalTokens + response.value.totalTokens >= 0x1_0000_0000_0000_0000 {
        return Error(InvalidResponse);
      }
      totalTokens := totalTokens + response.value.totalTokens;
      var ordered := ValidateEmbeddings(response.value.data, |batch|, config.dimensions);
      if ordered.Error? {
        return Error(ordered.error);
      }
      InOrderSize(response.value.data, |batch|, config.dimensions, ordered.value);
      JoinedNext(outputs, ordered.value);
      AnswersNext(config, batches, outputs, batch, ordered.value, provider);
      batches := batches + [batch];
      outputs := outputs + [ordered.value];
      embeddings := embeddings + ordered.value;
      start := start + count;
    }
    assert input[..start] == input;
    assert Generated(config, input, batches, outputs, provider, embeddings, totalTokens);
    return Done((embeddings, totalTokens));
  }

  lemma NothingSent(config: Config, input: seq<string>)
    ensures Sent(config, input, [])
  {
  }

  /** If the batch under way fails, it is the last one sent. */
  lemma StuckNow(
      config: Config, input: seq<string>, batches: seq<seq<string>>, outputs: seq<seq<Embedding>>, batch: seq<string>,
      provider: ProviderCall)
    requires Sent(config, input, batches + [batch]) && Answers(config, batches, outputs, provider)
    requires Tokens(batches, provider) < 0x1_0000_0000_0000_0000
    ensures !WellAnswered(config, batch, provider) || Tokens(batches + [batch], provider) >= 0x1_0000_0000_0000_0000 ==>
              Stuck(config, input, batches + [batch], provider)
    ensures WellAnswered(config, batch, provider) <==>
              provider(batch).Some? && WellShaped(provider(batch).value.data, |batch|, config.dimensions)
  {
    hide Sent, InOrder, WellShaped, Tokens;
    var after := batches + [batch];
    assert after[..|after| - 1] == batches && after[|after| - 1] == batch;
  }

  lemma AnswersNext(
      config: Config, batches: seq<seq<string>>, outputs: seq<seq<Embedding>>, batch: seq<string>, output: seq<Embedding>,
      provider: ProviderCall)
    requires Answers(config, batches, outputs, provider) && WellAnswered(config, batch, provider)
    requires InOrder(output, provider(batch).value.data)
    ensures Answers(config, batches + [batch], outputs + [output], provider)
  {
    hide WellAnswered, InOrder;
  }

  lemma SentNext(config: Config, input: seq<string>, batches: seq<seq<string>>, batch: seq<string>, start: nat)
    requires start <= |input| && Sent(config, input, batches) && Joined(batches) == input[..start] && batch != []
    requires input[..start] + batch <= input && LargestBatch(config, input[start..], |batch|)
    ensures Sent(config, input, batches + [batch])
  {
    hide LargestBatch, Joined;
    var after := batches + [batch];
    JoinedNext(batches, batch);
    forall k | 0 <= k < |after|
      ensures NextBatch(config, input, Joined(after[..k]), after[k])
    {
      if k < |batches| {
        assert after[..k] == batches[..k];
      } else {
        assert after[..k] == batches;
      }
    }
  }

  /** The whole request: input that is too long is refused before anything is sent, and only that is called
      invalid. */
  method Generate(config: Config, input: seq<string>, provider: ProviderCall) returns (r: Answer<(seq<Embedding>, u64)>)
    requires BatchSizeOk(config)
    ensures r == Error(Invalid) <==> exists i | 0 <= i < |input| :: |Utf8.Encode(input[i])| > MaxTextBytes(config.provider)
    ensures r.Error? && r.error != Invalid ==> exists batches :: Stuck(config, input, batches, provider)
    ensures r.Done? ==>
      exists batches, outputs :: Generated(config, input, batches, outputs, provider, r.value.0, r.value.1)
  {
    hide Utf8.Encode, Stuck, Generated, BatchSizeOk;
    var valid := ValidateProviderInput(config, input);
    if valid.Error? {
      return Error(valid.error);
    }
    r := GenerateBatches(config, input, provider);
  }

  lemma RestFits(config: Config, input: seq<string>, start: nat)
    requires InputFits(config, input) && start <= |input|
    ensures InputFits(config, input[start..])
  {
  }

  lemma InOrderSize(data: seq<ProviderEmbedding>, count: nat, dimensions: nat, ordered: seq<Embedding>)
    requires WellShaped(data, count, dimensions) && InOrder(ordered, data)
    ensures |ordered| == count
  {
  }

  /** Output i is the embedding the provider sent for input i: it lies in the batch of input i, at its place. */
  lemma {:induction false} OutputBelongsToInput(
      config: Config, input: seq<string>, batches: seq<seq<string>>, outputs: seq<seq<Embedding>>,
      provider: ProviderCall, i: nat) returns (k: nat, at: nat, j: nat)
    requires Joined(batches) == input && Answers(config, batches, outputs, provider) && i < |input|
    ensures |Joined(outputs)| == |input|
    ensures k < |batches| && at < |batches[k]| && batches[k][at] == input[i]
    ensures provider(batches[k]).Some? && j < |provider(batches[k]).value.data|
    ensures var sent := provider(batches[k]).value.data[j]; sent.index == at && Joined(outputs)[i] == sent.embedding
    decreases |batches|
  {
    hide WellShaped, InOrder, Joined;
    var n := |batches| - 1;
    JoinedSplit(batches, outputs, config, provider);
    assert batches[..n] + [batches[n]] == batches;
    JoinedNext(batches[..n], batches[n]);
    assert outputs[..n] + [outputs[n]] == outputs;
    JoinedNext(outputs[..n], outputs[n]);
    var before := Joined(batches[..n]);
    if i < |before| {
      k, at, j := OutputBelongsToInput(config, before, batches[..n], outputs[..n], provider, i);
    } else {
      k, at := n, i - |before|;
      j := SentFor(provider(batches[n]).value.data, |batches[n]|, config.dimensions, outputs[n], at);
    }
  }

  /** There is a last batch, and the outputs before it are as many as the inputs before it. */
  lemma {:induction false} JoinedSplit(
      batches: seq<seq<string>>, outputs: seq<seq<Embedding>>, config: Config, provider: ProviderCall)
    requires Answers(config, batches, outputs, provider) && Joined(batches) != []
    ensures batches != [] && |Joined(outputs)| == |Joined(batches)|
    ensures |Joined(outputs[..|batches| - 1])| == |Joined(batches[..|batches| - 1])|
    ensures |outputs[|batches| - 1]| == |batches[|batches| - 1]|
  {
    hide WellShaped, InOrder;
    SameSizes(batches, outputs, config, provider);
    SameSizes(batches[..|batches| - 1], outputs[..|batches| - 1], config, provider);
    var n := |batches| - 1;
    InOrderSize(provider(batches[n]).value.data, |batches[n]|, config.dimensions, outputs[n]);
  }

  lemma {:induction false} SameSizes(
      batches: seq<seq<string>>, outputs: seq<seq<Embedding>>, config: Config, provider: ProviderCall)
    requires Answers(config, batches, outputs, provider)
    ensures |Joined(outputs)| == |Joined(batches)|
    decreases |batches|
  {
    hide WellShaped, InOrder;
    if batches != [] {
      var n := |batches| - 1;
      SameSizes(batches[..n], outputs[..n], config, provider);
      InOrderSize(provider(batches[n]).value.data, |batches[n]|, config.dimensions, outputs[n]);
    }
  }

  lemma SentFor(data: seq<ProviderEmbedding>, count: nat, dimensions: nat, ordered: seq<Embedding>, at: nat) returns (j: nat)
    requires WellShaped(data, count, dimensions) && InOrder(ordered, data) && at < count
    ensures j < |data| && data[j].index == at && at < |ordered| && ordered[at] == data[j].embedding
  {
    j := EverySlotReached(data, at);
  }
}
