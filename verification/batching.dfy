/** The batching loop of `process_srt_file`: the cue texts are cut into
    consecutive slices of at most `BatchSize`, each slice is translated, and
    the per-slice results are concatenated. */
module Batching {
  import opened Wrappers
  import opened Seqs
  import opened Replies

  /** `batch_size`. */
  const BatchSize: nat := 100

  /** The translation service: given the context and a batch of texts, its
      reply, or `None` when the call raises (which aborts the file). */
  type Service = (string, seq<string>) -> Option<string>

  /** `[xs[i:i + size] for i in range(start, len(xs), size)]`. */
  function BatchesFrom<T>(xs: seq<T>, start: nat, size: nat): (r: seq<seq<T>>)
    requires size > 0
    ensures forall k :: 0 <= k < |r| ==> 0 < |r[k]| <= size
    decreases |xs| - start
  {
    if start >= |xs| then []
    else [xs[start..Min(start + size, |xs|)]] + BatchesFrom(xs, start + size, size)
  }

  /** The batches from `start` cover `xs[start..]` in order. */
  lemma {:induction false} BatchesFromCover<T>(xs: seq<T>, start: nat, size: nat)
    requires size > 0
    ensures Flatten(BatchesFrom(xs, start, size)) == if start < |xs| then xs[start..] else []
    decreases |xs| - start
  {
    if start < |xs| {
      var end := Min(start + size, |xs|);
      var first, rest := xs[start..end], BatchesFrom(xs, start + size, size);
      assert Flatten(BatchesFrom(xs, start, size)) == first + Flatten(rest) by {
        assert BatchesFrom(xs, start, size) == [first] + rest;
        assert ([first] + rest)[1..] == rest;
      }
      assert Flatten(rest) == xs[end..] by {
        BatchesFromCover(xs, start + size, size);
        if end == |xs| {
          assert xs[end..] == [];
        }
      }
      assert xs[start..] == first + xs[end..] by {
        SliceSplit(xs, start, end);
      }
    }
  }

  lemma SliceSplit<T>(xs: seq<T>, lo: nat, mid: nat)
    requires lo <= mid <= |xs|
    ensures xs[lo..] == xs[lo..mid] + xs[mid..]
  {
  }

  /** The batches of the whole sequence: non-empty, at most `size` long,
      and concatenated in order they give back the sequence. */
  function Batches<T>(xs: seq<T>, size: nat): (r: seq<seq<T>>)
    requires size > 0
    ensures forall k :: 0 <= k < |r| ==> 0 < |r[k]| <= size
    ensures Flatten(r) == xs
  {
    BatchesFromCover(xs, 0, size);
    BatchesFrom(xs, 0, size)
  }

  /** Batch `k` is the slice starting at `k * size`. */
  lemma BatchAt<T>(xs: seq<T>, size: nat, k: nat)
    requires size > 0
    requires k < |Batches(xs, size)|
    ensures k * size < |xs|
    ensures Batches(xs, size)[k] == xs[k * size..Min(k * size + size, |xs|)]
  {
    BatchFromAt(xs, 0, size, k);
    StartOfIsProduct(0, size, k);
  }

  /** Every batch but the last is full. */
  lemma FullBatch<T>(xs: seq<T>, size: nat, k: nat)
    requires size > 0
    requires k + 1 < |Batches(xs, size)|
    ensures |Batches(xs, size)[k]| == size
  {
    BatchAt(xs, size, k);
    BatchAt(xs, size, k + 1);
    assert (k + 1) * size == k * size + size;
  }

  /** Where batch `k` starts when batching from `start`. */
  function StartOf(start: nat, size: nat, k: nat): nat
    decreases k
  {
    if k == 0 then start else StartOf(start + size, size, k - 1)
  }

  lemma {:induction false} StartOfIsProduct(start: nat, size: nat, k: nat)
    ensures StartOf(start, size, k) == start + k * size
    decreases k
  {
    if k > 0 {
      StartOfIsProduct(start + size, size, k - 1);
      assert (k - 1) * size + size == k * size;
    }
  }

  lemma {:induction false} BatchFromAt<T>(xs: seq<T>, start: nat, size: nat, k: nat)
    requires size > 0
    requires k < |BatchesFrom(xs, start, size)|
    ensures StartOf(start, size, k) < |xs|
    ensures BatchesFrom(xs, start, size)[k] == xs[StartOf(start, size, k)..Min(StartOf(start, size, k) + size, |xs|)]
    decreases k
  {
    var r := BatchesFrom(xs, start, size);
    assert start < |xs|;
    var rest := BatchesFrom(xs, start + size, size);
    assert r == [xs[start..Min(start + size, |xs|)]] + rest;
    if k > 0 {
      BatchFromAt(xs, start + size, size, k - 1);
      assert r[k] == rest[k - 1];
    }
  }

  /** Every batch was answered. */
  ghost predicate AllReplied(batches: seq<seq<string>>, context: string, service: Service)
  {
    forall k :: 0 <= k < |batches| ==> service(context, batches[k]).Some?
  }

  /** The loop body for every batch, in order: translate it and extend
      `translated_texts`. `None` when any call raises. The result is never
      shorter than the texts sent. */
  function TranslateAll(batches: seq<seq<string>>, context: string, service: Service): (r: Option<seq<string>>)
    ensures r.Some? <==> AllReplied(batches, context, service)
    ensures r.Some? ==> |r.value| >= |Flatten(batches)|
  {
    if |batches| == 0 then Some([])
    else
      RepliedTail(batches, context, service);
      match service(context, batches[0])
      case None => None
      case Some(reply) =>
        match TranslateAll(batches[1..], context, service)
        case None => None
        case Some(rest) =>
          var head := AlignReply(batches[0], reply);
          FlattenLength(batches);
          Some(head + rest)
  }

  /** All batches are answered exactly when the first is and all the
      others are. */
  lemma RepliedTail(batches: seq<seq<string>>, context: string, service: Service)
    requires |batches| > 0
    ensures AllReplied(batches, context, service) <==>
      service(context, batches[0]).Some? && AllReplied(batches[1..], context, service)
  {
    assert forall k :: 1 <= k < |batches| ==> batches[k] == batches[1..][k - 1];
  }

  /** The texts of all batches are those of the first and those of the
      others. */
  lemma FlattenLength(batches: seq<seq<string>>)
    requires |batches| > 0
    ensures |Flatten(batches)| == |batches[0]| + |Flatten(batches[1..])|
  {
    FlattenCons(batches, batches[0], batches[1..]);
  }

  /** A batch whose call raised, when not all were answered. */
  function FailedAt(batches: seq<seq<string>>, context: string, service: Service): (k: nat)
    requires !AllReplied(batches, context, service)
    ensures k < |batches| && service(context, batches[k]).None?
  {
    if service(context, batches[0]).None? then 0
    else
      assert forall k :: 1 <= k < |batches| ==> batches[k] == batches[1..][k - 1];
      1 + FailedAt(batches[1..], context, service)
  }

  /** Each batch's reply, aligned as the source aligns it. */
  ghost function AlignedReplies(batches: seq<seq<string>>, context: string, service: Service): (r: seq<seq<string>>)
    requires AllReplied(batches, context, service)
    ensures |r| == |batches|
  {
    seq(|batches|, k requires 0 <= k < |batches| => AlignReply(batches[k], service(context, batches[k]).value))
  }

  /** `translated_texts` is the in-order concatenation of the per-batch
      results. */
  lemma {:induction false} TranslateAllConcat(batches: seq<seq<string>>, context: string, service: Service)
    requires AllReplied(batches, context, service)
    ensures TranslateAll(batches, context, service) == Some(Flatten(AlignedReplies(batches, context, service)))
  {
    if |batches| > 0 {
      RepliedTail(batches, context, service);
      TranslateAllConcat(batches[1..], context, service);
      TranslateAllStep(batches, context, service);
      AlignedRepliesStep(batches, context, service);
    }
  }

  /** One round of the batch loop, once every call has answered. */
  lemma TranslateAllStep(batches: seq<seq<string>>, context: string, service: Service)
    requires |batches| > 0
    requires AllReplied(batches, context, service) && AllReplied(batches[1..], context, service)
    ensures TranslateAll(batches, context, service)
      == Some(AlignReply(batches[0], service(context, batches[0]).value) + TranslateAll(batches[1..], context, service).value)
  {
  }

  lemma AlignedRepliesStep(batches: seq<seq<string>>, context: string, service: Service)
    requires |batches| > 0
    requires AllReplied(batches, context, service) && AllReplied(batches[1..], context, service)
    ensures Flatten(AlignedReplies(batches, context, service))
      == AlignReply(batches[0], service(context, batches[0]).value) + Flatten(AlignedReplies(batches[1..], context, service))
  {
    var all := AlignedReplies(batches, context, service);
    var rest := AlignedReplies(batches[1..], context, service);
    AlignedAt(batches, context, service, 0, batches[0]);
    AlignedTail(batches, context, service);
    FlattenCons(all, all[0], rest);
  }

  lemma AlignedTail(batches: seq<seq<string>>, context: string, service: Service)
    requires |batches| > 0
    requires AllReplied(batches, context, service) && AllReplied(batches[1..], context, service)
    ensures AlignedReplies(batches, context, service)[1..] == AlignedReplies(batches[1..], context, service)
  {
    var all := AlignedReplies(batches, context, service);
    var rest := AlignedReplies(batches[1..], context, service);
    forall k | 0 <= k < |rest| ensures all[1..][k] == rest[k] {
      var batch := batches[k + 1];
      assert batches[1..][k] == batch;
      AlignedAt(batches, context, service, k + 1, batch);
      AlignedAt(batches[1..], context, service, k, batch);
    }
  }

  lemma AlignedAt(batches: seq<seq<string>>, context: string, service: Service, k: nat, batch: seq<string>)
    requires AllReplied(batches, context, service)
    requires k < |batches| && batches[k] == batch
    ensures AlignedReplies(batches, context, service)[k] == AlignReply(batch, service(context, batch).value)
  {
  }

  /** When no reply holds more delimited lines than its batch has texts and
      every batch but the last is full, the translations line up with the
      texts: the text at position `i` gets entry `i % BatchSize` of the
      reply to batch `i / BatchSize`. */
  lemma TranslationOfPosition(batches: seq<seq<string>>, context: string, service: Service, i: nat)
    requires AllReplied(batches, context, service)
    requires forall m :: 0 <= m < |batches| ==> |ParseReply(service(context, batches[m]).value)| <= |batches[m]|
    requires forall m :: 0 <= m < |batches| ==> |batches[m]| <= BatchSize
    requires forall m :: 0 <= m < |batches| - 1 ==> |batches[m]| == BatchSize
    requires i < |Flatten(batches)|
    ensures i / BatchSize < |batches| && i % BatchSize < |batches[i / BatchSize]|
    ensures i < |TranslateAll(batches, context, service).value|
    ensures TranslateAll(batches, context, service).value[i]
      == AlignReply(batches[i / BatchSize], service(context, batches[i / BatchSize]).value)[i % BatchSize]
  {
    var aligned := AlignedReplies(batches, context, service);
    TranslateAllConcat(batches, context, service);
    forall m | 0 <= m < |batches| ensures |aligned[m]| == |batches[m]| {
    }
    FlattenSameShape(batches, aligned);
    FlattenGrid(aligned, BatchSize, i);
  }

  /** The source never truncates: when the reply to the first batch holds
      more delimited lines than that batch has texts, the first text of the
      second batch is paired with the first reply's surplus entry instead of
      its own translation, and every later text shifts the same way. */
  lemma OverlongReplyShifts(batches: seq<seq<string>>, context: string, service: Service)
    requires AllReplied(batches, context, service)
    requires |batches| >= 2
    requires |ParseReply(service(context, batches[0]).value)| > |batches[0]|
    ensures |batches[0]| < |TranslateAll(batches, context, service).value|
    ensures TranslateAll(batches, context, service).value[|batches[0]|]
      == ParseReply(service(context, batches[0]).value)[|batches[0]|]
  {
    TranslateAllConcat(batches, context, service);
    var aligned := AlignedReplies(batches, context, service);
    assert Flatten(aligned) == aligned[0] + Flatten(aligned[1..]);
  }

  /** Corrected batch loop: every batch contributes exactly as many
      entries as it has texts. */
  function TranslateAllExact(batches: seq<seq<string>>, context: string, service: Service): (r: Option<seq<string>>)
    ensures r.Some? <==> AllReplied(batches, context, service)
    ensures r.Some? ==> |r.value| == |Flatten(batches)|
  {
    if |batches| == 0 then Some([])
    else
      RepliedTail(batches, context, service);
      match service(context, batches[0])
      case None => None
      case Some(reply) =>
        match TranslateAllExact(batches[1..], context, service)
        case None => None
        case Some(rest) =>
          var head := AlignReplyExact(batches[0], reply);
          FlattenLength(batches);
          Some(head + rest)
  }

  /** Each batch's reply, aligned by the corrected rule. */
  ghost function ExactReplies(batches: seq<seq<string>>, context: string, service: Service): (r: seq<seq<string>>)
    requires AllReplied(batches, context, service)
    ensures |r| == |batches|
    ensures forall k :: 0 <= k < |r| ==> |r[k]| == |batches[k]|
  {
    seq(|batches|, k requires 0 <= k < |batches| => AlignReplyExact(batches[k], service(context, batches[k]).value))
  }

  lemma {:induction false} TranslateAllExactConcat(batches: seq<seq<string>>, context: string, service: Service)
    requires AllReplied(batches, context, service)
    ensures TranslateAllExact(batches, context, service) == Some(Flatten(ExactReplies(batches, context, service)))
  {
    if |batches| > 0 {
      RepliedTail(batches, context, service);
      TranslateAllExactConcat(batches[1..], context, service);
      TranslateAllExactStep(batches, context, service);
      ExactRepliesStep(batches, context, service);
    }
  }

  lemma TranslateAllExactStep(batches: seq<seq<string>>, context: string, service: Service)
    requires |batches| > 0
    requires AllReplied(batches, context, service) && AllReplied(batches[1..], context, service)
    ensures TranslateAllExact(batches, context, service)
      == Some(AlignReplyExact(batches[0], service(context, batches[0]).value) + TranslateAllExact(batches[1..], context, service).value)
  {
  }

  lemma ExactRepliesStep(batches: seq<seq<string>>, context: string, service: Service)
    requires |batches| > 0
    requires AllReplied(batches, context, service) && AllReplied(batches[1..], context, service)
    ensures Flatten(ExactReplies(batches, context, service))
      == AlignReplyExact(batches[0], service(context, batches[0]).value) + Flatten(ExactReplies(batches[1..], context, service))
  {
    var all := ExactReplies(batches, context, service);
    assert all[1..] == ExactReplies(batches[1..], context, service);
  }

  /** With the corrected loop, whatever the replies, the text at position
      `j` of batch `k` gets entry `j` of its own batch's reply (or `""`). */
  lemma ExactAlignment(batches: seq<seq<string>>, context: string, service: Service, k: nat, j: nat)
    requires AllReplied(batches, context, service)
    requires k < |batches| && j < |batches[k]|
    ensures |Flatten(batches[..k])| + j < |TranslateAllExact(batches, context, service).value|
    ensures TranslateAllExact(batches, context, service).value[|Flatten(batches[..k])| + j]
      == AlignReplyExact(batches[k], service(context, batches[k]).value)[j]
  {
    TranslateAllExactConcat(batches, context, service);
    FlattenAt(batches, ExactReplies(batches, context, service), k, j);
  }
}
