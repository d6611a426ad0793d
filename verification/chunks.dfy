/** Batching of inserts: lodash `chunk` and the `insertChunk` helper of
    src/lib/publicApi.ts, with the platform test turned into a parameter and
    the parallel `Promise.all` over chunks flattened into an ordered list of
    insert batches. */
module Chunks {
  import opened Wrappers
  import opened Seqs

  /** lodash `chunk(xs, size)`: consecutive slices of `size` elements, the
      last one possibly shorter; no chunks at all when `size` is below 1. */
  function Chunk<T>(xs: seq<T>, size: int): (r: seq<seq<T>>)
    ensures size < 1 ==> r == []
    ensures size >= 1 ==> Flatten(r) == xs
    ensures forall k :: 0 <= k < |r| ==> 0 < |r[k]| <= size
    ensures forall k :: 0 <= k < |r| - 1 ==> |r[k]| == size
    decreases |xs|
  {
    if |xs| == 0 || size < 1 then []
    else if |xs| <= size then [xs]
    else
      var rest := Chunk(xs[size..], size);
      assert ([xs[..size]] + rest)[1..] == rest;
      [xs[..size]] + rest
  }

  /** The batch size `insertChunk` uses: 50 on iOS, otherwise the caller's
      `maxInsert`, or 8 when that is undefined or 0. */
  function BatchSize(isIos: bool, maxInsert: Option<int>): int
  {
    if isIos then 50
    else if maxInsert.Some? && maxInsert.value != 0 then maxInsert.value
    else 8
  }

  /** The batches `insertChunk(things, insert, maxInsert)` hands to `insert`. */
  function InsertChunk<T>(things: seq<T>, isIos: bool, maxInsert: Option<int>): (batches: seq<seq<T>>)
    ensures isIos ==> Flatten(batches) == things
    ensures isIos ==> forall k :: 0 <= k < |batches| ==> 0 < |batches[k]| <= 50
    ensures !isIos && maxInsert.None? ==> Flatten(batches) == things
    ensures !isIos && maxInsert.None? ==> forall k :: 0 <= k < |batches| ==> 0 < |batches[k]| <= 8
    ensures !isIos && maxInsert.Some? && maxInsert.value > 0 ==> Flatten(batches) == things
    ensures !isIos && maxInsert.Some? && maxInsert.value > 0 ==>
              forall k :: 0 <= k < |batches| ==> 0 < |batches[k]| <= maxInsert.value
    ensures !isIos && maxInsert == Some(0) ==> Flatten(batches) == things
    ensures !isIos && maxInsert == Some(0) ==> forall k :: 0 <= k < |batches| ==> 0 < |batches[k]| <= 8
    ensures !isIos && maxInsert.Some? && maxInsert.value < 0 ==> batches == []
  {
    Chunk(things, BatchSize(isIos, maxInsert))
  }
}
