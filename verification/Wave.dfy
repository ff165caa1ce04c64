// One wave of the parallel scan: the pages are cut into batches, each batch is scanned by
// its own worker, and the results are collected in batch order (`src/inspection.rs`).
module Wave {
  import opened Wrappers
  import opened PackedFact
  import opened ScanModel

  function Results(c: Config, k: nat, pages: seq<PageNumber>): (r: seq<EnvelopeResult>)
    ensures |r| == |pages|
    ensures forall i :: 0 <= i < |r| ==> r[i] == ScanResult(c, k, pages[i])
  {
    seq(|pages|, i requires 0 <= i < |pages| => ScanResult(c, k, pages[i]))
  }

  // `page_ids.chunks(WORKER_PAGE_BATCH)`.
  function Batches(pages: seq<PageNumber>): seq<seq<PageNumber>>
  {
    if pages == [] then []
    else if |pages| <= WORKER_PAGE_BATCH then [pages]
    else [pages[..WORKER_PAGE_BATCH]] + Batches(pages[WORKER_PAGE_BATCH..])
  }

  function Flatten<T>(parts: seq<seq<T>>): seq<T>
  {
    if parts == [] then [] else parts[0] + Flatten(parts[1..])
  }

  function Size<T>(parts: seq<seq<T>>): nat
  {
    if parts == [] then 0 else |parts[0]| + Size(parts[1..])
  }

  lemma {:induction false} SizeGrows<T>(parts: seq<seq<T>>, w: nat, item: T)
    requires w < |parts|
    ensures Size(parts[w := parts[w] + [item]]) == Size(parts) + 1
  {
    var after := parts[w := parts[w] + [item]];
    if w == 0 {
      assert after[1..] == parts[1..];
    } else {
      SizeGrows(parts[1..], w - 1, item);
      assert after[1..] == parts[1..][w - 1 := parts[1..][w - 1] + [item]];
    }
  }

  lemma {:induction false} SizeBounded<S, T>(small: seq<seq<S>>, large: seq<seq<T>>)
    requires |small| == |large| && forall w :: 0 <= w < |small| ==> |small[w]| <= |large[w]|
    ensures Size(small) <= Size(large)
  {
    if small != [] {
      SizeBounded(small[1..], large[1..]);
    }
  }

  // Collecting the batches' results in order is scanning the pages in order.
  lemma {:induction false} FlattenBatches(c: Config, k: nat, pages: seq<PageNumber>, outputs: seq<seq<EnvelopeResult>>)
    requires |outputs| == |Batches(pages)|
    requires forall w :: 0 <= w < |outputs| ==> outputs[w] == Results(c, k, Batches(pages)[w])
    ensures Flatten(outputs) == Results(c, k, pages)
    decreases |pages|
  {
    if 0 < |pages| <= WORKER_PAGE_BATCH {
      assert outputs == [Results(c, k, pages)];
      assert Flatten(outputs[1..]) == [];
    } else if |pages| > WORKER_PAGE_BATCH {
      var rest := pages[WORKER_PAGE_BATCH..];
      assert Batches(pages)[1..] == Batches(rest);
      FlattenBatches(c, k, rest, outputs[1..]);
      assert outputs[0] == Results(c, k, pages[..WORKER_PAGE_BATCH]);
    }
  }

  // Each worker has scanned an initial run of its batch.
  ghost predicate Progress(c: Config, k: nat, batches: seq<seq<PageNumber>>, outputs: seq<seq<EnvelopeResult>>)
  {
    && |outputs| == |batches|
    && forall w :: 0 <= w < |batches| ==>
         |outputs[w]| <= |batches[w]| && outputs[w] == Results(c, k, batches[w][..|outputs[w]|])
  }

  lemma WorkerAdvances(c: Config, k: nat, batches: seq<seq<PageNumber>>, outputs: seq<seq<EnvelopeResult>>, w: nat)
    requires Progress(c, k, batches, outputs) && w < |batches| && |outputs[w]| < |batches[w]|
    ensures var after := outputs[w := outputs[w] + [ScanResult(c, k, batches[w][|outputs[w]|])]];
      Progress(c, k, batches, after) && Size(outputs) < Size(after) <= Size(batches)
  {
    var result := ScanResult(c, k, batches[w][|outputs[w]|]);
    SizeGrows(outputs, w, result);
    SizeBounded(outputs[w := outputs[w] + [result]], batches);
  }

  // The workers advance in any interleaving, page by page; the outcome does not depend on it.
  method RunWave(c: Config, k: nat, pages: seq<PageNumber>) returns (results: seq<EnvelopeResult>)
    ensures results == Results(c, k, pages)
  {
    var batches := Batches(pages);
    var outputs: seq<seq<EnvelopeResult>> := seq(|batches|, i => []);
    while exists w :: 0 <= w < |batches| && |outputs[w]| < |batches[w]|
      invariant Progress(c, k, batches, outputs)
      decreases Size(batches) - Size(outputs)
    {
      var w :| 0 <= w < |batches| && |outputs[w]| < |batches[w]|;
      WorkerAdvances(c, k, batches, outputs, w);
      outputs := outputs[w := outputs[w] + [ScanResult(c, k, batches[w][|outputs[w]|])]];
    }
    forall w | 0 <= w < |batches|
      ensures outputs[w] == Results(c, k, batches[w])
    {
      assert batches[w][..|outputs[w]|] == batches[w];
    }
    FlattenBatches(c, k, pages, outputs);
    results := Flatten(outputs);
  }
}
