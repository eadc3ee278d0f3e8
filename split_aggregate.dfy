/** main/split_aggregate.py: merging the outputs of the per-segment tasks. (`split_doc` is the
    same code as `segment_text` and is modelled once, by `DocReader.SegmentText`.) */
module SplitAggregate {
  import opened Seqs
  import opened DocReader

  /** The findings lists of the outputs, in order. */
  function Parts(results: seq<SegmentOutput>): (r: seq<seq<Finding>>)
    ensures |r| == |results| && forall i :: 0 <= i < |results| ==> r[i] == results[i].extractedData
  {
    seq(|results|, i requires 0 <= i < |results| => results[i].extractedData)
  }

  /** The findings of all outputs, output by output and in each output's own order. */
  function Aggregated(results: seq<SegmentOutput>): (r: seq<Finding>)
    ensures results == [] ==> r == []
  {
    Concat(Parts(results))
  }

  /** A single output is aggregated into its own findings. */
  lemma AggregatedSingleton(result: SegmentOutput)
    ensures Aggregated([result]) == result.extractedData
  {
    assert Parts([result]) == [result.extractedData];
    ConcatSingleton(result.extractedData);
  }

  lemma PartsAppend(a: seq<SegmentOutput>, b: seq<SegmentOutput>)
    ensures Parts(a + b) == Parts(a) + Parts(b)
  {
  }

  /** `aggregator`: `extend` every output's "Extracted Data" onto one list. */
  method Aggregator(results: seq<SegmentOutput>) returns (agg: SegmentOutput)
    ensures agg.extractedData == Aggregated(results)
  {
    var aggregatedSolution: seq<Finding> := [];
    for i := 0 to |results|
      invariant aggregatedSolution == Aggregated(results[..i])
    {
      TakeOneMore(results, i);
      PartsAppend(results[..i], [results[i]]);
      ConcatSnoc(Parts(results[..i]), results[i].extractedData);
      aggregatedSolution := aggregatedSolution + results[i].extractedData;
    }
    assert results[..|results|] == results;
    agg := SegmentOutput(aggregatedSolution);
  }

  /** Aggregating two batches is aggregating each and concatenating. */
  lemma AggregatedAppend(a: seq<SegmentOutput>, b: seq<SegmentOutput>)
    ensures Aggregated(a + b) == Aggregated(a) + Aggregated(b)
  {
    PartsAppend(a, b);
    ConcatAppend(Parts(a), Parts(b));
  }

  /** Nothing is lost and nothing is invented: a finding is in the aggregate exactly when it is
      in some output. */
  lemma AggregatedMember(results: seq<SegmentOutput>, f: Finding)
    ensures f in Aggregated(results) <==> exists i :: 0 <= i < |results| && f in results[i].extractedData
  {
    ConcatMember(Parts(results), f);
    var ps := Parts(results);
    assert (exists i :: 0 <= i < |ps| && f in ps[i]) ==> exists i :: 0 <= i < |results| && f in results[i].extractedData;
  }

  /** The number of findings over all outputs. */
  function TotalCount(results: seq<SegmentOutput>): nat {
    if |results| == 0 then 0 else TotalCount(results[..|results| - 1]) + |results[|results| - 1].extractedData|
  }

  /** The aggregate has as many findings as the outputs together. */
  lemma {:induction false} AggregatedCount(results: seq<SegmentOutput>)
    ensures |Aggregated(results)| == TotalCount(results)
  {
    if |results| > 0 {
      var init := results[..|results| - 1];
      AggregatedCount(init);
      assert results == init + [results[|results| - 1]];
      AggregatedAppend(init, [results[|results| - 1]]);
      ConcatSingleton(results[|results| - 1].extractedData);
    }
  }

  /** The findings of output `i` appear together, after those of the outputs before it and
      before those of the outputs after it. */
  lemma AggregatedOrder(results: seq<SegmentOutput>, i: int)
    requires 0 <= i < |results|
    ensures Aggregated(results) == Aggregated(results[..i]) + results[i].extractedData + Aggregated(results[i + 1..])
  {
    ConcatSplit(Parts(results), i);
    assert Parts(results)[..i] == Parts(results[..i]);
    assert Parts(results)[i + 1..] == Parts(results[i + 1..]);
  }
}
