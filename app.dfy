/** `document_extractor` of main/app.py: split the extracted text into sentences, run
    `process_segment` (default threshold) on every sentence as a task of one Celery group, and
    aggregate the outputs. The group's result lists the task outputs in the order of the
    segments; the model runs the tasks one after the other in that order. */
module App {
  import opened Text
  import opened Seqs
  import opened DocReader
  import opened SplitAggregate

  /** Every finding of every segment is well formed for that segment, stripped. */
  lemma SegmentsWellFormed(m: Models, segments: seq<string>)
    requires m.Valid()
    ensures forall i, f :: 0 <= i < |segments| && f in SegmentFindings(m, DefaultThreshold, segments[i]) ==> WellFormedFinding(m, Strip(segments[i]), f)
  {
    forall i | 0 <= i < |segments| {
      FindingsWellFormed(m, DefaultThreshold, segments[i]);
    }
  }

  /** What the tasks of the group return, segment by segment: one output per segment, none
      for a blank segment, and every finding of an output carries its own segment, stripped. */
  function SegmentOutputs(m: Models, segments: seq<string>): (r: seq<SegmentOutput>)
    requires m.Valid()
    ensures |r| == |segments|
    ensures forall i :: 0 <= i < |segments| ==> r[i].extractedData == SegmentFindings(m, DefaultThreshold, segments[i])
    ensures forall i :: 0 <= i < |segments| && Strip(segments[i]) == [] ==> r[i].extractedData == []
    ensures forall i, f :: 0 <= i < |segments| && f in r[i].extractedData ==> f.segment == Strip(segments[i])
  {
    SegmentsWellFormed(m, segments);
    seq(|segments|, i requires 0 <= i < |segments| => SegmentOutput(SegmentFindings(m, DefaultThreshold, segments[i])))
  }

  /** The findings `document_extractor` returns for a text that spaCy splits into `sentences`. */
  function PipelineFindings(m: Models, sentences: seq<string>): seq<Finding>
    requires m.Valid()
  {
    Aggregated(SegmentOutputs(m, SegmentText(sentences)))
  }

  /** `document_extractor(text)`; `sentencer(text)` is the text of spaCy's sentences `nlp(text).sents`. */
  method DocumentExtractor(text: string, sentencer: string -> seq<string>, m: Models) returns (finalResult: SegmentOutput)
    requires m.Valid()
    ensures finalResult.extractedData == PipelineFindings(m, sentencer(text))
  {
    var segments := SegmentText(sentencer(text));
    var segmentOutputs: seq<SegmentOutput> := [];
    for i := 0 to |segments|
      invariant segmentOutputs == SegmentOutputs(m, segments)[..i]
    {
      ghost var consulted;
      var out;
      out, consulted := ProcessSegment(segments[i], m, DefaultThreshold);
      assert SegmentOutputs(m, segments)[..i + 1] == SegmentOutputs(m, segments)[..i] + [out];
      segmentOutputs := segmentOutputs + [out];
    }
    assert SegmentOutputs(m, segments)[..|segments|] == SegmentOutputs(m, segments);
    finalResult := Aggregator(segmentOutputs);
  }

  lemma SegmentTextAppend(a: seq<string>, b: seq<string>)
    ensures SegmentText(a + b) == SegmentText(a) + SegmentText(b)
  {
  }

  lemma SegmentOutputsAppend(m: Models, a: seq<string>, b: seq<string>)
    requires m.Valid()
    ensures SegmentOutputs(m, a + b) == SegmentOutputs(m, a) + SegmentOutputs(m, b)
  {
    var l, r := SegmentOutputs(m, a + b), SegmentOutputs(m, a) + SegmentOutputs(m, b);
    forall i | 0 <= i < |a + b|
      ensures l[i] == r[i]
    {
      if i < |a| {
        assert (a + b)[i] == a[i];
      } else {
        assert (a + b)[i] == b[i - |a|];
      }
    }
  }

  /** Sentences are processed independently: the findings for a text whose sentences are `a`
      then `b` are the findings for `a` followed by those for `b`. */
  lemma PipelineAppend(m: Models, a: seq<string>, b: seq<string>)
    requires m.Valid()
    ensures PipelineFindings(m, a + b) == PipelineFindings(m, a) + PipelineFindings(m, b)
  {
    SegmentTextAppend(a, b);
    SegmentOutputsAppend(m, SegmentText(a), SegmentText(b));
    AggregatedAppend(SegmentOutputs(m, SegmentText(a)), SegmentOutputs(m, SegmentText(b)));
  }

  /** A blank sentence on its own yields no finding. */
  lemma BlankSentenceAlone(m: Models, s: string)
    requires m.Valid() && AllSpace(s)
    ensures PipelineFindings(m, [s]) == []
  {
    var outs := SegmentOutputs(m, SegmentText([s]));
    assert SegmentText([s])[0] == [];
    assert outs == [SegmentOutput([])];
    assert Parts(outs) == [[]];
    ConcatSingleton<Finding>([]);
  }

  /** The sentence list keeps blank sentences (as empty strings), but they yield no finding:
      dropping one does not change the result. */
  lemma BlankSentenceYieldsNothing(m: Models, a: seq<string>, s: string, b: seq<string>)
    requires m.Valid() && AllSpace(s)
    ensures PipelineFindings(m, a + [s] + b) == PipelineFindings(m, a + b)
  {
    PipelineAppend(m, a + [s], b);
    PipelineAppend(m, a, [s]);
    PipelineAppend(m, a, b);
    BlankSentenceAlone(m, s);
  }

  /** A finding of the pipeline is well formed for the sentence it came from, and its label
      passed all three gates (confidence, keyword, pattern) and matched there. */
  ghost predicate FromSentence(m: Models, sentences: seq<string>, f: Finding, i: int)
    requires m.Valid()
  {
    && 0 <= i < |sentences|
    && f.segment == Strip(sentences[i])
    && WellFormedFinding(m, Strip(sentences[i]), f)
    && SomeLabelEmits(m, DefaultThreshold, Strip(sentences[i]), f.detectedLabel)
  }

  /** Every finding comes from one of the stripped sentences, with a valid offset into it, its
      keywords, and a label that passed the gates for that sentence. */
  lemma PipelineFindingsWellFormed(m: Models, sentences: seq<string>)
    requires m.Valid()
    ensures forall f :: f in PipelineFindings(m, sentences) ==> exists i :: FromSentence(m, sentences, f, i)
  {
    var segs := SegmentText(sentences);
    var outs := SegmentOutputs(m, segs);
    forall f | f in PipelineFindings(m, sentences)
      ensures exists i :: FromSentence(m, sentences, f, i)
    {
      AggregatedMember(outs, f);
      var i :| 0 <= i < |outs| && f in outs[i].extractedData;
      var s := Strip(sentences[i]);
      FindingsWellFormed(m, DefaultThreshold, segs[i]);
      StripIdempotent(sentences[i]);
      assert WellFormedFinding(m, s, f);
      assert f in Concat(LabelBlocks(m, DefaultThreshold, s));
      FindingOnlyIfEmits(m, DefaultThreshold, s, f);
      assert FromSentence(m, sentences, f, i);
    }
  }
}
