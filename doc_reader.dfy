/** The per-segment PII finding rule of main/doc_reader.py.

    The statistical classifier, its label list, the phrase matcher, the regular-expression
    engine and float rounding are collaborators; they are given as the function fields of a
    `Models` value and only their outputs are used. */
module DocReader {
  import opened Text
  import opened Seqs

  /** A half-open character range `[start, end)` reported by the regular-expression engine. */
  datatype Span = Span(start: int, end: int)

  predicate ValidSpan(sp: Span, text: string) {
    0 <= sp.start <= sp.end <= |text|
  }

  predicate ValidSpans(spans: seq<Span>, text: string) {
    forall j :: 0 <= j < |spans| ==> ValidSpan(spans[j], text)
  }

  /** One phrase-matcher hit: the label the phrase was registered under and the matched text. */
  datatype PhraseMatch = PhraseMatch(labelName: string, text: string)

  /** One PII finding, as emitted into the "Extracted Data" list. */
  datatype Finding = Finding(
    segment: string,
    detectedLabel: string,
    matchedKeyword: seq<string>,
    extractedValue: string,
    start: int,
    end: int,
    confidence: real)

  /** The dictionary `{"Extracted Data": [...]}` returned for one segment. */
  datatype SegmentOutput = SegmentOutput(extractedData: seq<Finding>)

  /** The collaborators and tables `process_segment` consults:
      `classes` is `mlb.classes_`; `patterns` is the module's `regex_patterns` table
      (`RegexPatterns` in the shipped module, see `UsesShippedTables`);
      `scorer(seg)` is `clf.predict_proba([seg])[0]`;
      `matcher(seg)` is the phrase matcher run over the tokenised segment;
      `finder(pattern, text)` lists the spans of `re.finditer(pattern, text, re.IGNORECASE)`;
      `round(c)` is `round(c, 3)`. */
  datatype Models = Models(
    classes: seq<string>,
    patterns: map<string, string>,
    scorer: string -> seq<real>,
    matcher: string -> seq<PhraseMatch>,
    finder: (string, string) -> seq<Span>,
    round: real -> real)
  {
    /** The classifier scores every label of `classes`, and the regex engine reports spans
        inside the searched text. */
    ghost predicate Valid() {
      && (forall s :: |scorer(s)| == |classes|)
      && (forall p, t, j :: 0 <= j < |finder(p, t)| ==> ValidSpan(finder(p, t)[j], t))
    }
  }

  const AadhaarNumber := "AADHAAR_NUMBER"
  const PanNumber := "PAN_NUMBER"
  const PhoneNumber := "PHONE_NUMBER"

  /** `regex_patterns`: the label-specific value patterns. */
  const RegexPatterns: map<string, string> := map[
    AadhaarNumber := "(?<!\\d)(?:\\d{4}[-\\s]?){2}\\d{4}(?!\\d)",
    PanNumber := "\\b[A-Z]{5}[0-9]{4}[A-Z]\\b",
    PhoneNumber := "(?<!\\d)(?:\\+91|0091|91|\\(91\\))?[\\s\\-\\.]*[6-9]\\d{2}[\\s\\-\\.]*\\d{3}[\\s\\-\\.]*\\d{4}(?!\\d)"
  ]

  /** `keyword_aliases`: the phrases the matcher is built from, per label. */
  const KeywordAliases: map<string, seq<string>> := map[
    AadhaarNumber := ["aadhaar", "aadhar", "uidai", "aadhaar number", "aadhaar no", "aadhaar id"],
    PanNumber := ["pan", "pan number", "pan no", "income tax id"],
    PhoneNumber := ["phone", "mobile", "mobile number", "registered mobile", "reach out", "call"]
  ]

  /** The default confidence threshold of `process_segment`. */
  const DefaultThreshold: real := 0.1

  /** The shipped module: the pattern table is `regex_patterns` and the matcher is the one built
      from `keyword_aliases`, so it only reports labels registered there. */
  ghost predicate UsesShippedTables(m: Models) {
    && m.patterns == RegexPatterns
    && forall s, i :: 0 <= i < |m.matcher(s)| ==> m.matcher(s)[i].labelName in KeywordAliases
  }

  /** The pattern table and the alias table are keyed by the same three labels. */
  lemma LabelTablesAgree()
    ensures RegexPatterns.Keys == KeywordAliases.Keys == {AadhaarNumber, PanNumber, PhoneNumber}
  {
  }

  // ---------------------------------------------------------------------------------------
  // detect_keyword

  function KeywordTexts(ms: seq<PhraseMatch>): seq<string> {
    seq(|ms|, i requires 0 <= i < |ms| => ms[i].text)
  }

  function KeywordLabels(ms: seq<PhraseMatch>): seq<string> {
    seq(|ms|, i requires 0 <= i < |ms| => ms[i].labelName)
  }

  /** `detect_keyword`: splits the matcher's hits into two parallel lists; position `i` of
      both lists comes from hit `i`. */
  method DetectKeyword(matches: seq<PhraseMatch>) returns (matchedKeywords: seq<string>, keywordLabels: seq<string>)
    ensures |matchedKeywords| == |keywordLabels| == |matches|
    ensures forall i :: 0 <= i < |matches| ==>
      matchedKeywords[i] == matches[i].text && keywordLabels[i] == matches[i].labelName
  {
    matchedKeywords, keywordLabels := [], [];
    for i := 0 to |matches|
      invariant |matchedKeywords| == |keywordLabels| == i
      invariant forall k :: 0 <= k < i ==>
        matchedKeywords[k] == matches[k].text && keywordLabels[k] == matches[k].labelName
    {
      matchedKeywords := matchedKeywords + [matches[i].text];
      keywordLabels := keywordLabels + [matches[i].labelName];
    }
  }

  /** The keywords paired with the label `lbl`, in match order; the pairing of keywords with
      labels stops at the end of the shorter list. */
  function KeywordsFor(keywords: seq<string>, labels: seq<string>, lbl: string): (r: seq<string>)
    ensures |r| <= |keywords| && |r| <= |labels|
    ensures lbl !in labels ==> r == []
  {
    if keywords == [] || labels == [] then []
    else (if labels[0] == lbl then [keywords[0]] else []) + KeywordsFor(keywords[1..], labels[1..], lbl)
  }

  /** The filtered keywords are exactly the keywords paired with `lbl`. */
  lemma {:induction false} KeywordsForMembers(keywords: seq<string>, labels: seq<string>, lbl: string, kw: string)
    requires |keywords| == |labels|
    ensures kw in KeywordsFor(keywords, labels, lbl) <==>
      exists i :: 0 <= i < |labels| && labels[i] == lbl && keywords[i] == kw
  {
    if keywords != [] {
      KeywordsForMembers(keywords[1..], labels[1..], lbl, kw);
      if kw in KeywordsFor(keywords[1..], labels[1..], lbl) {
        var i :| 0 <= i < |labels| - 1 && labels[1..][i] == lbl && keywords[1..][i] == kw;
        assert labels[i + 1] == lbl && keywords[i + 1] == kw;
      }
      if exists i :: 0 <= i < |labels| && labels[i] == lbl && keywords[i] == kw {
        var i :| 0 <= i < |labels| && labels[i] == lbl && keywords[i] == kw;
        if i > 0 {
          assert labels[1..][i - 1] == lbl && keywords[1..][i - 1] == kw;
        }
      }
    }
  }

  /** Filtering keeps the order of the hits: the filter of two consecutive runs of hits is the
      filter of the first run followed by the filter of the second. */
  lemma {:induction false} KeywordsForAppend(k1: seq<string>, l1: seq<string>, k2: seq<string>, l2: seq<string>, lbl: string)
    requires |k1| == |l1|
    ensures KeywordsFor(k1 + k2, l1 + l2, lbl) == KeywordsFor(k1, l1, lbl) + KeywordsFor(k2, l2, lbl)
  {
    if k1 != [] {
      assert (k1 + k2)[1..] == k1[1..] + k2;
      assert (l1 + l2)[1..] == l1[1..] + l2;
      KeywordsForAppend(k1[1..], l1[1..], k2, l2, lbl);
    } else {
      assert k1 + k2 == k2 && l1 + l2 == l2;
    }
  }

  /** A label among the matched labels has at least one keyword attached to it. */
  lemma {:induction false} KeywordsForNonEmpty(keywords: seq<string>, labels: seq<string>, lbl: string)
    requires |keywords| == |labels|
    ensures KeywordsFor(keywords, labels, lbl) != [] <==> lbl in labels
  {
    if keywords != [] {
      KeywordsForNonEmpty(keywords[1..], labels[1..], lbl);
      assert labels == [labels[0]] + labels[1..];
    }
  }

  // ---------------------------------------------------------------------------------------
  // extract_with_regex and segment_text

  /** `extract_with_regex`: no matches for a label without a pattern, otherwise the engine's
      matches of that label's pattern, in the engine's order. */
  function ExtractWithRegex(patterns: map<string, string>, finder: (string, string) -> seq<Span>, lbl: string, text: string): (r: seq<Span>)
    ensures lbl !in patterns ==> r == []
  {
    if lbl !in patterns then [] else finder(patterns[lbl], text)
  }

  /** With the shipped table, only the three known labels can ever yield a match, each searched
      with its own pattern. */
  lemma ShippedPatternsOnly(finder: (string, string) -> seq<Span>, lbl: string, text: string)
    ensures ExtractWithRegex(RegexPatterns, finder, lbl, text) != [] ==> lbl in {AadhaarNumber, PanNumber, PhoneNumber}
    ensures lbl == AadhaarNumber ==> ExtractWithRegex(RegexPatterns, finder, lbl, text) == finder("(?<!\\d)(?:\\d{4}[-\\s]?){2}\\d{4}(?!\\d)", text)
    ensures lbl == PanNumber ==> ExtractWithRegex(RegexPatterns, finder, lbl, text) == finder("\\b[A-Z]{5}[0-9]{4}[A-Z]\\b", text)
    ensures lbl == PhoneNumber ==> ExtractWithRegex(RegexPatterns, finder, lbl, text) == finder("(?<!\\d)(?:\\+91|0091|91|\\(91\\))?[\\s\\-\\.]*[6-9]\\d{2}[\\s\\-\\.]*\\d{3}[\\s\\-\\.]*\\d{4}(?!\\d)", text)
  {
  }

  /** `segment_text`: one element per sentence of the splitter, in order, each stripped;
      sentences that strip to nothing are kept as empty strings. */
  function SegmentText(sentences: seq<string>): (r: seq<string>)
    ensures |r| == |sentences|
    ensures forall i :: 0 <= i < |r| ==> r[i] == Strip(sentences[i])
    ensures forall i :: 0 <= i < |r| ==> (r[i] == [] <==> AllSpace(sentences[i]))
  {
    var r := seq(|sentences|, i requires 0 <= i < |sentences| => Strip(sentences[i]));
    assert forall i :: 0 <= i < |r| ==> (r[i] == [] <==> AllSpace(sentences[i])) by {
      forall i | 0 <= i < |r| ensures r[i] == [] <==> AllSpace(sentences[i]) {
        StripEmptyIff(sentences[i]);
      }
    }
    r
  }

  // ---------------------------------------------------------------------------------------
  // process_segment: the specification

  /** The finding emitted for one regex match of label `lbl` in the stripped segment `seg`. */
  function MakeFinding(seg: string, lbl: string, conf: real, keywords: seq<string>, sp: Span, round: real -> real): Finding
    requires ValidSpan(sp, seg)
  {
    Finding(seg, lbl, keywords, Strip(seg[sp.start..sp.end]), sp.start, sp.end, round(conf))
  }

  /** One finding per match, in match order. */
  function MatchFindings(seg: string, lbl: string, conf: real, keywords: seq<string>, spans: seq<Span>, round: real -> real): (r: seq<Finding>)
    requires ValidSpans(spans, seg)
    ensures |r| == |spans|
  {
    if spans == [] then []
    else MatchFindings(seg, lbl, conf, keywords, spans[..|spans| - 1], round)
         + [MakeFinding(seg, lbl, conf, keywords, spans[|spans| - 1], round)]
  }

  /** Finding `j` is the one built from match `j`. */
  lemma {:induction false} MatchFindingsAt(seg: string, lbl: string, conf: real, keywords: seq<string>, spans: seq<Span>,
                                           round: real -> real, j: int)
    requires ValidSpans(spans, seg) && 0 <= j < |spans|
    ensures MatchFindings(seg, lbl, conf, keywords, spans, round)[j] == MakeFinding(seg, lbl, conf, keywords, spans[j], round)
    decreases |spans|
  {
    var init := spans[..|spans| - 1];
    if j < |init| {
      MatchFindingsAt(seg, lbl, conf, keywords, init, round, j);
      assert init[j] == spans[j];
    }
  }

  /** The three gates for label number `idx` on the stripped segment `seg`:
      (a) its confidence reaches the threshold, (b) the matcher reported it, (c) it has a pattern. */
  predicate ConfidenceGate(m: Models, threshold: real, seg: string, idx: int)
    requires m.Valid() && 0 <= idx < |m.classes|
  {
    threshold <= m.scorer(seg)[idx]
  }

  predicate KeywordGate(m: Models, seg: string, idx: int)
    requires 0 <= idx < |m.classes|
  {
    m.classes[idx] in KeywordLabels(m.matcher(seg))
  }

  predicate PatternGate(m: Models, idx: int)
    requires 0 <= idx < |m.classes|
  {
    m.classes[idx] in m.patterns
  }

  predicate PassesGates(m: Models, threshold: real, seg: string, idx: int)
    requires m.Valid() && 0 <= idx < |m.classes|
  {
    ConfidenceGate(m, threshold, seg, idx) && KeywordGate(m, seg, idx) && PatternGate(m, idx)
  }

  /** The regex matches consulted for label number `idx`. */
  function LabelMatches(m: Models, seg: string, idx: int): (r: seq<Span>)
    requires m.Valid() && 0 <= idx < |m.classes|
    ensures ValidSpans(r, seg)
  {
    ExtractWithRegex(m.patterns, m.finder, m.classes[idx], seg)
  }

  /** The findings label number `idx` contributes. */
  function LabelFindings(m: Models, threshold: real, seg: string, idx: int): seq<Finding>
    requires m.Valid() && 0 <= idx < |m.classes|
  {
    var ms := m.matcher(seg);
    var lbl := m.classes[idx];
    if PassesGates(m, threshold, seg, idx) then
      MatchFindings(seg, lbl, m.scorer(seg)[idx], KeywordsFor(KeywordTexts(ms), KeywordLabels(ms), lbl),
                    LabelMatches(m, seg, idx), m.round)
    else []
  }

  /** The findings of every label, one block per label, in the classifier's label order. */
  function LabelBlocks(m: Models, threshold: real, seg: string): (r: seq<seq<Finding>>)
    requires m.Valid()
    ensures |r| == |m.classes|
    ensures forall idx :: 0 <= idx < |m.classes| ==> r[idx] == LabelFindings(m, threshold, seg, idx)
  {
    seq(|m.classes|, idx requires 0 <= idx < |m.classes| => LabelFindings(m, threshold, seg, idx))
  }

  /** What `process_segment(seg, clf, mlb, threshold)` puts under "Extracted Data". */
  function SegmentFindings(m: Models, threshold: real, seg: string): (r: seq<Finding>)
    requires m.Valid()
    ensures Strip(seg) == [] ==> r == []
  {
    var s := Strip(seg);
    if s == [] then [] else Concat(LabelBlocks(m, threshold, s))
  }

  // ---------------------------------------------------------------------------------------
  // process_segment: the imperative code

  /** The inner loop of `process_segment`: appends one finding per regex match, in match order. */
  method AppendMatchFindings(results: seq<Finding>, seg: string, lbl: string, conf: real, keywords: seq<string>,
                             matches: seq<Span>, round: real -> real) returns (extended: seq<Finding>)
    requires ValidSpans(matches, seg)
    ensures extended == results + MatchFindings(seg, lbl, conf, keywords, matches, round)
  {
    extended := results;
    for j := 0 to |matches|
      invariant extended == results + MatchFindings(seg, lbl, conf, keywords, matches[..j], round)
    {
      var sp := matches[j];
      TakeOneMore(matches, j);
      assert matches[..j + 1][..j] == matches[..j];
      extended := extended + [Finding(seg, lbl, keywords, Strip(seg[sp.start..sp.end]), sp.start, sp.end, round(conf))];
    }
    assert matches[..|matches|] == matches;
  }

  /** `process_segment`. The ghost flag `consulted` marks the path past the early return for a
      blank segment (main/doc_reader.py:52-53), the only path on which the classifier and the
      matcher are called; as collaborators they are pure functions here, so the flag records
      the control path, not an observed call. */
  method ProcessSegment(seg: string, m: Models, threshold: real) returns (out: SegmentOutput, ghost consulted: bool)
    requires m.Valid()
    ensures out.extractedData == SegmentFindings(m, threshold, seg)
    ensures consulted <==> Strip(seg) != []
    ensures !consulted ==> out.extractedData == []
  {
    var results: seq<Finding> := [];
    var s := Strip(seg);
    if s == [] {
      return SegmentOutput([]), false;
    }
    consulted := true;

    var probs := m.scorer(s);
    var labels := m.classes;
    var found := m.matcher(s);
    var matchedKeywords, keywordLabels := DetectKeyword(found);
    assert matchedKeywords == KeywordTexts(found) && keywordLabels == KeywordLabels(found);

    ghost var blocks := LabelBlocks(m, threshold, s);
    for idx := 0 to |labels|
      invariant results == Concat(blocks[..idx])
    {
      TakeOneMore(blocks, idx);
      ConcatSnoc(blocks[..idx], blocks[idx]);
      var lbl := labels[idx];
      var conf := probs[idx];
      if conf < threshold {
        assert LabelFindings(m, threshold, s, idx) == [];
        continue;
      }
      if lbl !in keywordLabels {
        assert LabelFindings(m, threshold, s, idx) == [];
        continue;
      }
      if lbl in m.patterns {
        var matches := ExtractWithRegex(m.patterns, m.finder, lbl, s);
        assert PassesGates(m, threshold, s, idx);
        assert LabelMatches(m, s, idx) == matches;
        ghost var ms := m.matcher(s);
        assert KeywordsFor(KeywordTexts(ms), KeywordLabels(ms), lbl) == KeywordsFor(matchedKeywords, keywordLabels, lbl);
        results := AppendMatchFindings(results, s, lbl, conf, KeywordsFor(matchedKeywords, keywordLabels, lbl), matches, m.round);
        assert MatchFindings(s, lbl, conf, KeywordsFor(matchedKeywords, keywordLabels, lbl), matches, m.round) == LabelFindings(m, threshold, s, idx);
      } else {
        assert LabelFindings(m, threshold, s, idx) == [];
      }
    }
    assert blocks[..|labels|] == blocks;
    return SegmentOutput(results), true;
  }

  // ---------------------------------------------------------------------------------------
  // process_segment: what its findings satisfy

  /** Label number `idx` yields at least one finding on the stripped segment `seg`. */
  ghost predicate Emits(m: Models, threshold: real, seg: string, idx: int)
    requires m.Valid() && 0 <= idx < |m.classes|
  {
    PassesGates(m, threshold, seg, idx) && LabelMatches(m, seg, idx) != []
  }

  /** What every finding reported for the stripped segment `seg` satisfies. */
  ghost predicate WellFormedFinding(m: Models, seg: string, f: Finding) {
    var ms := m.matcher(seg);
    && f.segment == seg
    && 0 <= f.start <= f.end <= |seg|
    && f.extractedValue == Strip(seg[f.start..f.end])
    && f.detectedLabel in m.classes
    && f.detectedLabel in m.patterns
    && f.matchedKeyword == KeywordsFor(KeywordTexts(ms), KeywordLabels(ms), f.detectedLabel)
    && f.matchedKeyword != []
  }

  lemma LabelFindingsWellFormed(m: Models, threshold: real, seg: string, idx: int)
    requires m.Valid() && 0 <= idx < |m.classes|
    ensures forall f :: f in LabelFindings(m, threshold, seg, idx) ==> WellFormedFinding(m, seg, f)
  {
    if PassesGates(m, threshold, seg, idx) {
      var ms := m.matcher(seg);
      KeywordsForNonEmpty(KeywordTexts(ms), KeywordLabels(ms), m.classes[idx]);
      var emitted := LabelFindings(m, threshold, seg, idx);
      forall f | f in emitted ensures WellFormedFinding(m, seg, f) {
        var j :| 0 <= j < |emitted| && emitted[j] == f;
        LabelFindingAt(m, threshold, seg, idx, j);
        assert ValidSpan(LabelMatches(m, seg, idx)[j], seg);
      }
    }
  }

  /** Every finding of a segment carries the stripped segment, an offset range inside it, the
      stripped text of that range as its value, a label known to the classifier that has a
      pattern, and the non-empty list of the matched keywords registered under that label. */
  lemma FindingsWellFormed(m: Models, threshold: real, seg: string)
    requires m.Valid()
    ensures forall f :: f in SegmentFindings(m, threshold, seg) ==> WellFormedFinding(m, Strip(seg), f)
  {
    var s := Strip(seg);
    if s != [] {
      var bs := LabelBlocks(m, threshold, s);
      forall f | f in Concat(bs) ensures WellFormedFinding(m, s, f) {
        ConcatMember(bs, f);
        var idx :| 0 <= idx < |bs| && f in bs[idx];
        LabelFindingsWellFormed(m, threshold, s, idx);
      }
    }
  }

  lemma LabelFindingsLabelIff(m: Models, threshold: real, seg: string, idx: int, lbl: string)
    requires m.Valid() && 0 <= idx < |m.classes|
    ensures (exists f :: f in LabelFindings(m, threshold, seg, idx) && f.detectedLabel == lbl) <==>
            (m.classes[idx] == lbl && Emits(m, threshold, seg, idx))
  {
    var emitted := LabelFindings(m, threshold, seg, idx);
    forall f | f in emitted ensures f.detectedLabel == m.classes[idx] {
      var j :| 0 <= j < |emitted| && emitted[j] == f;
      LabelFindingAt(m, threshold, seg, idx, j);
    }
    if m.classes[idx] == lbl && Emits(m, threshold, seg, idx) {
      LabelFindingAt(m, threshold, seg, idx, 0);
      assert emitted[0] in emitted;
    }
  }

  /** Some label number `idx` equal to `lbl` passes the three gates and its pattern matches. */
  ghost predicate SomeLabelEmits(m: Models, threshold: real, s: string, lbl: string)
    requires m.Valid()
  {
    exists idx :: 0 <= idx < |m.classes| && m.classes[idx] == lbl && Emits(m, threshold, s, idx)
  }

  lemma FindingOnlyIfEmits(m: Models, threshold: real, s: string, f: Finding)
    requires m.Valid() && f in Concat(LabelBlocks(m, threshold, s))
    ensures SomeLabelEmits(m, threshold, s, f.detectedLabel)
  {
    var bs := LabelBlocks(m, threshold, s);
    ConcatMember(bs, f);
    var idx :| 0 <= idx < |bs| && f in bs[idx];
    LabelFindingsLabelIff(m, threshold, s, idx, f.detectedLabel);
  }

  lemma FindingIfEmits(m: Models, threshold: real, s: string, lbl: string)
    requires m.Valid() && SomeLabelEmits(m, threshold, s, lbl)
    ensures exists f :: f in Concat(LabelBlocks(m, threshold, s)) && f.detectedLabel == lbl
  {
    var bs := LabelBlocks(m, threshold, s);
    var idx :| 0 <= idx < |m.classes| && m.classes[idx] == lbl && Emits(m, threshold, s, idx);
    LabelFindingsLabelIff(m, threshold, s, idx, lbl);
    var f: Finding :| f in bs[idx] && f.detectedLabel == lbl;
    ConcatMember(bs, f);
  }

  /** The three gates are jointly necessary and sufficient: a segment has a finding for `lbl`
      exactly when it is not blank and some classifier label equal to `lbl` reaches the
      threshold, is among the matcher's labels, has a pattern, and that pattern matches. */
  lemma FindingExistsIff(m: Models, threshold: real, seg: string, lbl: string)
    requires m.Valid()
    ensures (exists f :: f in SegmentFindings(m, threshold, seg) && f.detectedLabel == lbl) <==>
            (Strip(seg) != [] &&
             exists idx :: 0 <= idx < |m.classes| && m.classes[idx] == lbl
               && threshold <= m.scorer(Strip(seg))[idx]
               && lbl in KeywordLabels(m.matcher(Strip(seg)))
               && lbl in m.patterns
               && ExtractWithRegex(m.patterns, m.finder, lbl, Strip(seg)) != [])
  {
    var s := Strip(seg);
    if s != [] {
      if exists f: Finding :: f in SegmentFindings(m, threshold, seg) && f.detectedLabel == lbl {
        var f: Finding :| f in SegmentFindings(m, threshold, seg) && f.detectedLabel == lbl;
        FindingOnlyIfEmits(m, threshold, s, f);
      }
      if SomeLabelEmits(m, threshold, s, lbl) {
        FindingIfEmits(m, threshold, s, lbl);
      }
    }
  }

  /** The number of findings the first `k` labels contribute: the number of regex matches of
      every label that passes the three gates. */
  function EmittedCount(m: Models, threshold: real, seg: string, k: int): nat
    requires m.Valid() && 0 <= k <= |m.classes|
  {
    if k == 0 then 0
    else EmittedCount(m, threshold, seg, k - 1)
         + (if PassesGates(m, threshold, seg, k - 1) then |LabelMatches(m, seg, k - 1)| else 0)
  }

  lemma {:induction false} BlocksCount(m: Models, threshold: real, seg: string, k: int)
    requires m.Valid() && 0 <= k <= |m.classes|
    ensures |Concat(LabelBlocks(m, threshold, seg)[..k])| == EmittedCount(m, threshold, seg, k)
  {
    if k > 0 {
      var bs := LabelBlocks(m, threshold, seg);
      BlocksCount(m, threshold, seg, k - 1);
      TakeOneMore(bs, k - 1);
      ConcatSnoc(bs[..k - 1], bs[k - 1]);
    }
  }

  /** A segment yields exactly one finding per regex match of every label passing the gates. */
  lemma FindingCount(m: Models, threshold: real, seg: string)
    requires m.Valid()
    ensures |SegmentFindings(m, threshold, seg)| == if Strip(seg) == [] then 0 else EmittedCount(m, threshold, Strip(seg), |m.classes|)
  {
    var s := Strip(seg);
    if s != [] {
      BlocksCount(m, threshold, s, |m.classes|);
      assert LabelBlocks(m, threshold, s)[..|m.classes|] == LabelBlocks(m, threshold, s);
    }
  }

  lemma {:induction false} EmittedCountMonotone(m: Models, threshold: real, seg: string, k1: int, k2: int)
    requires m.Valid() && 0 <= k1 <= k2 <= |m.classes|
    ensures EmittedCount(m, threshold, seg, k1) <= EmittedCount(m, threshold, seg, k2)
  {
    if k1 < k2 {
      EmittedCountMonotone(m, threshold, seg, k1, k2 - 1);
    }
  }

  /** Finding `j` of a label passing the gates records the stripped segment, the label, the
      keywords matched for it, the stripped text of regex match `j`, its offsets and the rounded
      confidence. */
  lemma LabelFindingAt(m: Models, threshold: real, s: string, idx: int, j: int)
    requires m.Valid() && 0 <= idx < |m.classes|
    requires PassesGates(m, threshold, s, idx)
    requires 0 <= j < |LabelMatches(m, s, idx)|
    ensures
      var ms := m.matcher(s);
      var lbl := m.classes[idx];
      j < |LabelFindings(m, threshold, s, idx)| &&
      LabelFindings(m, threshold, s, idx)[j]
        == MakeFinding(s, lbl, m.scorer(s)[idx], KeywordsFor(KeywordTexts(ms), KeywordLabels(ms), lbl),
                       LabelMatches(m, s, idx)[j], m.round)
  {
    var ms := m.matcher(s);
    var lbl := m.classes[idx];
    MatchFindingsAt(s, lbl, m.scorer(s)[idx], KeywordsFor(KeywordTexts(ms), KeywordLabels(ms), lbl),
                    LabelMatches(m, s, idx), m.round, j);
  }

  /** Findings are ordered by label index, then by match order: the findings of label number
      `idx` form one contiguous run, in match order, preceded by exactly the findings of the
      labels before it, `EmittedCount(.., idx)` of them. */
  lemma FindingsAround(m: Models, threshold: real, seg: string, idx: int)
    requires m.Valid() && Strip(seg) != [] && 0 <= idx < |m.classes|
    ensures
      var s := Strip(seg);
      var bs := LabelBlocks(m, threshold, s);
      && SegmentFindings(m, threshold, seg) == Concat(bs[..idx]) + LabelFindings(m, threshold, s, idx) + Concat(bs[idx + 1..])
      && |Concat(bs[..idx])| == EmittedCount(m, threshold, s, idx)
  {
    var s := Strip(seg);
    var bs := LabelBlocks(m, threshold, s);
    BlocksCount(m, threshold, s, idx);
    ConcatSplit(bs, idx);
  }

  /** Consequently finding `j` of label number `idx` sits at position `EmittedCount(.., idx) + j`;
      these positions grow with `idx` (EmittedCountMonotone), and LabelFindingAt says what the
      finding there holds. */
  lemma FindingAt(m: Models, threshold: real, seg: string, idx: int, j: int)
    requires m.Valid() && Strip(seg) != [] && 0 <= idx < |m.classes|
    requires 0 <= j < |LabelFindings(m, threshold, Strip(seg), idx)|
    ensures EmittedCount(m, threshold, Strip(seg), idx) + j < |SegmentFindings(m, threshold, seg)|
    ensures SegmentFindings(m, threshold, seg)[EmittedCount(m, threshold, Strip(seg), idx) + j]
              == LabelFindings(m, threshold, Strip(seg), idx)[j]
  {
    var s := Strip(seg);
    var bs := LabelBlocks(m, threshold, s);
    FindingsAround(m, threshold, seg, idx);
    IndexMiddle(Concat(bs[..idx]), LabelFindings(m, threshold, s, idx), Concat(bs[idx + 1..]), j);
  }

  lemma IndexMiddle<T>(a: seq<T>, b: seq<T>, c: seq<T>, j: int)
    requires 0 <= j < |b|
    ensures |a| + j < |a + b + c| && (a + b + c)[|a| + j] == b[j]
  {
  }

  /** With the matcher built from `keyword_aliases`, gate (c) never rejects a label that passed
      gate (b): both tables are keyed by the same labels. */
  lemma PatternGateFollowsKeywordGate(m: Models, seg: string, idx: int)
    requires 0 <= idx < |m.classes| && UsesShippedTables(m) && KeywordGate(m, seg, idx)
    ensures PatternGate(m, idx)
  {
    var ls := KeywordLabels(m.matcher(seg));
    var i :| 0 <= i < |ls| && ls[i] == m.classes[idx];
    assert m.matcher(seg)[i].labelName in KeywordAliases;
    LabelTablesAgree();
  }
}
