/** The text-extraction front end of main/document_extracter.py: the loader fallback chain of
    every document kind, dispatch on the lower-cased file suffix, and the final length gate.

    LangChain's loaders, pandas and the file system are collaborators. What calling a loader on
    the staged temporary file does is the value `load(id)`; what staging the upload into a
    temporary file does is a `Staging` value; whether deleting it fails is a flag. */
module DocumentExtracter {
  import opened Wrappers
  import opened Text

  datatype LoaderId =
    | UnstructuredPdf | PyMuPdf | PyPdf
    | Docx2txt | UnstructuredWord
    | PandasExcel | UnstructuredExcel
    | UnstructuredPowerPoint
    | TextFile | CsvFile | UnstructuredFile

  /** What constructing the loader and calling `load()` did: the page contents of the returned
      documents, or the message of the exception raised. The pandas reader is `Loaded([df.to_string()])`. */
  datatype LoadOutcome = Loaded(pages: seq<string>) | Raised(reason: string)

  /** Which optional imports succeeded at module load time (the `HAS_...` flags). */
  datatype Availability = Availability(
    hasPyMuPdf: bool,
    hasUnstructuredPdf: bool,
    hasUnstructuredWord: bool,
    hasUnstructuredPpt: bool,
    hasUnstructuredExcel: bool)

  /** The page contents of the loaded documents, with a blank line between consecutive pages. */
  function JoinedText(pages: seq<string>): string {
    Join(pages, "\n\n")
  }

  const PdfFailure := "All PDF loaders failed to extract text"
  const WordFailure := "All Word document loaders failed"
  const ExcelFailure := "All Excel loaders failed"
  const PptFailure := "PowerPoint loader failed"
  const TooShort := "Extracted text is too short or empty"
  const ErrorPrefix := "Error extracting text from file: "

  // ---------------------------------------------------------------------------------------
  // A fallback chain

  /** The test a chain applies to the joined text of a loader that did not raise. */
  datatype Gate = Ungated | NonEmpty | LongerThan(n: nat)

  predicate Accepts(g: Gate, text: string) {
    match g
    case Ungated => true
    case NonEmpty => text != ""
    case LongerThan(n) => text != "" && |Strip(text)| > n
  }

  /** One entry of a `loaders_to_try` list, with the test its output must pass. */
  datatype Attempt = Attempt(loader: LoaderId, gate: Gate)

  /** The attempt's loader returns without raising and its joined text passes the gate. */
  predicate Succeeds(a: Attempt, load: LoaderId -> LoadOutcome) {
    load(a.loader).Loaded? && Accepts(a.gate, JoinedText(load(a.loader).pages))
  }

  /** The position of the first attempt that succeeds, if any. */
  function FirstSuccess(attempts: seq<Attempt>, load: LoaderId -> LoadOutcome): (r: Option<nat>)
    ensures r.Some? ==> r.value < |attempts| && Succeeds(attempts[r.value], load)
    ensures r.Some? ==> forall k :: 0 <= k < r.value ==> !Succeeds(attempts[k], load)
    ensures r.None? <==> forall k :: 0 <= k < |attempts| ==> !Succeeds(attempts[k], load)
  {
    if |attempts| == 0 then None
    else if Succeeds(attempts[0], load) then Some(0)
    else match FirstSuccess(attempts[1..], load)
      case None => None
      case Some(i) => Some(i + 1)
  }

  /** The text a chain returns: the joined text of the first attempt that succeeds. */
  function ChainText(attempts: seq<Attempt>, load: LoaderId -> LoadOutcome): Option<string> {
    match FirstSuccess(attempts, load)
    case Some(i) => Some(JoinedText(load(attempts[i].loader).pages))
    case None => None
  }

  /** A chain returns its text, or raises `failure` when every attempt failed. */
  function ChainResult(attempts: seq<Attempt>, load: LoaderId -> LoadOutcome, failure: string): Result<string> {
    match ChainText(attempts, load)
    case Some(t) => Ok(t)
    case None => Err(failure)
  }

  function Loaders(attempts: seq<Attempt>): (r: seq<LoaderId>)
    ensures |r| == |attempts| && forall i :: 0 <= i < |attempts| ==> r[i] == attempts[i].loader
  {
    seq(|attempts|, i requires 0 <= i < |attempts| => attempts[i].loader)
  }

  /** How many attempts a chain makes: up to and including the first that succeeds. */
  function Consulted(attempts: seq<Attempt>, load: LoaderId -> LoadOutcome): (n: nat)
    ensures n <= |attempts|
  {
    match FirstSuccess(attempts, load)
    case Some(i) => i + 1
    case None => |attempts|
  }

  /** The loaders a chain invokes, in order. */
  function ChainInvoked(attempts: seq<Attempt>, load: LoaderId -> LoadOutcome): seq<LoaderId> {
    Loaders(attempts[..Consulted(attempts, load)])
  }

  /** The `for loader_func in loaders_to_try` loop: a loader that raises or whose text fails the
      gate is skipped, and the first text that passes is returned at once. `tried` lists the
      loaders invoked. */
  method TryLoaders(attempts: seq<Attempt>, load: LoaderId -> LoadOutcome) returns (text: Option<string>, ghost tried: seq<LoaderId>)
    ensures text == ChainText(attempts, load)
    ensures tried == ChainInvoked(attempts, load)
  {
    tried := [];
    for i := 0 to |attempts|
      invariant tried == Loaders(attempts[..i])
      invariant forall k :: 0 <= k < i ==> !Succeeds(attempts[k], load)
    {
      var a := attempts[i];
      assert attempts[..i + 1] == attempts[..i] + [a];
      tried := tried + [a.loader];
      var outcome := load(a.loader);
      if outcome.Loaded? {
        var t := JoinedText(outcome.pages);
        if Accepts(a.gate, t) {
          FirstSuccessAt(attempts, load, i);
          return Some(t), tried;
        }
      }
    }
    assert attempts[..|attempts|] == attempts;
    return None, tried;
  }

  /** An attempt that succeeds after every earlier one failed is where the chain stops. */
  lemma FirstSuccessAt(attempts: seq<Attempt>, load: LoaderId -> LoadOutcome, i: nat)
    requires i < |attempts| && Succeeds(attempts[i], load)
    requires forall k :: 0 <= k < i ==> !Succeeds(attempts[k], load)
    ensures FirstSuccess(attempts, load) == Some(i) && Consulted(attempts, load) == i + 1
  {
  }

  /** A chain that returns text returned the text of an attempt that succeeded, after every
      earlier attempt failed; it raises its failure message exactly when every attempt failed. */
  lemma ChainResultCases(attempts: seq<Attempt>, load: LoaderId -> LoadOutcome, failure: string)
    ensures ChainResult(attempts, load, failure).Ok? ==>
      exists i :: 0 <= i < |attempts| && Succeeds(attempts[i], load)
        && ChainResult(attempts, load, failure).value == JoinedText(load(attempts[i].loader).pages)
        && forall k :: 0 <= k < i ==> !Succeeds(attempts[k], load)
    ensures ChainResult(attempts, load, failure) == Err(failure) <==>
      forall k :: 0 <= k < |attempts| ==> !Succeeds(attempts[k], load)
  {
    match FirstSuccess(attempts, load)
    case Some(i) =>
      assert 0 <= i < |attempts| && Succeeds(attempts[i], load);
    case None =>
  }

  /** A chain whose every gate is `LongerThan(n)` only returns text longer than `n` once stripped. */
  lemma ChainTextLongerThan(attempts: seq<Attempt>, load: LoaderId -> LoadOutcome, failure: string, n: nat)
    requires forall a :: a in attempts ==> a.gate == LongerThan(n)
    ensures ChainResult(attempts, load, failure).Ok? ==> |Strip(ChainResult(attempts, load, failure).value)| > n
  {
    match FirstSuccess(attempts, load)
    case Some(i) =>
      assert attempts[i] in attempts;
    case None =>
  }

  lemma ChainConsHit(a: Attempt, rest: seq<Attempt>, load: LoaderId -> LoadOutcome)
    requires Succeeds(a, load)
    ensures ChainText([a] + rest, load) == Some(JoinedText(load(a.loader).pages))
    ensures ChainInvoked([a] + rest, load) == [a.loader]
  {
    assert ([a] + rest)[0] == a;
    assert ([a] + rest)[..1] == [a];
  }

  lemma FirstSuccessMiss(a: Attempt, rest: seq<Attempt>, load: LoaderId -> LoadOutcome)
    requires !Succeeds(a, load)
    ensures FirstSuccess([a] + rest, load) == match FirstSuccess(rest, load) case Some(i) => Some(i + 1) case None => None
  {
    assert ([a] + rest)[0] == a && ([a] + rest)[1..] == rest;
  }

  lemma ChainConsMiss(a: Attempt, rest: seq<Attempt>, load: LoaderId -> LoadOutcome)
    requires !Succeeds(a, load)
    ensures ChainText([a] + rest, load) == ChainText(rest, load)
    ensures ChainInvoked([a] + rest, load) == [a.loader] + ChainInvoked(rest, load)
  {
    var all := [a] + rest;
    FirstSuccessMiss(a, rest, load);
    var n := Consulted(rest, load);
    assert Consulted(all, load) == n + 1;
    assert all[..n + 1] == [a] + rest[..n];
    if FirstSuccess(rest, load).Some? {
      assert all[FirstSuccess(rest, load).value + 1] == rest[FirstSuccess(rest, load).value];
    }
  }

  /** Prepending an attempt: if it succeeds the chain stops there, otherwise the chain goes on
      with the rest. */
  lemma ChainCons(a: Attempt, rest: seq<Attempt>, load: LoaderId -> LoadOutcome)
    ensures Succeeds(a, load) ==>
      ChainText([a] + rest, load) == Some(JoinedText(load(a.loader).pages)) && ChainInvoked([a] + rest, load) == [a.loader]
    ensures !Succeeds(a, load) ==>
      ChainText([a] + rest, load) == ChainText(rest, load) && ChainInvoked([a] + rest, load) == [a.loader] + ChainInvoked(rest, load)
  {
    if Succeeds(a, load) {
      ChainConsHit(a, rest, load);
    } else {
      ChainConsMiss(a, rest, load);
    }
  }

  /** The Excel chain's non-empty test rejects exactly a loader that returned no document, or a
      single document with empty content. */
  lemma NonEmptyGate(pages: seq<string>)
    ensures Accepts(NonEmpty, JoinedText(pages)) <==> pages != [] && pages != [""]
  {
    JoinEmptyIff(pages, "\n\n");
  }

  // ---------------------------------------------------------------------------------------
  // The four chains

  function PdfAttempts(av: Availability): seq<Attempt> {
    (if av.hasUnstructuredPdf then [Attempt(UnstructuredPdf, LongerThan(50))] else [])
    + (if av.hasPyMuPdf then [Attempt(PyMuPdf, LongerThan(50))] else [])
    + [Attempt(PyPdf, LongerThan(50))]
  }

  /** `extract_with_pdf_loaders`. */
  method ExtractWithPdfLoaders(av: Availability, load: LoaderId -> LoadOutcome) returns (r: Result<string>, ghost tried: seq<LoaderId>)
    ensures r == ChainResult(PdfAttempts(av), load, PdfFailure)
    ensures tried == ChainInvoked(PdfAttempts(av), load)
  {
    var loadersToTry: seq<Attempt> := [];
    if av.hasUnstructuredPdf {
      loadersToTry := loadersToTry + [Attempt(UnstructuredPdf, LongerThan(50))];
    }
    if av.hasPyMuPdf {
      loadersToTry := loadersToTry + [Attempt(PyMuPdf, LongerThan(50))];
    }
    loadersToTry := loadersToTry + [Attempt(PyPdf, LongerThan(50))];
    assert loadersToTry == PdfAttempts(av);
    var text;
    text, tried := TryLoaders(loadersToTry, load);
    if text.Some? {
      r := Ok(text.value);
    } else {
      r := Err(PdfFailure);
    }
  }

  /** The position of a PDF loader in the capability order. */
  function PdfRank(id: LoaderId): nat {
    match id
    case UnstructuredPdf => 0
    case PyMuPdf => 1
    case _ => 2
  }

  /** The PDF chain tries Unstructured (hi_res) when available, then PyMuPDF when available,
      then PyPDF, which is always present and always last; every gate is "longer than 50". */
  lemma PdfLoaderOrder(av: Availability)
    ensures var ls := Loaders(PdfAttempts(av));
      && ls != [] && ls[|ls| - 1] == PyPdf && PyPdf !in ls[..|ls| - 1]
      && (UnstructuredPdf in ls <==> av.hasUnstructuredPdf)
      && (PyMuPdf in ls <==> av.hasPyMuPdf)
      && (forall i, j :: 0 <= i < j < |ls| ==> PdfRank(ls[i]) < PdfRank(ls[j]))
    ensures forall a :: a in PdfAttempts(av) ==> a.gate == LongerThan(50)
  {
    var ls := Loaders(PdfAttempts(av));
    assert UnstructuredPdf in ls <==> av.hasUnstructuredPdf by {
      if av.hasUnstructuredPdf {
        assert ls[0] == UnstructuredPdf;
      }
    }
    assert PyMuPdf in ls <==> av.hasPyMuPdf by {
      if av.hasPyMuPdf {
        assert ls[|ls| - 2] == PyMuPdf;
      }
    }
  }

  /** What the PDF chain returns: the joined text of the first loader whose text is longer than
      50 characters once stripped; if there is none it raises "All PDF loaders failed ...". */
  lemma PdfChainResult(av: Availability, load: LoaderId -> LoadOutcome)
    ensures ChainResult(PdfAttempts(av), load, PdfFailure).Ok? ==>
      |Strip(ChainResult(PdfAttempts(av), load, PdfFailure).value)| > 50
    ensures ChainResult(PdfAttempts(av), load, PdfFailure) == Err(PdfFailure) <==>
      forall a :: a in PdfAttempts(av) ==> !Succeeds(a, load)
  {
    PdfLoaderOrder(av);
    ChainTextLongerThan(PdfAttempts(av), load, PdfFailure, 50);
    ChainResultCases(PdfAttempts(av), load, PdfFailure);
    var atts := PdfAttempts(av);
    assert (forall a :: a in atts ==> !Succeeds(a, load)) <==> (forall k :: 0 <= k < |atts| ==> !Succeeds(atts[k], load)) by {
      if forall k :: 0 <= k < |atts| ==> !Succeeds(atts[k], load) {
        forall a | a in atts ensures !Succeeds(a, load) {
          var k :| 0 <= k < |atts| && atts[k] == a;
        }
      }
    }
  }

  function WordAttempts(av: Availability, suffix: string): seq<Attempt> {
    (if suffix == ".docx" then [Attempt(Docx2txt, LongerThan(10))] else [])
    + (if av.hasUnstructuredWord then [Attempt(UnstructuredWord, LongerThan(10))] else [])
  }

  /** `extract_with_word_loaders`. */
  method ExtractWithWordLoaders(av: Availability, suffix: string, load: LoaderId -> LoadOutcome) returns (r: Result<string>, ghost tried: seq<LoaderId>)
    ensures r == ChainResult(WordAttempts(av, suffix), load, WordFailure)
    ensures tried == ChainInvoked(WordAttempts(av, suffix), load)
  {
    var loadersToTry: seq<Attempt> := [];
    if suffix == ".docx" {
      loadersToTry := loadersToTry + [Attempt(Docx2txt, LongerThan(10))];
    }
    if av.hasUnstructuredWord {
      loadersToTry := loadersToTry + [Attempt(UnstructuredWord, LongerThan(10))];
    }
    var text;
    text, tried := TryLoaders(loadersToTry, load);
    if text.Some? {
      r := Ok(text.value);
    } else {
      r := Err(WordFailure);
    }
  }

  /** Docx2txt is tried only for ".docx"; the Unstructured Word loader only when available; a
      text returned is longer than 10 characters once stripped. For ".doc" without the
      Unstructured Word loader nothing is tried and the chain always raises. */
  lemma WordChain(av: Availability, suffix: string, load: LoaderId -> LoadOutcome)
    ensures Docx2txt in Loaders(WordAttempts(av, suffix)) <==> suffix == ".docx"
    ensures UnstructuredWord in Loaders(WordAttempts(av, suffix)) <==> av.hasUnstructuredWord
    ensures ChainResult(WordAttempts(av, suffix), load, WordFailure).Ok? ==>
      |Strip(ChainResult(WordAttempts(av, suffix), load, WordFailure).value)| > 10
    ensures suffix != ".docx" && !av.hasUnstructuredWord ==>
      WordAttempts(av, suffix) == [] && ChainResult(WordAttempts(av, suffix), load, WordFailure) == Err(WordFailure)
  {
    var ls := Loaders(WordAttempts(av, suffix));
    if suffix == ".docx" {
      assert ls[0] == Docx2txt;
    }
    if av.hasUnstructuredWord {
      assert ls[|ls| - 1] == UnstructuredWord;
    }
    ChainTextLongerThan(WordAttempts(av, suffix), load, WordFailure, 10);
  }

  function ExcelAttempts(av: Availability): seq<Attempt> {
    [Attempt(PandasExcel, Ungated)]
    + (if av.hasUnstructuredExcel then [Attempt(UnstructuredExcel, NonEmpty)] else [])
  }

  /** `extract_with_excel_loaders`: pandas first, with no test on its text; then the
      Unstructured Excel loader, whose text only has to be non-empty. */
  method ExtractWithExcelLoaders(av: Availability, load: LoaderId -> LoadOutcome) returns (r: Result<string>, ghost tried: seq<LoaderId>)
    ensures r == ChainResult(ExcelAttempts(av), load, ExcelFailure)
    ensures tried == ChainInvoked(ExcelAttempts(av), load)
  {
    var loadersToTry: seq<Attempt> := [];
    if av.hasUnstructuredExcel {
      loadersToTry := loadersToTry + [Attempt(UnstructuredExcel, NonEmpty)];
    }
    ChainCons(Attempt(PandasExcel, Ungated), loadersToTry, load);
    var frame := load(PandasExcel);
    if frame.Loaded? {
      return Ok(JoinedText(frame.pages)), [PandasExcel];
    }
    var text;
    text, tried := TryLoaders(loadersToTry, load);
    tried := [PandasExcel] + tried;
    if text.Some? {
      r := Ok(text.value);
    } else {
      r := Err(ExcelFailure);
    }
  }

  /** When pandas reads the workbook its text is returned as it is, however short, and nothing
      else is tried; otherwise the Unstructured loader's text is returned when it is available
      and non-empty, and the chain raises otherwise. */
  lemma ExcelChain(av: Availability, load: LoaderId -> LoadOutcome)
    ensures load(PandasExcel).Loaded? ==>
      ChainResult(ExcelAttempts(av), load, ExcelFailure) == Ok(JoinedText(load(PandasExcel).pages))
      && ChainInvoked(ExcelAttempts(av), load) == [PandasExcel]
    ensures load(PandasExcel).Raised? ==>
      ChainResult(ExcelAttempts(av), load, ExcelFailure) ==
        if av.hasUnstructuredExcel && load(UnstructuredExcel).Loaded? && JoinedText(load(UnstructuredExcel).pages) != ""
        then Ok(JoinedText(load(UnstructuredExcel).pages))
        else Err(ExcelFailure)
  {
    var rest := if av.hasUnstructuredExcel then [Attempt(UnstructuredExcel, NonEmpty)] else [];
    ChainCons(Attempt(PandasExcel, Ungated), rest, load);
    if av.hasUnstructuredExcel {
      ChainCons(Attempt(UnstructuredExcel, NonEmpty), [], load);
      assert [Attempt(UnstructuredExcel, NonEmpty)] + [] == rest;
    }
  }

  function PptAttempts(av: Availability): seq<Attempt> {
    if av.hasUnstructuredPpt then [Attempt(UnstructuredPowerPoint, Ungated)] else []
  }

  /** `extract_with_ppt_loaders`: the Unstructured PowerPoint loader's text, with no test, when
      that loader is available and does not raise. */
  method ExtractWithPptLoaders(av: Availability, load: LoaderId -> LoadOutcome) returns (r: Result<string>, ghost tried: seq<LoaderId>)
    ensures r == ChainResult(PptAttempts(av), load, PptFailure)
    ensures tried == ChainInvoked(PptAttempts(av), load)
    ensures r.Ok? <==> av.hasUnstructuredPpt && load(UnstructuredPowerPoint).Loaded?
  {
    tried := [];
    ChainCons(Attempt(UnstructuredPowerPoint, Ungated), [], load);
    assert [Attempt(UnstructuredPowerPoint, Ungated)] + [] == [Attempt(UnstructuredPowerPoint, Ungated)];
    if av.hasUnstructuredPpt {
      tried := [UnstructuredPowerPoint];
      var outcome := load(UnstructuredPowerPoint);
      if outcome.Loaded? {
        return Ok(JoinedText(outcome.pages)), tried;
      }
    }
    r := Err(PptFailure);
  }

  // ---------------------------------------------------------------------------------------
  // Suffix of the uploaded file name (POSIX `pathlib`)

  /** The position of the last occurrence of `c` in `s`. */
  function LastIndexOf(s: string, c: char): (r: Option<nat>)
    ensures r.Some? ==> r.value < |s| && s[r.value] == c && forall j :: r.value < j < |s| ==> s[j] != c
    ensures r.None? ==> forall j :: 0 <= j < |s| ==> s[j] != c
  {
    if |s| == 0 then None
    else if s[|s| - 1] == c then Some(|s| - 1)
    else LastIndexOf(s[..|s| - 1], c)
  }

  /** `PurePosixPath(p).name`: the last component, ignoring empty and "." components. */
  function PathName(p: string): (r: string)
    ensures forall k :: 0 <= k < |r| ==> r[k] != '/'
    ensures r != "."
    decreases |p|
  {
    match LastIndexOf(p, '/')
    case None => if p == "." then "" else p
    case Some(i) =>
      var tail := p[i + 1..];
      if tail == "" || tail == "." then PathName(p[..i]) else tail
  }

  /** From position `from` on, `p` holds only empty and "." components: every character is
      a '/', or a '.' standing alone between '/'s (or the path's ends). */
  predicate TrivialFrom(p: string, from: int) {
    forall j :: 0 <= from <= j < |p| ==> TrivialAt(p, j)
  }

  /** Position `j` of `p` holds a '/', or a '.' standing alone between '/'s or the path's ends. */
  predicate TrivialAt(p: string, j: int)
    requires 0 <= j < |p|
  {
    p[j] == '/' || (p[j] == '.' && (j == 0 || p[j - 1] == '/') && (j + 1 == |p| || p[j + 1] == '/'))
  }

  /** `name` is the whole component of `p` starting at position `k` (it starts at the path's
      start or right after a '/', and ends at the path's end or right before a '/'), and every
      component after it is empty or ".". */
  predicate LastComponentAt(p: string, name: string, k: int) {
    && 0 <= k <= |p| - |name|
    && name == p[k..k + |name|]
    && (k == 0 || p[k - 1] == '/')
    && (k + |name| == |p| || p[k + |name|] == '/')
    && TrivialFrom(p, k + |name|)
  }

  /** `name` is the last component of `p` that is neither empty nor "."; `name` is "" when
      there is none. */
  ghost predicate IsLastComponent(p: string, name: string) {
    if name == "" then TrivialFrom(p, 0) else exists k :: LastComponentAt(p, name, k)
  }

  /** Trivial components of `p[..i]` stay trivial in `p` when the '/' at `i` is followed
      only by "" or ".". */
  lemma TrivialExtends(p: string, i: int, from: int)
    requires 0 <= i < |p| && p[i] == '/' && (p[i + 1..] == "" || p[i + 1..] == ".")
    requires 0 <= from <= i && TrivialFrom(p[..i], from)
    ensures TrivialFrom(p, from)
  {
    var q := p[..i];
    forall j | from <= j < |p|
      ensures TrivialAt(p, j)
    {
      if j < i {
        assert TrivialAt(q, j);
        assert q[j] == p[j];
        if j > 0 { assert q[j - 1] == p[j - 1]; }
        if j + 1 < i { assert q[j + 1] == p[j + 1]; }
      } else if j > i {
        assert |p[i + 1..]| == 1 && j == i + 1 && p[j] == p[i + 1..][0];
      }
    }
  }

  /** A last component of `p[..i]` is one of `p` when only "" or "." follows the '/' at `i`. */
  lemma LastComponentExtends(p: string, i: int, r: string)
    requires 0 <= i < |p| && p[i] == '/' && (p[i + 1..] == "" || p[i + 1..] == ".")
    requires IsLastComponent(p[..i], r)
    ensures IsLastComponent(p, r)
  {
    var q := p[..i];
    if r == "" {
      TrivialExtends(p, i, 0);
    } else {
      var k :| LastComponentAt(q, r, k);
      assert r == p[k..k + |r|];
      if k > 0 { assert q[k - 1] == p[k - 1]; }
      if k + |r| < i { assert q[k + |r|] == p[k + |r|]; }
      TrivialExtends(p, i, k + |r|);
      assert LastComponentAt(p, r, k);
    }
  }

  /** The name is the path's last component that is neither empty nor ".", and "" when there
      is none. */
  lemma {:induction false} PathNameIsLastComponent(p: string)
    ensures IsLastComponent(p, PathName(p))
    decreases |p|
  {
    match LastIndexOf(p, '/')
    case None =>
      if PathName(p) != "" {
        assert LastComponentAt(p, PathName(p), 0);
      }
    case Some(i) =>
      var tail := p[i + 1..];
      if tail == "" || tail == "." {
        PathNameIsLastComponent(p[..i]);
        LastComponentExtends(p, i, PathName(p[..i]));
        assert PathName(p) == PathName(p[..i]);
      } else {
        assert PathName(p) == tail;
        assert tail == p[i + 1..i + 1 + |tail|];
        assert LastComponentAt(p, tail, i + 1);
      }
  }

  /** ".." is a component of its own, and a trailing '.' belongs to the name: "a/b/.." is
      named "..", not "b", and "x.pdf." is named "x.pdf.", which has no suffix. */
  lemma LastComponentExamples()
    ensures !IsLastComponent("a/b/..", "b") && IsLastComponent("a/b/..", "..")
    ensures !IsLastComponent("x.pdf.", "x.pdf") && IsLastComponent("x.pdf.", "x.pdf.")
    ensures PathName("a/b/..") == ".." && PathName("x.pdf.") == "x.pdf." && PathSuffix("x.pdf.") == ""
  {
    var p, q := "a/b/..", "x.pdf.";
    assert LastComponentAt(p, "..", 4);
    assert LastComponentAt(q, "x.pdf.", 0);
    assert p[0] == 'a' && p[1] == '/' && p[2] == 'b' && p[3] == '/' && p[4] == '.' && p[5] == '.';
    forall k | 0 <= k < |p| ensures !LastComponentAt(p, "b", k) {
      if k == 2 {
        assert !TrivialAt(p, 4);
      } else {
        assert p[k..k + 1][0] == p[k] != 'b';
      }
    }
    assert q[0] == 'x' && q[1] == '.' && q[5] == '.';
    forall k | 0 <= k < |q| ensures !LastComponentAt(q, "x.pdf", k) {
      if k == 0 {
        assert !TrivialAt(q, 5);
      } else if k == 1 {
        assert q[k..k + 5][0] == q[1] != 'x';
      }
    }
    assert LastIndexOf(p, '/') == Some(3);
    assert LastIndexOf(q, '/') == None;
    assert LastIndexOf(q, '.') == Some(5);
  }

  /** `PurePosixPath(p).suffix`: the tail of the name from its last '.', when that dot is
      neither the name's first nor its last character (PathSuffixIff); '' otherwise. */
  function PathSuffix(p: string): (r: string)
    ensures r != "" ==> 2 <= |r| < |PathName(p)| && r == PathName(p)[|PathName(p)| - |r|..]
    ensures r != "" ==> r[0] == '.' && forall k :: 1 <= k < |r| ==> r[k] != '.'
  {
    var name := PathName(p);
    match LastIndexOf(name, '.')
    case Some(i) => if 0 < i < |name| - 1 then name[i..] else ""
    case None => ""
  }

  /** `name` has a dot that is neither its first nor its last character and has no dot after it. */
  predicate InnerLastDot(name: string, i: int) {
    0 < i < |name| - 1 && name[i] == '.' && forall j :: i < j < |name| ==> name[j] != '.'
  }

  /** The suffix is non-empty exactly when the name's last dot is an inner character, and it
      then starts at that dot. */
  lemma PathSuffixIff(p: string)
    ensures PathSuffix(p) != "" <==> exists i :: InnerLastDot(PathName(p), i)
    ensures forall i :: InnerLastDot(PathName(p), i) ==> PathSuffix(p) == PathName(p)[i..]
  {
    var name := PathName(p);
    forall i | InnerLastDot(name, i)
      ensures PathSuffix(p) == name[i..]
    {
      match LastIndexOf(name, '.')
      case Some(k) =>
        assert k == i;
      case None =>
        assert false;
    }
    match LastIndexOf(name, '.')
    case Some(k) =>
      if 0 < k < |name| - 1 {
        assert InnerLastDot(name, k);
      }
    case None =>
  }

  /** `Path(filename).suffix.lower()` when a non-empty file name is given, '' otherwise. */
  function SuffixOf(filename: Option<string>): (r: string)
    ensures filename.None? || filename.value == "" ==> r == ""
    ensures filename.Some? && filename.value != "" ==> |r| == |PathSuffix(filename.value)|
    ensures r != "" ==> |r| >= 2 && r[0] == '.' && forall k :: 0 <= k < |r| ==> !('A' <= r[k] <= 'Z')
  {
    if filename.Some? && filename.value != "" then Lower(PathSuffix(filename.value)) else ""
  }

  lemma LowerKeeps(s: string, c: char)
    requires !('A' <= c <= 'Z') && !('a' <= c <= 'z')
    ensures forall j :: 0 <= j < |s| ==> (Lower(s)[j] == c <==> s[j] == c)
  {
  }

  lemma LowerEmptyOrDot(s: string)
    ensures Lower(s) == "" <==> s == ""
    ensures Lower(s) == "." <==> s == "."
  {
    if |s| == 1 {
      assert Lower(s)[0] == LowerChar(s[0]);
    }
  }

  lemma {:induction false} LastIndexOfLower(s: string, c: char)
    requires !('A' <= c <= 'Z') && !('a' <= c <= 'z')
    ensures LastIndexOf(Lower(s), c) == LastIndexOf(s, c)
    decreases |s|
  {
    LowerKeeps(s, c);
    if |s| > 0 && s[|s| - 1] != c {
      LowerSlice(s, 0, |s| - 1);
      LastIndexOfLower(s[..|s| - 1], c);
    }
  }

  lemma {:induction false} PathNameLower(p: string)
    ensures PathName(Lower(p)) == Lower(PathName(p))
    decreases |p|
  {
    LastIndexOfLower(p, '/');
    match LastIndexOf(p, '/')
    case None =>
      LowerEmptyOrDot(p);
    case Some(i) =>
      LowerSlice(p, i + 1, |p|);
      LowerSlice(p, 0, i);
      LowerEmptyOrDot(p[i + 1..]);
      PathNameLower(p[..i]);
  }

  lemma PathSuffixLower(p: string)
    ensures PathSuffix(Lower(p)) == Lower(PathSuffix(p))
  {
    var name := PathName(p);
    PathNameLower(p);
    LastIndexOfLower(name, '.');
    match LastIndexOf(name, '.')
    case Some(i) =>
      if 0 < i < |name| - 1 {
        LowerSlice(name, i, |name|);
      }
    case None =>
  }

  /** Dispatch ignores the case of the file name: the suffix of the lower-cased name is the
      suffix of the name. */
  lemma SuffixIgnoresCase(filename: string)
    ensures SuffixOf(Some(Lower(filename))) == SuffixOf(Some(filename))
  {
    PathSuffixLower(filename);
    LowerIdempotent(PathSuffix(filename));
    assert Lower(filename) == "" <==> filename == "";
  }

  // ---------------------------------------------------------------------------------------
  // extract_text_with_tika_client

  /** What writing the upload into a named temporary file did: it succeeded, creating the file
      raised (no temporary path exists), or seeking, reading or writing raised after the path
      existed. */
  datatype Staging = Staged | CreateFailed(reason: string) | WriteFailed(reason: string)

  /** A loader called directly, outside any chain: its exception propagates. */
  function Direct(o: LoadOutcome): Result<string> {
    match o
    case Loaded(pages) => Ok(JoinedText(pages))
    case Raised(reason) => Err(reason)
  }

  /** The if/elif dispatch on the suffix. A chain that fails raises the failure message of its
      kind; returned PDF text is longer than 50 and Word text longer than 10 once stripped. */
  function Dispatched(suffix: string, av: Availability, load: LoaderId -> LoadOutcome): (r: Result<string>)
    ensures suffix == ".pdf" && r.Ok? ==> |Strip(r.value)| > 50
    ensures suffix in [".docx", ".doc"] && r.Ok? ==> |Strip(r.value)| > 10
    ensures suffix == ".pdf" && r.Err? ==> r.msg == PdfFailure
    ensures suffix in [".docx", ".doc"] && r.Err? ==> r.msg == WordFailure
    ensures suffix in [".xlsx", ".xls"] && r.Err? ==> r.msg == ExcelFailure
    ensures suffix in [".pptx", ".ppt"] && r.Err? ==> r.msg == PptFailure
  {
    PdfChainResult(av, load);
    WordChain(av, suffix, load);
    if suffix == ".pdf" then ChainResult(PdfAttempts(av), load, PdfFailure)
    else if suffix in [".docx", ".doc"] then ChainResult(WordAttempts(av, suffix), load, WordFailure)
    else if suffix in [".xlsx", ".xls"] then ChainResult(ExcelAttempts(av), load, ExcelFailure)
    else if suffix in [".pptx", ".ppt"] then ChainResult(PptAttempts(av), load, PptFailure)
    else if suffix == ".txt" then Direct(load(TextFile))
    else if suffix == ".csv" then Direct(load(CsvFile))
    else Direct(load(UnstructuredFile))
  }

  /** The loaders the dispatch calls, in order. */
  function DispatchInvoked(suffix: string, av: Availability, load: LoaderId -> LoadOutcome): seq<LoaderId> {
    if suffix == ".pdf" then ChainInvoked(PdfAttempts(av), load)
    else if suffix in [".docx", ".doc"] then ChainInvoked(WordAttempts(av, suffix), load)
    else if suffix in [".xlsx", ".xls"] then ChainInvoked(ExcelAttempts(av), load)
    else if suffix in [".pptx", ".ppt"] then ChainInvoked(PptAttempts(av), load)
    else if suffix == ".txt" then [TextFile]
    else if suffix == ".csv" then [CsvFile]
    else [UnstructuredFile]
  }

  /** The check after dispatch: text that is empty, or shorter than 10 characters once
      stripped, becomes the error `TooShort`; an error passes through unchanged. */
  function FinalGate(r: Result<string>): (g: Result<string>)
    ensures g.Ok? <==> r.Ok? && |Strip(r.value)| >= 10
    ensures g.Ok? || r.Err? ==> g == r
    ensures r.Ok? && g.Err? ==> g.msg == TooShort
  {
    match r
    case Ok(t) => if t == "" || |Strip(t)| < 10 then Err(TooShort) else Ok(t)
    case Err(m) => Err(m)
  }

  /** What `extract_text_with_tika_client(file_obj, filename)` returns or raises. */
  function Extracted(filename: Option<string>, staging: Staging, av: Availability, load: LoaderId -> LoadOutcome): (r: Result<string>)
    ensures r.Ok? ==> |Strip(r.value)| >= 10
    ensures r.Err? ==> |r.msg| >= |ErrorPrefix| && r.msg[..|ErrorPrefix|] == ErrorPrefix
  {
    var inner :=
      match staging
      case CreateFailed(reason) => Err(reason)
      case WriteFailed(reason) => Err(reason)
      case Staged => FinalGate(Dispatched(SuffixOf(filename), av, load));
    match inner
    case Ok(t) => Ok(t)
    case Err(m) => Err(ErrorPrefix + m)
  }

  /** The if/elif dispatch of `extract_text_with_tika_client` on the lower-cased suffix. */
  method LoadBySuffix(suffix: string, av: Availability, load: LoaderId -> LoadOutcome) returns (r: Result<string>, ghost tried: seq<LoaderId>)
    ensures r == Dispatched(suffix, av, load)
    ensures tried == DispatchInvoked(suffix, av, load)
  {
    if suffix == ".pdf" {
      r, tried := ExtractWithPdfLoaders(av, load);
    } else if suffix in [".docx", ".doc"] {
      r, tried := ExtractWithWordLoaders(av, suffix, load);
    } else if suffix in [".xlsx", ".xls"] {
      r, tried := ExtractWithExcelLoaders(av, load);
    } else if suffix in [".pptx", ".ppt"] {
      r, tried := ExtractWithPptLoaders(av, load);
    } else {
      var id := if suffix == ".txt" then TextFile else if suffix == ".csv" then CsvFile else UnstructuredFile;
      tried := [id];
      var outcome := load(id);
      match outcome {
        case Loaded(pages) => r := Ok(JoinedText(pages));
        case Raised(reason) => r := Err(reason);
      }
    }
  }

  /** `extract_text_with_tika_client`. `tempCreated` records that a temporary path exists,
      `deleteAttempted` that the `finally` block tried to delete it, `warned` that deleting
      failed and only a warning was logged; `invoked` lists the loaders called. */
  method ExtractTextWithTikaClient(filename: Option<string>, staging: Staging, av: Availability,
                                   load: LoaderId -> LoadOutcome, unlinkFails: bool)
    returns (r: Result<string>, ghost invoked: seq<LoaderId>,
             ghost tempCreated: bool, ghost deleteAttempted: bool, ghost warned: bool)
    ensures r == Extracted(filename, staging, av, load)
    ensures tempCreated <==> !staging.CreateFailed?
    ensures deleteAttempted <==> tempCreated
    ensures warned <==> deleteAttempted && unlinkFails
    ensures invoked == if staging.Staged? then DispatchInvoked(SuffixOf(filename), av, load) else []
  {
    var suffix := "";
    if filename.Some? && filename.value != "" {
      suffix := Lower(PathSuffix(filename.value));
    }
    invoked := [];
    tempCreated := false;
    var extracted: Result<string>;
    match staging {
      case CreateFailed(reason) =>
        extracted := Err(reason);
      case WriteFailed(reason) =>
        tempCreated := true;
        extracted := Err(reason);
      case Staged =>
        tempCreated := true;
        extracted, invoked := LoadBySuffix(suffix, av, load);
        if extracted.Ok? && (extracted.value == "" || |Strip(extracted.value)| < 10) {
          extracted := Err(TooShort);
        }
    }
    if extracted.Err? {
      r := Err(ErrorPrefix + extracted.msg);
    } else {
      r := extracted;
    }
    // finally: the temporary file is removed whenever its path exists
    deleteAttempted := false;
    warned := false;
    if tempCreated {
      deleteAttempted := true;
      if unlinkFails {
        warned := true;
      }
    }
  }

  /** A file whose suffix is none of the known ones goes to `UnstructuredFileLoader` alone. */
  lemma UnknownSuffixUsesFileLoader(suffix: string, av: Availability, load: LoaderId -> LoadOutcome)
    requires suffix !in [".pdf", ".docx", ".doc", ".xlsx", ".xls", ".pptx", ".ppt", ".txt", ".csv"]
    ensures Dispatched(suffix, av, load) == Direct(load(UnstructuredFile))
    ensures DispatchInvoked(suffix, av, load) == [UnstructuredFile]
  {
  }
}
