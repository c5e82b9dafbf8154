/** Ingestion of one paper (pipelines/process_paper.py): the arXiv-id
    scanner over the paper's text, the three-tier enrichment, the ordered
    writes to the graph and the vector store, and the backfill sweep. */
module ProcessPaper {

  import opened Wrappers
  import opened Strings
  import opened Models
  import opened Graph
  import Agents
  import Summarizer
  import KeywordDomains
  import Pdf = ProcessPdf

  // ---------------------------------------------------------------------
  // extract_references_from_text: sorted(set(re.findall(r"(?:arXiv:)?(\d{4}\.\d{4,5})", text)))

  predicate Digits(s: string, lo: nat, hi: nat)
    requires lo <= hi <= |s|
  {
    forall k | lo <= k < hi :: IsDigit(s[k])
  }

  /** An arXiv id as the pattern's group captures it: four digits, a dot,
      four or five digits. */
  predicate IsArxivId(x: string) {
    (|x| == 9 || |x| == 10) && Digits(x, 0, 4) && x[4] == '.' && Digits(x, 5, |x|)
  }

  /** The length of the greedy match of `\d{4}\.\d{4,5}` at `i`, 0 when
      there is none. */
  function IdLength(s: string, i: nat): (n: nat)
    ensures n == 0 || n == 9 || n == 10
    ensures n > 0 ==> i + n <= |s| && IsArxivId(s[i..i + n]) && IsDigit(s[i])
    ensures n > 0 ==> forall k | i <= k < i + n :: IsDigit(s[k]) || s[k] == '.'
    ensures n == 9 ==> i + 9 == |s| || !IsDigit(s[i + 9])
  {
    if i + 9 <= |s| && Digits(s, i, i + 4) && s[i + 4] == '.' && Digits(s, i + 5, i + 9) then
      var n := if i + 9 < |s| && IsDigit(s[i + 9]) then 10 else 9;
      var w := s[i..i + n];
      assert forall k | 0 <= k < n :: w[k] == s[i + k];
      n
    else 0
  }

  /** A whole id at `i`, followed by the end or a non-digit, is exactly
      what the greedy match takes. */
  lemma IdLengthOfWholeId(s: string, i: nat, k: nat)
    requires i + k <= |s| && IsArxivId(s[i..i + k])
    requires i + k == |s| || !IsDigit(s[i + k])
    ensures IdLength(s, i) == k
  {
    var w := s[i..i + k];
    assert forall m | i <= m < i + k :: s[m] == w[m - i];
  }

  /** Where the whole pattern matches at `i`: the group's bounds. With the
      optional "arXiv:" prefix the group starts six characters later. */
  function MatchAt(s: string, i: nat): (r: Option<(nat, nat)>)
    ensures r.Some? ==> i <= r.value.0 < r.value.1 <= |s|
  {
    if OccursAt("arXiv:", s, i) && IdLength(s, i + 6) > 0 then Some((i + 6, i + 6 + IdLength(s, i + 6)))
    else if IdLength(s, i) > 0 then Some((i, i + IdLength(s, i)))
    else None
  }

  /** `re.findall` from position `i`: the captured groups, left to right,
      each search resuming after the previous match. */
  function FindAll(s: string, i: nat): seq<string>
    decreases |s| - i
  {
    if i >= |s| then []
    else
      match MatchAt(s, i)
      case None => FindAll(s, i + 1)
      case Some(m) => [s[m.0..m.1]] + FindAll(s, m.1)
  }

  /** The same scan for the pattern without its optional prefix. */
  function FindIds(s: string, i: nat): seq<string>
    decreases |s| - i
  {
    if i >= |s| then []
    else if IdLength(s, i) == 0 then FindIds(s, i + 1)
    else [s[i..i + IdLength(s, i)]] + FindIds(s, i + IdLength(s, i))
  }

  /** The scan steps over the characters of "arXiv:". */
  lemma FindIdsSkipsPrefix(s: string, i: nat)
    requires OccursAt("arXiv:", s, i)
    ensures FindIds(s, i) == FindIds(s, i + 6)
  {
    var p := "arXiv:";
    var w := s[i..i + 6];
    assert w == p;
    assert forall k | 0 <= k < 6 :: w[k] == s[i + k];
    assert IdLength(s, i) == 0 && IdLength(s, i + 1) == 0 && IdLength(s, i + 2) == 0;
    assert IdLength(s, i + 3) == 0 && IdLength(s, i + 4) == 0 && IdLength(s, i + 5) == 0;
    assert FindIds(s, i) == FindIds(s, i + 1) == FindIds(s, i + 2) == FindIds(s, i + 3);
    assert FindIds(s, i + 3) == FindIds(s, i + 4) == FindIds(s, i + 5) == FindIds(s, i + 6);
  }

  /** The optional "arXiv:" prefix never changes what is captured: the
      group alone, searched the same way, yields the same list. */
  lemma {:induction false} PrefixNeverMatters(s: string, i: nat)
    ensures FindAll(s, i) == FindIds(s, i)
    decreases |s| - i
  {
    if i < |s| {
      if OccursAt("arXiv:", s, i) {
        assert !IsDigit(s[i]) by { assert s[i] == "arXiv:"[0]; }
        assert IdLength(s, i) == 0;
        FindIdsSkipsPrefix(s, i);
        if IdLength(s, i + 6) > 0 {
          PrefixNeverMatters(s, i + 6 + IdLength(s, i + 6));
        } else {
          PrefixNeverMatters(s, i + 1);
        }
      } else if IdLength(s, i) > 0 {
        PrefixNeverMatters(s, i + IdLength(s, i));
      } else {
        PrefixNeverMatters(s, i + 1);
      }
    }
  }

  /** Every captured group is an arXiv id occurring in the text. */
  lemma {:induction false} FindIdsAreIds(s: string, i: nat)
    ensures forall x | x in FindIds(s, i) :: IsArxivId(x) && Contains(s, x)
    decreases |s| - i
  {
    if i < |s| {
      var n := IdLength(s, i);
      if n == 0 {
        FindIdsAreIds(s, i + 1);
      } else {
        FindIdsAreIds(s, i + n);
        assert OccursAt(s[i..i + n], s, i);
      }
    }
  }

  /** An id whose preceding character is neither a digit nor a dot (or
      which starts the text) is found, taken greedily. */
  lemma {:induction false} FindIdsFinds(s: string, p: nat, i: nat)
    requires p <= i && IdLength(s, i) > 0
    requires i == 0 || (!IsDigit(s[i - 1]) && s[i - 1] != '.')
    ensures s[i..i + IdLength(s, i)] in FindIds(s, p)
    decreases |s| - p
  {
    if p < i {
      var n := IdLength(s, p);
      if n == 0 {
        FindIdsFinds(s, p + 1, i);
      } else if p + n <= i {
        FindIdsFinds(s, p + n, i);
      }
    }
  }

  /** Python's `<` on strings: lexicographic by code point. */
  predicate LexLess(a: string, b: string)
    decreases |a|
  {
    if a == [] then b != []
    else if b == [] then false
    else if a[0] != b[0] then a[0] < b[0]
    else LexLess(a[1..], b[1..])
  }

  lemma {:induction false} LexIrreflexive(a: string)
    ensures !LexLess(a, a)
    decreases |a|
  {
    if a != [] {
      LexIrreflexive(a[1..]);
    }
  }

  lemma {:induction false} LexTotal(a: string, b: string)
    ensures a == b || LexLess(a, b) || LexLess(b, a)
    decreases |a|
  {
    if a != [] && b != [] && a[0] == b[0] {
      LexTotal(a[1..], b[1..]);
      if a[1..] == b[1..] {
        assert a == [a[0]] + a[1..] && b == [b[0]] + b[1..];
      }
    }
  }

  lemma {:induction false} LexTransitive(a: string, b: string, c: string)
    requires LexLess(a, b) && LexLess(b, c)
    ensures LexLess(a, c)
    decreases |a|
  {
    if a != [] && a[0] == b[0] && b[0] == c[0] {
      LexTransitive(a[1..], b[1..], c[1..]);
    }
  }

  /** Strictly ascending: sorted with no duplicates. */
  predicate StrictlyAscending(xs: seq<string>) {
    forall i, j | 0 <= i < j < |xs| :: LexLess(xs[i], xs[j])
  }

  /** Adding one string to a strictly ascending list of distinct strings. */
  function Insert(x: string, ys: seq<string>): (r: seq<string>)
    requires StrictlyAscending(ys)
    ensures StrictlyAscending(r)
    ensures forall z :: z in r <==> z == x || z in ys
    decreases |ys|
  {
    if ys == [] then [x]
    else if x == ys[0] then ys
    else if LexLess(x, ys[0]) then
      assert forall j | 0 <= j < |ys| :: LexLess(x, ys[j]) by {
        forall j | 0 <= j < |ys| ensures LexLess(x, ys[j]) {
          if j > 0 { LexTransitive(x, ys[0], ys[j]); }
        }
      }
      [x] + ys
    else
      LexTotal(x, ys[0]);
      var rest := Insert(x, ys[1..]);
      assert forall z | z in rest :: LexLess(ys[0], z) by {
        forall z | z in rest ensures LexLess(ys[0], z) {
          if z != x {
            var j :| 0 <= j < |ys[1..]| && ys[1..][j] == z;
            assert ys[j + 1] == z;
          }
        }
      }
      assert forall j | 0 <= j < |rest| :: rest[j] in rest;
      [ys[0]] + rest
  }

  /** `sorted(set(xs))` */
  function SortedSet(xs: seq<string>): (r: seq<string>)
    ensures StrictlyAscending(r)
    ensures forall z :: z in r <==> z in xs
  {
    if xs == [] then [] else Insert(xs[0], SortedSet(xs[1..]))
  }

  /** A strictly ascending list holds no string twice. */
  lemma AscendingIsDistinct(xs: seq<string>)
    requires StrictlyAscending(xs)
    ensures forall i, j | 0 <= i < j < |xs| :: xs[i] != xs[j]
  {
    forall i, j | 0 <= i < j < |xs| ensures xs[i] != xs[j] {
      LexIrreflexive(xs[i]);
    }
  }

  /** `extract_references_from_text` */
  function ExtractReferences(fullText: string): seq<string> {
    SortedSet(FindAll(fullText, 0))
  }

  /** The references are strictly ascending (hence distinct), each an
      arXiv id without the prefix that occurs in the text; exactly the
      scanned ids; none for an empty text. */
  lemma ExtractReferencesProperties(fullText: string)
    ensures var r := ExtractReferences(fullText);
      && StrictlyAscending(r)
      && (forall i, j | 0 <= i < j < |r| :: r[i] != r[j])
      && (forall x | x in r :: IsArxivId(x) && !Contains(x, "arXiv:") && Contains(fullText, x))
      && (forall x :: x in r <==> x in FindAll(fullText, 0))
      && (fullText == "" ==> r == [])
  {
    var r := ExtractReferences(fullText);
    AscendingIsDistinct(r);
    PrefixNeverMatters(fullText, 0);
    FindIdsAreIds(fullText, 0);
    forall x | x in r
      ensures IsArxivId(x) && !Contains(x, "arXiv:") && Contains(fullText, x)
    {
      assert x in FindIds(fullText, 0);
      IdHasNoPrefix(x);
    }
  }

  /** An id is made of digits and a dot, so the prefix never occurs in it. */
  lemma IdHasNoPrefix(x: string)
    requires IsArxivId(x)
    ensures !Contains(x, "arXiv:")
  {
    forall i | 0 <= i <= |x| - 6
      ensures !OccursAt("arXiv:", x, i)
    {
      assert IsDigit(x[i]) || x[i] == '.';
      assert x[i..i + 6][0] == x[i];
    }
  }

  /** A whole id, at the start or after a character that is not a digit or
      a dot (a space, a colon, ...), and followed by the end or a non-digit,
      is returned. */
  lemma WholeIdIsReturned(fullText: string, i: nat, k: nat)
    requires i + k <= |fullText| && IsArxivId(fullText[i..i + k])
    requires i == 0 || (!IsDigit(fullText[i - 1]) && fullText[i - 1] != '.')
    requires i + k == |fullText| || !IsDigit(fullText[i + k])
    ensures fullText[i..i + k] in ExtractReferences(fullText)
  {
    IdLengthOfWholeId(fullText, i, k);
    FindIdsFinds(fullText, 0, i);
    PrefixNeverMatters(fullText, 0);
  }

  const ExampleText: string := "arXiv:1706.03762 and 1810.04805"

  lemma ExampleFirstMatch()
    ensures FindAll(ExampleText, 0) == ["1706.03762"] + FindAll(ExampleText, 16)
  {
    var s := ExampleText;
    assert OccursAt("arXiv:", s, 0);
    assert IdLength(s, 6) == 10;
    assert s == "arXiv:" + "1706.03762" + " and 1810.04805";
    assert s[6..16] == "1706.03762";
  }

  lemma ExampleGap()
    ensures FindAll(ExampleText, 16) == FindAll(ExampleText, 21)
  {
    var s := ExampleText;
    assert MatchAt(s, 16).None? && MatchAt(s, 17).None? && MatchAt(s, 18).None?;
    assert MatchAt(s, 19).None? && MatchAt(s, 20).None?;
  }

  lemma ExampleSecondMatch()
    ensures FindAll(ExampleText, 21) == ["1810.04805"]
  {
    var s := ExampleText;
    assert !OccursAt("arXiv:", s, 21);
    assert IdLength(s, 21) == 10;
    assert s[21..31] == "1810.04805";
    assert FindAll(s, 31) == [];
  }

  /** The documented example: the prefixed and the bare id, in order. */
  lemma ExtractReferencesExample()
    ensures ExtractReferences(ExampleText) == ["1706.03762", "1810.04805"]
  {
    ExampleFirstMatch();
    ExampleGap();
    ExampleSecondMatch();
    assert LexLess("1706.03762", "1810.04805");
    assert SortedSet(["1810.04805"]) == ["1810.04805"];
  }

  // ---------------------------------------------------------------------
  // process_and_ingest_paper, step 2.5: enrichment with fallbacks

  /** `USE_LANGGRAPH`, "true" by default, compared case-insensitively. */
  function UseLanggraph(env: Option<string>): bool {
    Lower(env.GetOr("true")) == "true"
  }

  /** The agents run unless the variable is set to something other than
      "true" in any letter case. */
  lemma UseLanggraphValues()
    ensures UseLanggraph(None) && UseLanggraph(Some("True")) && UseLanggraph(Some("TRUE"))
    ensures !UseLanggraph(Some("false")) && !UseLanggraph(Some("")) && !UseLanggraph(Some("1"))
  {
    assert Lower("True") == "true" && Lower("TRUE") == "true";
  }

  /** The collaborators of the enrichment step. `agents` and `summarizer`
      are None when building them raises (missing key or package). */
  datatype Enrichers = Enrichers(
    useLanggraph: bool,
    agents: Option<Agents.Llm>,
    summarizer: Option<string -> Result<string, string>>,
    finders: Summarizer.SectionFinders,
    alt: Summarizer.AltMatcher)

  /** The `max_length` the pipeline passes to the summarizer. */
  const SummaryMaxLength: int := 400

  datatype Tier = AgentsTier | SummarizerTier | BasicTier

  /** The tier that fills the enrichment fields: the agents when enabled,
      built and successful; else the summarizer when it could be built;
      else the basic fallback. */
  function TierOf(meta: PaperMetadata, fullText: string, e: Enrichers): Tier {
    if e.useLanggraph && e.agents.Some? && Agents.Analysis(meta, fullText, e.agents.value).Ok? then AgentsTier
    else if e.summarizer.Some? then SummarizerTier
    else BasicTier
  }

  /** The four enrichment fields set from the agents' analysis. */
  function WithAnalysis(meta: PaperMetadata, a: Agents.AnalysisResult): PaperMetadata {
    meta.(aiSummary := Some(a.aiSummary), domain := Some(a.domain),
          keyContributions := Some(a.keyContributions), methodology := Some(a.methodology))
  }

  /** The four enrichment fields set from the summarizer's four results. */
  function WithSummary(meta: PaperMetadata, s: Summarizer.Summary): PaperMetadata {
    meta.(aiSummary := Some(s.aiSummary), domain := Some(s.domain),
          keyContributions := Some(s.keyContributions), methodology := Some(s.methodology))
  }

  /** The basic fallback: the abstract as the summary, a fixed domain. */
  function WithBasics(meta: PaperMetadata): PaperMetadata {
    meta.(aiSummary := Some(meta.abstractText), domain := Some("Computer Science"))
  }

  /** The summarizer's four results with the pipeline's `max_length`. */
  function SummaryOf(meta: PaperMetadata, fullText: string, e: Enrichers): Summarizer.Summary
    requires e.summarizer.Some?
  {
    Summarizer.ComprehensiveSummary(meta, fullText, SummaryMaxLength, e.finders, e.summarizer.value, e.alt)
  }

  /** The metadata after step 2.5. */
  function Enriched(meta: PaperMetadata, fullText: string, e: Enrichers): PaperMetadata {
    match TierOf(meta, fullText, e)
    case AgentsTier => WithAnalysis(meta, Agents.Analysis(meta, fullText, e.agents.value).value)
    case SummarizerTier => WithSummary(meta, SummaryOf(meta, fullText, e))
    case BasicTier => WithBasics(meta)
  }

  /** Enrichment touches only the four enrichment fields, and it always
      leaves a summary and a domain. */
  lemma EnrichmentKeepsOtherFields(meta: PaperMetadata, fullText: string, e: Enrichers)
    ensures var m := Enriched(meta, fullText, e);
      && m.(aiSummary := meta.aiSummary, domain := meta.domain,
            keyContributions := meta.keyContributions, methodology := meta.methodology) == meta
      && m.domain.Some? && m.aiSummary.Some?
  {
  }

  /** The agents' tier gives at most four contributions and a domain with
      no surrounding whitespace. */
  lemma AgentsTierShape(meta: PaperMetadata, fullText: string, e: Enrichers)
    ensures TierOf(meta, fullText, e) == AgentsTier ==>
      var m := Enriched(meta, fullText, e);
      |m.keyContributions.value| <= 4 && Strip(m.domain.value) == m.domain.value
  {
    if TierOf(meta, fullText, e) == AgentsTier {
      Agents.AnalysisProperties(meta, fullText, e.agents.value);
    }
  }

  /** The summarizer's tier takes the domain from the keyword detector,
      whatever the language model answers. */
  lemma SummarizerTierDomain(meta: PaperMetadata, fullText: string, e: Enrichers)
    ensures TierOf(meta, fullText, e) == SummarizerTier ==>
      Enriched(meta, fullText, e).domain == Some(KeywordDomains.DetectDomain(meta.title, meta.abstractText))
  {
  }

  /** The basic fallback copies the abstract, sets "Computer Science" and
      leaves the contributions and the methodology as they were; it is
      reached only when neither the agents nor the summarizer can run. */
  lemma BasicFallback(meta: PaperMetadata, fullText: string, e: Enrichers)
    ensures TierOf(meta, fullText, e) == BasicTier <==>
      e.summarizer.None? && !(e.useLanggraph && e.agents.Some? && Agents.Analysis(meta, fullText, e.agents.value).Ok?)
    ensures TierOf(meta, fullText, e) == BasicTier ==>
      var m := Enriched(meta, fullText, e);
      && m.aiSummary == Some(meta.abstractText) && m.domain == Some("Computer Science")
      && m.keyContributions == meta.keyContributions && m.methodology == meta.methodology
  {
  }

  /** Step 2.5 as written: the agents, then on any failure the summarizer
      (the `use_langgraph` flag is turned off), then the basic fallback. */
  method Enrich(meta: PaperMetadata, fullText: string, e: Enrichers) returns (m: PaperMetadata)
    ensures m == Enriched(meta, fullText, e)
  {
    m := meta;
    var useLanggraph := e.useLanggraph;
    if useLanggraph {
      if e.agents.None? {
        useLanggraph := false;
      } else {
        var analysis := Agents.AnalyzePaper(meta, fullText, e.agents.value);
        if analysis.Err? {
          useLanggraph := false;
        } else {
          m := WithAnalysis(meta, analysis.value);
        }
      }
    }
    if !useLanggraph {
      if e.summarizer.None? {
        m := WithBasics(meta);
      } else {
        var summary := SummarizeWith(meta, fullText, e);
        m := WithSummary(meta, summary);
      }
    }
  }

  /** The summarizer's call with the pipeline's `max_length`. */
  method SummarizeWith(meta: PaperMetadata, fullText: string, e: Enrichers) returns (s: Summarizer.Summary)
    requires e.summarizer.Some?
    ensures s == SummaryOf(meta, fullText, e)
  {
    s := Summarizer.GenerateComprehensiveSummary(meta, fullText, SummaryMaxLength, e.finders, e.summarizer.value, e.alt);
  }

  // ---------------------------------------------------------------------
  // process_and_ingest_paper, step 4: embeddings

  /** The whole document text: the pages' texts joined with "". */
  function DocumentText(pages: seq<Pdf.Page>): string {
    if pages == [] then "" else pages[0].text + DocumentText(pages[1..])
  }

  /** The chunks of one type, in order (`[c for c in chunks if ...]`). */
  function OfType(chunks: seq<Pdf.Chunk>, t: ChunkType): (r: seq<Pdf.Chunk>)
    ensures |r| <= |chunks|
    ensures forall c | c in r :: c in chunks && c.chunkType == t
    ensures forall c | c in chunks && c.chunkType == t :: c in r
  {
    if chunks == [] then []
    else (if chunks[0].chunkType == t then [chunks[0]] else []) + OfType(chunks[1..], t)
  }

  /** The texts handed to the text embedder: each content, "" when absent. */
  function Contents(chunks: seq<Pdf.Chunk>): seq<string> {
    seq(|chunks|, i requires 0 <= i < |chunks| => chunks[i].content.GetOr(""))
  }

  /** A preprocessed image (an opaque tensor). */
  type Tensor = seq<real>

  /** The image side: whether open_clip and torch are importable and the
      model builds, the per-image decode and preprocess step, and the batch
      encoder. Each step may raise. */
  datatype ImageEmbedder = ImageEmbedder(
    available: bool,
    preprocess: string -> Result<Tensor, string>,
    encode: seq<Tensor> -> Result<seq<Pdf.Vector>, string>)

  /** Preprocessing every image in order; the first failure raises. */
  function PreprocessAll(chunks: seq<Pdf.Chunk>, preprocess: string -> Result<Tensor, string>): Result<seq<Tensor>, string> {
    if chunks == [] then Ok([])
    else
      match preprocess(chunks[0].imageB64.GetOr(""))
      case Err(err) => Err(err)
      case Ok(t) =>
        match PreprocessAll(chunks[1..], preprocess)
        case Err(err) => Err(err)
        case Ok(ts) => Ok([t] + ts)
  }

  /** The image vectors: none without images or without the libraries, and
      none when any step raises (the exception is swallowed). */
  function ImageVectors(chunks: seq<Pdf.Chunk>, images: ImageEmbedder): seq<Pdf.Vector> {
    if chunks == [] || !images.available then []
    else
      match PreprocessAll(chunks, images.preprocess)
      case Err(_) => []
      case Ok(ims) =>
        match images.encode(ims)
        case Err(_) => []
        case Ok(vs) => vs
  }

  /** A failure on any one image leaves no image vectors at all, and so no
      image points in the upsert; text points are unaffected. */
  lemma {:induction false} ImageFailureIsSwallowed(chunks: seq<Pdf.Chunk>, images: ImageEmbedder, k: nat,
                                                   paperId: string, textVectors: seq<Pdf.Vector>,
                                                   textChunks: seq<Pdf.Chunk>, firstId: nat)
    requires k < |chunks| && images.preprocess(chunks[k].imageB64.GetOr("")).Err?
    ensures ImageVectors(chunks, images) == []
    ensures Pdf.AssembledPoints(paperId, textVectors, textChunks, ImageVectors(chunks, images), chunks, firstId)
      == Pdf.AssembledPoints(paperId, textVectors, textChunks, [], [], firstId)
  {
    PreprocessFails(chunks, images.preprocess, k);
    var a := Pdf.AssembledPoints(paperId, textVectors, textChunks, [], chunks, firstId);
    var b := Pdf.AssembledPoints(paperId, textVectors, textChunks, [], [], firstId);
    assert |a| == |b|;
    assert forall i | 0 <= i < |a| :: a[i] == b[i];
  }

  lemma {:induction false} PreprocessFails(chunks: seq<Pdf.Chunk>, preprocess: string -> Result<Tensor, string>, k: nat)
    requires k < |chunks| && preprocess(chunks[k].imageB64.GetOr("")).Err?
    ensures PreprocessAll(chunks, preprocess).Err?
    decreases k
  {
    if k > 0 && preprocess(chunks[0].imageB64.GetOr("")).Ok? {
      assert chunks[1..][k - 1] == chunks[k];
      PreprocessFails(chunks[1..], preprocess, k - 1);
    }
  }

  /** The image block of step 4: collect the preprocessed images in a loop,
      then encode them as one batch; any exception leaves `image_vectors`
      empty. */
  method EmbedImages(chunks: seq<Pdf.Chunk>, images: ImageEmbedder) returns (vectors: seq<Pdf.Vector>)
    ensures vectors == ImageVectors(chunks, images)
  {
    vectors := [];
    if chunks == [] || !images.available {
      return;
    }
    var ims: seq<Tensor> := [];
    assert chunks[0..] == chunks;
    ghost var all := PreprocessAll(chunks, images.preprocess);
    if all.Ok? {
      assert [] + all.value == all.value;
    }
    for i := 0 to |chunks|
      invariant PreprocessAll(chunks, images.preprocess) == PrependedTensors(ims, PreprocessAll(chunks[i..], images.preprocess))
    {
      assert chunks[i..][1..] == chunks[i + 1..];
      var im := images.preprocess(chunks[i].imageB64.GetOr(""));
      if im.Err? {
        return;
      }
      PrependedTensorsAppend(ims, [im.value], PreprocessAll(chunks[i + 1..], images.preprocess));
      ims := ims + [im.value];
    }
    assert chunks[|chunks|..] == [];
    assert ims + [] == ims;
    var feats := images.encode(ims);
    if feats.Ok? {
      vectors := feats.value;
    }
  }

  function PrependedTensors(prefix: seq<Tensor>, r: Result<seq<Tensor>, string>): Result<seq<Tensor>, string> {
    match r
    case Err(err) => Err(err)
    case Ok(ts) => Ok(prefix + ts)
  }

  lemma PrependedTensorsAppend(a: seq<Tensor>, b: seq<Tensor>, r: Result<seq<Tensor>, string>)
    ensures PrependedTensors(a, PrependedTensors(b, r)) == PrependedTensors(a + b, r)
  {
    if r.Ok? {
      assert a + (b + r.value) == a + b + r.value;
    }
  }

  // ---------------------------------------------------------------------
  // backfill_cited_papers_metadata

  /** The number of incomplete ids requested per sweep. */
  const BackfillLimit: nat := 20

  /** A valid answer of `get_incomplete_cited_papers(limit=20)`. */
  ghost predicate IncompleteRequest(g: GraphState, ids: seq<string>) {
    && |ids| == Min(BackfillLimit, |IncompleteIds(g)|)
    && (forall k | k in ids :: k in g.nodes && !IsComplete(g.nodes[k]))
    && (forall i, j | 0 <= i < j < |ids| :: ids[i] != ids[j])
  }

  /** What the sweep writes back: the fetched metadata when the request is
      non-empty and the fetch succeeds with a non-empty list. */
  function SweepWrite(ids: seq<string>, fetch: seq<string> -> Result<seq<PaperMetadata>, string>): Option<seq<PaperMetadata>> {
    if ids != [] && fetch(ids).Ok? && fetch(ids).value != [] then Some(fetch(ids).value) else None
  }

  function SweptState(g: GraphState, written: Option<seq<PaperMetadata>>): GraphState {
    match written
    case None => g
    case Some(ps) => BackfillState(g, ps)
  }

  /** A sweep never adds or removes a node or an edge, and it leaves a
      complete node complete. */
  lemma SweepKeepsShape(g: GraphState, ids: seq<string>, fetch: seq<string> -> Result<seq<PaperMetadata>, string>)
    ensures var r := SweptState(g, SweepWrite(ids, fetch));
      r.nodes.Keys == g.nodes.Keys && r.edges == g.edges
      && (WellFormed(g) ==> WellFormed(r))
  {
  }

  /** One call to the fetcher and its outcome, as the sweep saw it. */
  datatype Sweep = Sweep(requested: seq<string>, fetched: bool, written: Option<seq<PaperMetadata>>)

  /** `backfill_cited_papers_metadata`: request up to 20 incomplete ids;
      with none, stop before fetching; otherwise fetch them and write back a
      non-empty result. Fetch failures are swallowed. */
  method BackfillCitedPapers(graph: CitationGraph, fetch: seq<string> -> Result<seq<PaperMetadata>, string>)
    returns (sweep: Sweep)
    requires graph.Valid()
    modifies graph
    ensures graph.Valid()
    ensures IncompleteRequest(old(graph.State()), sweep.requested)
    ensures sweep.fetched <==> sweep.requested != []
    ensures sweep.written == SweepWrite(sweep.requested, fetch)
    ensures graph.State() == SweptState(old(graph.State()), sweep.written)
  {
    var ids := graph.GetIncompleteCitedPapers(BackfillLimit);
    if ids == [] {
      return Sweep([], false, None);
    }
    var papers := fetch(ids);
    if papers.Ok? && papers.value != [] {
      graph.BackfillPapersMetadata(papers.value);
      return Sweep(ids, true, Some(papers.value));
    }
    sweep := Sweep(ids, true, None);
  }

  // ---------------------------------------------------------------------
  // process_and_ingest_paper

  /** A write to the graph or to the vector store, as issued. */
  datatype Write =
    | PaperAdded(paper: PaperMetadata)
    | CitationsAdded(src: string, cited: seq<string>)
    | CollectionEnsured(name: string, textSize: int, imageSize: int)
    | ChunksUpserted(name: string, paperId: string)
    | MetadataBackfilled(papers: seq<PaperMetadata>)

  /** The collaborators of one ingestion. `download` yields the parsed
      PDF's pages or raises; `textEmbed` embeds a batch of texts or raises;
      `textDim` is the dimension read off the text vectors; `lookupRaises`
      says whether the collection lookup raises. */
  datatype Collaborators = Collaborators(
    download: string -> Result<seq<Pdf.Page>, string>,
    enrichers: Enrichers,
    textEmbed: seq<string> -> Result<seq<Pdf.Vector>, string>,
    images: ImageEmbedder,
    textDim: int,
    lookupRaises: bool,
    fetch: seq<string> -> Result<seq<PaperMetadata>, string>)

  /** The collection the pipeline writes to and its image vector size. */
  const Collection: string := "papers"
  const ImageVectorSize: int := 512

  /** The metadata written to the graph: references from the text, then
      enrichment. */
  function IngestedMetadata(meta: PaperMetadata, pages: seq<Pdf.Page>, e: Enrichers): PaperMetadata {
    Enriched(meta.(references := ExtractReferences(DocumentText(pages))), DocumentText(pages), e)
  }

  /** The text chunks of the parsed pages, in order. */
  function TextChunks(pages: seq<Pdf.Page>, paperId: string): seq<Pdf.Chunk> {
    OfType(Pdf.DocumentChunks(pages, paperId), Text)
  }

  /** The image chunks of the parsed pages, in order. */
  function ImageChunks(pages: seq<Pdf.Page>, paperId: string): seq<Pdf.Chunk> {
    OfType(Pdf.DocumentChunks(pages, paperId), Image)
  }

  /** The points step 4 upserts for the paper, ids drawn from `firstId`. */
  function IngestedPoints(pages: seq<Pdf.Page>, paperId: string, textVectors: seq<Pdf.Vector>,
                          images: ImageEmbedder, firstId: nat): seq<Pdf.Point> {
    Pdf.AssembledPoints(paperId, textVectors, TextChunks(pages, paperId),
                        ImageVectors(ImageChunks(pages, paperId), images), ImageChunks(pages, paperId), firstId)
  }

  /** The store after step 4 succeeds: the collection ensured, then the
      ingested points appended to its list. */
  function StoreAfterIngest(s0: Pdf.StoreState, pages: seq<Pdf.Page>, paperId: string,
                            textVectors: seq<Pdf.Vector>, c: Collaborators, firstId: nat): Pdf.StoreState {
    var ensured := Pdf.EnsureCollectionState(s0, Collection, c.textDim, ImageVectorSize, c.lookupRaises);
    var before := if Collection in ensured.points then ensured.points[Collection] else [];
    Pdf.StoreState(ensured.collections,
                   ensured.points[Collection := before + IngestedPoints(pages, paperId, textVectors, c.images, firstId)])
  }

  /** Ingesting a paper adds at most the collection "papers", leaves every
      other collection's points alone, and ends the papers list with the
      paper's points; an existing, reachable collection keeps its earlier
      points in front of them. */
  lemma StoreAfterIngestProperties(s0: Pdf.StoreState, pages: seq<Pdf.Page>, paperId: string,
                                   textVectors: seq<Pdf.Vector>, c: Collaborators, firstId: nat)
    requires s0.collections.Keys == s0.points.Keys
    ensures var r := StoreAfterIngest(s0, pages, paperId, textVectors, c, firstId);
      var pts := IngestedPoints(pages, paperId, textVectors, c.images, firstId);
      && r.collections.Keys == r.points.Keys == s0.collections.Keys + {Collection}
      && |r.points[Collection]| >= |pts| && r.points[Collection][|r.points[Collection]| - |pts|..] == pts
      && (forall k | k in s0.points && k != Collection :: r.points[k] == s0.points[k])
      && (!c.lookupRaises && Collection in s0.collections ==> r.points[Collection] == s0.points[Collection] + pts)
      && (c.lookupRaises || Collection !in s0.collections ==> r.points[Collection] == pts)
  {
    var ensured := Pdf.EnsureCollectionState(s0, Collection, c.textDim, ImageVectorSize, c.lookupRaises);
    var pts := IngestedPoints(pages, paperId, textVectors, c.images, firstId);
    assert ensured.collections.Keys == ensured.points.Keys;
    var before := ensured.points[Collection];
    assert (before + pts)[|before + pts| - |pts|..] == pts;
    if c.lookupRaises || Collection !in s0.collections {
      assert before == [];
      assert before + pts == pts;
    }
  }

  /** Step 4: chunk, embed the texts (a failure raises, before any store
      write), embed the images (a failure is swallowed), make sure the
      collection exists and upsert the points into it. */
  method WriteToStore(pages: seq<Pdf.Page>, paperId: string, store: Pdf.VectorStore, c: Collaborators)
    returns (r: Result<(), string>)
    requires store.Valid()
    modifies store
    ensures store.Valid()
    ensures c.textEmbed(Contents(TextChunks(pages, paperId))).Err? ==>
      r.Err? && store.State() == old(store.State())
    ensures c.textEmbed(Contents(TextChunks(pages, paperId))).Ok? ==>
      var ensured := Pdf.EnsureCollectionState(old(store.State()), Collection, c.textDim, ImageVectorSize, c.lookupRaises);
      var pts := IngestedPoints(pages, paperId, c.textEmbed(Contents(TextChunks(pages, paperId))).value, c.images, old(store.issued));
      && r.Ok?
      && store.collections == ensured.collections
      && store.points == ensured.points[Collection := ensured.points[Collection] + pts]
      && store.State() == StoreAfterIngest(old(store.State()), pages, paperId,
                                           c.textEmbed(Contents(TextChunks(pages, paperId))).value, c, old(store.issued))
  {
    var chunks := Pdf.ExtractChunks(pages, paperId);
    var textChunks := OfType(chunks, Text);
    var imageChunks := OfType(chunks, Image);
    var textVectors := c.textEmbed(Contents(textChunks));
    if textVectors.Err? {
      return Err(textVectors.error);
    }
    var imageVectors := EmbedImages(imageChunks, c.images);
    store.EnsureCollection(Collection, c.textDim, ImageVectorSize, c.lookupRaises);
    ghost var ensured := store.State();
    var upserted := Pdf.UpsertChunks(store, Collection, paperId, textVectors.value, textChunks, imageVectors, imageChunks);
    ghost var pts := Pdf.AssembledPoints(paperId, textVectors.value, textChunks, imageVectors, imageChunks, old(store.issued));
    if pts == [] {
      assert ensured.points[Collection] + pts == ensured.points[Collection];
      assert ensured.points[Collection := ensured.points[Collection]] == ensured.points;
    }
    r := Ok(());
  }

  /** What the sweep at the end of an ingestion may have done, from the
      graph state it started in: some valid request of incomplete ids, the
      resulting graph state, and the backfill write it issued if any. */
  ghost predicate SweptBy(before: GraphState, after: GraphState, fetch: seq<string> -> Result<seq<PaperMetadata>, string>,
                          tail: seq<Write>) {
    exists ids | IncompleteRequest(before, ids) ::
      && after == SweptState(before, SweepWrite(ids, fetch))
      && tail == (if SweepWrite(ids, fetch).Some? then [MetadataBackfilled(SweepWrite(ids, fetch).value)] else [])
  }

  /** Steps 4 and 5 for a paper already in the graph: embed and upsert its
      chunks, then sweep the backfill. A text-embedding failure raises
      before any store write and skips the sweep. `writes` is a trace the
      method reports about itself; the store's new state is stated beside
      it, and the graph's through `SweptBy`. */
  method StoreAndSweep(pages: seq<Pdf.Page>, paperId: string, graph: CitationGraph, store: Pdf.VectorStore,
                       c: Collaborators) returns (r: Result<(), string>, writes: seq<Write>)
    requires graph.Valid() && store.Valid()
    modifies graph, store
    ensures graph.Valid() && store.Valid()
    ensures c.textEmbed(Contents(TextChunks(pages, paperId))).Err? ==>
      r.Err? && writes == [] && graph.State() == old(graph.State()) && store.State() == old(store.State())
    ensures c.textEmbed(Contents(TextChunks(pages, paperId))).Ok? ==>
      && r.Ok? && |writes| >= 2
      && writes[..2] == [CollectionEnsured(Collection, c.textDim, ImageVectorSize), ChunksUpserted(Collection, paperId)]
      && store.State() == StoreAfterIngest(old(store.State()), pages, paperId,
                                           c.textEmbed(Contents(TextChunks(pages, paperId))).value, c, old(store.issued))
      && SweptBy(old(graph.State()), graph.State(), c.fetch, writes[2..])
  {
    writes := [];
    var stored := WriteToStore(pages, paperId, store, c);
    if stored.Err? {
      return Err(stored.error), writes;
    }
    writes := [CollectionEnsured(Collection, c.textDim, ImageVectorSize), ChunksUpserted(Collection, paperId)];
    var sweep := BackfillCitedPapers(graph, c.fetch);
    if sweep.written.Some? {
      writes := writes + [MetadataBackfilled(sweep.written.value)];
    }
    assert writes[2..] == (if sweep.written.Some? then [MetadataBackfilled(sweep.written.value)] else []);
    r := Ok(());
  }

  /** The outcome of steps 3 to 5 for the enriched record `m`, from graph
      state `g0` and store state `s0`, with point ids drawn from `firstId`,
      to `g` and `s`: the paper node and its
      citation edges are written first; a text-embedding failure then
      raises and leaves the store alone; otherwise the collection is
      ensured, the chunks upserted and the backfill swept. */
  ghost predicate PagesIngested(g0: GraphState, s0: Pdf.StoreState, firstId: nat, m: PaperMetadata, pages: seq<Pdf.Page>,
                                c: Collaborators, r: Result<(), string>, writes: seq<Write>,
                                g: GraphState, s: Pdf.StoreState) {
    var afterGraph := CitationsState(AddPaperState(g0, m), m.arxivId, m.references);
    && |writes| >= 2 && writes[..2] == [PaperAdded(m), CitationsAdded(m.arxivId, m.references)]
    && (c.textEmbed(Contents(TextChunks(pages, m.arxivId))).Err? ==>
          r.Err? && |writes| == 2 && g == afterGraph && s == s0)
    && (c.textEmbed(Contents(TextChunks(pages, m.arxivId))).Ok? ==>
          && r.Ok? && |writes| >= 4
          && writes[2..4] == [CollectionEnsured(Collection, c.textDim, ImageVectorSize), ChunksUpserted(Collection, m.arxivId)]
          && s == StoreAfterIngest(s0, pages, m.arxivId, c.textEmbed(Contents(TextChunks(pages, m.arxivId))).value, c, firstId)
          && SweptBy(afterGraph, g, c.fetch, writes[4..]))
  }

  /** Steps 3 to 5 for an enriched record. As in `StoreAndSweep`, the
      `writes` trace is reported by the method itself; `PagesIngested`
      states the new graph and store states. */
  method IngestPages(m: PaperMetadata, pages: seq<Pdf.Page>, graph: CitationGraph, store: Pdf.VectorStore,
                     c: Collaborators) returns (r: Result<(), string>, writes: seq<Write>)
    requires graph.Valid() && store.Valid()
    modifies graph, store
    ensures graph.Valid() && store.Valid()
    ensures PagesIngested(old(graph.State()), old(store.State()), old(store.issued), m, pages, c, r, writes,
                          graph.State(), store.State())
  {
    graph.AddPaper(m);
    graph.AddCitations(m.arxivId, m.references);
    var tail;
    r, tail := StoreAndSweep(pages, m.arxivId, graph, store, c);
    writes := [PaperAdded(m), CitationsAdded(m.arxivId, m.references)] + tail;
    if r.Ok? {
      assert writes[2..4] == tail[..2];
      assert writes[4..] == tail[2..];
    }
  }

  /** `process_and_ingest_paper`: download, extract references, enrich,
      write the paper and its citations to the graph, embed and upsert the
      chunks, then sweep the backfill. `m` is the caller's record after the
      call (the original updates it in place, so a later failure leaves it
      updated); `writes` lists the store writes in the order issued, as the
      method reports them, beside the clauses on the stores' states. A
      download or text-embedding failure raises; an image-embedding
      failure does not. */
  method Ingest(meta: PaperMetadata, graph: CitationGraph, store: Pdf.VectorStore, c: Collaborators)
    returns (r: Result<(), string>, m: PaperMetadata, writes: seq<Write>)
    requires graph.Valid() && store.Valid()
    modifies graph, store
    ensures graph.Valid() && store.Valid()
    ensures c.download(meta.pdfUrl).Err? ==>
      r.Err? && m == meta && writes == [] && graph.State() == old(graph.State()) && store.State() == old(store.State())
    ensures c.download(meta.pdfUrl).Ok? ==>
      && m == IngestedMetadata(meta, c.download(meta.pdfUrl).value, c.enrichers)
      && PagesIngested(old(graph.State()), old(store.State()), old(store.issued), m, c.download(meta.pdfUrl).value,
                       c, r, writes, graph.State(), store.State())
  {
    m := meta;
    var pdf := c.download(meta.pdfUrl);
    if pdf.Err? {
      return Err(pdf.error), m, [];
    }
    var fullText := DocumentText(pdf.value);
    m := Enrich(meta.(references := ExtractReferences(fullText)), fullText, c.enrichers);
    r, writes := IngestPages(m, pdf.value, graph, store, c);
  }
}
