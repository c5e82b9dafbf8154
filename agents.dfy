/** The six-stage paper analysis (rag/agents.py). Every stage reads and
    updates one analysis state; five of them ask the LLM, which is an
    oracle that answers a prompt or raises. */
module Agents {

  import opened Wrappers
  import opened Strings
  import opened Models

  // ---------------------------------------------------------------------
  // _parse_sections_response

  /** The five headers the sections parser recognises. */
  const SectionHeaders: seq<string> := ["ABSTRACT", "INTRODUCTION", "METHODOLOGY", "RESULTS", "CONCLUSION"]

  /** The header a (stripped) line opens: the text before its first ':',
      stripped and uppercased, when that is one of the five headers. */
  function HeaderOf(line: string): (r: Option<string>)
    ensures r.Some? ==> r.value in SectionHeaders && ':' in line
  {
    if ':' in line then
      var h := Upper(Strip(SplitOnce(line, ':').0));
      if h in SectionHeaders then Some(h) else None
    else None
  }

  /** `line.startswith(("ABSTRACT:", ..., "CONCLUSION:"))` */
  predicate StartsWithHeaderColon(line: string) {
    exists h | h in SectionHeaders :: IsPrefix(h + ":", line)
  }

  /** The parser's running state: the dictionary and `current_section`. */
  datatype SectionsParse = SectionsParse(sections: map<string, string>, current: Option<string>)

  /** One iteration of the loop over the response's lines. */
  function SectionsStep(st: SectionsParse, rawLine: string): SectionsParse {
    var line := Strip(rawLine);
    match HeaderOf(line)
    case Some(h) =>
      var value := Strip(SplitOnce(line, ':').1.GetOr(""));
      SectionsParse(if value != "NOT_FOUND" then st.sections[h := value] else st.sections, Some(h))
    case None =>
      if st.current.Some? && line != "" && !StartsWithHeaderColon(line) then
        var cur := st.current.value;
        if cur in st.sections then SectionsParse(st.sections[cur := st.sections[cur] + " " + line], st.current)
        else SectionsParse(st.sections[cur := line], st.current)
      else st
  }

  /** The parser's state before the first line. */
  const NoSections := SectionsParse(map[], None)

  /** The state after the given lines, starting from `st`. */
  function SectionsFrom(st: SectionsParse, lines: seq<string>): SectionsParse
    decreases |lines|
  {
    if lines == [] then st else SectionsFrom(SectionsStep(st, lines[0]), lines[1..])
  }

  /** What `_parse_sections_response` returns. */
  function ParsedSections(response: string): map<string, string> {
    SectionsFrom(NoSections, Split(response, '\n')).sections
  }

  /** Only header keys in the dictionary, and the current section a header. */
  predicate HeaderKeyed(st: SectionsParse) {
    && (forall k | k in st.sections :: k in SectionHeaders)
    && (st.current.Some? ==> st.current.value in SectionHeaders)
  }

  /** The parser only ever creates the five header keys, and the current
      section is always one of them. */
  lemma {:induction false} SectionsKeysAreHeaders(st: SectionsParse, lines: seq<string>)
    requires HeaderKeyed(st)
    ensures HeaderKeyed(SectionsFrom(st, lines))
    decreases |lines|
  {
    if lines != [] {
      SectionsKeysAreHeaders(SectionsStep(st, lines[0]), lines[1..]);
    }
  }

  /** Lines before the first header are ignored: as long as no line opens
      a section, nothing is recorded. */
  lemma {:induction false} NothingBeforeFirstHeader(lines: seq<string>)
    requires forall i | 0 <= i < |lines| :: HeaderOf(Strip(lines[i])).None?
    ensures SectionsFrom(NoSections, lines) == NoSections
    decreases |lines|
  {
    if lines != [] {
      NothingBeforeFirstHeader(lines[1..]);
    }
  }

  /** A word of capital letters is its own stripped, uppercased form. */
  lemma CapitalWord(w: string)
    requires w != [] && forall i | 0 <= i < |w| :: 'A' <= w[i] <= 'Z'
    ensures ':' !in w && Upper(Strip(w)) == w
  {
    assert TrimLeft(w) == w;
    assert TrimRight(w) == w;
    assert Upper(w) == w;
  }

  /** The headers are written in capitals without spaces or colons. */
  lemma HeaderIsCanonical(h: string)
    requires h in SectionHeaders
    ensures ':' !in h && Upper(Strip(h)) == h
  {
    if h == "ABSTRACT" { CapitalWord(h); }
    else if h == "INTRODUCTION" { CapitalWord(h); }
    else if h == "METHODOLOGY" { CapitalWord(h); }
    else if h == "RESULTS" { CapitalWord(h); }
    else { CapitalWord(h); }
  }

  /** A line that starts with `w + ":"`, where `w` has no colon, splits at
      that colon. */
  lemma SplitAfterWord(w: string, line: string)
    requires ':' !in w && IsPrefix(w + ":", line)
    ensures ':' in line && SplitOnce(line, ':').0 == w
  {
    assert line[..|w| + 1] == w + ":";
    assert line[|w|] == ':';
    assert forall i | 0 <= i < |w| :: line[i] == w[i] by {
      assert forall i | 0 <= i < |w| :: line[..|w| + 1][i] == w[i];
    }
    assert IndexOf(line, ':') == |w|;
    assert line[..|w|] == w;
  }

  /** A header written in capitals is recognised as such. */
  lemma HeaderIsRecognised(h: string, line: string)
    requires h in SectionHeaders && IsPrefix(h + ":", line)
    ensures HeaderOf(line) == Some(h)
  {
    HeaderIsCanonical(h);
    SplitAfterWord(h, line);
  }

  /** The `startswith` guard of the continuation branch never fails: a
      line starting with "HEADER:" always takes the header branch. */
  lemma StartsWithGuardIsRedundant(line: string)
    ensures StartsWithHeaderColon(line) ==> HeaderOf(line).Some?
  {
    if StartsWithHeaderColon(line) {
      var h :| h in SectionHeaders && IsPrefix(h + ":", line);
      HeaderIsRecognised(h, line);
    }
  }

  /** A header whose value is NOT_FOUND records nothing, yet it becomes
      the current section, so the lines after it are appended to it. */
  lemma NotFoundSetsNoEntry(st: SectionsParse, rawLine: string, h: string)
    requires HeaderOf(Strip(rawLine)) == Some(h)
    requires Strip(SplitOnce(Strip(rawLine), ':').1.GetOr("")) == "NOT_FOUND"
    ensures SectionsStep(st, rawLine).sections == st.sections
    ensures SectionsStep(st, rawLine).current == Some(h)
  {
  }

  /** A header with any other value records that value, replacing what an
      earlier line under the same header left there. */
  lemma HeaderValueOverwrites(st: SectionsParse, rawLine: string, h: string)
    requires HeaderOf(Strip(rawLine)) == Some(h)
    requires Strip(SplitOnce(Strip(rawLine), ':').1.GetOr("")) != "NOT_FOUND"
    ensures h in SectionsStep(st, rawLine).sections
    ensures SectionsStep(st, rawLine).sections[h] == Strip(SplitOnce(Strip(rawLine), ':').1.GetOr(""))
    ensures forall k | k in st.sections && k != h :: k in SectionsStep(st, rawLine).sections && SectionsStep(st, rawLine).sections[k] == st.sections[k]
    ensures SectionsStep(st, rawLine).current == Some(h)
  {
  }

  /** A non-empty line that is not a header continues the current
      section: it is appended after one space, and nothing else changes. */
  lemma ContinuationAppends(st: SectionsParse, rawLine: string)
    requires HeaderOf(Strip(rawLine)).None? && Strip(rawLine) != ""
    requires st.current.Some? && st.current.value in st.sections
    ensures SectionsStep(st, rawLine).sections == st.sections[st.current.value := st.sections[st.current.value] + " " + Strip(rawLine)]
    ensures SectionsStep(st, rawLine).current == st.current
  {
    StartsWithGuardIsRedundant(Strip(rawLine));
  }

  /** `_parse_sections_response`: the response split into lines. */
  method ParseSectionsResponse(response: string) returns (sections: map<string, string>)
    ensures sections == ParsedSections(response)
    ensures forall k | k in sections :: k in SectionHeaders
  {
    var lines := Split(response, '\n');
    sections := ParseSectionLines(lines);
    SectionsKeysAreHeaders(NoSections, lines);
  }

  /** The loop of `_parse_sections_response`, with its running
      `current_section`. */
  method ParseSectionLines(lines: seq<string>) returns (sections: map<string, string>)
    ensures sections == SectionsFrom(NoSections, lines).sections
  {
    sections := map[];
    var current: Option<string> := None;
    for i := 0 to |lines|
      invariant SectionsFrom(SectionsParse(sections, current), lines[i..]) == SectionsFrom(NoSections, lines)
    {
      assert lines[i..][1..] == lines[i + 1..];
      var line := Strip(lines[i]);
      var header := HeaderOf(line);
      if header.Some? {
        var parts := SplitOnce(line, ':');
        current := header;
        var value := Strip(parts.1.GetOr(""));
        if value != "NOT_FOUND" {
          sections := sections[header.value := value];
        }
      } else if current.Some? && line != "" && !StartsWithHeaderColon(line) {
        if current.value in sections {
          sections := sections[current.value := sections[current.value] + " " + line];
        } else {
          sections := sections[current.value := line];
        }
      }
    }
  }

  // ---------------------------------------------------------------------
  // _parse_contributions_response

  /** A numbered or bulleted line: it starts with a digit, '-' or '•'. */
  predicate IsItemLine(line: string) {
    line != "" && (IsDigit(line[0]) || line[0] == '-' || line[0] == '•')
  }

  /** The characters `lstrip('0123456789.-• ')` removes. */
  predicate IsBulletChar(c: char) {
    IsDigit(c) || c == '.' || c == '-' || c == '•' || c == ' '
  }

  /** `s.lstrip('0123456789.-• ')` */
  function LStripBullets(s: string): (r: string)
    ensures |r| <= |s|
    ensures r == [] || !IsBulletChar(r[0])
  {
    if s == [] || !IsBulletChar(s[0]) then s else LStripBullets(s[1..])
  }

  /** What `lstrip` leaves is a suffix of `s`, and everything it removed
      is a bullet character. */
  lemma {:induction false} LStripBulletsIsSuffix(s: string)
    ensures LStripBullets(s) == s[|s| - |LStripBullets(s)|..]
    ensures forall i | 0 <= i < |s| - |LStripBullets(s)| :: IsBulletChar(s[i])
  {
    if s != [] && IsBulletChar(s[0]) {
      LStripBulletsIsSuffix(s[1..]);
      assert s[1..][|s| - 1 - |LStripBullets(s)|..] == s[|s| - |LStripBullets(s)|..];
    }
  }

  /** The item a line contributes, if any: a stripped item line with its
      numbering and bullets removed, stripped again, when that is longer
      than 10 characters. */
  function ItemOf(rawLine: string): Option<string> {
    var line := Strip(rawLine);
    var cleaned := Strip(LStripBullets(line));
    if IsItemLine(line) && |cleaned| > 10 then Some(cleaned) else None
  }

  /** An item is stripped and longer than 10 characters. */
  lemma ItemIsStripped(rawLine: string)
    ensures ItemOf(rawLine).Some? ==> |ItemOf(rawLine).value| > 10 && Strip(ItemOf(rawLine).value) == ItemOf(rawLine).value
  {
    StripIdempotent(LStripBullets(Strip(rawLine)));
  }

  /** The items a per-line rule `f` picks from the lines, in order. */
  function Collected(lines: seq<string>, f: string -> Option<string>): seq<string>
    decreases |lines|
  {
    if lines == [] then [] else Found(f(lines[0])) + Collected(lines[1..], f)
  }

  /** The contribution items of the given lines, in order. */
  function ItemsOf(lines: seq<string>): seq<string> {
    Collected(lines, ItemOf)
  }

  /** What one line adds to the items: nothing, or its item. */
  function Found(item: Option<string>): seq<string> {
    match item
    case Some(c) => [c]
    case None => []
  }


  /** The first four items. */
  function FirstItems(lines: seq<string>): seq<string> {
    var items := ItemsOf(lines);
    if |items| <= 4 then items else items[..4]
  }

  /** What `_parse_contributions_response` returns. */
  function ParsedContributions(response: string): seq<string> {
    FirstItems(Split(response, '\n'))
  }

  /** Every item is the item of one of the lines. */
  lemma {:induction false} ItemsComeFromLines(lines: seq<string>)
    ensures forall c | c in ItemsOf(lines) :: exists line | line in lines :: ItemOf(line) == Some(c)
    decreases |lines|
  {
    if lines != [] {
      ItemsComeFromLines(lines[1..]);
      forall c | c in ItemsOf(lines)
        ensures exists line | line in lines :: ItemOf(line) == Some(c)
      {
        if c in ItemsOf(lines[1..]) {
          var line :| line in lines[1..] && ItemOf(line) == Some(c);
          assert line in lines;
        } else {
          assert ItemOf(lines[0]) == Some(c);
          assert lines[0] in lines;
        }
      }
    }
  }

  /** At most four contributions, each stripped, longer than 10 characters,
      and the item of one of the lines. */
  lemma FirstItemsProperties(lines: seq<string>)
    ensures |FirstItems(lines)| <= 4
    ensures forall c | c in FirstItems(lines) ::
      |c| > 10 && Strip(c) == c && exists line | line in lines :: ItemOf(line) == Some(c)
  {
    ItemsComeFromLines(lines);
    var items := ItemsOf(lines);
    assert forall c | c in FirstItems(lines) :: c in items;
    forall c | c in FirstItems(lines)
      ensures |c| > 10 && Strip(c) == c
    {
      var line :| line in lines && ItemOf(line) == Some(c);
      ItemIsStripped(line);
    }
  }

  /** `_parse_contributions_response`: the response split into lines, the
      first four items kept. */
  method ParseContributionsResponse(response: string) returns (contributions: seq<string>)
    ensures contributions == ParsedContributions(response)
  {
    var lines := Split(response, '\n');
    var found := ContributionLines(lines);
    contributions := if |found| <= 4 then found else found[..4];
  }

  /** The appending loop of `_parse_contributions_response`. */
  method ContributionLines(lines: seq<string>) returns (found: seq<string>)
    ensures found == ItemsOf(lines)
  {
    found := CollectItems(lines, ItemOf);
  }

  /** The loop over the lines, appending each line's item when it has one. */
  method CollectItems(lines: seq<string>, f: string -> Option<string>) returns (found: seq<string>)
    ensures found == Collected(lines, f)
  {
    found := [];
    for i := 0 to |lines|
      invariant found + Collected(lines[i..], f) == Collected(lines, f)
    {
      CollectedStep(lines, i, f);
      ghost var before := found;
      var item := f(lines[i]);
      if item.Some? {
        found := found + [item.value];
      }
      AppendAssoc(before, Found(item), Collected(lines[i + 1..], f));
    }
  }

  /** From line `i` on: the item of line `i`, then those after it. */
  lemma CollectedStep(lines: seq<string>, i: nat, f: string -> Option<string>)
    requires i < |lines|
    ensures Collected(lines[i..], f) == Found(f(lines[i])) + Collected(lines[i + 1..], f)
  {
    assert lines[i..][1..] == lines[i + 1..];
  }

  // ---------------------------------------------------------------------
  // _quality_assessment_agent

  /** The four entries of `confidence_scores`. */
  datatype ConfidenceScores = ConfidenceScores(domain: real, methodology: real, contributions: real, summary: real)

  /** The threshold table of the quality stage. */
  function ScoreConfidence(domain: string, methodology: string, contributions: seq<string>, summary: string): (r: ConfidenceScores)
    ensures r.domain == 0.9 <==> domain != "" && domain != "NOT_FOUND"
    ensures r.domain == 0.3 <==> !(domain != "" && domain != "NOT_FOUND")
    ensures r.methodology == 0.8 <==> |methodology| > 50
    ensures r.methodology == 0.4 <==> |methodology| <= 50
    ensures r.contributions == 0.9 <==> |contributions| >= 2
    ensures r.contributions == 0.5 <==> |contributions| < 2
    ensures r.summary == 0.8 <==> 200 <= |summary| <= 400
    ensures r.summary == 0.6 <==> !(200 <= |summary| <= 400)
  {
    ConfidenceScores(
      if domain != "" && domain != "NOT_FOUND" then 0.9 else 0.3,
      if |methodology| > 50 then 0.8 else 0.4,
      if |contributions| >= 2 then 0.9 else 0.5,
      if 200 <= |summary| <= 400 then 0.8 else 0.6)
  }

  // ---------------------------------------------------------------------
  // The stages

  /** The stages in workflow order, START to END. */
  datatype Stage = ExtractSections | AnalyzeDomain | ExtractMethodology
                 | IdentifyContributions | GenerateSummary | QualityAssessment

  const StageOrder: seq<Stage> :=
    [ExtractSections, AnalyzeDomain, ExtractMethodology, IdentifyContributions, GenerateSummary, QualityAssessment]

  /** The human messages the stages append, in the order they do. */
  datatype Message =
    | SectionsExtracted(count: nat)
    | DomainClassified(domain: string)
    | MethodologyExtracted(preview: string)
    | ContributionsIdentified(count: nat)
    | SummaryGenerated(length: nat)
    | QualityAssessed

  /** The stage that appends a message. */
  function MessageStage(m: Message): Stage {
    match m
    case SectionsExtracted(_) => ExtractSections
    case DomainClassified(_) => AnalyzeDomain
    case MethodologyExtracted(_) => ExtractMethodology
    case ContributionsIdentified(_) => IdentifyContributions
    case SummaryGenerated(_) => GenerateSummary
    case QualityAssessed => QualityAssessment
  }

  /** The inputs each LLM stage formats into its prompt. */
  datatype Prompt =
    | SectionsPrompt(title: string, fullText: string)
    | DomainPrompt(title: string, abstractText: string, methodology: string)
    | MethodologyPrompt(title: string, abstractText: string, methodologySection: string, introduction: string)
    | ContributionsPrompt(title: string, abstractText: string, introduction: string, conclusion: string)
    | SummaryPrompt(title: string, domain: string, abstractText: string, methodology: string, contributions: string)

  /** `llm.invoke`: the answer's content, or the exception's message. */
  type Llm = Prompt -> Result<string, string>

  /** `state["extracted_sections"].get(key, "")` */
  function Get(sections: map<string, string>, key: string): string {
    if key in sections then sections[key] else ""
  }

  /** The mutable part of `PaperAnalysisState`. */
  datatype Snapshot = Snapshot(
    sections: map<string, string>,
    aiSummary: string,
    domain: string,
    keyContributions: seq<string>,
    methodology: string,
    confidenceScores: Option<ConfidenceScores>,
    messages: seq<Message>)

  /** The initial state of `analyze_paper`. */
  const InitialSnapshot := Snapshot(map[], "", "", [], "", None, [])

  /** The prompt a stage sends (the quality stage sends none). */
  function PromptOf(stage: Stage, paper: PaperMetadata, fullText: string, s: Snapshot): Option<Prompt> {
    match stage
    case ExtractSections => Some(SectionsPrompt(paper.title, Prefix(fullText, 8000)))
    case AnalyzeDomain => Some(DomainPrompt(paper.title, paper.abstractText, Prefix(Get(s.sections, "METHODOLOGY"), 500)))
    case ExtractMethodology =>
      Some(MethodologyPrompt(paper.title, paper.abstractText, Prefix(Get(s.sections, "METHODOLOGY"), 1000),
                             Prefix(Get(s.sections, "INTRODUCTION"), 500)))
    case IdentifyContributions =>
      Some(ContributionsPrompt(paper.title, paper.abstractText, Prefix(Get(s.sections, "INTRODUCTION"), 800),
                               Prefix(Get(s.sections, "CONCLUSION"), 800)))
    case GenerateSummary =>
      Some(SummaryPrompt(paper.title, s.domain, Prefix(paper.abstractText, 400), s.methodology, Join(s.keyContributions, " | ")))
    case QualityAssessment => None
  }

  /** Every excerpt of the paper handed to the LLM is bounded: full text
      8000, methodology 500 or 1000, introduction 500 or 800, conclusion
      800, abstract 400 (the summary stage). */
  lemma PromptBounds(stage: Stage, paper: PaperMetadata, fullText: string, s: Snapshot)
    ensures match PromptOf(stage, paper, fullText, s)
      case Some(SectionsPrompt(_, t)) => |t| <= 8000 && IsPrefix(t, fullText)
      case Some(DomainPrompt(_, _, m)) => |m| <= 500
      case Some(MethodologyPrompt(_, _, m, i)) => |m| <= 1000 && |i| <= 500
      case Some(ContributionsPrompt(_, _, i, c)) => |i| <= 800 && |c| <= 800
      case Some(SummaryPrompt(_, _, a, _, _)) => |a| <= 400 && IsPrefix(a, paper.abstractText)
      case None => stage == QualityAssessment
  {
  }

  /** `_extract_sections_agent` after the LLM answered. */
  function WithSections(s: Snapshot, answer: string): (r: Snapshot)
    ensures |r.messages| == |s.messages| + 1 && r.messages[..|s.messages|] == s.messages
    ensures MessageStage(r.messages[|s.messages|]) == ExtractSections
  {
    var sections := ParsedSections(answer);
    var message := SectionsExtracted(|sections|);
    s.(sections := sections, messages := s.messages + [message])
  }

  /** `_domain_analysis_agent` after the LLM answered. */
  function WithDomain(s: Snapshot, answer: string): (r: Snapshot)
    ensures |r.messages| == |s.messages| + 1 && r.messages[..|s.messages|] == s.messages
    ensures MessageStage(r.messages[|s.messages|]) == AnalyzeDomain
  {
    var domain := Strip(answer);
    var message := DomainClassified(domain);
    s.(domain := domain, messages := s.messages + [message])
  }

  /** `_methodology_extraction_agent` after the LLM answered. */
  function WithMethodology(s: Snapshot, answer: string): (r: Snapshot)
    ensures |r.messages| == |s.messages| + 1 && r.messages[..|s.messages|] == s.messages
    ensures MessageStage(r.messages[|s.messages|]) == ExtractMethodology
  {
    var methodology := Strip(answer);
    var message := MethodologyExtracted(Prefix(methodology, 100) + "...");
    s.(methodology := methodology, messages := s.messages + [message])
  }

  /** `_contributions_identification_agent` after the LLM answered. */
  function WithContributions(s: Snapshot, answer: string): (r: Snapshot)
    ensures |r.messages| == |s.messages| + 1 && r.messages[..|s.messages|] == s.messages
    ensures MessageStage(r.messages[|s.messages|]) == IdentifyContributions
  {
    var contributions := ParsedContributions(answer);
    var message := ContributionsIdentified(|contributions|);
    s.(keyContributions := contributions, messages := s.messages + [message])
  }

  /** `_summary_generation_agent` after the LLM answered. */
  function WithSummary(s: Snapshot, answer: string): (r: Snapshot)
    ensures |r.messages| == |s.messages| + 1 && r.messages[..|s.messages|] == s.messages
    ensures MessageStage(r.messages[|s.messages|]) == GenerateSummary
  {
    var summary := Strip(answer);
    var message := SummaryGenerated(|summary|);
    s.(aiSummary := summary, messages := s.messages + [message])
  }

  /** `_quality_assessment_agent`: the threshold table over the state. */
  function WithConfidence(s: Snapshot): (r: Snapshot)
    ensures |r.messages| == |s.messages| + 1 && r.messages[..|s.messages|] == s.messages
    ensures MessageStage(r.messages[|s.messages|]) == QualityAssessment
  {
    s.(confidenceScores := Some(ScoreConfidence(s.domain, s.methodology, s.keyContributions, s.aiSummary)),
       messages := s.messages + [QualityAssessed])
  }

  /** The state after one stage, given the LLM's answer to its prompt: one
      message of that stage appended. */
  function ApplyStage(stage: Stage, s: Snapshot, answer: string): (r: Snapshot)
    ensures |r.messages| == |s.messages| + 1 && r.messages[..|s.messages|] == s.messages
    ensures MessageStage(r.messages[|s.messages|]) == stage
  {
    match stage
    case ExtractSections => WithSections(s, answer)
    case AnalyzeDomain => WithDomain(s, answer)
    case ExtractMethodology => WithMethodology(s, answer)
    case IdentifyContributions => WithContributions(s, answer)
    case GenerateSummary => WithSummary(s, answer)
    case QualityAssessment => WithConfidence(s)
  }

  /** One stage: ask the LLM (when the stage does) and apply the answer; an
      LLM failure aborts with its message. */
  function StageResult(stage: Stage, paper: PaperMetadata, fullText: string, s: Snapshot, llm: Llm): (r: Result<Snapshot, string>)
  {
    match PromptOf(stage, paper, fullText, s)
    case None => Ok(ApplyStage(stage, s, ""))
    case Some(p) =>
      match llm(p)
      case Err(e) => Err(e)
      case Ok(answer) => Ok(ApplyStage(stage, s, answer))
  }

  /** The given stages run in order from `s`, stopping at the first failure. */
  function RunStages(stages: seq<Stage>, paper: PaperMetadata, fullText: string, s: Snapshot, llm: Llm): Result<Snapshot, string>
    decreases |stages|
  {
    if stages == [] then Ok(s)
    else
      match StageResult(stages[0], paper, fullText, s, llm)
      case Err(e) => Err(e)
      case Ok(next) => RunStages(stages[1..], paper, fullText, next, llm)
  }

  /** A successful stage appends one message of that stage. */
  lemma StageResultMessages(stage: Stage, paper: PaperMetadata, fullText: string, s: Snapshot, llm: Llm)
    ensures var r := StageResult(stage, paper, fullText, s, llm);
      r.Ok? ==>
        && |r.value.messages| == |s.messages| + 1
        && r.value.messages[..|s.messages|] == s.messages
        && MessageStage(r.value.messages[|s.messages|]) == stage
  {
    var prompt := PromptOf(stage, paper, fullText, s);
    if prompt.None? {
      assert StageResult(stage, paper, fullText, s, llm) == Ok(ApplyStage(stage, s, ""));
    } else if llm(prompt.value).Ok? {
      assert StageResult(stage, paper, fullText, s, llm) == Ok(ApplyStage(stage, s, llm(prompt.value).value));
    }
  }

  /** The stages that appended the given messages, in order. */
  function MessageStages(ms: seq<Message>): (r: seq<Stage>)
    ensures |r| == |ms|
    decreases |ms|
  {
    if ms == [] then [] else [MessageStage(ms[0])] + MessageStages(ms[1..])
  }

  /** A successful run appends exactly one message per stage, in stage
      order, after the messages it started with. */
  lemma {:induction false} RunStagesMessages(stages: seq<Stage>, paper: PaperMetadata, fullText: string, s: Snapshot, llm: Llm, t: Snapshot)
    requires RunStages(stages, paper, fullText, s, llm) == Ok(t)
    ensures |s.messages| <= |t.messages| && t.messages[..|s.messages|] == s.messages
    ensures MessageStages(t.messages[|s.messages|..]) == stages
    decreases |stages|
  {
    if stages == [] {
      assert t.messages[|s.messages|..] == [];
    } else {
      var next := StageResult(stages[0], paper, fullText, s, llm).value;
      StageResultMessages(stages[0], paper, fullText, s, llm);
      RunStagesMessages(stages[1..], paper, fullText, next, llm, t);
      MessagesCons(s.messages, next.messages, t.messages, stages);
    }
  }

  /** One stage's message followed by the messages of the rest are the
      messages of all the stages. */
  lemma MessagesCons(before: seq<Message>, middle: seq<Message>, after: seq<Message>, stages: seq<Stage>)
    requires stages != []
    requires |middle| == |before| + 1 && middle[..|before|] == before
    requires MessageStage(middle[|before|]) == stages[0]
    requires |middle| <= |after| && after[..|middle|] == middle
    requires MessageStages(after[|middle|..]) == stages[1..]
    ensures |before| <= |after| && after[..|before|] == before
    ensures MessageStages(after[|before|..]) == stages
  {
    var n := |before|;
    assert after[n] == after[..n + 1][n];
    assert after[n..][1..] == after[n + 1..];
    assert after[..n] == after[..n + 1][..n];
  }

  /** The dictionary `analyze_paper` returns. */
  datatype AnalysisResult = AnalysisResult(
    aiSummary: string,
    domain: string,
    keyContributions: seq<string>,
    methodology: string,
    confidenceScores: Option<ConfidenceScores>)

  /** `analyze_paper`: the workflow from the initial state, reduced to its
      five result fields. */
  function Analysis(paper: PaperMetadata, fullText: string, llm: Llm): Result<AnalysisResult, string> {
    match RunStages(StageOrder, paper, fullText, InitialSnapshot, llm)
    case Err(e) => Err(e)
    case Ok(s) => Ok(AnalysisResult(s.aiSummary, s.domain, s.keyContributions, s.methodology, s.confidenceScores))
  }

  /** The shape every stage keeps: at most four contributions, a stripped
      domain and a stripped summary. */
  predicate Tidy(s: Snapshot) {
    |s.keyContributions| <= 4 && Strip(s.domain) == s.domain && Strip(s.aiSummary) == s.aiSummary
  }

  /** Every stage keeps the state tidy, whatever the LLM answers. */
  lemma ApplyStageKeepsTidy(stage: Stage, s: Snapshot, answer: string)
    requires Tidy(s)
    ensures Tidy(ApplyStage(stage, s, answer))
  {
    match stage
    case AnalyzeDomain => StripIdempotent(answer);
    case IdentifyContributions => FirstItemsProperties(Split(answer, '\n'));
    case GenerateSummary => StripIdempotent(answer);
    case _ =>
  }

  /** One stage keeps the state tidy. */
  lemma StageResultKeepsTidy(stage: Stage, paper: PaperMetadata, fullText: string, s: Snapshot, llm: Llm)
    requires Tidy(s)
    ensures StageResult(stage, paper, fullText, s, llm).Ok? ==> Tidy(StageResult(stage, paper, fullText, s, llm).value)
  {
    var prompt := PromptOf(stage, paper, fullText, s);
    if prompt.None? {
      ApplyStageKeepsTidy(stage, s, "");
    } else if llm(prompt.value).Ok? {
      ApplyStageKeepsTidy(stage, s, llm(prompt.value).value);
    }
  }

  /** A run of stages keeps the state tidy. */
  lemma {:induction false} RunStagesKeepsTidy(stages: seq<Stage>, paper: PaperMetadata, fullText: string, s: Snapshot, llm: Llm)
    requires Tidy(s)
    ensures RunStages(stages, paper, fullText, s, llm).Ok? ==> Tidy(RunStages(stages, paper, fullText, s, llm).value)
    decreases |stages|
  {
    if stages != [] {
      StageResultKeepsTidy(stages[0], paper, fullText, s, llm);
      var step := StageResult(stages[0], paper, fullText, s, llm);
      if step.Ok? {
        RunStagesKeepsTidy(stages[1..], paper, fullText, step.value, llm);
      }
    }
  }

  /** Running `a + b` is running `a`, then `b` from where `a` ended. */
  lemma {:induction false} RunStagesAppend(a: seq<Stage>, b: seq<Stage>, paper: PaperMetadata, fullText: string, s: Snapshot, llm: Llm)
    ensures RunStages(a + b, paper, fullText, s, llm)
      == match RunStages(a, paper, fullText, s, llm)
         case Err(e) => Err(e)
         case Ok(t) => RunStages(b, paper, fullText, t, llm)
    decreases |a|
  {
    if a == [] {
      assert a + b == b;
    } else {
      assert (a + b)[0] == a[0] && (a + b)[1..] == a[1..] + b;
      var step := StageResult(a[0], paper, fullText, s, llm);
      if step.Ok? {
        RunStagesAppend(a[1..], b, paper, fullText, step.value, llm);
      }
    }
  }

  /** A run that ends with quality assessment, started from a tidy state,
      carries the confidence table of its own final fields and is tidy. */
  lemma RunEndingInQuality(first: seq<Stage>, paper: PaperMetadata, fullText: string, s: Snapshot, llm: Llm)
    requires Tidy(s)
    ensures var r := RunStages(first + [QualityAssessment], paper, fullText, s, llm);
      r.Ok? ==>
        && r.value.confidenceScores == Some(ScoreConfidence(r.value.domain, r.value.methodology, r.value.keyContributions, r.value.aiSummary))
        && Tidy(r.value)
  {
    RunStagesAppend(first, [QualityAssessment], paper, fullText, s, llm);
    RunStagesKeepsTidy(first, paper, fullText, s, llm);
    var t := RunStages(first, paper, fullText, s, llm);
    if t.Ok? {
      assert RunStages([QualityAssessment], paper, fullText, t.value, llm) == Ok(WithConfidence(t.value));
    }
  }

  /** A successful analysis carries the confidence table computed from its
      own final fields, at most four contributions, and a stripped domain
      and summary. */
  lemma AnalysisProperties(paper: PaperMetadata, fullText: string, llm: Llm)
    ensures var r := Analysis(paper, fullText, llm);
      r.Ok? ==>
        && r.value.confidenceScores == Some(ScoreConfidence(r.value.domain, r.value.methodology, r.value.keyContributions, r.value.aiSummary))
        && |r.value.keyContributions| <= 4
        && Strip(r.value.domain) == r.value.domain
        && Strip(r.value.aiSummary) == r.value.aiSummary
  {
    var first := [ExtractSections, AnalyzeDomain, ExtractMethodology, IdentifyContributions, GenerateSummary];
    assert StageOrder == first + [QualityAssessment];
    assert Tidy(InitialSnapshot) by {
      assert Strip("") == "";
    }
    RunEndingInQuality(first, paper, fullText, InitialSnapshot, llm);
  }

  /** A successful analysis left one message per stage, in workflow order. */
  lemma AnalysisMessages(paper: PaperMetadata, fullText: string, llm: Llm)
    ensures var r := RunStages(StageOrder, paper, fullText, InitialSnapshot, llm);
      r.Ok? ==> |r.value.messages| == 6 && MessageStages(r.value.messages) == StageOrder
  {
    var r := RunStages(StageOrder, paper, fullText, InitialSnapshot, llm);
    if r.Ok? {
      RunStagesMessages(StageOrder, paper, fullText, InitialSnapshot, llm, r.value);
      assert r.value.messages[0..] == r.value.messages;
    }
  }

  // ---------------------------------------------------------------------
  // The state object and analyze_paper

  /** What a stage method did, given the stage's result: on success the
      state is the new snapshot, on an LLM failure the error is passed on
      and the state is untouched. */
  predicate StepOutcome(next: Result<Snapshot, string>, r: Result<(), string>, before: Snapshot, after: Snapshot) {
    match next
    case Ok(n) => r == Ok(()) && after == n
    case Err(e) => r == Err(e) && after == before
  }

  /** `PaperAnalysisState`, the dictionary every stage updates in place. */
  class AnalysisState {
    const paper: PaperMetadata
    const fullText: string
    var sections: map<string, string>
    var aiSummary: string
    var domain: string
    var keyContributions: seq<string>
    var methodology: string
    var confidenceScores: Option<ConfidenceScores>
    var messages: seq<Message>

    function Snap(): Snapshot
      reads this
    {
      Snapshot(sections, aiSummary, domain, keyContributions, methodology, confidenceScores, messages)
    }

    constructor(paper: PaperMetadata, fullText: string)
      ensures this.paper == paper && this.fullText == fullText && Snap() == InitialSnapshot
    {
      this.paper := paper;
      this.fullText := fullText;
      sections := map[];
      aiSummary := "";
      domain := "";
      keyContributions := [];
      methodology := "";
      confidenceScores := None;
      messages := [];
    }

    /** `_extract_sections_agent` */
    method ExtractSectionsAgent(llm: Llm) returns (r: Result<(), string>)
      modifies this
      ensures StepOutcome(StageResult(ExtractSections, paper, fullText, old(Snap()), llm), r, old(Snap()), Snap())
    {
      var answer := llm(SectionsPrompt(paper.title, Prefix(fullText, 8000)));
      if answer.Err? {
        return Err(answer.error);
      }
      var parsed := ParseSectionsResponse(answer.value);
      sections := parsed;
      messages := messages + [SectionsExtracted(|parsed|)];
      r := Ok(());
    }

    /** `_domain_analysis_agent` */
    method DomainAnalysisAgent(llm: Llm) returns (r: Result<(), string>)
      modifies this
      ensures StepOutcome(StageResult(AnalyzeDomain, paper, fullText, old(Snap()), llm), r, old(Snap()), Snap())
    {
      var methodologyText := Get(sections, "METHODOLOGY");
      var answer := llm(DomainPrompt(paper.title, paper.abstractText, Prefix(methodologyText, 500)));
      if answer.Err? {
        return Err(answer.error);
      }
      domain := Strip(answer.value);
      messages := messages + [DomainClassified(domain)];
      r := Ok(());
    }

    /** `_methodology_extraction_agent` */
    method MethodologyExtractionAgent(llm: Llm) returns (r: Result<(), string>)
      modifies this
      ensures StepOutcome(StageResult(ExtractMethodology, paper, fullText, old(Snap()), llm), r, old(Snap()), Snap())
    {
      var answer := llm(MethodologyPrompt(paper.title, paper.abstractText,
                                          Prefix(Get(sections, "METHODOLOGY"), 1000),
                                          Prefix(Get(sections, "INTRODUCTION"), 500)));
      if answer.Err? {
        return Err(answer.error);
      }
      methodology := Strip(answer.value);
      messages := messages + [MethodologyExtracted(Prefix(methodology, 100) + "...")];
      r := Ok(());
    }

    /** `_contributions_identification_agent` */
    method ContributionsIdentificationAgent(llm: Llm) returns (r: Result<(), string>)
      modifies this
      ensures StepOutcome(StageResult(IdentifyContributions, paper, fullText, old(Snap()), llm), r, old(Snap()), Snap())
    {
      var answer := llm(ContributionsPrompt(paper.title, paper.abstractText,
                                            Prefix(Get(sections, "INTRODUCTION"), 800),
                                            Prefix(Get(sections, "CONCLUSION"), 800)));
      if answer.Err? {
        return Err(answer.error);
      }
      var contributions := ParseContributionsResponse(answer.value);
      keyContributions := contributions;
      messages := messages + [ContributionsIdentified(|contributions|)];
      r := Ok(());
    }

    /** `_summary_generation_agent` */
    method SummaryGenerationAgent(llm: Llm) returns (r: Result<(), string>)
      modifies this
      ensures StepOutcome(StageResult(GenerateSummary, paper, fullText, old(Snap()), llm), r, old(Snap()), Snap())
    {
      var contributionsText := Join(keyContributions, " | ");
      var answer := llm(SummaryPrompt(paper.title, domain, Prefix(paper.abstractText, 400), methodology, contributionsText));
      if answer.Err? {
        return Err(answer.error);
      }
      aiSummary := Strip(answer.value);
      messages := messages + [SummaryGenerated(|aiSummary|)];
      r := Ok(());
    }

    /** `_quality_assessment_agent`: no LLM call. */
    method QualityAssessmentAgent()
      modifies this
      ensures Snap() == ApplyStage(QualityAssessment, old(Snap()), "")
    {
      confidenceScores := Some(ScoreConfidence(domain, methodology, keyContributions, aiSummary));
      messages := messages + [QualityAssessed];
    }

    /** The workflow node for `stage`. */
    method RunStage(stage: Stage, llm: Llm) returns (r: Result<(), string>)
      modifies this
      ensures StepOutcome(StageResult(stage, paper, fullText, old(Snap()), llm), r, old(Snap()), Snap())
    {
      match stage
      case ExtractSections => r := ExtractSectionsAgent(llm);
      case AnalyzeDomain => r := DomainAnalysisAgent(llm);
      case ExtractMethodology => r := MethodologyExtractionAgent(llm);
      case IdentifyContributions => r := ContributionsIdentificationAgent(llm);
      case GenerateSummary => r := SummaryGenerationAgent(llm);
      case QualityAssessment =>
        QualityAssessmentAgent();
        r := Ok(());
    }
  }

  /** `analyze_paper`: the workflow's nodes in edge order on a fresh state;
      an LLM failure in any stage propagates. */
  method AnalyzePaper(paper: PaperMetadata, fullText: string, llm: Llm) returns (r: Result<AnalysisResult, string>)
    ensures r == Analysis(paper, fullText, llm)
  {
    var state := new AnalysisState(paper, fullText);
    for i := 0 to |StageOrder|
      invariant RunStages(StageOrder, paper, fullText, InitialSnapshot, llm)
        == RunStages(StageOrder[i..], paper, fullText, state.Snap(), llm)
    {
      assert StageOrder[i..][1..] == StageOrder[i + 1..];
      var step := state.RunStage(StageOrder[i], llm);
      if step.Err? {
        return Err(step.error);
      }
    }
    assert StageOrder[|StageOrder|..] == [];
    r := Ok(AnalysisResult(state.aiSummary, state.domain, state.keyContributions, state.methodology, state.confidenceScores));
  }
}
