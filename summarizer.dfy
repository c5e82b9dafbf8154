/** The summarizer (rag/summarizer.py): section extraction, the
    summarization prompt, the tolerant parser of the model's answer and the
    fallbacks of `generate_comprehensive_summary`. The LLM client and the
    section and alternative-summary regular expressions are oracles. */
module Summarizer {

  import opened Wrappers
  import opened Strings
  import opened Models
  import opened KeywordDomains

  // ---------------------------------------------------------------------
  // extract_key_sections

  /** The six keys of the `sections` dictionary. */
  datatype KeySections = KeySections(
    abstractText: string,
    introduction: string,
    methodology: string,
    results: string,
    conclusion: string,
    mainContent: string)

  /** The four `re.search` calls of `extract_key_sections`, each giving the
      span of group 1 in the lowercased text, or None when it does not match. */
  datatype SectionFinders = SectionFinders(
    abstractSpan: string -> Option<(int, int)>,
    introductionSpan: string -> Option<(int, int)>,
    methodologySpan: string -> Option<(int, int)>,
    conclusionSpan: string -> Option<(int, int)>)

  /** No ASCII capital letter. */
  predicate NoUpper(s: string) {
    forall i | 0 <= i < |s| :: !('A' <= s[i] <= 'Z')
  }

  lemma LowerHasNoUpper(s: string)
    ensures NoUpper(Lower(s))
  {
  }

  /** A piece cut out of a lowercased text is still lowercase. */
  lemma NoUpperInPiece(s: string, t: string)
    ensures NoUpper(s) && Contains(s, t) ==> NoUpper(t)
  {
    if NoUpper(s) && Contains(s, t) {
      var k :| 0 <= k <= |s| - |t| && OccursAt(t, s, k);
      forall i | 0 <= i < |t| ensures !('A' <= t[i] <= 'Z') {
        assert t[i] == s[k + i];
      }
    }
  }

  lemma StripIsPiece(s: string)
    ensures Contains(s, Strip(s))
  {
    var k := StripStart(s);
    assert OccursAt(Strip(s), s, k);
  }

  lemma PrefixIsPiece(s: string, n: nat)
    ensures Contains(s, Prefix(s, n))
  {
    assert OccursAt(Prefix(s, n), s, 0);
  }

  /** The value stored for one matched section: group 1 stripped and cut. */
  function MatchedSection(textLower: string, span: Option<(int, int)>, limit: nat): (r: string)
    ensures |r| <= limit
    ensures NoUpper(textLower) ==> NoUpper(r)
    ensures span.None? ==> r == ""
  {
    match span
    case None => ""
    case Some((a, b)) =>
      var g := Strip(PySlice(textLower, a, b));
      StripIsPiece(PySlice(textLower, a, b));
      PrefixIsPiece(g, limit);
      NoUpperInPiece(textLower, PySlice(textLower, a, b));
      NoUpperInPiece(PySlice(textLower, a, b), g);
      NoUpperInPiece(g, Prefix(g, limit));
      Prefix(g, limit)
  }

  /** `extract_key_sections`: always the same six keys; "results" is never
      filled; abstract, introduction, methodology and conclusion come from
      the lowercased text (so hold no capital letter) and are "" when their
      search fails; the length bounds are 1000, 1000 and 800 (the abstract
      is not cut); `main_content` is the first 2000 characters of the
      original text. */
  method ExtractKeySections(fullText: string, finders: SectionFinders) returns (sections: KeySections)
    ensures sections == KeySectionsOf(fullText, finders)
    ensures sections.results == ""
    ensures |sections.introduction| <= 1000 && |sections.methodology| <= 1000 && |sections.conclusion| <= 800
    ensures sections.mainContent == Prefix(fullText, 2000)
    ensures NoUpper(sections.abstractText) && NoUpper(sections.introduction)
    ensures NoUpper(sections.methodology) && NoUpper(sections.conclusion)
    ensures finders.abstractSpan(Lower(fullText)).None? ==> sections.abstractText == ""
    ensures finders.introductionSpan(Lower(fullText)).None? ==> sections.introduction == ""
    ensures finders.methodologySpan(Lower(fullText)).None? ==> sections.methodology == ""
    ensures finders.conclusionSpan(Lower(fullText)).None? ==> sections.conclusion == ""
  {
    sections := KeySections("", "", "", "", "", "");
    var textLower := Lower(fullText);
    LowerHasNoUpper(fullText);
    var abstractSpan := finders.abstractSpan(textLower);
    if abstractSpan.Some? {
      var g := PySlice(textLower, abstractSpan.value.0, abstractSpan.value.1);
      StripIsPiece(g);
      NoUpperInPiece(textLower, g);
      NoUpperInPiece(g, Strip(g));
      sections := sections.(abstractText := Strip(g));
    }
    sections := sections.(introduction := MatchedSection(textLower, finders.introductionSpan(textLower), 1000));
    sections := sections.(methodology := MatchedSection(textLower, finders.methodologySpan(textLower), 1000));
    sections := sections.(conclusion := MatchedSection(textLower, finders.conclusionSpan(textLower), 800));
    sections := sections.(mainContent := Prefix(fullText, 2000));
  }

  // ---------------------------------------------------------------------
  // _build_summarization_prompt

  /** `content_sections`: the non-empty sections among abstract,
      introduction, methodology and conclusion, in that order, labelled and
      cut to 300/500/500/300 characters; the main content only when all four
      are empty. */
  function ContentSections(s: KeySections): (r: seq<string>)
    ensures 1 <= |r| <= 4
    ensures s.abstractText == "" && s.introduction == "" && s.methodology == "" && s.conclusion == ""
      ==> r == ["Main Content: " + s.mainContent]
    ensures s.abstractText != "" || s.introduction != "" || s.methodology != "" || s.conclusion != ""
      ==> |r| == (if s.abstractText != "" then 1 else 0) + (if s.introduction != "" then 1 else 0)
                 + (if s.methodology != "" then 1 else 0) + (if s.conclusion != "" then 1 else 0)
    ensures s.abstractText != "" ==> r[0] == "Abstract: " + Prefix(s.abstractText, 300)
    ensures s.introduction != "" ==>
      r[if s.abstractText != "" then 1 else 0] == "Introduction: " + Prefix(s.introduction, 500)
    ensures s.methodology != "" ==>
      r[(if s.abstractText != "" then 1 else 0) + (if s.introduction != "" then 1 else 0)]
        == "Methodology: " + Prefix(s.methodology, 500)
    ensures s.conclusion != "" ==> r[|r| - 1] == "Conclusion: " + Prefix(s.conclusion, 300)
  {
    var found :=
      (if s.abstractText != "" then ["Abstract: " + Prefix(s.abstractText, 300)] else [])
      + (if s.introduction != "" then ["Introduction: " + Prefix(s.introduction, 500)] else [])
      + (if s.methodology != "" then ["Methodology: " + Prefix(s.methodology, 500)] else [])
      + (if s.conclusion != "" then ["Conclusion: " + Prefix(s.conclusion, 300)] else []);
    if found == [] then ["Main Content: " + s.mainContent] else found
  }

  /** The authors line: the first three authors joined by ", ", followed by
      "..." exactly when there are more than three. */
  function AuthorsLine(authors: seq<string>): (r: string)
    ensures |authors| <= 3 ==> r == Join(authors, ", ")
    ensures |authors| > 3 ==> r == Join(authors[..3], ", ") + "..."
  {
    Join(Prefix3(authors), ", ") + (if |authors| > 3 then "..." else "")
  }

  /** `authors[:3]` */
  function Prefix3(authors: seq<string>): seq<string> {
    if |authors| <= 3 then authors else authors[..3]
  }

  /** The fixed parts of the summarization prompt. */
  const PromptIntro: string := "Please analyze this research paper and provide a structured summary:\n\n"
  const PromptFormat: string := "\n\nPlease provide a response in exactly this format:\n\n"
  const PromptFields: string :=
    " that captures the main contribution, approach, and significance. Make it informative and engaging.]\n\n"
    + "CONTRIBUTIONS: [List 2-3 key technical contributions, separated by \" | \"]\n\n"
    + "METHODOLOGY: [Brief description of the main technical approach or method used]\n\n"
    + "Requirements:\n"
    + "- Summary should be exactly around "
  const PromptRequirements: string :=
    " characters\n"
    + "- Focus on technical contributions and innovations\n"
    + "- Use clear, professional language\n"
    + "- Highlight what makes this work unique or important"

  /** The prompt sent to the model: the instructions, the paper's title,
      its authors line, the content sections joined by newlines, and the
      requested summary length. */
  function SummarizationPrompt(meta: PaperMetadata, sections: KeySections, maxLength: int): string {
    var n := IntToString(maxLength);
    var title := "Title: " + meta.title;
    var authors := "Authors: " + AuthorsLine(meta.authors);
    var content := "Content Sections:\n" + Join(ContentSections(sections), "\n");
    var summary := "SUMMARY: [Write a comprehensive " + n + "-character summary";
    var s1 := PromptIntro;
    var s2 := s1 + title;
    var s3 := s2 + "\n";
    var s4 := s3 + authors;
    var s5 := s4 + "\n\n";
    var s6 := s5 + content;
    var s7 := s6 + PromptFormat;
    var s8 := s7 + summary;
    var tail := PromptFields + n + PromptRequirements;
    s8 + tail
  }

  /** The prompt names the paper's title, its authors line, the content
      sections joined by newlines, and the requested summary length. */
  lemma SummarizationPromptContents(meta: PaperMetadata, sections: KeySections, maxLength: int)
    ensures var r := SummarizationPrompt(meta, sections, maxLength);
      && Contains(r, "Title: " + meta.title)
      && Contains(r, "Authors: " + AuthorsLine(meta.authors))
      && Contains(r, "Content Sections:\n" + Join(ContentSections(sections), "\n"))
      && Contains(r, "SUMMARY: [Write a comprehensive " + IntToString(maxLength) + "-character summary")
  {
    var n := IntToString(maxLength);
    var title := "Title: " + meta.title;
    var authors := "Authors: " + AuthorsLine(meta.authors);
    var content := "Content Sections:\n" + Join(ContentSections(sections), "\n");
    var summary := "SUMMARY: [Write a comprehensive " + n + "-character summary";
    var s1 := PromptIntro;
    var s2 := s1 + title;
    var s3 := s2 + "\n";
    var s4 := s3 + authors;
    var s5 := s4 + "\n\n";
    var s6 := s5 + content;
    var s7 := s6 + PromptFormat;
    var s8 := s7 + summary;
    var tail := PromptFields + n + PromptRequirements;
    var r := s8 + tail;
    assert r == SummarizationPrompt(meta, sections, maxLength);
    ContainsSelf(title); ContainsSelf(authors); ContainsSelf(content); ContainsSelf(summary);
    ContainsExtend(s1, title, title);
    ContainsExtend(s2, "\n", title);
    ContainsExtend(s3, authors, title); ContainsExtend(s3, authors, authors);
    ContainsExtend(s4, "\n\n", title); ContainsExtend(s4, "\n\n", authors);
    ContainsExtend(s5, content, title); ContainsExtend(s5, content, authors); ContainsExtend(s5, content, content);
    ContainsExtend(s6, PromptFormat, title);
    ContainsExtend(s6, PromptFormat, authors);
    ContainsExtend(s6, PromptFormat, content);
    ContainsExtend(s7, summary, title); ContainsExtend(s7, summary, authors);
    ContainsExtend(s7, summary, content); ContainsExtend(s7, summary, summary);
    ContainsExtend(s8, tail, title); ContainsExtend(s8, tail, authors);
    ContainsExtend(s8, tail, content); ContainsExtend(s8, tail, summary);
  }

  // ---------------------------------------------------------------------
  // _parse_ai_response

  /** The lookahead `\n\s*STOP` holds at `p`. */
  predicate StopAt(s: string, p: nat, stop: string) {
    p < |s| && s[p] == '\n' && IsPrefix(stop, s[SpaceRunEnd(s, p + 1)..])
  }

  /** `$` without MULTILINE: the end, or just before a final newline. */
  predicate EndAt(s: string, p: nat) {
    p == |s| || (p == |s| - 1 && s[p] == '\n')
  }

  /** Where the lazy `(.*?)` that starts at `j` stops: the first position at
      which the lookahead `(?=\n\s*STOP|$)` holds. */
  function LazyEnd(s: string, j: nat, stop: Option<string>): (p: nat)
    requires j <= |s|
    ensures j <= p <= |s|
    ensures EndAt(s, p) || (stop.Some? && StopAt(s, p, stop.value))
    ensures forall q | j <= q < p :: !EndAt(s, q) && !(stop.Some? && StopAt(s, q, stop.value))
    decreases |s| - j
  {
    if EndAt(s, j) || (stop.Some? && StopAt(s, j, stop.value)) then j
    else LazyEnd(s, j + 1, stop)
  }

  /** Group 1 of `re.search(MARK + r"\s*(.*?)(?=\n\s*STOP|$)", s, re.DOTALL)`.
      The pattern starts with the literal marker and `$` always matches
      eventually, so the match is at the first occurrence of the marker;
      the greedy `\s*` keeps all the whitespace after it. */
  function MarkedGroup(s: string, mark: string, stop: Option<string>): (r: Option<string>)
    ensures r.Some? <==> Contains(s, mark)
    ensures r.Some? ==> Contains(s, r.value)
  {
    match Find(s, mark)
    case None => None
    case Some(i) =>
      var j := SpaceRunEnd(s, i + |mark|);
      var p := LazyEnd(s, j, stop);
      assert OccursAt(s[j..p], s, j);
      Some(s[j..p])
  }

  /** A character absent from a string is absent from its pieces. */
  lemma CharNotInPiece(s: string, t: string, c: char)
    ensures c !in s && Contains(s, t) ==> c !in t
  {
  }

  /** `[c.strip() for c in text.split("|") if c.strip()]` */
  function ContributionItems(pieces: seq<string>): seq<string> {
    if pieces == [] then []
    else if Strip(pieces[0]) == "" then ContributionItems(pieces[1..])
    else [Strip(pieces[0])] + ContributionItems(pieces[1..])
  }

  /** Every contribution item is stripped and non-empty, and free of '|'
      when the pieces are. */
  lemma {:induction false} ContributionItemsClean(pieces: seq<string>)
    ensures forall c | c in ContributionItems(pieces) :: c != "" && Strip(c) == c
    ensures (forall p | p in pieces :: '|' !in p) ==> forall c | c in ContributionItems(pieces) :: '|' !in c
  {
    if pieces != [] {
      ContributionItemsClean(pieces[1..]);
      StripIdempotent(pieces[0]);
      StripIsPiece(pieces[0]);
      CharNotInPiece(pieces[0], Strip(pieces[0]), '|');
      assert forall p | p in pieces[1..] :: p in pieces;
    }
  }

  /** Pieces are kept in order: the items of `a + b` are those of `a`
      followed by those of `b`. */
  lemma {:induction false} ContributionItemsAppend(a: seq<string>, b: seq<string>)
    ensures ContributionItems(a + b) == ContributionItems(a) + ContributionItems(b)
    decreases |a|
  {
    if a != [] {
      assert (a + b)[1..] == a[1..] + b;
      ContributionItemsAppend(a[1..], b);
    } else {
      assert a + b == b;
    }
  }

  /** A text is an item exactly when it is the non-empty strip of some
      piece. */
  lemma {:induction false} ContributionItemsMembers(pieces: seq<string>, q: string)
    ensures q in ContributionItems(pieces) <==> q != "" && exists p | p in pieces :: Strip(p) == q
    decreases |pieces|
  {
    if pieces != [] {
      ContributionItemsMembers(pieces[1..], q);
      assert pieces == [pieces[0]] + pieces[1..];
      assert forall p | p in pieces :: p == pieces[0] || p in pieces[1..];
    }
  }

  /** The three alternative summary patterns, as an oracle: group 1 of
      pattern `k` (0, 1 or 2) searched in the response, or None. */
  type AltMatcher = (nat, string) -> Option<string>

  /** The alternative patterns tried from `k` on: the first whose stripped
      group is longer than 50 characters, or "". */
  function AltSummary(response: string, alt: AltMatcher, k: nat): (r: string)
    requires k <= 3
    ensures r == "" || |r| > 50
    decreases 3 - k
  {
    if k == 3 then ""
    else
      match alt(k, response)
      case Some(g) => if |Strip(g)| > 50 then Strip(g) else AltSummary(response, alt, k + 1)
      case None => AltSummary(response, alt, k + 1)
  }

  /** The final fallback: newline runs collapsed to a space, stripped, and
      cut to 400 characters. */
  function CleanedResponse(response: string): (r: string)
    ensures |r| <= 400 && '\n' !in r
    ensures HasNonSpace(response) ==> r != ""
  {
    var cleaned := Strip(CollapseNewlines(response));
    StripIsPiece(CollapseNewlines(response));
    PrefixIsPiece(cleaned, 400);
    CharNotInPiece(CollapseNewlines(response), cleaned, '\n');
    CharNotInPiece(cleaned, Prefix(cleaned, 400), '\n');
    var r := Prefix(cleaned, 400);
    assert forall i | 0 <= i < |r| :: r[i] == cleaned[i];
    r
  }

  /** The parse as a value: (summary, contributions, methodology). */
  datatype Parsed = Parsed(summary: string, contributions: seq<string>, methodology: string)

  /** What `_parse_ai_response` returns. An empty response parses to
      ("", [], ""); a response with any non-whitespace character always
      yields a non-empty summary (structured, alternative or cleaned);
      without its marker the methodology is empty. `ParsedFormattedReply`
      reads a reply written in the prompt's format back to its fields. */
  function ParsedResponse(response: string, alt: AltMatcher): (r: Parsed)
    ensures response == "" ==> r == Parsed("", [], "")
    ensures HasNonSpace(response) ==> r.summary != ""
    ensures !Contains(response, "METHODOLOGY:") ==> r.methodology == ""
  {
    if response == "" then Parsed("", [], "")
    else
      var summary0 := match MarkedGroup(response, "SUMMARY:", Some("CONTRIBUTIONS:"))
        case Some(g) => Strip(g) case None => "";
      var contributions := match MarkedGroup(response, "CONTRIBUTIONS:", Some("METHODOLOGY:"))
        case Some(g) => ContributionItems(Split(Strip(g), '|')) case None => [];
      var methodology := match MarkedGroup(response, "METHODOLOGY:", None)
        case Some(g) => Strip(g) case None => "";
      var summary1 := if summary0 == "" then AltSummary(response, alt, 0) else summary0;
      var summary := if summary1 == "" then CleanedResponse(response) else summary1;
      Parsed(summary, contributions, methodology)
  }

  /** The contributions are stripped, non-empty and free of '|'; without
      the CONTRIBUTIONS marker there are none. */
  lemma ParsedContributionsClean(response: string, alt: AltMatcher)
    ensures forall c | c in ParsedResponse(response, alt).contributions :: c != "" && Strip(c) == c && '|' !in c
    ensures !Contains(response, "CONTRIBUTIONS:") ==> ParsedResponse(response, alt).contributions == []
  {
    if response != "" {
      var m := MarkedGroup(response, "CONTRIBUTIONS:", Some("METHODOLOGY:"));
      if m.Some? {
        var pieces := Split(Strip(m.value), '|');
        assert forall p | p in pieces :: '|' !in p;
        ContributionItemsClean(pieces);
      }
    }
  }

  // ---------------------------------------------------------------------
  // The reply format the prompt asks for, read back

  /** A reply laid out exactly as the prompt's format block asks. */
  function FormattedReply(s: string, contributions: string, m: string): string {
    "SUMMARY:" + " " + s + "\n\n" + "CONTRIBUTIONS:" + " " + contributions + "\n\n" + "METHODOLOGY:" + " " + m
  }

  /** A field the parser carries back unchanged: non-empty, already
      stripped, on one line, and free of the ':' and '|' delimiters. */
  predicate PlainField(x: string) {
    x != "" && Strip(x) == x && '\n' !in x && ':' !in x && '|' !in x
  }

  /** A string that neither starts nor ends with whitespace is its own strip. */
  lemma StripOfTrimmed(x: string)
    requires x != "" && !IsSpace(x[0]) && !IsSpace(x[|x| - 1])
    ensures Strip(x) == x
  {
    assert TrimLeft(x) == x;
    assert TrimRight(x) == x;
  }

  /** Stripping a field padded with one space on either side gives the field. */
  lemma StripPadded(x: string)
    requires x != "" && Strip(x) == x
    ensures Strip(x + " ") == x && Strip(" " + x) == x
  {
    assert TrimLeft(x + " ") == x + " ";
    assert (x + " ")[..|x + " "| - 1] == x;
    assert TrimRight(x) == x;
    assert TrimRight(x + " ") == x;
    assert (" " + x)[1..] == x;
    assert TrimLeft(x) == x;
    assert TrimLeft(" " + x) == x;
  }

  /** `s.split(c)` cuts at the first `c`. */
  lemma SplitAtFirst(s: string, c: char, k: nat)
    requires k < |s| && s[k] == c && c !in s[..k]
    ensures Split(s, c) == [s[..k]] + Split(s[k + 1..], c)
  {
    assert forall i | 0 <= i < k :: s[i] == s[..k][i];
    assert IndexOf(s, c) == k;
  }

  /** `"c1 | c2".split("|")` is `["c1 ", " c2"]`. */
  lemma SplitPair(c1: string, c2: string)
    requires '|' !in c1 && '|' !in c2
    ensures Split(c1 + " | " + c2, '|') == [c1 + " ", " " + c2]
  {
    var a := c1 + " ";
    var b := " " + c2;
    assert c1 + " | " + c2 == a + ['|'] + b;
    assert '|' !in a && '|' !in b;
    SplitTwo(a, b, '|');
  }

  /** `(a + c + b).split(c)` is `[a, b]` when neither piece holds `c`. */
  lemma SplitTwo(a: string, b: string, c: char)
    requires c !in a && c !in b
    ensures Split(a + [c] + b, c) == [a, b]
  {
    var s := a + [c] + b;
    assert s[..|a|] == a;
    assert s[|a| + 1..] == b;
    SplitAtFirst(s, c, |a|);
    assert IndexOf(b, c) == |b|;
  }

  /** Both contributions of `"c1 | c2"` are read back, in order. */
  lemma ContributionsOfPair(c1: string, c2: string)
    requires PlainField(c1) && PlainField(c2)
    ensures ContributionItems(Split(Strip(c1 + " | " + c2), '|')) == [c1, c2]
  {
    var c := c1 + " | " + c2;
    assert c[0] == c1[0] && c[|c| - 1] == c2[|c2| - 1];
    StripOfTrimmed(c);
    SplitPair(c1, c2);
    StripPadded(c1);
    StripPadded(c2);
    ContributionItemsOfTwo(c1 + " ", " " + c2);
  }

  lemma ContributionItemsOfTwo(p1: string, p2: string)
    requires Strip(p1) != "" && Strip(p2) != ""
    ensures ContributionItems([p1, p2]) == [Strip(p1), Strip(p2)]
  {
    assert [p2][1..] == [];
    assert ContributionItems([p2]) == [Strip(p2)];
    assert [p1, p2][1..] == [p2];
  }

  /** `s.find(t)` is `i` when `t` occurs at `i` and nowhere before. */
  lemma FindAt(s: string, t: string, i: nat)
    requires OccursAt(t, s, i)
    requires forall k | 0 <= k < i :: !OccursAt(t, s, k)
    ensures Find(s, t) == Some(i)
  {
    assert Contains(s, t);
  }

  /** The lazy group that starts at `j` ends right after `body` when `body`
      has no newline and the lookahead holds after it. */
  lemma LazyEndAfter(s: string, j: nat, body: string, stop: Option<string>)
    requires OccursAt(body, s, j) && '\n' !in body
    requires EndAt(s, j + |body|) || (stop.Some? && StopAt(s, j + |body|, stop.value))
    ensures LazyEnd(s, j, stop) == j + |body|
  {
    forall q | j <= q < j + |body|
      ensures !EndAt(s, q) && !(stop.Some? && StopAt(s, q, stop.value))
    {
      assert s[q] == s[j..j + |body|][q - j];
    }
  }

  /** The marked group is `body` when the marker is first found at `i`,
      one space and then `body` follow it, and the lookahead holds just
      after `body` and nowhere inside it. */
  lemma MarkedGroupAt(s: string, mark: string, stop: Option<string>, i: nat, body: string)
    requires Find(s, mark) == Some(i)
    requires i + |mark| < |s| && s[i + |mark|] == ' '
    requires OccursAt(body, s, i + |mark| + 1)
    requires GroupBody(body)
    requires EndAt(s, i + |mark| + 1 + |body|)
             || (stop.Some? && StopAt(s, i + |mark| + 1 + |body|, stop.value))
    ensures MarkedGroup(s, mark, stop) == Some(body)
  {
    var j := i + |mark| + 1;
    assert s[j] == s[j..j + |body|][0];
    assert SpaceRunEnd(s, j) == j;
    assert SpaceRunEnd(s, i + |mark|) == j;
    LazyEndAfter(s, j, body, stop);
    GroupOfFoundMark(s, mark, stop, i, j + |body|);
  }

  /** Unfolds `MarkedGroup` once its three positions are known. */
  lemma GroupOfFoundMark(s: string, mark: string, stop: Option<string>, i: nat, p: nat)
    requires Find(s, mark) == Some(i) && i + |mark| <= |s|
    requires SpaceRunEnd(s, i + |mark|) <= p <= |s|
    requires LazyEnd(s, SpaceRunEnd(s, i + |mark|), stop) == p
    ensures MarkedGroup(s, mark, stop) == Some(s[SpaceRunEnd(s, i + |mark|)..p])
  {
  }

  /** The summary half of a reply laid out as the format block asks: the
      SUMMARY marker and a space at the start, the summary field `s`, a
      blank line, and the CONTRIBUTIONS marker and a space. */
  predicate SummaryPart(r: string, s: string) {
    var b := 9 + |s|;
    && b + 17 <= |r|
    && OccursAt("SUMMARY:", r, 0) && r[8] == ' ' && OccursAt(s, r, 9)
    && OccursAt("\n\n", r, b) && OccursAt("CONTRIBUTIONS:", r, b + 2) && r[b + 16] == ' '
  }

  /** The contributions field `c` from `b + 17` on, then a blank line and
      the METHODOLOGY marker and a space. */
  predicate ContributionsPart(r: string, b: nat, c: string) {
    var d := b + 17 + |c|;
    && d + 15 <= |r|
    && OccursAt(c, r, b + 17)
    && OccursAt("\n\n", r, d) && OccursAt("METHODOLOGY:", r, d + 2) && r[d + 14] == ' '
  }

  /** The methodology field `m` closes the reply from `d + 15` on. */
  predicate MethodologyPart(r: string, d: nat, m: string) {
    |r| == d + 15 + |m| && OccursAt(m, r, d + 15)
  }

  /** The summary half of a formatted reply is laid out. */
  lemma FormattedSummaryPart(s: string, c: string, m: string)
    ensures SummaryPart(FormattedReply(s, c, m), s)
  {
  }

  /** The contributions part of a formatted reply is laid out. */
  lemma FormattedContributionsPart(s: string, c: string, m: string)
    ensures ContributionsPart(FormattedReply(s, c, m), 9 + |s|, c)
  {
  }

  /** The methodology part of a formatted reply is laid out. */
  lemma FormattedMethodologyPart(s: string, c: string, m: string)
    ensures MethodologyPart(FormattedReply(s, c, m), 9 + |s| + 17 + |c|, m)
  {
  }

  /** `t` does not occur at `k` when one of its characters is missing there. */
  lemma NotOccursAt(t: string, s: string, k: nat, x: nat)
    requires x < |t| && (k + x >= |s| || s[k + x] != t[x])
    ensures !OccursAt(t, s, k)
  {
    if k + |t| <= |s| {
      assert s[k..k + |t|][x] == s[k + x];
    }
  }

  /** The character at `k + x` when `t` occurs at `k`. */
  lemma OccursAtChar(t: string, s: string, k: nat, x: nat)
    requires OccursAt(t, s, k) && x < |t|
    ensures s[k + x] == t[x]
  {
    assert s[k..k + |t|][x] == s[k + x];
  }

  /** What a marked group can be read back as: non-empty, starting with no
      whitespace, on one line. */
  predicate GroupBody(x: string) {
    x != "" && !IsSpace(x[0]) && '\n' !in x
  }

  /** A one-line field, as the format block lays each out. */
  predicate LineField(x: string) {
    x != "" && Strip(x) == x && '\n' !in x && ':' !in x
  }

  /** The lookahead `\n\s*STOP` holds where a blank line precedes `stop`. */
  lemma StopAtBlankLine(r: string, p: nat, stop: string)
    requires stop != "" && !IsSpace(stop[0])
    requires OccursAt("\n\n", r, p) && OccursAt(stop, r, p + 2)
    ensures StopAt(r, p, stop)
  {
    OccursAtChar("\n\n", r, p, 0);
    OccursAtChar("\n\n", r, p, 1);
    OccursAtChar(stop, r, p + 2, 0);
    assert SpaceRunEnd(r, p + 2) == p + 2;
    assert SpaceRunEnd(r, p + 1) == p + 2;
    assert r[p + 2..][..|stop|] == stop;
  }

  /** No ':' sits between the summary's colon and the one after
      CONTRIBUTIONS. */
  lemma NoColonBeforeContributions(r: string, s: string, x: nat)
    requires SummaryPart(r, s)
    requires ':' !in s && 9 <= x < 9 + |s| + 15
    ensures r[x] != ':'
  {
    var b := 9 + |s|;
    if x < b {
      OccursAtChar(s, r, 9, x - 9);
    } else if x < b + 2 {
      OccursAtChar("\n\n", r, b, x - b);
    } else {
      OccursAtChar("CONTRIBUTIONS:", r, b + 2, x - b - 2);
    }
  }

  /** No ':' sits between the colon after CONTRIBUTIONS and the one after
      METHODOLOGY, and the N of CONTRIBUTIONS is no M. */
  lemma NoColonBeforeMethodology(r: string, s: string, c: string, x: nat)
    requires SummaryPart(r, s) && ContributionsPart(r, 9 + |s|, c)
    requires ':' !in c && 9 + |s| + 16 <= x < 9 + |s| + 17 + |c| + 13
    ensures r[x] != ':'
    ensures r[9 + |s| + 4] != 'M'
  {
    var b := 9 + |s|;
    var d := b + 17 + |c|;
    OccursAtChar("CONTRIBUTIONS:", r, b + 2, 2);
    if x < b + 17 {
    } else if x < d {
      OccursAtChar(c, r, b + 17, x - b - 17);
    } else if x < d + 2 {
      OccursAtChar("\n\n", r, d, x - d);
    } else {
      OccursAtChar("METHODOLOGY:", r, d + 2, x - d - 2);
    }
  }

  /** CONTRIBUTIONS is first found after the summary field. */
  lemma FindContributions(r: string, s: string)
    requires SummaryPart(r, s)
    requires ':' !in s
    ensures Find(r, "CONTRIBUTIONS:") == Some(9 + |s| + 2)
  {
    var b := 9 + |s|;
    forall k | 0 <= k < b + 2
      ensures !OccursAt("CONTRIBUTIONS:", r, k)
    {
      NoColonBeforeContributions(r, s, k + 13);
      NotOccursAt("CONTRIBUTIONS:", r, k, 13);
    }
    FindAt(r, "CONTRIBUTIONS:", b + 2);
  }

  /** METHODOLOGY does not occur before the contributions field ends. */
  lemma MethodologyNotBefore(r: string, s: string, c: string, k: nat)
    requires SummaryPart(r, s) && ContributionsPart(r, 9 + |s|, c)
    requires ':' !in s && ':' !in c && k < 9 + |s| + 17 + |c| + 2
    ensures !OccursAt("METHODOLOGY:", r, k)
  {
    var b := 9 + |s|;
    if k + 11 < b + 15 {
      NoColonBeforeContributions(r, s, k + 11);
      NotOccursAt("METHODOLOGY:", r, k, 11);
    } else if k + 11 == b + 15 {
      NoColonBeforeMethodology(r, s, c, b + 16);
      NotOccursAt("METHODOLOGY:", r, k, 0);
    } else {
      NoColonBeforeMethodology(r, s, c, k + 11);
      NotOccursAt("METHODOLOGY:", r, k, 11);
    }
  }

  /** METHODOLOGY is first found after the contributions field. */
  lemma FindMethodology(r: string, s: string, c: string)
    requires SummaryPart(r, s) && ContributionsPart(r, 9 + |s|, c)
    requires ':' !in s && ':' !in c
    ensures Find(r, "METHODOLOGY:") == Some(9 + |s| + 17 + |c| + 2)
  {
    var d := 9 + |s| + 17 + |c|;
    forall k | 0 <= k < d + 2
      ensures !OccursAt("METHODOLOGY:", r, k)
    {
      MethodologyNotBefore(r, s, c, k);
    }
    FindAt(r, "METHODOLOGY:", d + 2);
  }

  /** The SUMMARY group of a laid-out reply is its summary field. */
  lemma SummaryOfLaidOutReply(r: string, s: string)
    requires SummaryPart(r, s)
    requires GroupBody(s)
    ensures MarkedGroup(r, "SUMMARY:", Some("CONTRIBUTIONS:")) == Some(s)
  {
    FindAt(r, "SUMMARY:", 0);
    StopAtBlankLine(r, 9 + |s|, "CONTRIBUTIONS:");
    MarkedGroupAt(r, "SUMMARY:", Some("CONTRIBUTIONS:"), 0, s);
  }

  /** The CONTRIBUTIONS group of a laid-out reply is its contributions
      field. */
  lemma ContributionsOfLaidOutReply(r: string, s: string, c: string)
    requires SummaryPart(r, s) && ContributionsPart(r, 9 + |s|, c)
    requires ':' !in s && GroupBody(c)
    ensures MarkedGroup(r, "CONTRIBUTIONS:", Some("METHODOLOGY:")) == Some(c)
  {
    var b := 9 + |s|;
    FindContributions(r, s);
    StopAtBlankLine(r, 9 + |s| + 17 + |c|, "METHODOLOGY:");
    MarkedGroupAt(r, "CONTRIBUTIONS:", Some("METHODOLOGY:"), b + 2, c);
  }

  /** The METHODOLOGY group of a laid-out reply is its methodology field. */
  lemma MethodologyOfLaidOutReply(r: string, s: string, c: string, m: string)
    requires SummaryPart(r, s) && ContributionsPart(r, 9 + |s|, c)
             && MethodologyPart(r, 9 + |s| + 17 + |c|, m)
    requires ':' !in s && ':' !in c && GroupBody(m)
    ensures MarkedGroup(r, "METHODOLOGY:", None) == Some(m)
  {
    var d := 9 + |s| + 17 + |c|;
    FindMethodology(r, s, c);
    MarkedGroupAt(r, "METHODOLOGY:", None, d + 2, m);
  }

  /** A reply in the format the prompt asks for, with two contributions,
      parses back to its fields: summary, both contributions in order, and
      methodology. */
  lemma ParsedFormattedReply(s: string, c1: string, c2: string, m: string, alt: AltMatcher)
    requires LineField(s) && PlainField(c1) && PlainField(c2) && LineField(m)
    ensures ParsedResponse(FormattedReply(s, c1 + " | " + c2, m), alt) == Parsed(s, [c1, c2], m)
  {
    var c := c1 + " | " + c2;
    assert c[0] == c1[0] && c[|c| - 1] == c2[|c2| - 1];
    StripOfTrimmed(c);
    assert ':' !in c by {
      assert forall i | 0 <= i < |c| :: c[i] == if i < |c1| then c1[i] else (" | " + c2)[i - |c1|];
    }
    assert '\n' !in c by {
      assert forall i | 0 <= i < |c| :: c[i] == if i < |c1| then c1[i] else (" | " + c2)[i - |c1|];
    }
    var r := FormattedReply(s, c, m);
    FormattedSummaryPart(s, c, m);
    FormattedContributionsPart(s, c, m);
    FormattedMethodologyPart(s, c, m);
    SummaryOfLaidOutReply(r, s);
    ContributionsOfLaidOutReply(r, s, c);
    MethodologyOfLaidOutReply(r, s, c, m);
    ContributionsOfPair(c1, c2);
  }

  /** `_parse_ai_response`, with its loop over the alternative patterns. */
  method ParseAiResponse(response: string, alt: AltMatcher)
    returns (summary: string, contributions: seq<string>, methodology: string)
    ensures Parsed(summary, contributions, methodology) == ParsedResponse(response, alt)
  {
    summary := "";
    contributions := [];
    methodology := "";
    if response == "" {
      return;
    }
    var summaryMatch := MarkedGroup(response, "SUMMARY:", Some("CONTRIBUTIONS:"));
    if summaryMatch.Some? {
      summary := Strip(summaryMatch.value);
    }
    var contribMatch := MarkedGroup(response, "CONTRIBUTIONS:", Some("METHODOLOGY:"));
    if contribMatch.Some? {
      var contribText := Strip(contribMatch.value);
      contributions := ContributionItems(Split(contribText, '|'));
    }
    var methodMatch := MarkedGroup(response, "METHODOLOGY:", None);
    if methodMatch.Some? {
      methodology := Strip(methodMatch.value);
    }
    if summary == "" {
      var k := 0;
      while k < 3
        invariant 0 <= k <= 3
        invariant summary == "" && AltSummary(response, alt, 0) == AltSummary(response, alt, k)
      {
        var m := alt(k, response);
        if m.Some? && |Strip(m.value)| > 50 {
          summary := Strip(m.value);
          break;
        }
        k := k + 1;
      }
    }
    if summary == "" {
      summary := CleanedResponse(response);
    }
  }

  // ---------------------------------------------------------------------
  // generate_comprehensive_summary

  /** The summary used when the model call raises: "[domain] abstract", cut
      to `max_length - 3` characters plus "..." when longer than
      `max_length`. For `max_length >= 3` it never exceeds `max_length`. */
  function FallbackSummary(domain: string, abstractText: string, maxLength: int): (r: string)
    ensures var f := "[" + domain + "] " + abstractText;
      && (|f| <= maxLength ==> r == f)
      && (|f| > maxLength ==> r == PyPrefix(f, maxLength - 3) + "...")
      && (|f| > maxLength && maxLength >= 3 ==> |r| == maxLength)
      && (maxLength >= 3 ==> |r| <= maxLength)
  {
    var f := "[" + domain + "] " + abstractText;
    if |f| > maxLength then PyPrefix(f, maxLength - 3) + "..." else f
  }

  /** The (ai_summary, domain, key_contributions, methodology) tuple. */
  datatype Summary = Summary(aiSummary: string, domain: string, keyContributions: seq<string>, methodology: string)

  /** The 4-tuple `generate_comprehensive_summary` returns, as a value: the
      keyword domain always; the fallback summary and no contributions or
      methodology when the LLM call raises; otherwise the parsed reply, with
      the raw reply cut to `max_length` when no summary could be parsed. */
  function ComprehensiveSummary(meta: PaperMetadata, fullText: string, maxLength: int,
                                finders: SectionFinders, llm: string -> Result<string, string>,
                                alt: AltMatcher): Summary {
    var domain := DetectDomain(meta.title, meta.abstractText);
    var reply := ReplyParts(llm(SummarizationPromptFor(meta, fullText, maxLength, finders)), domain, meta.abstractText, maxLength, alt);
    Summary(reply.summary, domain, reply.contributions, reply.methodology)
  }

  /** The summary, contributions and methodology drawn from the model's
      reply, or from the fallback when the call raised. */
  function ReplyParts(reply: Result<string, string>, domain: string, abstractText: string, maxLength: int,
                      alt: AltMatcher): Parsed {
    match reply
    case Err(_) => Parsed(FallbackSummary(domain, abstractText, maxLength), [], "")
    case Ok(answer) =>
      var parsed := ParsedResponse(answer, alt);
      Parsed(if parsed.summary == "" && answer != "" then PyPrefix(answer, maxLength) else parsed.summary,
             parsed.contributions, parsed.methodology)
  }

  /** `generate_comprehensive_summary`; `llm` is the chat-completion call,
      which returns the answer text or raises. */
  method GenerateComprehensiveSummary(meta: PaperMetadata, fullText: string, maxLength: int,
                                      finders: SectionFinders, llm: string -> Result<string, string>,
                                      alt: AltMatcher) returns (r: Summary)
    ensures r == ComprehensiveSummary(meta, fullText, maxLength, finders, llm, alt)
    ensures r.domain == DetectDomain(meta.title, meta.abstractText)
    ensures llm(SummarizationPromptFor(meta, fullText, maxLength, finders)).Err? ==>
      && r.aiSummary == FallbackSummary(r.domain, meta.abstractText, maxLength)
      && r.keyContributions == [] && r.methodology == ""
    ensures llm(SummarizationPromptFor(meta, fullText, maxLength, finders)).Ok? ==>
      var answer := llm(SummarizationPromptFor(meta, fullText, maxLength, finders)).value;
      var parsed := ParsedResponse(answer, alt);
      && r.keyContributions == parsed.contributions && r.methodology == parsed.methodology
      && r.aiSummary == (if parsed.summary == "" && answer != "" then PyPrefix(answer, maxLength) else parsed.summary)
  {
    var sections := ExtractKeySections(fullText, finders);
    var domain := DetectDomain(meta.title, meta.abstractText);
    var prompt := SummarizationPrompt(meta, sections, maxLength);
    var response := llm(prompt);
    if response.Err? {
      return Summary(FallbackSummary(domain, meta.abstractText, maxLength), domain, [], "");
    }
    var result := response.value;
    var aiSummary, keyContributions, methodology := ParseAiResponse(result, alt);
    if aiSummary == "" && result != "" {
      aiSummary := PyPrefix(result, maxLength);
    }
    r := Summary(aiSummary, domain, keyContributions, methodology);
  }

  /** The sections `extract_key_sections` computes, as a value. */
  function KeySectionsOf(fullText: string, finders: SectionFinders): KeySections {
    var textLower := Lower(fullText);
    var abstractSpan := finders.abstractSpan(textLower);
    KeySections(
      if abstractSpan.Some? then Strip(PySlice(textLower, abstractSpan.value.0, abstractSpan.value.1)) else "",
      MatchedSection(textLower, finders.introductionSpan(textLower), 1000),
      MatchedSection(textLower, finders.methodologySpan(textLower), 1000),
      "",
      MatchedSection(textLower, finders.conclusionSpan(textLower), 800),
      Prefix(fullText, 2000))
  }

  /** The prompt built from the paper and its full text. */
  function SummarizationPromptFor(meta: PaperMetadata, fullText: string, maxLength: int, finders: SectionFinders): string {
    SummarizationPrompt(meta, KeySectionsOf(fullText, finders), maxLength)
  }
}
