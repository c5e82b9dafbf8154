/** Insight generation for one paper (rag/insights.py): the paper's own
    text chunks from the vector store, its cited papers from the graph,
    one prompt, one LLM call. The text embedder, the vector search and the
    LLM are oracles that answer or fail. */
module Insights {

  import opened Wrappers
  import opened Strings
  import opened Models
  import opened Graph

  // ---------------------------------------------------------------------
  // _retrieve_paper_content

  /** A search hit, reduced to what is read from it: the payload's
      "content" value, None when there is no payload or no such key. */
  datatype Hit = Hit(content: Option<string>)

  /** The filtered similarity search `_search_with_id` issues. */
  datatype SearchRequest = SearchRequest(
    collection: string,
    vectorName: string,
    vector: seq<real>,
    paperId: string,
    chunkType: string,
    limit: nat)

  /** `text_embedder.encode`, which may raise. */
  type Embedder = string -> Result<seq<real>, string>

  /** `qdrant_client.search`, which may raise. */
  type Search = SearchRequest -> Result<seq<Hit>, string>

  function SearchFor(pid: string, vector: seq<real>, limit: nat): SearchRequest {
    SearchRequest("papers", "text", vector, pid, "text", limit)
  }

  /** `ids_to_try`: the id, then the part before its first 'v' when that
      differs, i.e. exactly when the id contains a 'v'. */
  function IdsToTry(arxivId: string): (r: seq<string>)
    ensures 1 <= |r| <= 2 && r[0] == arxivId
    ensures |r| == 2 <==> 'v' in arxivId
    ensures |r| == 2 ==> 'v' !in r[1] && IsPrefix(r[1] + "v", arxivId)
  {
    var base := SplitOnce(arxivId, 'v').0;
    if base != arxivId then
      assert arxivId[..|base| + 1] == base + "v";
      [arxivId, base]
    else [arxivId]
  }

  /** The contents of the hits whose content is present and non-empty, in
      hit order. */
  function HitContents(hits: seq<Hit>): seq<string>
    decreases |hits|
  {
    if hits == [] then [] else HitContent(hits[0]) + HitContents(hits[1..])
  }

  /** What one hit contributes: its content when it has a non-empty one. */
  function HitContent(hit: Hit): seq<string> {
    match hit.content
    case Some(c) => if c != "" then [c] else []
    case None => []
  }

  /** Every retrieved content string is non-empty and is some hit's
      content; there are no more of them than hits. */
  lemma {:induction false} HitContentsProperties(hits: seq<Hit>)
    ensures |HitContents(hits)| <= |hits|
    ensures forall c | c in HitContents(hits) :: c != "" && Hit(Some(c)) in hits
    decreases |hits|
  {
    if hits != [] {
      HitContentsProperties(hits[1..]);
      assert forall h | h in hits[1..] :: h in hits;
    }
  }

  /** No hit with content gives no content at all. */
  lemma {:induction false} HitContentsEmpty(hits: seq<Hit>)
    ensures HitContents(hits) == [] <==> forall i | 0 <= i < |hits| :: hits[i].content.None? || hits[i].content == Some("")
    decreases |hits|
  {
    if hits != [] {
      HitContentsEmpty(hits[1..]);
      assert forall i | 1 <= i < |hits| :: hits[i] == hits[1..][i - 1];
    }
  }

  /** The ids tried in order: the first whose search succeeds with some
      content gives that content; a failed search moves on. */
  function FirstContent(ids: seq<string>, vector: seq<real>, limit: nat, search: Search): seq<string>
    decreases |ids|
  {
    if ids == [] then []
    else
      match search(SearchFor(ids[0], vector, limit))
      case Err(_) => FirstContent(ids[1..], vector, limit, search)
      case Ok(hits) =>
        if HitContents(hits) != [] then HitContents(hits) else FirstContent(ids[1..], vector, limit, search)
  }

  /** An id's search yields content. */
  predicate Yields(pid: string, vector: seq<real>, limit: nat, search: Search) {
    search(SearchFor(pid, vector, limit)).Ok? && HitContents(search(SearchFor(pid, vector, limit)).value) != []
  }

  /** The first-success rule: a non-empty result is the content of the
      first id that yields any, and the result is empty exactly when no id
      yields content. */
  lemma {:induction false} FirstContentIsFirstSuccess(ids: seq<string>, vector: seq<real>, limit: nat, search: Search)
    ensures var r := FirstContent(ids, vector, limit, search);
      (r == [] <==> forall i | 0 <= i < |ids| :: !Yields(ids[i], vector, limit, search))
      && (r != [] ==> exists i | 0 <= i < |ids| ::
            && Yields(ids[i], vector, limit, search)
            && r == HitContents(search(SearchFor(ids[i], vector, limit)).value)
            && forall j | 0 <= j < i :: !Yields(ids[j], vector, limit, search))
    decreases |ids|
  {
    if ids != [] {
      FirstContentIsFirstSuccess(ids[1..], vector, limit, search);
      assert forall i | 1 <= i < |ids| :: ids[i] == ids[1..][i - 1];
      var r := FirstContent(ids, vector, limit, search);
      if !Yields(ids[0], vector, limit, search) && r != [] {
        var i :| 0 <= i < |ids[1..]| && Yields(ids[1..][i], vector, limit, search)
          && r == HitContents(search(SearchFor(ids[1..][i], vector, limit)).value)
          && forall j | 0 <= j < i :: !Yields(ids[1..][j], vector, limit, search);
        assert forall j | 1 <= j < i + 1 :: ids[j] == ids[1..][j - 1];
        assert Yields(ids[i + 1], vector, limit, search);
      }
    }
  }

  /** What `_retrieve_paper_content` returns: [] when embedding the query
      fails, otherwise the first-success content over `ids_to_try`. */
  function RetrievedContent(meta: PaperMetadata, limit: nat, embed: Embedder, search: Search): seq<string> {
    match embed(meta.title + "\n" + meta.abstractText)
    case Err(_) => []
    case Ok(vector) => FirstContent(IdsToTry(meta.arxivId), vector, limit, search)
  }

  /** Retrieved content is the content of the paper's own id, or else of
      its version-less id, each piece non-empty. */
  lemma RetrievedContentProperties(meta: PaperMetadata, limit: nat, embed: Embedder, search: Search)
    ensures var r := RetrievedContent(meta, limit, embed, search);
      && (forall c | c in r :: c != "")
      && (r != [] ==> embed(meta.title + "\n" + meta.abstractText).Ok?)
      && (r != [] ==> exists pid | pid in IdsToTry(meta.arxivId) ::
            search(SearchFor(pid, embed(meta.title + "\n" + meta.abstractText).value, limit)).Ok?
            && r == HitContents(search(SearchFor(pid, embed(meta.title + "\n" + meta.abstractText).value, limit)).value))
  {
    var query := embed(meta.title + "\n" + meta.abstractText);
    if query.Ok? {
      var ids := IdsToTry(meta.arxivId);
      FirstContentIsFirstSuccess(ids, query.value, limit, search);
      var r := RetrievedContent(meta, limit, embed, search);
      if r != [] {
        var i :| 0 <= i < |ids| && Yields(ids[i], query.value, limit, search)
          && r == HitContents(search(SearchFor(ids[i], query.value, limit)).value);
        assert ids[i] in ids;
        HitContentsProperties(search(SearchFor(ids[i], query.value, limit)).value);
      }
    }
  }

  /** The loop over one search's hits. */
  method CollectContents(hits: seq<Hit>) returns (contents: seq<string>)
    ensures contents == HitContents(hits)
  {
    contents := [];
    for i := 0 to |hits|
      invariant contents + HitContents(hits[i..]) == HitContents(hits)
    {
      assert hits[i..][1..] == hits[i + 1..];
      assert HitContents(hits[i..]) == HitContent(hits[i]) + HitContents(hits[i + 1..]);
      ghost var before := contents;
      if hits[i].content.Some? && hits[i].content.value != "" {
        contents := contents + [hits[i].content.value];
      }
      assert contents == before + HitContent(hits[i]);
      AppendAssoc(before, HitContent(hits[i]), HitContents(hits[i + 1..]));
    }
  }

  /** `_retrieve_paper_content`: embed "title\nabstract", then try the ids
      in order, returning the first non-empty content. */
  method RetrievePaperContent(meta: PaperMetadata, limit: nat, embed: Embedder, search: Search) returns (chunks: seq<string>)
    ensures chunks == RetrievedContent(meta, limit, embed, search)
  {
    var query := embed(meta.title + "\n" + meta.abstractText);
    if query.Err? {
      return [];
    }
    var ids := [meta.arxivId];
    var base := SplitOnce(meta.arxivId, 'v').0;
    if base != meta.arxivId {
      ids := ids + [base];
    }
    assert ids == IdsToTry(meta.arxivId);
    for k := 0 to |ids|
      invariant FirstContent(ids[k..], query.value, limit, search) == FirstContent(ids, query.value, limit, search)
    {
      assert ids[k..][1..] == ids[k + 1..];
      var results := search(SearchFor(ids[k], query.value, limit));
      if results.Ok? {
        var contents := CollectContents(results.value);
        if contents != [] {
          return contents;
        }
      }
    }
    chunks := [];
  }

  // ---------------------------------------------------------------------
  // _build_insight_prompt

  /** One core-content line: "- " and the chunk, cut to 200 characters
      plus "..." when longer. */
  function ChunkLine(chunk: string): (r: string)
    ensures |r| <= 205 && IsPrefix("- ", r)
    ensures |chunk| <= 200 ==> r == "- " + chunk
    ensures |chunk| > 200 ==> r == "- " + chunk[..200] + "..."
  {
    "- " + Ellipsized(chunk, 200)
  }

  /** The lines of the first three chunks. */
  function ChunkLines(chunks: seq<string>): (r: seq<string>)
    ensures |r| <= 3 && |r| == if |chunks| < 3 then |chunks| else 3
    ensures forall i | 0 <= i < |r| :: r[i] == ChunkLine(chunks[i])
  {
    var first := if |chunks| <= 3 then chunks else chunks[..3];
    seq(|first|, i requires 0 <= i < |first| => ChunkLine(first[i]))
  }

  /** The core-content section: the chunk lines, or title and the first
      500 characters of the abstract when there are no chunks. */
  function CoreSection(meta: PaperMetadata, chunks: seq<string>): string {
    if chunks != [] then
      "\n## 论文核心内容\n基于最相关的文本片段：\n" + Join(ChunkLines(chunks), "\n") + "\n"
    else
      "\n## 论文基本信息\n标题：" + meta.title + "\n摘要：" + Prefix(meta.abstractText, 500) + "...\n"
  }

  /** Only the first three chunks reach the prompt, and with chunks the
      paper's own title and abstract do not enter this section. */
  lemma CoreSectionUsesFirstThree(meta: PaperMetadata, other: PaperMetadata, chunks: seq<string>)
    ensures |chunks| > 3 ==> CoreSection(meta, chunks) == CoreSection(meta, chunks[..3])
    ensures chunks != [] ==> CoreSection(meta, chunks) == CoreSection(other, chunks)
  {
    if |chunks| > 3 {
      assert ChunkLines(chunks) == ChunkLines(chunks[..3]);
    }
  }

  /** One cited-paper line: title, date and the first 150 characters of
      the abstract followed by "...". */
  function CitedLine(p: PaperMetadata): string {
    "• '" + p.title + "' (" + p.publicationDate + "): " + Prefix(p.abstractText, 150) + "..."
  }

  /** The cited-papers section, or its placeholder when there are none. */
  function CitedSection(cited: seq<PaperMetadata>): string {
    if cited != [] then
      "\n## 基础研究（被引论文）\n该论文建立在以下先前研究基础上：\n"
        + Join(seq(|cited|, i requires 0 <= i < |cited| => CitedLine(cited[i])), "\n") + "\n"
    else
      "\n## 基础研究（被引论文）\n未能检索到该论文引用的相关论文的详细信息。\n"
  }

  /** A cited paper's line starts with its quoted title, and its abstract
      excerpt adds at most 150 characters. */
  lemma CitedLinesBounded(p: PaperMetadata)
    ensures |CitedLine(p)| <= 3 + |p.title| + 3 + |p.publicationDate| + 3 + 150 + 3
    ensures IsPrefix("• '" + p.title + "'", CitedLine(p))
  {
    var r := CitedLine(p);
    assert r[..|"• '" + p.title + "'"|] == "• '" + p.title + "'";
  }

  const AnalysisTask: string :=
    "## 分析任务\n请基于以上信息，提供一个结构化的深度分析，包括：\n\n"
    + "1. **核心贡献**：总结该论文的主要技术创新和学术贡献\n"
    + "2. **方法特色**：分析论文采用的关键方法或技术路线\n"
    + "3. **历史脉络**：说明该工作如何建立在已有研究基础上，解决了什么问题\n"
    + "4. **技术影响**：评估该研究对相关领域可能产生的影响\n\n"
    + "请用中文回答，语言专业且易理解。如果信息不足，请明确指出并基于现有信息给出合理的分析。"

  const PromptHead: string := "你是一位AI研究专家，请为论文 \""
  const PromptTail: string := "\" 提供深度洞察分析。\n\n"

  /** `_build_insight_prompt`: the quoted title, the core section, the
      cited section and the analysis task, in that order. */
  function InsightPrompt(meta: PaperMetadata, chunks: seq<string>, cited: seq<PaperMetadata>): string {
    PromptHead + meta.title + PromptTail + CoreSection(meta, chunks) + "\n\n" + CitedSection(cited) + "\n\n" + AnalysisTask
  }

  /** The prompt names the paper in quotes and carries both sections. */
  lemma InsightPromptContents(meta: PaperMetadata, chunks: seq<string>, cited: seq<PaperMetadata>)
    ensures var r := InsightPrompt(meta, chunks, cited);
      && Contains(r, "\"" + meta.title + "\"")
      && Contains(r, CoreSection(meta, chunks))
      && Contains(r, CitedSection(cited))
  {
    assert PromptHead[|PromptHead| - 1] == '"';
    assert PromptTail[0] == '"';
    InsightPromptParts(PromptHead, meta.title, PromptTail, CoreSection(meta, chunks), CitedSection(cited), AnalysisTask);
  }

  /** Where each part sits in the assembled prompt. */
  lemma InsightPromptParts(head: string, title: string, tail: string, core: string, citedPart: string, task: string)
    requires |head| >= 1 && head[|head| - 1] == '"' && |tail| >= 1 && tail[0] == '"'
    ensures var r := head + title + tail + core + "\n\n" + citedPart + "\n\n" + task;
      Contains(r, "\"" + title + "\"") && Contains(r, core) && Contains(r, citedPart)
  {
    var quoted := "\"" + title + "\"";
    var r0 := head + title + tail;
    var r1 := r0 + core;
    var r2 := r1 + "\n\n";
    var r3 := r2 + citedPart;
    var r4 := r3 + "\n\n";
    QuotedTitleAt(head, title, tail);
    ContainsExtend(r0, core, quoted);
    ContainsExtend(r1, "\n\n", quoted);
    ContainsExtend(r2, citedPart, quoted);
    ContainsExtend(r3, "\n\n", quoted);
    ContainsExtend(r4, task, quoted);
    ContainsMiddle(r0, core, []);
    assert r0 + core + [] == r1;
    ContainsExtend(r1, "\n\n", core);
    ContainsExtend(r2, citedPart, core);
    ContainsExtend(r3, "\n\n", core);
    ContainsExtend(r4, task, core);
    ContainsMiddle(r2, citedPart, []);
    assert r2 + citedPart + [] == r3;
    ContainsExtend(r3, "\n\n", citedPart);
    ContainsExtend(r4, task, citedPart);
  }

  /** The title sits between the closing quote of the head and the opening
      quote of the tail. */
  lemma QuotedTitleAt(head: string, title: string, tail: string)
    requires |head| >= 1 && head[|head| - 1] == '"' && |tail| >= 1 && tail[0] == '"'
    ensures Contains(head + title + tail, "\"" + title + "\"")
  {
    var r := head + title + tail;
    var k := |head| - 1;
    assert r[k..k + |title| + 2] == "\"" + title + "\"";
    assert OccursAt("\"" + title + "\"", r, k);
  }


  // ---------------------------------------------------------------------
  // generate_insight

  /** The message returned when the paper is not in the graph. */
  function NotFoundMessage(arxivId: string): (r: string)
    ensures Contains(r, arxivId)
  {
    var head := "错误：无法找到论文 ";
    ContainsMiddle(head, arxivId, "。请先运行 'ingest-arxiv " + arxivId + "' 来获取该论文的数据。");
    head + arxivId + ("。请先运行 'ingest-arxiv " + arxivId + "' 来获取该论文的数据。")
  }

  /** The string returned when the LLM call raises. */
  function LlmErrorMessage(e: string): (r: string)
    ensures Contains(r, e)
  {
    ContainsMiddle("生成洞察时出错：", e, "");
    "生成洞察时出错：" + e + ""
  }

  /** The LLM's reply to a prompt, which may raise. */
  type Llm = string -> Result<string, string>

  /** The text `generate_insight` returns for the prompt it sent. */
  function InsightText(answer: Result<string, string>): string {
    match answer
    case Ok(text) => text
    case Err(e) => LlmErrorMessage(e)
  }

  /** A possible answer of `get_cited_papers_metadata(arxiv_id, limit)`:
      as many complete cited papers as the limit allows, each once. */
  ghost predicate CitedRead(g: GraphState, arxivId: string, limit: nat, cited: seq<PaperMetadata>) {
    && |cited| == Min(limit, |CompleteCited(g, arxivId)|)
    && (forall p | p in cited :: p.arxivId in CompleteCited(g, arxivId) && p == ToMetadata(p.arxivId, g.nodes[p.arxivId]))
    && forall i, j | 0 <= i < j < |cited| :: cited[i].arxivId != cited[j].arxivId
  }

  /** `generate_insight`: a missing paper gives the not-found message and
      nothing is searched or asked; otherwise the prompt built from the
      retrieved content and the cited papers is sent, and the LLM's text or
      the error message is returned. `prompt` is what was sent, if any. */
  method GenerateInsight(graph: CitationGraph, arxivId: string, maxCitedPapers: nat, maxContentChunks: nat,
                         embed: Embedder, search: Search, llm: Llm)
    returns (insight: string, prompt: Option<string>)
    ensures graph.GetPaperMetadata(arxivId).Err? ==> insight == NotFoundMessage(arxivId) && prompt.None?
    ensures graph.GetPaperMetadata(arxivId).Ok? ==>
      && prompt.Some?
      && insight == InsightText(llm(prompt.value))
      && exists cited | CitedRead(graph.State(), arxivId, maxCitedPapers, cited) ::
           prompt.value == InsightPrompt(graph.GetPaperMetadata(arxivId).value,
                                         RetrievedContent(graph.GetPaperMetadata(arxivId).value, maxContentChunks, embed, search),
                                         cited)
  {
    var paper := graph.GetPaperMetadata(arxivId);
    if paper.Err? {
      return NotFoundMessage(arxivId), None;
    }
    var meta := paper.value;
    var coreChunks := RetrievePaperContent(meta, maxContentChunks, embed, search);
    var cited := graph.GetCitedPapersMetadata(arxivId, maxCitedPapers);
    assert CitedRead(graph.State(), arxivId, maxCitedPapers, cited);
    var text := InsightPrompt(meta, coreChunks, cited);
    var answer := llm(text);
    if answer.Err? {
      return LlmErrorMessage(answer.error), Some(text);
    }
    insight := answer.value;
    prompt := Some(text);
  }
}
