# lunwenGraphReader in Dafny

lunwenGraphReader ingests arXiv papers into a citation graph and a vector
store, and serves the graph to a web front end. One ingestion does the following:

1. Download the PDF.
2. Scan its text for cited arXiv ids.
3. Enrich the paper record. The LangGraph agent pipeline is tried first. If it fails, a single-prompt
   summarizer is used, and if that cannot run either, a fixed fallback applies.
4. Write the paper node and its CITES edges to Neo4j.
5. Split the PDF into text and image chunks, embed them, and upsert the points into the
   Qdrant collection `papers`.
6. Sweep up to 20 cited stub nodes and backfill their metadata from arXiv.

Two read paths use the same stores. An insight generator retrieves a paper's chunks and its cited
papers and asks an LLM for an analysis. The HTTP server shapes graph rows
into display nodes and links.

This project models that core and proves what it promises:

| module | file | what it is |
|---|---|---|
| `Wrappers` | wrappers.dfy | `Option` and `Result` |
| `Strings` | strings.dfy | Python string operations the core uses (`strip`, `split`, `join`, slicing, ASCII `lower`/`upper`, substring search) |
| `Models` | models.dfy | the `PaperMetadata` and `PdfChunk` records with their defaults |
| `Graph` | neo4j_manager.dfy | the Neo4j store as a class over a node map and a CITES edge set; each method is proved equal to a state function |
| `ProcessPdf` | process_pdf.dfy | paragraph splitting, chunk extraction over abstract pages, the Qdrant store as a class, point assembly, paper-id derivation |
| `ProcessPaper` | process_paper.dfy | the arXiv id scanner, three-tier enrichment, image embedding, the backfill sweep and the whole ingestion with its write order |
| `KeywordDomains` | keyword_domains.dfy | first-match keyword tables (the summarizer's and the server's) |
| `Summarizer` | summarizer.dfy | section extraction bounds, the summarization prompt, the tolerant reply parser, the fallback summary |
| `Agents` | agents.dfy | the six-stage analysis as a state class, the section and contribution parsers, the confidence table |
| `Insights` | insights.dfy | the id fallback, first-success retrieval, prompt assembly and `generate_insight` |
| `Server` | server_main.dfy | `enrich_node`, `expand_node` and `get_graph_daily` node and link shaping |

Stateful code is modelled as classes: the graph store, the vector store and the agents' state.
Their methods are proved against pure state functions, and the lemmas state the
properties of those functions. Loops in the source are `while`/`for` loops here,
proved against recursive specification functions. External calls are
function-typed parameters that return a `Result`. These cover the LLMs, the vector search,
the embedders, the PDF download and the arXiv fetch. A `Result.Err` stands for an exception.

## Model

| member | source | states |
|---|---|---|
| Models.NewPaperMetadata | models.py:7-19 | the six required fields are as given; `references` defaults to []; the four enrichment fields default to None |
| Models.ChunkType.Name | models.py:25 | a chunk type is named "text" or "image", and "text" exactly for text chunks |
| Models.NewPdfChunk | models.py:22-28 | paper id, type and page are as given; graph node id, content and image default to None |
| Graph.CitationGraph.constructor | graph/neo4j_manager.py:10-11 | a fresh store has no nodes and no edges |
| Graph.AttrsOf | graph/neo4j_manager.py:21-33 | `add_paper` sets all nine attributes from the record, and the node it writes is complete (title and abstract present) |
| Graph.AddPaperState | graph/neo4j_manager.py:16-33 | after `add_paper` exactly one node has the id, its attributes are overwritten from the record, every other node and every edge is unchanged, and well-formedness is kept |
| Graph.CitationGraph.AddPaper | graph/neo4j_manager.py:16-33 | the store's new state is `AddPaperState` of the old one |
| Graph.MergeAllCited | graph/neo4j_manager.py:45-48 | each cited id gets a node, new ones as stubs with existing ones untouched, plus a source→cited edge; nothing else is added |
| Graph.CitationsState | graph/neo4j_manager.py:35-50 | an empty list or a missing source node changes nothing; otherwise the cited nodes and edges are merged, existing nodes keep their attributes and new nodes are stubs |
| Graph.CitationGraph.AddCitations | graph/neo4j_manager.py:35-50 | the store's new state is `CitationsState` of the old one |
| Graph.CitationsIdempotent | graph/neo4j_manager.py:45-48 | repeating `add_citations` with the same arguments changes nothing (MERGE never duplicates) |
| Graph.OutgoingAfterCitations | graph/neo4j_manager.py:44-48 | for an existing source the outgoing CITES targets grow by exactly the set of cited ids |
| Graph.CitationsDeduplicate | graph/neo4j_manager.py:45-48 | citing [a, b, a] and then [a, c] leaves exactly the edges to a, b and c |
| Graph.ReadPaper | graph/neo4j_manager.py:52-84 | the read succeeds exactly when the node exists and converts its attributes; otherwise it fails with "Paper <id> not found in graph database" |
| Graph.ToMetadata | graph/neo4j_manager.py:72-83 | null title, abstract, url and date become "", null authors become [], enrichment fields pass through, and references are [] |
| Graph.ReadAfterAddPaper | graph/neo4j_manager.py:16-84 | reading a paper just added gives back the record with `references` emptied (references are never stored) |
| Graph.AddedPaperIsNotStub | graph/neo4j_manager.py:125-130 | a paper written by `add_paper` is never reported as incomplete |
| Graph.CitationGraph.GetCitedPapersMetadata | graph/neo4j_manager.py:86-117 | returns min(limit, number of complete CITES targets) distinct papers, each a complete target of the id, converted like `get_paper_metadata` |
| Graph.CitationGraph.GetIncompleteCitedPapers | graph/neo4j_manager.py:119-133 | returns min(limit, number of incomplete nodes) distinct ids, each of a node (any node) missing its title or abstract |
| Graph.LastEntryFor | graph/neo4j_manager.py:138-139 | finds the last list entry with a given id, or reports that none has it |
| Graph.BackfillState | graph/neo4j_manager.py:135-150 | backfill never creates or removes a node or edge; each existing node takes the attributes of the last entry with its id |
| Graph.CitationGraph.BackfillPapersMetadata | graph/neo4j_manager.py:135-150 | the loop of per-entry writes leaves the store in `BackfillState` of the old one |
| ProcessPdf.SeparatorLength | pipelines/process_pdf.py:67 | measures the `\n\s*\n+` separator starting at a position, or reports that none starts there |
| ProcessPdf.SplitParagraphs | pipelines/process_pdf.py:67 | the split gives at least one piece, no piece contains a blank-line separator, and the pieces with the removed separators between them are the text |
| ProcessPdf.SeparatorsFrom | pipelines/process_pdf.py:67 | every separator the split removes is whitespace running from a newline to a newline |
| ProcessPdf.SplitRoundTrip | pipelines/process_pdf.py:67 | there is one piece more than separators, and interleaving them gives back the text |
| ProcessPdf.SplitWithoutBlankLine | pipelines/process_pdf.py:67 | a text without a separator splits into itself alone |
| ProcessPdf.StripKeepsNoBlankLine | pipelines/process_pdf.py:68 | stripping a paragraph cannot create a separator |
| ProcessPdf.TextChunks | pipelines/process_pdf.py:65-71 | one text chunk per non-empty stripped paragraph, carrying paper id, page and stripped non-empty content and no image |
| ProcessPdf.TextChunksOfKept | pipelines/process_pdf.py:65-71 | the text chunks are, one for one and in order, the stripped paragraphs that are not empty |
| ProcessPdf.KeptParagraphsAppend | pipelines/process_pdf.py:65-71 | the kept paragraphs of two runs of paragraphs are those of the first followed by those of the second, so paragraph order is kept |
| ProcessPdf.KeptParagraphsMembers | pipelines/process_pdf.py:65-71 | a text is kept exactly when it is the non-empty strip of some paragraph |
| ProcessPdf.ImageChunks | pipelines/process_pdf.py:73-80 | exactly one image chunk per embedded image, in order, carrying that image |
| ProcessPdf.PageChunksShape | pipelines/process_pdf.py:62-80 | on a page all text chunks precede its image chunks, each image gives one chunk, and every chunk carries the paper id and page index + 1 |
| ProcessPdf.DocumentChunksOrdered | pipelines/process_pdf.py:62-80 | page numbers run from 1 to the page count and never decrease along the chunk list |
| ProcessPdf.ChunkContents | pipelines/process_pdf.py:67-80 | every text chunk holds a stripped non-empty paragraph without a blank line; every image chunk holds only an image |
| ProcessPdf.ExtractPageText | pipelines/process_pdf.py:65-71 | the paragraph loop builds exactly the page's text chunks |
| ProcessPdf.ExtractPageImages | pipelines/process_pdf.py:73-80 | the image loop builds exactly the page's image chunks |
| ProcessPdf.ExtractChunks | pipelines/process_pdf.py:57-81 | the page loop builds exactly the document's chunk list |
| ProcessPdf.EnsureCollectionState | pipelines/process_pdf.py:98-112 | a collection found by a lookup that did not raise is untouched; otherwise it is (re)created empty with cosine "text" and "image" vectors of the given sizes; other collections are unchanged |
| ProcessPdf.EnsureCollectionIdempotent | pipelines/process_pdf.py:98-112 | once ensured, ensuring again with a lookup that succeeds changes nothing, whatever sizes are asked |
| ProcessPdf.VectorStore.EnsureCollection | pipelines/process_pdf.py:98-112 | the store's new state is `EnsureCollectionState` of the old one |
| ProcessPdf.AssembledPointsShape | pipelines/process_pdf.py:124-155 | text points precede image points; each modality gets min(#vectors, #chunks) points with `ord` its index; payloads carry the paper id, page, and content or image; ids are distinct |
| ProcessPdf.VectorStore.constructor | pipelines/process_pdf.py:198 | a fresh store has no collections and no points |
| ProcessPdf.VectorStore.FreshId | pipelines/process_pdf.py:130 | each point id is new: ids are issued from a counter that only grows |
| ProcessPdf.VectorStore.Upsert | pipelines/process_pdf.py:157 | points are appended to an existing collection; a missing one is an error and changes nothing |
| ProcessPdf.UpsertChunks | pipelines/process_pdf.py:115-157 | one fresh id per assembled point; no upsert call when there are no points; otherwise one call appending exactly the assembled points |
| ProcessPdf.BuildPoints | pipelines/process_pdf.py:124-155 | the two loops build exactly the assembled points, drawing one fresh id each and leaving the stored collections untouched |
| ProcessPdf.Sanitize | pipelines/process_pdf.py:166 | every character outside [0-9A-Za-z_-] becomes '_', the others are kept, and the length is unchanged |
| ProcessPdf.RemoveAll | pipelines/process_pdf.py:166 | `.replace(".pdf", "")` never lengthens and changes nothing when the pattern cannot start |
| ProcessPdf.RemoveAllPassesOver | pipelines/process_pdf.py:166 | a prefix in which no occurrence starts is kept as it is |
| ProcessPdf.RemoveAllDropsSuffix | pipelines/process_pdf.py:166 | a trailing occurrence that is the only one is removed, and nothing else |
| ProcessPdf.RemoveAllDropsSuffixOf | pipelines/process_pdf.py:166 | a trailing pattern is removed when its first character does not occur before it |
| ProcessPdf.LastSegment | pipelines/process_pdf.py:166 | the suffix after the last '/', or the whole url when it has none |
| ProcessPdf.DefaultPaperId | pipelines/process_pdf.py:166 | the default id uses only [0-9A-Za-z_-] and is no longer than the last url segment |
| ProcessPdf.LastSegmentAfterSlash | pipelines/process_pdf.py:166 | `split("/")[-1]` is the text after the last '/' |
| ProcessPdf.DefaultPaperIdOfPdf | pipelines/process_pdf.py:166 | for a link to `stem.pdf` whose only ".pdf" is the extension, the id is the sanitised stem |
| ProcessPdf.DefaultPaperIdOfArxivLink | pipelines/process_pdf.py:166 | an arXiv link `.../yymm.number.pdf` such as 1706.03762.pdf gives the id `yymm_number` |
| ProcessPdf.ResolvePaperId | pipelines/process_pdf.py:166 | a non-empty explicit paper id wins; otherwise the sanitised default is used |
| ProcessPdf.DefaultPaperIdIdempotent | pipelines/process_pdf.py:166 | deriving an id from a derived id gives it back |
| ProcessPaper.IdLength | pipelines/process_paper.py:16 | at each position the pattern matches four digits, '.', then greedily five or four digits, or nothing |
| ProcessPaper.FindIdsSkipsPrefix | pipelines/process_paper.py:16 | an "arXiv:" prefix is skipped without changing what is captured after it |
| ProcessPaper.PrefixNeverMatters | pipelines/process_paper.py:16 | the scan with the optional prefix captures exactly what the scan without it captures |
| ProcessPaper.FindIdsAreIds | pipelines/process_paper.py:16 | every captured id has the arXiv shape and occurs in the text |
| ProcessPaper.FindIdsFinds | pipelines/process_paper.py:16 | a match that starts after a non-digit, non-dot character is captured |
| ProcessPaper.LexTotal | pipelines/process_paper.py:17 | string ordering is total (as `sorted` needs) |
| ProcessPaper.LexTransitive | pipelines/process_paper.py:17 | string ordering is transitive |
| ProcessPaper.Insert | pipelines/process_paper.py:17 | insertion keeps a strictly ascending list and adds exactly the new element |
| ProcessPaper.SortedSet | pipelines/process_paper.py:17 | `sorted(set(xs))` is strictly ascending with exactly the elements of xs |
| ProcessPaper.ExtractReferencesProperties | pipelines/process_paper.py:14-17 | references are strictly ascending and distinct, each an arXiv id without "arXiv:" that occurs in the text, exactly the scanned ids, and none for an empty text |
| ProcessPaper.WholeIdIsReturned | pipelines/process_paper.py:14-17 | a whole id after the start or a non-digit, non-dot character, followed by the end or a non-digit, is among the references |
| ProcessPaper.ExtractReferencesExample | pipelines/process_paper.py:14-17 | "arXiv:1706.03762 and 1810.04805" gives ["1706.03762", "1810.04805"] |
| ProcessPaper.UseLanggraphValues | pipelines/process_paper.py:44 | the agents run when the variable is unset or "true" in any case, and not for "false", "" or "1" |
| ProcessPaper.EnrichmentKeepsOtherFields | pipelines/process_paper.py:46-86 | enrichment changes only the four enrichment fields and always leaves a summary and a domain |
| ProcessPaper.AgentsTierShape | pipelines/process_paper.py:46-56 | when the agents succeed, the record gets at most four contributions and a stripped domain |
| ProcessPaper.SummarizerTierDomain | pipelines/process_paper.py:66-78 | when the summarizer runs, the domain is the keyword-detected one |
| ProcessPaper.BasicFallback | pipelines/process_paper.py:82-86 | the basic fallback is reached exactly when neither tier can run; it sets the abstract as summary and "Computer Science" and leaves contributions and methodology as they were |
| ProcessPaper.Enrich | pipelines/process_paper.py:44-86 | the flag-driven fallback sequence computes exactly the tiered enrichment |
| ProcessPaper.SummarizeWith | pipelines/process_paper.py:69-72 | the summarizer is called with max_length 400 |
| ProcessPaper.OfType | pipelines/process_paper.py:95-96 | the filtered list holds exactly the chunks of the given type |
| ProcessPaper.PreprocessFails | pipelines/process_paper.py:107-109 | one image that fails preprocessing makes the whole preprocessing fail |
| ProcessPaper.ImageFailureIsSwallowed | pipelines/process_paper.py:101-116 | when an image fails, there are no image vectors and the upserted points are the text points alone |
| ProcessPaper.EmbedImages | pipelines/process_paper.py:101-116 | the preprocessing loop and batch encoding compute exactly the image vectors, [] on any failure |
| ProcessPaper.PrependedTensorsAppend | pipelines/process_paper.py:107-109 | appending preprocessed images one at a time composes |
| ProcessPaper.SweepKeepsShape | pipelines/process_paper.py:129-148 | a backfill sweep never adds or removes a node or an edge |
| ProcessPaper.BackfillCitedPapers | pipelines/process_paper.py:129-148 | requests up to 20 incomplete ids; fetches only when there are some; writes back only a non-empty fetched list; fetch failures change nothing |
| ProcessPaper.WriteToStore | pipelines/process_paper.py:94-122 | a text-embedding failure leaves the store alone; otherwise the "papers" collection is ensured with image size 512 and exactly the assembled points are appended |
| ProcessPaper.StoreAndSweep | pipelines/process_paper.py:94-126 | the collection and upsert writes come before the backfill sweep, and a text-embedding failure skips all of them; on success the store is `StoreAfterIngest`: the "papers" collection ensured and the paper's points appended to it |
| ProcessPaper.StoreAfterIngestProperties | pipelines/process_paper.py:117-122 | after an ingest the collection keys gain "papers"; the paper's points end the "papers" list, after the earlier points when the collection existed and was found, alone when it was (re)created; other collections are unchanged |
| ProcessPaper.IngestPages | pipelines/process_paper.py:89-126 | `add_paper`, then `add_citations(id, references)`, then the vector writes, then the sweep; the new graph is the swept one and the new store is `StoreAfterIngest` with point ids drawn from the store's counter |
| ProcessPaper.Ingest | pipelines/process_paper.py:20-126 | a download failure changes nothing; otherwise the record gets the scanned references and the enrichment, then the graph and store writes follow in order, leaving the graph and store states `PagesIngested` states |
| KeywordDomains.FirstMatch | rag/summarizer.py:105-107 | the index of the first table entry with a keyword in the text; no earlier entry matches |
| KeywordDomains.Classify | rag/summarizer.py:105-109 | the result is a table name or the default; the first matching entry's name if any matches, the default otherwise |
| KeywordDomains.DetectDomain | rag/summarizer.py:89-109 | always one of the eight summarizer domains or "Computer Science" |
| KeywordDomains.ExtractDomain | server/main.py:46-67 | always one of the nine server domains or "AI/ML" |
| KeywordDomains.ImageTitleIsVision | rag/summarizer.py:91-107 | a title mentioning "image" is classified as Computer Vision by both tables |
| Summarizer.LowerHasNoUpper | rag/summarizer.py:62 | the lowercased text has no ASCII capital |
| Summarizer.MatchedSection | rag/summarizer.py:66-82 | a found section is a lowercase piece of the text cut to its limit; no match gives "" |
| Summarizer.ExtractKeySections | rag/summarizer.py:50-87 | results is always ""; introduction ≤ 1000, methodology ≤ 1000, conclusion ≤ 800; main content is the first 2000 characters; sections are lowercase; missing matches give "" |
| Summarizer.ContentSections | rag/summarizer.py:167-179 | one to four sections: each non-empty field gives its labelled entry at its place in abstract/introduction/methodology/conclusion order, cut to 300/500/500/300 characters; main content exactly when all four are empty |
| Summarizer.AuthorsLine | rag/summarizer.py:184 | at most three authors joined by ", ", with "..." exactly when there are more |
| Summarizer.SummarizationPromptContents | rag/summarizer.py:181-201 | the prompt carries the title, the authors line, the content sections and the requested length |
| Summarizer.LazyEnd | rag/summarizer.py:216 | the lazy group ends at the first stop marker or end of text after the start |
| Summarizer.MarkedGroup | rag/summarizer.py:216-227 | a marked group exists exactly when the marker occurs, and it is a piece of the reply |
| Summarizer.ContributionItemsClean | rag/summarizer.py:223 | contributions are non-empty, stripped, and contain no '\|' |
| Summarizer.ContributionItemsAppend | rag/summarizer.py:223 | pieces keep their order: the items of `a + b` are those of `a` followed by those of `b` |
| Summarizer.ContributionItemsMembers | rag/summarizer.py:223 | a text is an item exactly when it is the non-empty strip of some piece |
| Summarizer.AltSummary | rag/summarizer.py:230-241 | an alternative summary is used only when longer than 50 characters |
| Summarizer.CleanedResponse | rag/summarizer.py:247-250 | the final fallback has no newline, at most 400 characters, and is non-empty when the reply has a non-space character |
| Summarizer.ParsedResponse | rag/summarizer.py:205-252 | an empty reply gives ("", [], ""); a reply with a non-space character gives a non-empty summary; no METHODOLOGY marker gives no methodology |
| Summarizer.ParsedContributionsClean | rag/summarizer.py:220-223 | parsed contributions are non-empty, stripped, without '\|', and none without a CONTRIBUTIONS marker |
| Summarizer.MarkedGroupAt | rag/summarizer.py:216-227 | when the marker is first found at `i` and is followed by one space, a one-line text and the lookahead, the group is that text |
| Summarizer.ParsedFormattedReply | rag/summarizer.py:188-227 | a reply written in the prompt's format, `SUMMARY: s`, `CONTRIBUTIONS: c1 \| c2`, `METHODOLOGY: m` separated by blank lines, parses back to (s, [c1, c2], m) when each field is non-empty, stripped, on one line and free of ':' and '\|' |
| Summarizer.ParseAiResponse | rag/summarizer.py:205-252 | the parser computes exactly `ParsedResponse` |
| Summarizer.FallbackSummary | rag/summarizer.py:159-161 | "[domain] abstract", cut to max_length-3 plus "..." when longer than max_length, never longer than max_length for max_length ≥ 3 |
| Summarizer.GenerateComprehensiveSummary | rag/summarizer.py:111-162 | the domain is always the detected one; an LLM failure gives the fallback summary, [] and ""; a reply gives its parsed parts, with the raw reply cut to max_length when no summary was parsed |
| Agents.HeaderOf | rag/agents.py:323 | a recognised header is one of the five section names and the line has a ':' |
| Agents.SectionsKeysAreHeaders | rag/agents.py:315-334 | section keys are only the five uppercase headers |
| Agents.NothingBeforeFirstHeader | rag/agents.py:328 | lines before the first header are ignored |
| Agents.HeaderIsCanonical | rag/agents.py:323-325 | each header name is its own canonical form |
| Agents.HeaderIsRecognised | rag/agents.py:323-325 | a line starting with "HEADER:" is recognised as that header |
| Agents.StartsWithGuardIsRedundant | rag/agents.py:328 | the `startswith` guard never rejects a line the header test let through |
| Agents.NotFoundSetsNoEntry | rag/agents.py:323-327 | a header whose value is NOT_FOUND records nothing but still becomes the current section |
| Agents.HeaderValueOverwrites | rag/agents.py:323-327 | a header with any other value records its stripped value, replacing an earlier entry under that header and keeping the others |
| Agents.ContinuationAppends | rag/agents.py:328-330 | a non-empty line that is not a header is appended to the current section's entry after one space, and nothing else changes |
| Agents.ParseSectionsResponse | rag/agents.py:315-334 | the parser's map has only header keys and equals the line-by-line specification |
| Agents.ParseSectionLines | rag/agents.py:321-332 | the line loop computes exactly the specified fold |
| Agents.LStripBullets | rag/agents.py:344 | the result never starts with a digit, dot, dash, bullet or space, and is no longer than the line |
| Agents.LStripBulletsIsSuffix | rag/agents.py:344 | the result is a suffix of the line, and everything removed before it is a bullet character |
| Agents.ItemIsStripped | rag/agents.py:344-346 | an accepted contribution is stripped and longer than 10 characters |
| Agents.ItemsComeFromLines | rag/agents.py:339-346 | every contribution comes from one line of the reply |
| Agents.FirstItemsProperties | rag/agents.py:336-348 | at most four contributions, each stripped, longer than 10 characters, and taken from a reply line |
| Agents.ParseContributionsResponse | rag/agents.py:336-348 | the parser computes exactly the first four items |
| Agents.ContributionLines | rag/agents.py:339-346 | the line loop collects exactly the accepted items in order |
| Agents.CollectItems | rag/agents.py:339-346 | the loop appends, in line order, the item of every line that yields one |
| Agents.ScoreConfidence | rag/agents.py:303-308 | each of the four scores takes its high value exactly when its threshold holds, else its low value |
| Agents.PromptBounds | rag/agents.py:127-290 | stage inputs are bounded: text 8000, methodology 500/1000, introduction 500/800, conclusion 800, abstract 400; the quality stage sends nothing |
| Agents.ApplyStage | rag/agents.py:102-313 | each stage appends exactly one message, its own, and keeps the earlier ones |
| Agents.RunStagesMessages | rag/agents.py:63-69 | a successful run keeps the messages it started with and appends one message per stage; the stages of the appended messages are the run's stages, in order |
| Agents.StageResultMessages | rag/agents.py:135 | a successful stage appends exactly one message, of that stage, and keeps the earlier ones (also lines 179, 216, 258, 294, 311) |
| Agents.RunStagesKeepsTidy | rag/agents.py:177-293 | every stage keeps at most four contributions and a stripped domain and summary |
| Agents.RunEndingInQuality | rag/agents.py:298-311 | a run that ends with quality assessment from a tidy state stays tidy and carries the confidence table of its own final fields |
| Agents.AnalysisProperties | rag/agents.py:94-100 | a successful analysis returns the confidence table of its own final fields, at most four contributions, and a stripped domain and summary |
| Agents.AnalysisMessages | rag/agents.py:63-69 | a successful analysis leaves exactly six messages, whose stages are the workflow order |
| Agents.AnalysisState.constructor | rag/agents.py:77-87 | the initial state has empty sections, fields, scores and messages |
| Agents.AnalysisState.ExtractSectionsAgent | rag/agents.py:102-137 | on success the state is the stage's result; on an LLM failure the error is returned and the state is unchanged |
| Agents.AnalysisState.DomainAnalysisAgent | rag/agents.py:139-181 | as above, for the domain stage |
| Agents.AnalysisState.MethodologyExtractionAgent | rag/agents.py:183-218 | as above, for the methodology stage |
| Agents.AnalysisState.ContributionsIdentificationAgent | rag/agents.py:220-260 | as above, for the contributions stage |
| Agents.AnalysisState.SummaryGenerationAgent | rag/agents.py:262-296 | as above, for the summary stage |
| Agents.AnalysisState.QualityAssessmentAgent | rag/agents.py:298-313 | the quality stage sets the confidence table and appends its message |
| Agents.AnalyzePaper | rag/agents.py:73-100 | running the workflow's nodes in edge order on a fresh state computes exactly `Analysis`; an LLM failure in any node is returned as the result |
| Agents.AnalysisState.RunStage | rag/agents.py:55-60 | running the node registered for a stage has exactly that stage's effect on the state, or passes on the LLM's failure and leaves the state unchanged |
| Insights.IdsToTry | rag/insights.py:124-127 | the id first, then the prefix before the first 'v' exactly when the id contains a 'v' |
| Insights.HitContentsProperties | rag/insights.py:133-135 | collected contents are non-empty hit contents, no more than the hits |
| Insights.HitContentsEmpty | rag/insights.py:133-136 | nothing is collected exactly when every hit has no or empty content |
| Insights.FirstContentIsFirstSuccess | rag/insights.py:129-143 | the result is the contents of the first id that yields any; it is empty exactly when none does |
| Insights.RetrievedContentProperties | rag/insights.py:101-147 | retrieved pieces are non-empty and come from a successful search for one of the ids to try |
| Insights.CollectContents | rag/insights.py:132-135 | the hit loop collects exactly the non-empty contents |
| Insights.RetrievePaperContent | rag/insights.py:101-147 | the id loop with its early return computes exactly the first-success content, [] on any failure |
| Insights.ChunkLine | rag/insights.py:163 | a chunk line is "- " plus the chunk, cut to 200 characters plus "..." when longer |
| Insights.ChunkLines | rag/insights.py:163 | only the first three chunks are rendered, in order |
| Insights.CoreSectionUsesFirstThree | rag/insights.py:159-170 | chunks beyond the third never matter, and with chunks the paper's own fields are not used |
| Insights.CitedLinesBounded | rag/insights.py:177 | a cited line starts with the quoted title and is bounded by the title, date and 150 abstract characters |
| Insights.InsightPromptContents | rag/insights.py:189-204 | the prompt quotes the title and carries the core and cited sections |
| Insights.NotFoundMessage | rag/insights.py:75 | the not-found message contains the id |
| Insights.LlmErrorMessage | rag/insights.py:99 | the error message contains the exception text |
| Insights.GenerateInsight | rag/insights.py:57-99 | a missing paper gives the not-found message and no prompt; otherwise the prompt built from the retrieved content and cited papers is sent, and the LLM's text or the error message is returned |
| Server.SummaryProperties | server/main.py:78-88 | a summary exists exactly when the AI summary or the abstract is non-empty; it extends the first 300 (AI summary) or 120 (abstract) characters and is at most 303 or 123 long |
| Server.AuthorFields | server/main.py:100-109 | first author and count are set together, exactly for non-empty authors; a list gives element 0 and its length, text gives the stripped first comma piece |
| Server.YearOf | server/main.py:112-113 | the first four characters of the date, or "" when it is empty |
| Server.EnrichNode | server/main.py:70-116 | the node always has the row's id and the requested type |
| Server.EnrichNodeProperties | server/main.py:70-116 | an untitled row gives a bare node; otherwise the title, summary, authors and year are as specified, the domain is the stored one or else the one extracted from title and abstract, and key contributions and methodology are copied from the row exactly when present and non-empty; it raises exactly for a titled row with no domain and a null abstract |
| Server.StoredNodesEnrich | server/main.py:70-116 | nodes written by ingestion always enrich, with the stored or the extracted domain; citation stubs give a bare node |
| Server.LinkOf | server/main.py:280-284 | a CITES row links src→dst and any other relation is reversed |
| Server.NodeIds | server/main.py:261 | the ids of a node list, in order |
| Server.ExpandFromKeeps | server/main.py:264-284 | the row loop keeps the centre first, each neighbour once (the first row wins), and one link per row |
| Server.ExpandedProperties | server/main.py:243-286 | no rows give the bare centre and no links; otherwise the expansion invariant holds for all rows |
| Server.ExpandNode | server/main.py:243-288 | the loop computes exactly `Expanded` |
| Server.EnrichAll | server/main.py:228-235 | every row is enriched in order, and this fails exactly when one row does |
| Server.EnrichAllIdsTypes | server/main.py:228-235 | enriched rows keep their ids and carry the requested type |
| Server.AssembledProperties | server/main.py:224-237 | "today" nodes precede "cited" nodes, and each edge row gives one CITES link |
| Server.EnrichRows | server/main.py:228-235 | the node loop computes exactly `EnrichAll` |
| Server.GetGraphDaily | server/main.py:168-240 | falls back to the latest papers, returns an empty graph when there are none, and otherwise assembles nodes and links as specified |

## Where the code decides

Where the design description and the code differ, the model follows the code:
- The basic fallback sets only `ai_summary` and `domain`. Contributions and methodology keep whatever the record held (pipelines/process_paper.py:85-86).
- `get_incomplete_cited_papers` returns any node missing its title or abstract, not only cited ones (graph/neo4j_manager.py:128).
- `references` is set on the record but never written to the graph, so a read always gives [] (graph/neo4j_manager.py:21-33, 72-83).
- The optional "arXiv:" group sits outside the capture group, so it never changes the captured ids (pipelines/process_paper.py:16).
- `enrich_node` raises a TypeError for a titled row whose domain is empty and whose abstract is null: `abstract[:120]` is never reached, but `extract_domain(title, None)` concatenates None (server/main.py:79,91). The model returns an error there.
- The `startswith` guard in `_parse_sections_response` can never reject a line (rag/agents.py:328): `StartsWithGuardIsRedundant` proves it.
- The expand query matches `(p)-[r]-(n)` in either direction and always returns the centre as `src`. The graph holds only CITES edges, so `type(r)` is always "CITES" and the reversing branch never runs: a paper that cites the centre is drawn as a link from the centre to that paper (server/main.py:246-250, 279-284). `LinkOf` models both branches as written.

## Left out

- PDF download over httpx and its retries: the download is a parameter that returns the parsed pages or fails.
- PyMuPDF parsing, pixmap conversion, PNG and base64 encoding: a page is its text and a list of opaque image payloads.
- Embedders and floating point: vectors are opaque values. The text dimension is a parameter, and the numpy shape inspection is not modelled.
- Qdrant similarity ranking: the search is a parameter that returns hits or fails. The Neo4j driver, sessions and Cypher reads in server/main.py: the server functions take the query rows as inputs.
- LLM clients, LangGraph compilation, model names, temperatures and token limits: each LLM call is a parameter that returns text or fails.
- Regex section finders and the alternative summary patterns of the summarizer: they are parameters returning spans or groups. The SUMMARY/CONTRIBUTIONS/METHODOLOGY markers are modelled exactly.
- Environment variables other than USE_LANGGRAPH, and client selection. Building the agents or the summarizer is modelled only as succeeding or failing (an `Option` parameter).
- Unicode: `lower`, `upper` and `isdigit` are ASCII-only; whitespace is Python's full `isspace` set.
- uuid4 point ids are modelled as a counter that never repeats.
- Graph.CitationGraph.GetCitedPapersMetadata and Graph.CitationGraph.GetIncompleteCitedPapers choose their elements nondeterministically, because the backend fixes no order.
- `get_paper_detail`, the insight route, `root`, `date.today()`, FastAPI routing and HTTP errors: only the node and link shaping is modelled.
- Logging, including the float average in the quality stage's log message.
- cli.py, app.py and sources/arxiv_fetcher.py are not part of this model. The arXiv fetch is a parameter.
- ProcessPdf.ExtractPageText: requires page text with a non-space character, as the caller's `text.strip()` test guarantees.
- ProcessPaper.Ingest: an exception from `add_paper`, `add_citations`, the collection lookup or the upsert itself is not modelled. The stores are in memory and do not fail, except for a missing collection, which `ensure_qdrant_collection` rules out.
