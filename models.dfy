/** The record types shared by the pipeline (models.py). */
module Models {

  import opened Wrappers

  /** A paper's metadata. The first six fields are required; `references`
      defaults to the empty list and the four enrichment fields to None. */
  datatype PaperMetadata = PaperMetadata(
    arxivId: string,
    title: string,
    authors: seq<string>,
    abstractText: string,
    pdfUrl: string,
    publicationDate: string,
    references: seq<string>,
    aiSummary: Option<string>,
    domain: Option<string>,
    keyContributions: Option<seq<string>>,
    methodology: Option<string>)

  /** `PaperMetadata(arxiv_id=..., title=..., ...)` with only the required
      fields given: every optional field takes its declared default. */
  function NewPaperMetadata(arxivId: string, title: string, authors: seq<string>,
                            abstractText: string, pdfUrl: string, publicationDate: string): (m: PaperMetadata)
    ensures m.arxivId == arxivId && m.title == title && m.authors == authors
    ensures m.abstractText == abstractText && m.pdfUrl == pdfUrl && m.publicationDate == publicationDate
    ensures m.references == []
    ensures m.aiSummary.None? && m.domain.None? && m.keyContributions.None? && m.methodology.None?
  {
    PaperMetadata(arxivId, title, authors, abstractText, pdfUrl, publicationDate, [], None, None, None, None)
  }

  /** The two kinds of chunk (`chunk_type` is "text" or "image"). */
  datatype ChunkType = Text | Image {
    function Name(): (s: string)
      ensures s == "text" || s == "image"
      ensures Text? <==> s == "text"
    {
      if Text? then "text" else "image"
    }
  }

  /** models.py's chunk record; it carries an optional graph node id. */
  datatype PdfChunk = PdfChunk(
    paperId: string,
    graphNodeId: Option<string>,
    chunkType: ChunkType,
    pageNumber: int,
    content: Option<string>,
    imageB64: Option<string>)

  /** `PdfChunk(paper_id=..., chunk_type=..., page_number=...)`: the node id
      and both payloads default to None. */
  function NewPdfChunk(paperId: string, chunkType: ChunkType, pageNumber: int): (c: PdfChunk)
    ensures c.paperId == paperId && c.chunkType == chunkType && c.pageNumber == pageNumber
    ensures c.graphNodeId.None? && c.content.None? && c.imageB64.None?
  {
    PdfChunk(paperId, None, chunkType, pageNumber, None, None)
  }
}
