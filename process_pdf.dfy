/** PDF chunking and vector-store writes (pipelines/process_pdf.py).
    A parsed PDF is a sequence of pages, each with its extracted text and the
    already encoded payloads of its embedded images. */
module ProcessPdf {

  import opened Wrappers
  import opened Strings
  import opened Models

  /** One page as PyMuPDF presents it: `get_text("text")` and one opaque
      (PNG, base64) payload per embedded image, in `get_images` order. */
  datatype Page = Page(text: string, images: seq<string>)

  /** process_pdf.py's own chunk record (no graph node id). */
  datatype Chunk = Chunk(
    paperId: string,
    chunkType: ChunkType,
    pageNumber: int,
    content: Option<string>,
    imageB64: Option<string>)

  // ---------------------------------------------------------------------
  // Paragraph splitting: re.split(r"\n\s*\n+", text)

  /** A newline at `i` and a newline at `k` with only whitespace between:
      the blank-line boundary paragraphs are split on. */
  ghost predicate BlankLineAt(s: string, i: int, k: int) {
    0 <= i < k < |s| && s[i] == '\n' && s[k] == '\n' && forall m :: i < m < k ==> IsSpace(s[m])
  }

  ghost predicate HasBlankLine(s: string) {
    exists i, k :: BlankLineAt(s, i, k)
  }

  /** The last newline in `s[lo..hi]`. */
  function LastNewline(s: string, lo: nat, hi: nat): (r: Option<nat>)
    requires lo <= hi <= |s|
    ensures r.Some? ==> lo <= r.value < hi && s[r.value] == '\n'
    ensures r.Some? ==> forall m :: r.value < m < hi ==> s[m] != '\n'
    ensures r.None? ==> forall m :: lo <= m < hi ==> s[m] != '\n'
    decreases hi - lo
  {
    if hi == lo then None
    else if s[hi - 1] == '\n' then Some(hi - 1)
    else LastNewline(s, lo, hi - 1)
  }

  /** Length of the separator match starting at `i` (0 when none starts
      there). `\s*` is greedy and gives back characters until `\n+` can
      match, so the match ends just after the last newline of the run of
      whitespace that follows the first newline. */
  function SeparatorLength(s: string, i: nat): (n: nat)
    requires i < |s|
    ensures n > 0 ==> i + n <= |s| && BlankLineAt(s, i, i + n - 1)
    ensures n == 0 ==> forall k :: !BlankLineAt(s, i, k)
  {
    if s[i] != '\n' then 0
    else
      var e := SpaceRunEnd(s, i + 1);
      match LastNewline(s, i + 1, e)
      case None =>
        0
      case Some(p) => p + 1 - i
  }

  /** No blank line starts before index `i`. */
  ghost predicate NoBlankLineBefore(s: string, i: int) {
    forall j, k :: 0 <= j < i && BlankLineAt(s, j, k) ==> false
  }

  /** The pieces of `re.split`, scanning from `i` for the next separator
      while the current piece is `s[..i]`. */
  function SplitFrom(s: string, i: nat): (r: seq<string>)
    requires i <= |s|
    ensures |r| >= 1
    ensures NoBlankLineBefore(s, i) ==> forall p | p in r :: !HasBlankLine(p)
    decreases |s|, |s| - i
  {
    if i == |s| then
      assert forall j, k | BlankLineAt(s, j, k) :: j < i;
      [s]
    else if SeparatorLength(s, i) > 0 then
      var rest := SplitFrom(s[i + SeparatorLength(s, i)..], 0);
      assert HasBlankLine(s[..i]) ==> !NoBlankLineBefore(s, i) by {
        if HasBlankLine(s[..i]) {
          var j, k :| BlankLineAt(s[..i], j, k);
          assert j < i && BlankLineAt(s, j, k);
        }
      }
      [s[..i]] + rest
    else
      SplitFrom(s, i + 1)
  }

  /** A match of `\n\s*\n+`: whitespace from a newline to a newline. */
  predicate IsSeparator(t: string) {
    |t| >= 2 && t[0] == '\n' && t[|t| - 1] == '\n' && forall m | 0 <= m < |t| :: IsSpace(t[m])
  }

  /** The separators `re.split` cuts out, scanning from `i` like
      `SplitFrom`. */
  function SeparatorsFrom(s: string, i: nat): (r: seq<string>)
    requires i <= |s|
    ensures forall t | t in r :: IsSeparator(t)
    decreases |s|, |s| - i
  {
    if i == |s| then []
    else if SeparatorLength(s, i) > 0 then
      var n := SeparatorLength(s, i);
      var sep := s[i..i + n];
      assert forall m | 0 <= m < n :: sep[m] == s[i + m];
      [sep] + SeparatorsFrom(s[i + n..], 0)
    else
      SeparatorsFrom(s, i + 1)
  }

  /** The pieces with the separators put back between them. */
  function Interleave(pieces: seq<string>, seps: seq<string>): string
    requires |pieces| == |seps| + 1
    decreases |seps|
  {
    if seps == [] then pieces[0] else pieces[0] + seps[0] + Interleave(pieces[1..], seps[1..])
  }

  /** Splitting loses nothing: the pieces and the separators between them
      make up the text again. */
  lemma {:induction false} SplitRoundTrip(s: string, i: nat)
    requires i <= |s|
    ensures |SplitFrom(s, i)| == |SeparatorsFrom(s, i)| + 1
    ensures Interleave(SplitFrom(s, i), SeparatorsFrom(s, i)) == s
    decreases |s|, |s| - i
  {
    if i == |s| {
    } else if SeparatorLength(s, i) > 0 {
      var n := SeparatorLength(s, i);
      var rest := s[i + n..];
      SplitRoundTrip(rest, 0);
      SplitAtSeparator(s, i);
      InterleaveCons(s[..i], s[i..i + n], SplitFrom(rest, 0), SeparatorsFrom(rest, 0));
      ThreeParts(s, i, i + n);
    } else {
      SplitRoundTrip(s, i + 1);
      SplitPastNonSeparator(s, i);
    }
  }

  /** Where no separator starts, the scan moves on by one character. */
  lemma SplitPastNonSeparator(s: string, i: nat)
    requires i < |s| && SeparatorLength(s, i) == 0
    ensures SplitFrom(s, i) == SplitFrom(s, i + 1)
    ensures SeparatorsFrom(s, i) == SeparatorsFrom(s, i + 1)
  {
  }

  /** A text is its three slices around `i` and `j`. */
  lemma ThreeParts(s: string, i: nat, j: nat)
    requires i <= j <= |s|
    ensures s == s[..i] + s[i..j] + s[j..]
  {
  }

  /** At a separator the current piece ends, the separator is cut out, and
      splitting starts afresh after it. */
  lemma SplitAtSeparator(s: string, i: nat)
    requires i < |s| && SeparatorLength(s, i) > 0
    ensures SplitFrom(s, i) == [s[..i]] + SplitFrom(s[i + SeparatorLength(s, i)..], 0)
    ensures SeparatorsFrom(s, i) == [s[i..i + SeparatorLength(s, i)]] + SeparatorsFrom(s[i + SeparatorLength(s, i)..], 0)
  {
  }

  /** Interleaving a first piece and separator in front. */
  lemma InterleaveCons(p: string, t: string, pieces: seq<string>, seps: seq<string>)
    requires |pieces| == |seps| + 1
    ensures Interleave([p] + pieces, [t] + seps) == p + t + Interleave(pieces, seps)
  {
    assert ([p] + pieces)[1..] == pieces && ([t] + seps)[1..] == seps;
  }

  /** The separators `re.split(r"\n\s*\n+", text)` removes. */
  function ParagraphSeparators(text: string): (r: seq<string>)
    ensures forall t | t in r :: IsSeparator(t)
  {
    SeparatorsFrom(text, 0)
  }

  /** `re.split(r"\n\s*\n+", text)`: no piece contains a blank line, and
      the pieces with the separators between them are the text. */
  function SplitParagraphs(text: string): (r: seq<string>)
    ensures |r| >= 1
    ensures forall p | p in r :: !HasBlankLine(p)
    ensures |r| == |ParagraphSeparators(text)| + 1 && Interleave(r, ParagraphSeparators(text)) == text
  {
    SplitRoundTrip(text, 0);
    SplitFrom(text, 0)
  }

  /** Text without a blank line is one paragraph. */
  lemma {:induction false} SplitWithoutBlankLine(s: string, i: nat)
    requires i <= |s| && !HasBlankLine(s)
    ensures SplitFrom(s, i) == [s]
    decreases |s| - i
  {
    if i < |s| {
      SplitWithoutBlankLine(s, i + 1);
    }
  }

  /** Stripping keeps a piece free of blank lines. */
  lemma StripKeepsNoBlankLine(p: string)
    ensures !HasBlankLine(p) ==> !HasBlankLine(Strip(p))
  {
    var k := StripStart(p);
    var q := Strip(p);
    if HasBlankLine(q) {
      var j, m :| BlankLineAt(q, j, m);
      assert forall x | 0 <= x < |q| :: p[k + x] == p[k..k + |q|][x] == q[x];
      assert forall y | k + j < y < k + m :: IsSpace(p[y]) by {
        forall y | k + j < y < k + m
          ensures IsSpace(p[y])
        {
          assert p[y] == q[y - k];
        }
      }
      assert BlankLineAt(p, k + j, k + m);
    }
  }

  // ---------------------------------------------------------------------
  // Chunk extraction: extract_with_pymupdf

  /** The text chunks of one page, from its paragraphs in order: each
      paragraph is stripped and empty ones are skipped. */
  function TextChunks(paras: seq<string>, paperId: string, pageNumber: int): (r: seq<Chunk>)
    ensures |r| <= |paras|
    ensures forall c | c in r ::
      && c.paperId == paperId && c.chunkType == Text && c.pageNumber == pageNumber
      && c.content.Some? && c.imageB64.None?
      && c.content.value != [] && Strip(c.content.value) == c.content.value
    ensures (forall p | p in paras :: !HasBlankLine(p)) ==>
      forall c | c in r :: !HasBlankLine(c.content.value)
    decreases |paras|
  {
    if paras == [] then []
    else
      var n := |paras| - 1;
      var para := Strip(paras[n]);
      StripIdempotent(paras[n]);
      StripKeepsNoBlankLine(paras[n]);
      assert forall p | p in paras[..n] :: p in paras;
      TextChunks(paras[..n], paperId, pageNumber)
        + (if para == [] then [] else [Chunk(paperId, Text, pageNumber, Some(para), None)])
  }

  /** What one paragraph keeps: its stripped text, unless that is empty. */
  function KeptOf(p: string): seq<string> {
    if Strip(p) == [] then [] else [Strip(p)]
  }

  /** The stripped, non-empty paragraphs, in order. */
  function KeptParagraphs(paras: seq<string>): (r: seq<string>)
    ensures |r| <= |paras|
    decreases |paras|
  {
    if paras == [] then [] else KeptParagraphs(paras[..|paras| - 1]) + KeptOf(paras[|paras| - 1])
  }

  /** The text chunks carry exactly the kept paragraphs, one each, in
      order. */
  lemma {:induction false} TextChunksOfKept(paras: seq<string>, paperId: string, pageNumber: int)
    ensures |TextChunks(paras, paperId, pageNumber)| == |KeptParagraphs(paras)|
    ensures forall i | 0 <= i < |KeptParagraphs(paras)| ::
      TextChunks(paras, paperId, pageNumber)[i] == Chunk(paperId, Text, pageNumber, Some(KeptParagraphs(paras)[i]), None)
    decreases |paras|
  {
    if paras != [] {
      var n := |paras| - 1;
      TextChunksOfKept(paras[..n], paperId, pageNumber);
      var before := TextChunks(paras[..n], paperId, pageNumber);
      var kept := KeptParagraphs(paras[..n]);
      var last := if Strip(paras[n]) == [] then [] else [Chunk(paperId, Text, pageNumber, Some(Strip(paras[n])), None)];
      TextChunksStep(paras, paperId, pageNumber);
      ChunksMatchKept(before, kept, last, KeptOf(paras[n]), paperId, pageNumber);
    }
  }

  /** The chunks of the paragraphs but the last, then the last one's. */
  lemma TextChunksStep(paras: seq<string>, paperId: string, pageNumber: int)
    requires paras != []
    ensures var n := |paras| - 1;
      TextChunks(paras, paperId, pageNumber) == TextChunks(paras[..n], paperId, pageNumber)
        + (if Strip(paras[n]) == [] then [] else [Chunk(paperId, Text, pageNumber, Some(Strip(paras[n])), None)])
    ensures KeptParagraphs(paras) == KeptParagraphs(paras[..|paras| - 1]) + KeptOf(paras[|paras| - 1])
  {
  }

  /** Matching chunk and text lists stay matched when extended by
      matching pieces. */
  lemma ChunksMatchKept(a: seq<Chunk>, k: seq<string>, b: seq<Chunk>, l: seq<string>, paperId: string, pageNumber: int)
    requires |a| == |k| && forall i | 0 <= i < |k| :: a[i] == Chunk(paperId, Text, pageNumber, Some(k[i]), None)
    requires |b| == |l| && forall i | 0 <= i < |l| :: b[i] == Chunk(paperId, Text, pageNumber, Some(l[i]), None)
    ensures |a + b| == |k + l|
    ensures forall i | 0 <= i < |k + l| :: (a + b)[i] == Chunk(paperId, Text, pageNumber, Some((k + l)[i]), None)
  {
  }

  /** Keeping works paragraph by paragraph, so it preserves their order. */
  lemma {:induction false} KeptParagraphsAppend(a: seq<string>, b: seq<string>)
    ensures KeptParagraphs(a + b) == KeptParagraphs(a) + KeptParagraphs(b)
    decreases |b|
  {
    if b == [] {
      assert a + b == a;
    } else {
      var n := |b| - 1;
      assert (a + b)[..|a + b| - 1] == a + b[..n];
      assert (a + b)[|a + b| - 1] == b[n];
      KeptParagraphsAppend(a, b[..n]);
      AppendAssoc(KeptParagraphs(a), KeptParagraphs(b[..n]), KeptOf(b[n]));
    }
  }

  /** A text is kept exactly when it is the non-empty strip of one of the
      paragraphs. */
  lemma {:induction false} KeptParagraphsMembers(paras: seq<string>, q: string)
    ensures q in KeptParagraphs(paras) <==> q != [] && exists p | p in paras :: Strip(p) == q
    decreases |paras|
  {
    if paras != [] {
      var n := |paras| - 1;
      KeptParagraphsMembers(paras[..n], q);
      assert paras == paras[..n] + [paras[n]];
      assert forall p | p in paras :: p in paras[..n] || p == paras[n];
    }
  }

  /** One image chunk per embedded image, in order. */
  function ImageChunks(images: seq<string>, paperId: string, pageNumber: int): (r: seq<Chunk>)
    ensures |r| == |images|
    ensures forall i | 0 <= i < |r| ::
      r[i] == Chunk(paperId, Image, pageNumber, None, Some(images[i]))
  {
    seq(|images|, i requires 0 <= i < |images| => Chunk(paperId, Image, pageNumber, None, Some(images[i])))
  }

  /** The chunks of page `index` (0-based): text chunks, when the page has
      any non-blank text, then one image chunk per image. */
  function PageChunks(page: Page, index: nat, paperId: string): seq<Chunk>
  {
    (if HasNonSpace(page.text) then TextChunks(SplitParagraphs(page.text), paperId, index + 1) else [])
      + ImageChunks(page.images, paperId, index + 1)
  }

  /** Chunks of the whole document, page after page. */
  function DocumentChunks(pages: seq<Page>, paperId: string): seq<Chunk>
    decreases |pages|
  {
    if pages == [] then []
    else DocumentChunks(pages[..|pages| - 1], paperId) + PageChunks(pages[|pages| - 1], |pages| - 1, paperId)
  }

  /** Within a page every chunk carries the paper id and the 1-based page
      number; all text chunks come first, followed by exactly one image
      chunk per embedded image, in order. */
  lemma PageChunksShape(page: Page, index: nat, paperId: string)
    ensures var r := PageChunks(page, index, paperId);
      && |r| >= |page.images|
      && (forall c | c in r :: c.paperId == paperId && c.pageNumber == index + 1)
      && (forall i | 0 <= i < |r| :: (r[i].chunkType == Image <==> i >= |r| - |page.images|))
      && (forall i | 0 <= i < |page.images| :: r[|r| - |page.images| + i].imageB64 == Some(page.images[i]))
  {
    var texts := if HasNonSpace(page.text) then TextChunks(SplitParagraphs(page.text), paperId, index + 1) else [];
    assert PageChunks(page, index, paperId) == texts + ImageChunks(page.images, paperId, index + 1);
    TextsThenImages(texts, page.images, paperId, index + 1);
  }

  /** Text chunks of one page followed by its image chunks. */
  lemma TextsThenImages(texts: seq<Chunk>, images: seq<string>, paperId: string, pageNumber: int)
    requires forall c | c in texts :: c.paperId == paperId && c.pageNumber == pageNumber && c.chunkType == Text
    ensures var r := texts + ImageChunks(images, paperId, pageNumber);
      && |r| >= |images|
      && (forall c | c in r :: c.paperId == paperId && c.pageNumber == pageNumber)
      && (forall i | 0 <= i < |r| :: (r[i].chunkType == Image <==> i >= |r| - |images|))
      && (forall i | 0 <= i < |images| :: r[|r| - |images| + i].imageB64 == Some(images[i]))
  {
    var chunks := ImageChunks(images, paperId, pageNumber);
    var r := texts + chunks;
    forall i | 0 <= i < |r|
      ensures r[i].chunkType == Image <==> i >= |r| - |images|
    {
      if i < |texts| {
        assert r[i] == texts[i] && texts[i] in texts;
      } else {
        assert r[i] == chunks[i - |texts|];
      }
    }
    forall i | 0 <= i < |images|
      ensures r[|r| - |images| + i].imageB64 == Some(images[i])
    {
      assert r[|texts| + i] == chunks[i];
    }
    forall c | c in r
      ensures c.paperId == paperId && c.pageNumber == pageNumber
    {
      if c in chunks {
        var i :| 0 <= i < |chunks| && chunks[i] == c;
      }
    }
  }

  /** Page numbers run from 1 to the page count and never decrease along
      the document's chunk list; every chunk carries the paper id. */
  lemma {:induction false} DocumentChunksOrdered(pages: seq<Page>, paperId: string)
    ensures var r := DocumentChunks(pages, paperId);
      && (forall c | c in r :: c.paperId == paperId && 1 <= c.pageNumber <= |pages|)
      && (forall i, j | 0 <= i < j < |r| :: r[i].pageNumber <= r[j].pageNumber)
    decreases |pages|
  {
    if pages != [] {
      var n := |pages| - 1;
      DocumentChunksOrdered(pages[..n], paperId);
      PageChunksShape(pages[n], n, paperId);
      var prev := DocumentChunks(pages[..n], paperId);
      var last := PageChunks(pages[n], n, paperId);
      assert forall i | 0 <= i < |prev| :: prev[i] in prev;
      assert forall i | 0 <= i < |last| :: last[i] in last;
    }
  }

  /** Every text chunk holds one stripped, non-empty paragraph with no blank
      line inside it; every image chunk holds exactly an image payload. */
  lemma {:induction false} ChunkContents(pages: seq<Page>, paperId: string)
    ensures forall c | c in DocumentChunks(pages, paperId) && c.chunkType == Text ::
      && c.content.Some? && c.imageB64.None?
      && c.content.value != [] && Strip(c.content.value) == c.content.value
      && !HasBlankLine(c.content.value)
    ensures forall c | c in DocumentChunks(pages, paperId) && c.chunkType == Image ::
      c.content.None? && c.imageB64.Some?
    decreases |pages|
  {
    if pages != [] {
      var n := |pages| - 1;
      ChunkContents(pages[..n], paperId);
      var page := pages[n];
      var texts := if HasNonSpace(page.text) then TextChunks(SplitParagraphs(page.text), paperId, n + 1) else [];
      var images := ImageChunks(page.images, paperId, n + 1);
      assert PageChunks(page, n, paperId) == texts + images;
      assert forall c | c in images :: c.chunkType == Image && c.content.None? && c.imageB64.Some? by {
        forall c | c in images ensures c.chunkType == Image && c.content.None? && c.imageB64.Some? {
          var i :| 0 <= i < |images| && images[i] == c;
        }
      }
    }
  }

  lemma DocumentChunksSnoc(pages: seq<Page>, i: nat, paperId: string)
    requires i < |pages|
    ensures DocumentChunks(pages[..i + 1], paperId)
      == DocumentChunks(pages[..i], paperId) + PageChunks(pages[i], i, paperId)
  {
    assert pages[..i + 1][..i] == pages[..i];
  }

  lemma TextChunksSnoc(paras: seq<string>, k: nat, paperId: string, pageNumber: int)
    requires k < |paras|
    ensures TextChunks(paras[..k + 1], paperId, pageNumber)
      == TextChunks(paras[..k], paperId, pageNumber)
         + (if Strip(paras[k]) == [] then [] else [Chunk(paperId, Text, pageNumber, Some(Strip(paras[k])), None)])
  {
    assert paras[..k + 1][..k] == paras[..k];
  }

  lemma ImageChunksSnoc(images: seq<string>, k: nat, paperId: string, pageNumber: int)
    requires k < |images|
    ensures ImageChunks(images[..k + 1], paperId, pageNumber)
      == ImageChunks(images[..k], paperId, pageNumber) + [Chunk(paperId, Image, pageNumber, None, Some(images[k]))]
  {
    var l := ImageChunks(images[..k + 1], paperId, pageNumber);
    var r := ImageChunks(images[..k], paperId, pageNumber) + [Chunk(paperId, Image, pageNumber, None, Some(images[k]))];
    assert |l| == |r|;
    forall i | 0 <= i < |l| ensures l[i] == r[i] {
      assert images[..k + 1][i] == images[i];
    }
  }

  /** The text half of one page in `extract_with_pymupdf`: split into
      paragraphs, strip each, skip the empty ones. */
  method ExtractPageText(text: string, paperId: string, pageNumber: int) returns (chunks: seq<Chunk>)
    requires HasNonSpace(text)
    ensures chunks == TextChunks(SplitParagraphs(text), paperId, pageNumber)
  {
    var paras := SplitParagraphs(text);
    chunks := [];
    for k := 0 to |paras|
      invariant chunks == TextChunks(paras[..k], paperId, pageNumber)
    {
      TextChunksSnoc(paras, k, paperId, pageNumber);
      var para := Strip(paras[k]);
      if para == [] {
        continue;
      }
      chunks := chunks + [Chunk(paperId, Text, pageNumber, Some(para), None)];
    }
    assert paras[..|paras|] == paras;
  }

  /** The image half of one page in `extract_with_pymupdf`: one chunk per
      image, in order. */
  method ExtractPageImages(images: seq<string>, paperId: string, pageNumber: int) returns (chunks: seq<Chunk>)
    ensures chunks == ImageChunks(images, paperId, pageNumber)
  {
    chunks := [];
    for k := 0 to |images|
      invariant chunks == ImageChunks(images[..k], paperId, pageNumber)
    {
      ImageChunksSnoc(images, k, paperId, pageNumber);
      chunks := chunks + [Chunk(paperId, Image, pageNumber, None, Some(images[k]))];
    }
    assert images[..|images|] == images;
  }

  /** `extract_with_pymupdf` over already parsed pages: for each page, its
      text chunks (when the text is not blank) and then one chunk per image. */
  method ExtractChunks(pages: seq<Page>, paperId: string) returns (chunks: seq<Chunk>)
    ensures chunks == DocumentChunks(pages, paperId)
  {
    chunks := [];
    for pageIndex := 0 to |pages|
      invariant chunks == DocumentChunks(pages[..pageIndex], paperId)
    {
      var page := pages[pageIndex];
      ghost var before := chunks;
      var texts := [];
      if HasNonSpace(page.text) {
        texts := ExtractPageText(page.text, paperId, pageIndex + 1);
      }
      var images := ExtractPageImages(page.images, paperId, pageIndex + 1);
      chunks := chunks + texts + images;
      assert chunks == before + PageChunks(page, pageIndex, paperId);
      DocumentChunksSnoc(pages, pageIndex, paperId);
    }
    assert pages[..|pages|] == pages;
  }

  // ---------------------------------------------------------------------
  // The vector store: ensure_qdrant_collection and upsert_chunks

  /** An embedding, kept opaque: nothing here depends on its numbers. */
  type Vector = seq<real>

  datatype Distance = Cosine

  datatype VectorParams = VectorParams(size: int, distance: Distance)

  /** A collection's named vectors: "text" and "image". */
  datatype CollectionConfig = CollectionConfig(text: VectorParams, image: VectorParams)

  /** The payload dictionaries of the two kinds of point. */
  datatype Payload =
    | TextPayload(paperId: string, chunkType: string, pageNumber: int, content: Option<string>, ord: nat)
    | ImagePayload(paperId: string, chunkType: string, pageNumber: int, imageB64: Option<string>, ord: nat)

  /** A point with one named vector; `id` stands for the uuid4 string. */
  datatype Point = Point(id: nat, vectorName: string, vector: Vector, payload: Payload)

  datatype StoreState = StoreState(collections: map<string, CollectionConfig>, points: map<string, seq<Point>>)

  /** The configuration `recreate_collection` is given. */
  function NewCollectionConfig(textSize: int, imageSize: int): CollectionConfig {
    CollectionConfig(VectorParams(textSize, Cosine), VectorParams(imageSize, Cosine))
  }

  /** `ensure_qdrant_collection`: the collection counts as existing only when
      the lookup neither raised nor found nothing; otherwise it is
      (re)created, empty, with the given sizes. */
  function EnsureCollectionState(st: StoreState, name: string, textSize: int, imageSize: int,
                                 lookupRaises: bool): (r: StoreState)
    ensures name in r.collections && r.collections.Keys == st.collections.Keys + {name}
    ensures !lookupRaises && name in st.collections ==> r == st
    ensures lookupRaises || name !in st.collections ==>
      && r.collections[name] == NewCollectionConfig(textSize, imageSize)
      && r.points == st.points[name := []]
    ensures forall c | c in st.collections && c != name :: r.collections[c] == st.collections[c]
  {
    if !lookupRaises && name in st.collections then st
    else StoreState(st.collections[name := NewCollectionConfig(textSize, imageSize)], st.points[name := []])
  }

  /** Once a lookup succeeds, ensuring the collection again changes nothing,
      whatever sizes the second call asks for. */
  lemma EnsureCollectionIdempotent(st: StoreState, name: string, textSize: int, imageSize: int,
                                   lookupRaises: bool, textSize2: int, imageSize2: int)
    ensures var once := EnsureCollectionState(st, name, textSize, imageSize, lookupRaises);
      EnsureCollectionState(once, name, textSize2, imageSize2, false) == once
  {
  }

  /** The text point built from the `ord`-th text vector and chunk. */
  function TextPoint(paperId: string, vec: Vector, ch: Chunk, id: nat, ord: nat): Point {
    Point(id, "text", vec, TextPayload(paperId, ch.chunkType.Name(), ch.pageNumber, ch.content, ord))
  }

  /** The image point built from the `ord`-th image vector and chunk. */
  function ImagePoint(paperId: string, vec: Vector, ch: Chunk, id: nat, ord: nat): Point {
    Point(id, "image", vec, ImagePayload(paperId, ch.chunkType.Name(), ch.pageNumber, ch.imageB64, ord))
  }

  function Min(a: int, b: int): int {
    if a <= b then a else b
  }

  /** The points `upsert_chunks` assembles, ids drawn in order from `firstId`:
      `zip` stops at the shorter list in each modality. */
  function AssembledPoints(paperId: string, textVectors: seq<Vector>, textChunks: seq<Chunk>,
                           imageVectors: seq<Vector>, imageChunks: seq<Chunk>, firstId: nat): seq<Point>
  {
    var nt := Min(|textVectors|, |textChunks|);
    var ni := Min(|imageVectors|, |imageChunks|);
    seq(nt, i requires 0 <= i < nt => TextPoint(paperId, textVectors[i], textChunks[i], firstId + i, i))
      + seq(ni, i requires 0 <= i < ni => ImagePoint(paperId, imageVectors[i], imageChunks[i], firstId + nt + i, i))
  }

  /** Text points come first, then image points; each modality has
      min(#vectors, #chunks) points whose `ord` is the index within the
      modality; every payload carries the `paper_id` argument and the
      chunk's page number, text payloads the content and image payloads the
      image; ids are pairwise distinct and not below `firstId`. */
  lemma AssembledPointsShape(paperId: string, textVectors: seq<Vector>, textChunks: seq<Chunk>,
                             imageVectors: seq<Vector>, imageChunks: seq<Chunk>, firstId: nat)
    ensures var r := AssembledPoints(paperId, textVectors, textChunks, imageVectors, imageChunks, firstId);
      var nt := Min(|textVectors|, |textChunks|);
      && |r| == nt + Min(|imageVectors|, |imageChunks|)
      && (forall i | 0 <= i < |r| :: r[i].payload.paperId == paperId && r[i].id >= firstId)
      && (forall i, j | 0 <= i < j < |r| :: r[i].id != r[j].id)
      && (forall i | 0 <= i < nt ::
            && r[i].vectorName == "text" && r[i].vector == textVectors[i]
            && r[i].payload == TextPayload(paperId, textChunks[i].chunkType.Name(), textChunks[i].pageNumber, textChunks[i].content, i))
      && (forall i | nt <= i < |r| ::
            && r[i].vectorName == "image" && r[i].vector == imageVectors[i - nt]
            && r[i].payload == ImagePayload(paperId, imageChunks[i - nt].chunkType.Name(), imageChunks[i - nt].pageNumber, imageChunks[i - nt].imageB64, i - nt))
  {
    var r := AssembledPoints(paperId, textVectors, textChunks, imageVectors, imageChunks, firstId);
    var nt := Min(|textVectors|, |textChunks|);
    assert forall i | 0 <= i < |r| :: r[i].id == firstId + i;
  }

  /** Qdrant seen through the calls the pipeline makes. `issued` counts the
      point ids handed out so far and stands for uuid4: an id is never
      handed out twice. `upserts` counts calls to `upsert`. */
  class VectorStore {
    var collections: map<string, CollectionConfig>
    var points: map<string, seq<Point>>
    var issued: nat
    var upserts: nat

    function State(): StoreState
      reads this
    {
      StoreState(collections, points)
    }

    /** Every collection has a point list, and every stored id was issued. */
    ghost predicate Valid()
      reads this
    {
      && collections.Keys == points.Keys
      && forall c, i | c in points && 0 <= i < |points[c]| :: points[c][i].id < issued
    }

    constructor()
      ensures Valid() && collections == map[] && points == map[] && issued == 0 && upserts == 0
    {
      collections := map[];
      points := map[];
      issued := 0;
      upserts := 0;
    }

    /** `str(uuid.uuid4())` */
    method FreshId() returns (id: nat)
      requires Valid()
      modifies this
      ensures Valid() && State() == old(State()) && upserts == old(upserts)
      ensures id == old(issued) && issued == old(issued) + 1
    {
      id := issued;
      issued := issued + 1;
    }

    /** `ensure_qdrant_collection`; `lookupRaises` is the outcome of
        `get_collection`, which raises when the backend cannot answer. */
    method EnsureCollection(name: string, textSize: int, imageSize: int, lookupRaises: bool)
      requires Valid()
      modifies this
      ensures Valid() && issued == old(issued) && upserts == old(upserts)
      ensures State() == EnsureCollectionState(old(State()), name, textSize, imageSize, lookupRaises)
    {
      var found := false;
      if !lookupRaises {
        found := name in collections;
      }
      if !found {
        collections := collections[name := NewCollectionConfig(textSize, imageSize)];
        points := points[name := []];
      }
    }

    /** `client.upsert`: the points join the collection (their ids are
        fresh, so none replaces a stored point); a missing collection is a
        backend error. */
    method Upsert(name: string, pts: seq<Point>) returns (r: Result<(), string>)
      requires Valid() && forall i | 0 <= i < |pts| :: pts[i].id < issued
      modifies this
      ensures Valid() && issued == old(issued) && upserts == old(upserts) + 1
      ensures name in old(collections) ==>
        r.Ok? && collections == old(collections) && points == old(points)[name := old(points)[name] + pts]
      ensures name !in old(collections) ==> r.Err? && State() == old(State())
    {
      upserts := upserts + 1;
      if name !in collections {
        return Err("Not found: Collection `" + name + "` doesn't exist!");
      }
      points := points[name := points[name] + pts];
      r := Ok(());
    }
  }

  /** `upsert_chunks`: builds the text points, then the image points, each
      with a freshly issued id, and calls `upsert` only when there is at
      least one point. */
  method UpsertChunks(store: VectorStore, collection: string, paperId: string,
                      textVectors: seq<Vector>, textChunks: seq<Chunk>,
                      imageVectors: seq<Vector>, imageChunks: seq<Chunk>) returns (r: Result<(), string>)
    requires store.Valid()
    modifies store
    ensures store.Valid()
    ensures var pts := AssembledPoints(paperId, textVectors, textChunks, imageVectors, imageChunks, old(store.issued));
      && store.issued == old(store.issued) + |pts|
      && (pts == [] ==> r.Ok? && store.upserts == old(store.upserts) && store.State() == old(store.State()))
      && (pts != [] ==> store.upserts == old(store.upserts) + 1)
      && (pts != [] && collection in old(store.collections) ==>
            r.Ok? && store.collections == old(store.collections)
            && store.points == old(store.points)[collection := old(store.points)[collection] + pts])
      && (pts != [] && collection !in old(store.collections) ==> r.Err? && store.State() == old(store.State()))
  {
    var points := BuildPoints(store, paperId, textVectors, textChunks, imageVectors, imageChunks);
    if |points| > 0 {
      r := store.Upsert(collection, points);
    } else {
      r := Ok(());
    }
  }

  /** The two loops of `upsert_chunks` that build the points, drawing one
      fresh id per point. */
  method BuildPoints(store: VectorStore, paperId: string,
                     textVectors: seq<Vector>, textChunks: seq<Chunk>,
                     imageVectors: seq<Vector>, imageChunks: seq<Chunk>) returns (points: seq<Point>)
    requires store.Valid()
    modifies store
    ensures store.Valid() && store.State() == old(store.State()) && store.upserts == old(store.upserts)
    ensures points == AssembledPoints(paperId, textVectors, textChunks, imageVectors, imageChunks, old(store.issued))
    ensures store.issued == old(store.issued) + |points|
  {
    ghost var firstId := store.issued;
    points := [];
    var nt := Min(|textVectors|, |textChunks|);
    for i := 0 to nt
      invariant store.Valid() && store.State() == old(store.State()) && store.upserts == old(store.upserts)
      invariant store.issued == firstId + i && |points| == i
      invariant forall j | 0 <= j < i :: points[j] == TextPoint(paperId, textVectors[j], textChunks[j], firstId + j, j)
    {
      var id := store.FreshId();
      points := points + [TextPoint(paperId, textVectors[i], textChunks[i], id, i)];
    }
    var ni := Min(|imageVectors|, |imageChunks|);
    for i := 0 to ni
      invariant store.Valid() && store.State() == old(store.State()) && store.upserts == old(store.upserts)
      invariant store.issued == firstId + nt + i && |points| == nt + i
      invariant forall j | 0 <= j < nt :: points[j] == TextPoint(paperId, textVectors[j], textChunks[j], firstId + j, j)
      invariant forall j | 0 <= j < i :: points[nt + j] == ImagePoint(paperId, imageVectors[j], imageChunks[j], firstId + nt + j, j)
    {
      var id := store.FreshId();
      points := points + [ImagePoint(paperId, imageVectors[i], imageChunks[i], id, i)];
    }
    PointsAreAssembled(points, paperId, textVectors, textChunks, imageVectors, imageChunks, firstId);
  }

  /** Points built one by one, text points then image points, are the
      assembled points. */
  lemma PointsAreAssembled(points: seq<Point>, paperId: string, textVectors: seq<Vector>, textChunks: seq<Chunk>,
                           imageVectors: seq<Vector>, imageChunks: seq<Chunk>, firstId: nat)
    requires |points| == Min(|textVectors|, |textChunks|) + Min(|imageVectors|, |imageChunks|)
    requires forall j | 0 <= j < Min(|textVectors|, |textChunks|) ::
      points[j] == TextPoint(paperId, textVectors[j], textChunks[j], firstId + j, j)
    requires forall j | 0 <= j < Min(|imageVectors|, |imageChunks|) ::
      points[Min(|textVectors|, |textChunks|) + j]
        == ImagePoint(paperId, imageVectors[j], imageChunks[j], firstId + Min(|textVectors|, |textChunks|) + j, j)
    ensures points == AssembledPoints(paperId, textVectors, textChunks, imageVectors, imageChunks, firstId)
  {
    var nt := Min(|textVectors|, |textChunks|);
    var r := AssembledPoints(paperId, textVectors, textChunks, imageVectors, imageChunks, firstId);
    forall k | 0 <= k < |points|
      ensures points[k] == r[k]
    {
      if k >= nt {
        assert points[nt + (k - nt)] == points[k];
      }
    }
  }

  // ---------------------------------------------------------------------
  // The paper id of process_pdf_command

  /** Characters `[0-9A-Za-z_-]` that the sanitiser keeps. */
  predicate IdChar(c: char) {
    '0' <= c <= '9' || 'A' <= c <= 'Z' || 'a' <= c <= 'z' || c == '_' || c == '-'
  }

  /** `re.sub(r"[^0-9A-Za-z_-]", "_", s)` */
  function Sanitize(s: string): (r: string)
    ensures |r| == |s|
    ensures forall i | 0 <= i < |s| :: r[i] == (if IdChar(s[i]) then s[i] else '_')
  {
    if s == [] then [] else [if IdChar(s[0]) then s[0] else '_'] + Sanitize(s[1..])
  }

  /** `s.replace(pat, "")`: removes every non-overlapping occurrence,
      scanning left to right. */
  function RemoveAll(s: string, pat: string): (r: string)
    requires |pat| > 0
    ensures |r| <= |s|
    ensures pat[0] !in s ==> r == s
    decreases |s|
  {
    if |s| < |pat| then s
    else if s[..|pat|] == pat then RemoveAll(s[|pat|..], pat)
    else [s[0]] + RemoveAll(s[1..], pat)
  }

  /** `pat` does not occur in `s` at any position before `n`. */
  predicate NoMatchBefore(s: string, pat: string, n: int) {
    forall k | 0 <= k < n :: !OccursAt(pat, s, k)
  }

  /** The scan passes over a prefix `a` in which no occurrence of `pat`
      starts: `a` is kept as it is, and the rest is scanned on its own. */
  lemma {:induction false} RemoveAllPassesOver(a: string, b: string, pat: string)
    requires |pat| > 0 && NoMatchBefore(a + b, pat, |a|)
    ensures RemoveAll(a + b, pat) == a + RemoveAll(b, pat)
    decreases |a|
  {
    if a == [] {
      assert a + b == b;
    } else {
      var s := a + b;
      if |s| >= |pat| {
        assert !OccursAt(pat, s, 0);
        assert s[..|pat|] == s[0..0 + |pat|];
        assert s[1..] == a[1..] + b;
        forall k | 0 <= k < |a| - 1
          ensures !OccursAt(pat, a[1..] + b, k)
        {
          assert !OccursAt(pat, s, k + 1);
          if k + |pat| <= |a[1..] + b| {
            assert (a[1..] + b)[k..k + |pat|] == s[k + 1..k + 1 + |pat|];
          }
        }
        RemoveAllPassesOver(a[1..], b, pat);
        assert RemoveAll(s, pat) == [a[0]] + (a[1..] + RemoveAll(b, pat));
        assert a == [a[0]] + a[1..];
        AppendAssoc([a[0]], a[1..], RemoveAll(b, pat));
      } else {
        assert RemoveAll(b, pat) == b;
      }
    }
  }

  /** A trailing `pat` whose only occurrence is at the end is removed, and
      nothing else is. */
  lemma RemoveAllDropsSuffix(a: string, pat: string)
    requires |pat| > 0 && NoMatchBefore(a + pat, pat, |a|)
    ensures RemoveAll(a + pat, pat) == a
  {
    RemoveAllPassesOver(a, pat, pat);
    assert pat[..|pat|] == pat;
    assert pat[|pat|..] == [];
  }

  /** In particular when the first character of `pat` does not occur in
      `a`. */
  lemma RemoveAllDropsSuffixOf(a: string, pat: string)
    requires |pat| > 0 && pat[0] !in a
    ensures RemoveAll(a + pat, pat) == a
  {
    forall k | 0 <= k < |a|
      ensures !OccursAt(pat, a + pat, k)
    {
      assert (a + pat)[k..k + |pat|][0] == a[k];
    }
    RemoveAllDropsSuffix(a, pat);
  }

  /** `url.split("/")[-1]`: the last piece of the split is the text after
      the last '/', or all of `url` when it has none. */
  function LastSegment(url: string): (r: string)
    ensures '/' !in r
    ensures |r| <= |url| && r == url[|url| - |r|..]
    ensures |r| < |url| ==> url[|url| - |r| - 1] == '/'
  {
    if url == [] || url[|url| - 1] == '/' then []
    else LastSegment(url[..|url| - 1]) + [url[|url| - 1]]
  }

  /** The id derived from the URL: the last path segment without ".pdf",
      every character outside `[0-9A-Za-z_-]` turned into '_'. */
  function DefaultPaperId(url: string): (r: string)
    ensures forall i | 0 <= i < |r| :: IdChar(r[i])
    ensures |r| <= |LastSegment(url)|
  {
    Sanitize(RemoveAll(LastSegment(url), ".pdf"))
  }

  /** The piece after the last '/' is the last segment. */
  lemma {:induction false} LastSegmentAfterSlash(dir: string, x: string)
    requires '/' !in x
    ensures LastSegment(dir + "/" + x) == x
    decreases |x|
  {
    var url := dir + "/" + x;
    if x != [] {
      var init := x[..|x| - 1];
      assert url[..|url| - 1] == dir + "/" + init;
      assert url[|url| - 1] == x[|x| - 1];
      LastSegmentAfterSlash(dir, init);
      assert x == init + [x[|x| - 1]];
    }
  }

  /** The last segment of a link to `stem + ".pdf"` is that file name. */
  lemma LastSegmentOfFile(dir: string, stem: string)
    requires '/' !in stem
    ensures LastSegment(dir + "/" + stem + ".pdf") == stem + ".pdf"
  {
    var file := stem + ".pdf";
    assert '/' !in file;
    assert dir + "/" + stem + ".pdf" == dir + "/" + file;
    LastSegmentAfterSlash(dir, file);
  }

  /** The id of a link whose last segment loses exactly its ".pdf". */
  lemma DefaultPaperIdOfSegment(url: string, stem: string)
    requires LastSegment(url) == stem + ".pdf" && RemoveAll(stem + ".pdf", ".pdf") == stem
    ensures DefaultPaperId(url) == Sanitize(stem)
  {
  }

  /** The id of a PDF link: the file name without ".pdf", sanitised. */
  lemma DefaultPaperIdOfPdf(dir: string, stem: string)
    requires '/' !in stem && NoMatchBefore(stem + ".pdf", ".pdf", |stem|)
    ensures DefaultPaperId(dir + "/" + stem + ".pdf") == Sanitize(stem)
  {
    LastSegmentOfFile(dir, stem);
    RemoveAllDropsSuffix(stem, ".pdf");
    DefaultPaperIdOfSegment(dir + "/" + stem + ".pdf", stem);
  }

  /** Sanitising works character by character. */
  lemma {:induction false} SanitizeAppend(a: string, b: string)
    ensures Sanitize(a + b) == Sanitize(a) + Sanitize(b)
    decreases |a|
  {
    if a == [] {
      assert a + b == b;
    } else {
      assert (a + b)[1..] == a[1..] + b;
      SanitizeAppend(a[1..], b);
    }
  }

  /** Only digits. */
  predicate AllDigits(s: string) {
    forall i | 0 <= i < |s| :: IsDigit(s[i])
  }

  /** In `yymm.number.pdf`, ".pdf" occurs only at the end. */
  lemma ArxivFileMatchesAtEnd(yymm: string, number: string)
    requires AllDigits(yymm) && AllDigits(number)
    ensures NoMatchBefore(yymm + "." + number + ".pdf", ".pdf", |yymm + "." + number|)
  {
    var stem := yymm + "." + number;
    var file := stem + ".pdf";
    forall k | 0 <= k < |stem|
      ensures !OccursAt(".pdf", file, k)
    {
      if k < |yymm| {
        assert file[k..k + 4][0] == file[k] == yymm[k];
      } else if k == |yymm| {
        assert file[k..k + 4][1] == file[k + 1];
        if number != [] {
          assert file[k + 1] == number[0];
        }
      } else {
        assert file[k..k + 4][0] == file[k] == number[k - |yymm| - 1];
      }
    }
  }

  /** Sanitising `yymm.number` turns the dot into '_'. */
  lemma SanitizeArxivStem(yymm: string, number: string)
    requires AllDigits(yymm) && AllDigits(number)
    ensures Sanitize(yymm + "." + number) == yymm + "_" + number
  {
    SanitizeAppend(yymm + ".", number);
    SanitizeAppend(yymm, ".");
    SanitizeKeepsIdChars(yymm);
    SanitizeKeepsIdChars(number);
    assert Sanitize(".") == "_";
  }

  /** An arXiv link `.../yymm.number.pdf`, such as ".../1706.03762.pdf",
      gives the id `yymm_number`, here "1706_03762". */
  lemma DefaultPaperIdOfArxivLink(dir: string, yymm: string, number: string)
    requires AllDigits(yymm) && AllDigits(number)
    ensures DefaultPaperId(dir + "/" + (yymm + "." + number) + ".pdf") == yymm + "_" + number
  {
    ArxivFileMatchesAtEnd(yymm, number);
    DefaultPaperIdOfPdf(dir, yymm + "." + number);
    SanitizeArxivStem(yymm, number);
  }

  /** `paper_id or <default>`: an explicit non-empty id wins. */
  function ResolvePaperId(url: string, paperId: Option<string>): (r: string)
    ensures paperId.Some? && paperId.value != [] ==> r == paperId.value
    ensures paperId.None? || paperId.value == [] ==> forall i | 0 <= i < |r| :: IdChar(r[i])
  {
    if paperId.Some? && paperId.value != [] then paperId.value else DefaultPaperId(url)
  }

  /** A derived id is a fixed point: used as a URL, it derives itself. */
  lemma DefaultPaperIdIdempotent(url: string)
    ensures DefaultPaperId(DefaultPaperId(url)) == DefaultPaperId(url)
  {
    var r := DefaultPaperId(url);
    forall i | 0 <= i < |r|
      ensures r[i] != '/' && r[i] != '.'
    {
      assert IdChar(r[i]);
    }
    LastSegmentWithoutSlash(r);
    assert ".pdf"[0] == '.';
    assert RemoveAll(r, ".pdf") == r;
    SanitizeKeepsIdChars(r);
  }

  /** A text without '/' is its own last segment. */
  lemma LastSegmentWithoutSlash(s: string)
    requires '/' !in s
    ensures LastSegment(s) == s
  {
    var r := LastSegment(s);
    assert s[|s| - |r|..] == s;
  }

  /** Sanitising a text made only of id characters changes nothing. */
  lemma SanitizeKeepsIdChars(s: string)
    requires forall i | 0 <= i < |s| :: IdChar(s[i])
    ensures Sanitize(s) == s
  {
    assert forall i | 0 <= i < |s| :: Sanitize(s)[i] == s[i];
  }
}
