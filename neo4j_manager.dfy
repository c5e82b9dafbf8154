/** The citation graph as the Neo4j store holds it (graph/neo4j_manager.py):
    one Paper node per arxiv_id with optional properties, and a set of
    directed CITES edges. Cypher MERGE/MATCH/SET become map and set updates. */
module Graph {

  import opened Wrappers
  import opened Models

  /** The nine properties `add_paper` writes. A property Neo4j does not
      hold (never set, or set to null) is None. */
  datatype NodeAttrs = NodeAttrs(
    title: Option<string>,
    authors: Option<seq<string>>,
    abstractText: Option<string>,
    pdfUrl: Option<string>,
    publicationDate: Option<string>,
    aiSummary: Option<string>,
    domain: Option<string>,
    keyContributions: Option<seq<string>>,
    methodology: Option<string>)

  /** A node created by `MERGE (cited:Paper {arxiv_id: cid})`: only its key. */
  const Stub := NodeAttrs(None, None, None, None, None, None, None, None, None)

  /** Complete nodes have a title and an abstract; the rest are stubs. */
  predicate IsComplete(a: NodeAttrs) {
    a.title.Some? && a.abstractText.Some?
  }

  /** The properties both SET lists of `_create_paper_node` (and the SET of
      `_update_paper_metadata`) write from a metadata record. `references`
      is not among them. */
  function AttrsOf(m: PaperMetadata): (a: NodeAttrs)
    ensures a.title == Some(m.title) && a.abstractText == Some(m.abstractText)
    ensures a.authors == Some(m.authors) && a.pdfUrl == Some(m.pdfUrl)
    ensures a.publicationDate == Some(m.publicationDate)
    ensures a.aiSummary == m.aiSummary && a.domain == m.domain
    ensures a.keyContributions == m.keyContributions && a.methodology == m.methodology
    ensures IsComplete(a)
  {
    NodeAttrs(Some(m.title), Some(m.authors), Some(m.abstractText), Some(m.pdfUrl),
              Some(m.publicationDate), m.aiSummary, m.domain, m.keyContributions, m.methodology)
  }

  /** The graph's content: nodes keyed by arxiv_id and CITES edges (source, cited). */
  datatype GraphState = GraphState(nodes: map<string, NodeAttrs>, edges: set<(string, string)>)

  /** Every edge joins two existing nodes. */
  ghost predicate WellFormed(g: GraphState) {
    forall e | e in g.edges :: e.0 in g.nodes && e.1 in g.nodes
  }

  /** `add_paper`: MERGE on arxiv_id, then the same full overwrite whether
      the node was created or matched. */
  function AddPaperState(g: GraphState, m: PaperMetadata): (r: GraphState)
    ensures r.nodes.Keys == g.nodes.Keys + {m.arxivId}
    ensures r.nodes[m.arxivId] == AttrsOf(m)
    ensures forall k | k in g.nodes && k != m.arxivId :: r.nodes[k] == g.nodes[k]
    ensures r.edges == g.edges
    ensures WellFormed(g) ==> WellFormed(r)
  {
    g.(nodes := g.nodes[m.arxivId := AttrsOf(m)])
  }

  /** One iteration of the FOREACH in `_create_citation_rels`: MERGE the
      cited node (a stub if new) and MERGE the edge. */
  function MergeCited(g: GraphState, src: string, cid: string): GraphState {
    GraphState(if cid in g.nodes then g.nodes else g.nodes[cid := Stub], g.edges + {(src, cid)})
  }

  /** The FOREACH over `cited` in list order. */
  function MergeAllCited(g: GraphState, src: string, cited: seq<string>): (r: GraphState)
    ensures r.nodes.Keys == g.nodes.Keys + set c | c in cited
    ensures forall k | k in g.nodes :: r.nodes[k] == g.nodes[k]
    ensures forall k | k in r.nodes && k !in g.nodes :: r.nodes[k] == Stub
    ensures r.edges == g.edges + set c | c in cited :: (src, c)
    decreases |cited|
  {
    if cited == [] then g
    else
      var n := |cited| - 1;
      var prev := MergeAllCited(g, src, cited[..n]);
      assert cited == cited[..n] + [cited[n]];
      MergeCited(prev, src, cited[n])
  }

  /** `add_citations`: nothing for an empty list; otherwise MATCH the
      source, which does nothing when the source node does not exist. */
  function CitationsState(g: GraphState, src: string, cited: seq<string>): (r: GraphState)
    ensures (cited == [] || src !in g.nodes) ==> r == g
    ensures cited != [] && src in g.nodes ==>
      && r.nodes.Keys == g.nodes.Keys + set c | c in cited
      && r.edges == g.edges + set c | c in cited :: (src, c)
    ensures forall k | k in g.nodes :: r.nodes[k] == g.nodes[k]
    ensures forall k | k in r.nodes && k !in g.nodes :: r.nodes[k] == Stub
    ensures WellFormed(g) ==> WellFormed(r)
  {
    if cited == [] || src !in g.nodes then g else MergeAllCited(g, src, cited)
  }

  /** Repeating `add_citations` with the same arguments changes nothing:
      nodes and edges are MERGEd, never duplicated. */
  lemma {:induction false} CitationsIdempotent(g: GraphState, src: string, cited: seq<string>)
    ensures CitationsState(CitationsState(g, src, cited), src, cited) == CitationsState(g, src, cited)
  {
    var once := CitationsState(g, src, cited);
    var twice := CitationsState(once, src, cited);
    if cited != [] && src in g.nodes {
      assert src in once.nodes;
      assert twice.nodes.Keys == once.nodes.Keys;
      assert twice.nodes == once.nodes;
    }
  }

  /** The outgoing edges of `src`. */
  function Outgoing(g: GraphState, src: string): set<string> {
    set e | e in g.edges && e.0 == src :: e.1
  }

  /** After `add_citations` on an existing source, its outgoing edges are
      the old ones plus one per distinct cited id. */
  lemma {:induction false} OutgoingAfterCitations(g: GraphState, p: string, cited: seq<string>)
    requires p in g.nodes && cited != []
    ensures Outgoing(CitationsState(g, p, cited), p) == Outgoing(g, p) + set c | c in cited
  {
    var r := CitationsState(g, p, cited);
    forall x ensures x in Outgoing(r, p) <==> x in Outgoing(g, p) || x in cited {
      if x in cited {
        assert (p, x) in r.edges;
      }
      if x in Outgoing(g, p) {
        var e :| e in g.edges && e.0 == p && e.1 == x;
        assert e in r.edges;
      }
    }
  }

  /** `add_citations(p, [a, b, a])` followed by `add_citations(p, [a, c])`
      leaves exactly three outgoing edges of p, to a, b and c. */
  lemma {:induction false} CitationsDeduplicate(g: GraphState, p: string, a: string, b: string, c: string)
    requires p in g.nodes && Outgoing(g, p) == {}
    ensures Outgoing(CitationsState(CitationsState(g, p, [a, b, a]), p, [a, c]), p) == {a, b, c}
  {
    var g1 := CitationsState(g, p, [a, b, a]);
    OutgoingAfterCitations(g, p, [a, b, a]);
    OutgoingAfterCitations(g1, p, [a, c]);
    assert (set x | x in [a, b, a]) == {a, b};
    assert (set x | x in [a, c]) == {a, c};
  }

  /** The index of the last entry about `id`, which wins in a backfill. */
  function LastEntryFor(papers: seq<PaperMetadata>, id: string): (r: Option<nat>)
    ensures r.Some? ==> r.value < |papers| && papers[r.value].arxivId == id
    ensures r.Some? ==> forall j | r.value < j < |papers| :: papers[j].arxivId != id
    ensures r.None? ==> forall j | 0 <= j < |papers| :: papers[j].arxivId != id
  {
    if papers == [] then None
    else if papers[|papers| - 1].arxivId == id then Some(|papers| - 1)
    else LastEntryFor(papers[..|papers| - 1], id)
  }

  /** `_update_paper_metadata`: MATCH then SET, so nothing happens to an
      unknown id. */
  function UpdateExisting(g: GraphState, m: PaperMetadata): GraphState {
    if m.arxivId in g.nodes then g.(nodes := g.nodes[m.arxivId := AttrsOf(m)]) else g
  }

  /** The attributes a node ends with after a backfill: those of the last
      entry naming it, or the ones it had when no entry names it. */
  function BackfilledAttrs(papers: seq<PaperMetadata>, id: string, before: NodeAttrs): NodeAttrs {
    match LastEntryFor(papers, id)
    case Some(j) => AttrsOf(papers[j])
    case None => before
  }

  /** `backfill_papers_metadata`: one update per entry, in list order.
      No node is created, edges are untouched, and each existing node ends
      with the attributes of the last entry naming it. */
  function BackfillState(g: GraphState, papers: seq<PaperMetadata>): (r: GraphState)
    ensures r.nodes.Keys == g.nodes.Keys
    ensures r.edges == g.edges
    ensures forall k | k in g.nodes :: r.nodes[k] == BackfilledAttrs(papers, k, g.nodes[k])
    decreases |papers|
  {
    if papers == [] then g
    else
      var n := |papers| - 1;
      var prev := BackfillState(g, papers[..n]);
      var r := UpdateExisting(prev, papers[n]);
      assert forall k | k in g.nodes :: r.nodes[k] == BackfilledAttrs(papers, k, g.nodes[k]) by {
        forall k | k in g.nodes
          ensures r.nodes[k] == BackfilledAttrs(papers, k, g.nodes[k])
        {
          if papers[n].arxivId != k {
            var last := LastEntryFor(papers[..n], k);
            assert LastEntryFor(papers, k) == last;
            if last.Some? {
              assert papers[..n][last.value] == papers[last.value];
            }
          }
        }
      }
      r
  }

  /** Metadata as the read queries return it: null title, abstract, URL and
      date become "", null authors become [], enrichment fields pass through
      as stored, and `references` is never read back (it keeps its default). */
  function ToMetadata(id: string, a: NodeAttrs): (m: PaperMetadata)
    ensures m.arxivId == id && m.references == []
    ensures m.title == a.title.GetOr("") && m.abstractText == a.abstractText.GetOr("")
    ensures m.pdfUrl == a.pdfUrl.GetOr("") && m.publicationDate == a.publicationDate.GetOr("")
    ensures m.authors == a.authors.GetOr([])
    ensures m.aiSummary == a.aiSummary && m.domain == a.domain
    ensures m.keyContributions == a.keyContributions && m.methodology == a.methodology
  {
    PaperMetadata(id, a.title.GetOr(""), a.authors.GetOr([]), a.abstractText.GetOr(""), a.pdfUrl.GetOr(""),
                  a.publicationDate.GetOr(""), [], a.aiSummary, a.domain, a.keyContributions, a.methodology)
  }

  /** `get_paper_metadata`: a ValueError naming the id when no node exists. */
  function ReadPaper(g: GraphState, id: string): (r: Result<PaperMetadata, string>)
    ensures r.Ok? <==> id in g.nodes
    ensures r.Ok? ==> r.value == ToMetadata(id, g.nodes[id])
    ensures r.Err? ==> r.error == "Paper " + id + " not found in graph database"
  {
    if id in g.nodes then Ok(ToMetadata(id, g.nodes[id]))
    else Err("Paper " + id + " not found in graph database")
  }

  /** Writing a paper and reading it back gives the same record, except
      that `references` is not stored. */
  lemma {:induction false} ReadAfterAddPaper(g: GraphState, m: PaperMetadata)
    ensures ReadPaper(AddPaperState(g, m), m.arxivId) == Ok(m.(references := []))
  {
    var a := AttrsOf(m);
    assert ToMetadata(m.arxivId, a) == m.(references := []);
  }

  /** A paper written by `add_paper` is complete, so it is never part of the
      stub backlog until something overwrites it. */
  lemma {:induction false} AddedPaperIsNotStub(g: GraphState, m: PaperMetadata)
    ensures m.arxivId !in IncompleteIds(AddPaperState(g, m))
  {
    assert IsComplete(AddPaperState(g, m).nodes[m.arxivId]);
  }

  /** Cited nodes of `id` that have a title and an abstract. */
  function CompleteCited(g: GraphState, id: string): set<string> {
    set c | c in g.nodes && (id, c) in g.edges && IsComplete(g.nodes[c])
  }

  /** Ids of every node lacking a title or an abstract (cited or not). */
  function IncompleteIds(g: GraphState): set<string> {
    set k | k in g.nodes && !IsComplete(g.nodes[k])
  }

  function Min(a: int, b: int): int {
    if a <= b then a else b
  }

  /** The graph store. Its methods mirror Neo4jManager's; each write is
      specified by the function on `GraphState` it performs. */
  class CitationGraph {
    var nodes: map<string, NodeAttrs>
    var edges: set<(string, string)>

    function State(): GraphState
      reads this
    {
      GraphState(nodes, edges)
    }

    ghost predicate Valid()
      reads this
    {
      WellFormed(State())
    }

    constructor ()
      ensures Valid() && nodes == map[] && edges == {}
    {
      nodes := map[];
      edges := {};
    }

    method AddPaper(m: PaperMetadata)
      requires Valid()
      modifies this
      ensures Valid() && State() == AddPaperState(old(State()), m)
    {
      nodes := nodes[m.arxivId := AttrsOf(m)];
    }

    method AddCitations(src: string, cited: seq<string>)
      requires Valid()
      modifies this
      ensures Valid() && State() == CitationsState(old(State()), src, cited)
    {
      if cited == [] || src !in nodes {
        return;
      }
      var i := 0;
      while i < |cited|
        invariant 0 <= i <= |cited|
        invariant State() == MergeAllCited(old(State()), src, cited[..i])
      {
        assert cited[..i + 1][..i] == cited[..i];
        if cited[i] !in nodes {
          nodes := nodes[cited[i] := Stub];
        }
        edges := edges + {(src, cited[i])};
        i := i + 1;
      }
      assert cited[..i] == cited;
    }

    function GetPaperMetadata(id: string): Result<PaperMetadata, string>
      reads this
    {
      ReadPaper(State(), id)
    }

    /** `get_cited_papers_metadata`: at most `limit` complete cited papers,
        each once, in an order the backend chooses; fewer only when there
        are fewer to return. */
    method GetCitedPapersMetadata(id: string, limit: nat) returns (papers: seq<PaperMetadata>)
      ensures |papers| == Min(limit, |CompleteCited(State(), id)|)
      ensures forall p | p in papers ::
        p.arxivId in CompleteCited(State(), id) && p == ToMetadata(p.arxivId, nodes[p.arxivId])
      ensures forall i, j | 0 <= i < j < |papers| :: papers[i].arxivId != papers[j].arxivId
    {
      var candidates := CompleteCited(State(), id);
      var remaining := candidates;
      papers := [];
      while |papers| < limit && remaining != {}
        invariant remaining <= candidates
        invariant |papers| + |remaining| == |candidates|
        invariant |papers| <= limit
        invariant forall p | p in papers ::
          p.arxivId in candidates && p.arxivId !in remaining && p == ToMetadata(p.arxivId, nodes[p.arxivId])
        invariant forall i, j | 0 <= i < j < |papers| :: papers[i].arxivId != papers[j].arxivId
        decreases remaining
      {
        var c :| c in remaining;
        papers := papers + [ToMetadata(c, nodes[c])];
        remaining := remaining - {c};
      }
    }

    /** `get_incomplete_cited_papers`: at most `limit` distinct ids of nodes
        lacking a title or an abstract; any such node qualifies, cited or not. */
    method GetIncompleteCitedPapers(limit: nat) returns (ids: seq<string>)
      ensures |ids| == Min(limit, |IncompleteIds(State())|)
      ensures forall k | k in ids :: k in nodes && !IsComplete(nodes[k])
      ensures forall i, j | 0 <= i < j < |ids| :: ids[i] != ids[j]
    {
      var candidates := IncompleteIds(State());
      var remaining := candidates;
      ids := [];
      while |ids| < limit && remaining != {}
        invariant remaining <= candidates
        invariant |ids| + |remaining| == |candidates|
        invariant |ids| <= limit
        invariant forall k | k in ids :: k in candidates && k !in remaining
        invariant forall i, j | 0 <= i < j < |ids| :: ids[i] != ids[j]
        decreases remaining
      {
        var c :| c in remaining;
        ids := ids + [c];
        remaining := remaining - {c};
      }
    }

    method BackfillPapersMetadata(papers: seq<PaperMetadata>)
      requires Valid()
      modifies this
      ensures Valid() && State() == BackfillState(old(State()), papers)
    {
      var i := 0;
      while i < |papers|
        invariant 0 <= i <= |papers|
        invariant State() == BackfillState(old(State()), papers[..i])
      {
        assert papers[..i + 1][..i] == papers[..i];
        if papers[i].arxivId in nodes {
          nodes := nodes[papers[i].arxivId := AttrsOf(papers[i])];
        }
        i := i + 1;
      }
      assert papers[..i] == papers;
    }
  }
}
