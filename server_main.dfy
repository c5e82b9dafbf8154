/** Display-node shaping of the HTTP API (server/main.py): turning query
    rows into the nodes and links the front end draws. The Cypher queries
    themselves are not modelled; their rows are inputs. */
module Server {

  import opened Wrappers
  import opened Strings
  import opened Graph
  import KeywordDomains

  // ---------------------------------------------------------------------
  // enrich_node

  /** The stored `authors` value: normally a list, possibly a plain string. */
  datatype Authors = AuthorList(names: seq<string>) | AuthorText(text: string)

  /** A query row; None stands for a null value. A missing `abstract` key
      reads as "", which a row states as `Some("")`. */
  datatype PaperRow = PaperRow(
    id: string,
    title: Option<string>,
    authors: Option<Authors>,
    abstractText: Option<string>,
    publicationDate: Option<string>,
    aiSummary: Option<string>,
    domain: Option<string>,
    keyContributions: Option<seq<string>>,
    methodology: Option<string>)

  /** The node dict sent to the front end; None is an absent key. */
  datatype DisplayNode = DisplayNode(
    id: string,
    title: Option<string>,
    summary: Option<string>,
    domain: Option<string>,
    keyContributions: Option<seq<string>>,
    methodology: Option<string>,
    firstAuthor: Option<string>,
    authorCount: Option<nat>,
    year: Option<string>,
    nodeType: Option<string>)

  /** A node holding only the given id and type. */
  function Bare(id: string, nodeType: Option<string>): DisplayNode {
    DisplayNode(id, None, None, None, None, None, None, None, None, nodeType)
  }

  /** Python truthiness of an optional string. */
  predicate Truthy(s: Option<string>) {
    s.Some? && s.value != ""
  }

  /** The node summary: the AI summary cut to 300 characters, else the
      abstract cut to 120, each followed by "..." when cut. */
  function SummaryOf(aiSummary: Option<string>, abstractText: Option<string>): Option<string> {
    if Truthy(aiSummary) then Some(Ellipsized(aiSummary.value, 300))
    else if Truthy(abstractText) then Some(Ellipsized(abstractText.value, 120))
    else None
  }

  /** There is a summary exactly when one of the two texts is non-empty; it
      starts with the preferred text's prefix and is bounded by 303 or 123
      characters. */
  lemma SummaryProperties(aiSummary: Option<string>, abstractText: Option<string>)
    ensures SummaryOf(aiSummary, abstractText).None? <==> !Truthy(aiSummary) && !Truthy(abstractText)
    ensures Truthy(aiSummary) ==>
      var s := SummaryOf(aiSummary, abstractText).value;
      |s| <= 303 && IsPrefix(Prefix(aiSummary.value, 300), s)
    ensures !Truthy(aiSummary) && Truthy(abstractText) ==>
      var s := SummaryOf(aiSummary, abstractText).value;
      |s| <= 123 && IsPrefix(Prefix(abstractText.value, 120), s)
  {
  }

  /** `first_author` and `author_count`: from a list, its head and length;
      from a string, the stripped first comma piece and the piece count. */
  function AuthorFields(authors: Option<Authors>): (r: (Option<string>, Option<nat>))
    ensures r.0.Some? <==> r.1.Some?
    ensures r.1.Some? ==> r.1.value >= 1
    ensures (authors.Some? && authors.value.AuthorList? && authors.value.names != []) ==>
      r == (Some(authors.value.names[0]), Some(|authors.value.names|))
    ensures (authors.Some? && authors.value.AuthorText? && authors.value.text != []) ==>
      && r == (Some(Strip(Split(authors.value.text, ',')[0])), Some(|Split(authors.value.text, ',')|))
      && ',' !in r.0.value && |r.0.value| <= |authors.value.text|
    ensures r.0.None? <==> authors.None? || authors.value == AuthorList([]) || authors.value == AuthorText("")
  {
    match authors
    case None => (None, None)
    case Some(AuthorList(names)) =>
      if names == [] then (None, None) else (Some(names[0]), Some(|names|))
    case Some(AuthorText(text)) =>
      if text == "" then (None, None)
      else
        var pieces := Split(text, ',');
        JoinFirstBounded(pieces, text);
        StripStaysInside(pieces[0]);
        (Some(Strip(pieces[0])), Some(|pieces|))
  }

  /** The first piece of a split is no longer than the text. */
  lemma JoinFirstBounded(pieces: seq<string>, text: string)
    requires |pieces| >= 1 && Join(pieces, [',']) == text
    ensures |pieces[0]| <= |text|
  {
    if |pieces| > 1 {
      assert Join(pieces, [',']) == pieces[0] + [','] + Join(pieces[1..], [',']);
    }
  }

  /** Stripping removes characters only. */
  lemma StripStaysInside(s: string)
    ensures forall ch | ch in Strip(s) :: ch in s
  {
    TrimLeftIsSuffix(s);
    TrimRightIsPrefix(TrimLeft(s));
  }

  /** `year`: the first four characters of the date, or "" without one. */
  function YearOf(date: Option<string>): (r: string)
    ensures |r| <= 4
    ensures Truthy(date) ==> IsPrefix(r, date.value) && |r| == if |date.value| < 4 then |date.value| else 4
    ensures !Truthy(date) ==> r == ""
  {
    if Truthy(date) then Prefix(date.value, 4) else ""
  }

  /** The message of the TypeError raised when `extract_domain` gets a null
      abstract. */
  const NullAbstractError: string := "can only concatenate str (not \"NoneType\") to str"

  /** `enrich_node`: id and type always; every other field only for a row
      with a non-empty title. A missing stored domain is extracted from the
      title and abstract, which raises when the abstract is null. */
  function EnrichNode(row: PaperRow, nodeType: string): (r: Result<DisplayNode, string>)
    ensures r.Ok? ==> r.value.id == row.id && r.value.nodeType == Some(nodeType)
  {
    if !Truthy(row.title) then Ok(Bare(row.id, Some(nodeType)))
    else
      var domain :=
        if Truthy(row.domain) then Ok(row.domain.value)
        else if row.abstractText.None? then Err(NullAbstractError)
        else Ok(KeywordDomains.ExtractDomain(row.title.value, row.abstractText.value));
      match domain
      case Err(e) => Err(e)
      case Ok(d) =>
        var authorFields := AuthorFields(row.authors);
        Ok(DisplayNode(
          row.id,
          row.title,
          SummaryOf(row.aiSummary, row.abstractText),
          Some(d),
          if row.keyContributions.Some? && row.keyContributions.value != [] then row.keyContributions else None,
          if Truthy(row.methodology) then row.methodology else None,
          authorFields.0,
          authorFields.1,
          Some(YearOf(row.publicationDate)),
          Some(nodeType)))
  }

  /** The node has every display field exactly when the title is
      non-empty; the call raises only for a titled row with neither a stored
      domain nor an abstract. The domain is the stored one or else the one
      extracted from title and abstract; the contributions and methodology
      are copied from the row when present and non-empty. */
  lemma EnrichNodeProperties(row: PaperRow, nodeType: string)
    ensures var r := EnrichNode(row, nodeType);
      && (r.Err? <==> Truthy(row.title) && !Truthy(row.domain) && row.abstractText.None?)
      && (!Truthy(row.title) ==> r == Ok(Bare(row.id, Some(nodeType))))
      && (Truthy(row.title) && r.Ok? ==>
            && r.value.title == row.title
            && r.value.summary == SummaryOf(row.aiSummary, row.abstractText)
            && r.value.domain.Some?
            && (Truthy(row.domain) ==> r.value.domain == row.domain)
            && (!Truthy(row.domain) ==>
                  row.abstractText.Some?
                  && r.value.domain == Some(KeywordDomains.ExtractDomain(row.title.value, row.abstractText.value)))
            && (r.value.firstAuthor, r.value.authorCount) == AuthorFields(row.authors)
            && r.value.year == Some(YearOf(row.publicationDate))
            && (r.value.keyContributions.Some? <==> row.keyContributions.Some? && row.keyContributions.value != [])
            && (r.value.keyContributions.Some? ==> r.value.keyContributions == row.keyContributions)
            && (r.value.methodology.Some? <==> Truthy(row.methodology))
            && (r.value.methodology.Some? ==> r.value.methodology == row.methodology))
  {
  }

  /** The row the graph returns for a stored node. */
  function RowOf(id: string, a: NodeAttrs): PaperRow {
    PaperRow(id, a.title, if a.authors.Some? then Some(AuthorList(a.authors.value)) else None,
             a.abstractText, a.publicationDate, a.aiSummary, a.domain, a.keyContributions, a.methodology)
  }

  /** Nodes written by `add_paper` or the backfill always enrich, with the
      stored or the extracted domain; citation stubs give a bare node. */
  lemma StoredNodesEnrich(id: string, a: NodeAttrs, nodeType: string)
    ensures IsComplete(a) ==> EnrichNode(RowOf(id, a), nodeType).Ok?
    ensures IsComplete(a) && a.title != Some("") && !Truthy(a.domain) ==>
      EnrichNode(RowOf(id, a), nodeType).value.domain == Some(KeywordDomains.ExtractDomain(a.title.value, a.abstractText.value))
    ensures EnrichNode(RowOf(id, Stub), nodeType) == Ok(Bare(id, Some(nodeType)))
  {
  }

  // ---------------------------------------------------------------------
  // Links

  /** A link of the response; the type is always "CITES". */
  datatype Link = Link(source: string, target: string, linkType: string)

  /** The graph response: nodes and links. */
  datatype GraphResponse = GraphResponse(nodes: seq<DisplayNode>, links: seq<Link>)

  // ---------------------------------------------------------------------
  // expand_node

  /** A row of the expand query: the centre, the relation's type, the
      neighbour and the neighbour's properties. */
  datatype ExpandRow = ExpandRow(
    src: string,
    rel: string,
    dst: string,
    title: Option<string>,
    authors: Option<Authors>,
    abstractText: Option<string>,
    publicationDate: Option<string>)

  /** `neighbor_data`: no summary, domain or AI fields. */
  function NeighborData(row: ExpandRow): PaperRow {
    PaperRow(row.dst, row.title, row.authors, row.abstractText, row.publicationDate, None, None, None, None)
  }

  /** A CITES row points from the centre to the neighbour; any other
      relation is drawn reversed. */
  function LinkOf(row: ExpandRow): (l: Link)
    ensures l.linkType == "CITES"
    ensures row.rel == "CITES" ==> l.source == row.src && l.target == row.dst
    ensures row.rel != "CITES" ==> l.source == row.dst && l.target == row.src
  {
    if row.rel == "CITES" then Link(row.src, row.dst, "CITES") else Link(row.dst, row.src, "CITES")
  }

  function NodeIds(nodes: seq<DisplayNode>): (r: seq<string>)
    ensures |r| == |nodes| && forall i | 0 <= i < |nodes| :: r[i] == nodes[i].id
  {
    seq(|nodes|, i requires 0 <= i < |nodes| => nodes[i].id)
  }

  /** `nodes_map` (insertion-ordered) and `links` while the rows are read. */
  datatype Expansion = Expansion(nodes: seq<DisplayNode>, links: seq<Link>)

  /** One row: its neighbour is added unless already present, and its link
      is always added. */
  function ExpandStep(acc: Expansion, row: ExpandRow): Result<Expansion, string> {
    if row.dst in NodeIds(acc.nodes) then Ok(Expansion(acc.nodes, acc.links + [LinkOf(row)]))
    else
      match EnrichNode(NeighborData(row), "expanded")
      case Err(e) => Err(e)
      case Ok(n) => Ok(Expansion(acc.nodes + [n], acc.links + [LinkOf(row)]))
  }

  function ExpandFrom(acc: Expansion, rows: seq<ExpandRow>): Result<Expansion, string>
    decreases |rows|
  {
    if rows == [] then Ok(acc)
    else
      match ExpandStep(acc, rows[0])
      case Err(e) => Err(e)
      case Ok(next) => ExpandFrom(next, rows[1..])
  }

  function CenterNode(center: string): DisplayNode {
    Bare(center, Some("center"))
  }

  /** What `expand_node` returns for the rows of its query. */
  function Expanded(center: string, rows: seq<ExpandRow>): Result<GraphResponse, string> {
    if rows == [] then Ok(GraphResponse([Bare(center, None)], []))
    else
      match ExpandFrom(Expansion([CenterNode(center)], []), rows)
      case Err(e) => Err(e)
      case Ok(x) => Ok(GraphResponse(x.nodes, x.links))
  }

  /** `node` was built from the first row naming its id as neighbour. */
  ghost predicate EnrichedFromFirst(seen: seq<ExpandRow>, node: DisplayNode) {
    exists i | 0 <= i < |seen| ::
      && seen[i].dst == node.id
      && (forall j | 0 <= j < i :: seen[j].dst != node.id)
      && EnrichNode(NeighborData(seen[i]), "expanded") == Ok(node)
  }

  /** What holds of the node map and links after reading `seen`: the centre
      first, every id once, exactly the centre and the neighbours seen,
      neighbours typed "expanded" and built from the first row naming them,
      and one link per row in row order. */
  ghost predicate ExpansionOf(center: string, acc: Expansion, seen: seq<ExpandRow>) {
    && |acc.nodes| >= 1 && acc.nodes[0] == CenterNode(center)
    && (forall i, j | 0 <= i < j < |acc.nodes| :: acc.nodes[i].id != acc.nodes[j].id)
    && (forall k | 1 <= k < |acc.nodes| :: acc.nodes[k].nodeType == Some("expanded"))
    && (forall k | 1 <= k < |acc.nodes| :: EnrichedFromFirst(seen, acc.nodes[k]))
    && (forall id :: id in NodeIds(acc.nodes) <==> id == center || exists r | r in seen :: r.dst == id)
    && |acc.links| == |seen|
    && (forall i | 0 <= i < |seen| :: acc.links[i] == LinkOf(seen[i]))
  }

  lemma ExpandStepKeeps(center: string, acc: Expansion, seen: seq<ExpandRow>, row: ExpandRow)
    requires ExpansionOf(center, acc, seen)
    requires ExpandStep(acc, row).Ok?
    ensures ExpansionOf(center, ExpandStep(acc, row).value, seen + [row])
  {
    var next := ExpandStep(acc, row).value;
    assert forall r | r in seen + [row] :: r in seen || r == row;
    assert forall r | r in seen :: r in seen + [row];
    forall k | 1 <= k < |acc.nodes|
      ensures EnrichedFromFirst(seen + [row], acc.nodes[k])
    {
      FirstStaysFirst(seen, row, acc.nodes[k]);
    }
    if row.dst !in NodeIds(acc.nodes) {
      assert NodeIds(next.nodes) == NodeIds(acc.nodes) + [row.dst];
      FirstOfNew(seen, row, next.nodes[|acc.nodes|]);
    }
  }

  /** A later row does not change which row first named a node. */
  lemma FirstStaysFirst(seen: seq<ExpandRow>, row: ExpandRow, node: DisplayNode)
    requires EnrichedFromFirst(seen, node)
    ensures EnrichedFromFirst(seen + [row], node)
  {
    var i :| 0 <= i < |seen| && seen[i].dst == node.id
      && (forall j | 0 <= j < i :: seen[j].dst != node.id)
      && EnrichNode(NeighborData(seen[i]), "expanded") == Ok(node);
    assert (seen + [row])[i] == seen[i];
    assert forall j | 0 <= j < i :: (seen + [row])[j] == seen[j];
  }

  /** A neighbour no earlier row named is built from the new row. */
  lemma FirstOfNew(seen: seq<ExpandRow>, row: ExpandRow, node: DisplayNode)
    requires forall r | r in seen :: r.dst != row.dst
    requires node.id == row.dst && EnrichNode(NeighborData(row), "expanded") == Ok(node)
    ensures EnrichedFromFirst(seen + [row], node)
  {
    var all := seen + [row];
    assert all[|seen|] == row;
    forall j | 0 <= j < |seen|
      ensures all[j].dst != node.id
    {
      assert all[j] == seen[j] && seen[j] in seen;
    }
  }

  lemma {:induction false} ExpandFromKeeps(center: string, acc: Expansion, seen: seq<ExpandRow>, rows: seq<ExpandRow>)
    requires ExpansionOf(center, acc, seen)
    requires ExpandFrom(acc, rows).Ok?
    ensures ExpansionOf(center, ExpandFrom(acc, rows).value, seen + rows)
    decreases |rows|
  {
    if rows == [] {
      assert ExpandFrom(acc, rows).value == acc;
      assert seen + rows == seen;
    } else {
      var next := ExpandStep(acc, rows[0]).value;
      ExpandStepKeeps(center, acc, seen, rows[0]);
      ExpandFromKeeps(center, next, seen + [rows[0]], rows[1..]);
      assert ExpandFrom(acc, rows) == ExpandFrom(next, rows[1..]);
      assert seen + [rows[0]] + rows[1..] == seen + rows;
    }
  }

  /** `expand_node`: with no rows, the bare centre and no links; otherwise
      the centre first, each neighbour once, and one directed link per row. */
  lemma ExpandedProperties(center: string, rows: seq<ExpandRow>)
    ensures rows == [] ==> Expanded(center, rows) == Ok(GraphResponse([Bare(center, None)], []))
    ensures rows != [] && Expanded(center, rows).Ok? ==>
      ExpansionOf(center, Expansion(Expanded(center, rows).value.nodes, Expanded(center, rows).value.links), rows)
  {
    if rows != [] {
      var start := Expansion([CenterNode(center)], []);
      assert NodeIds(start.nodes) == [center];
      assert ExpansionOf(center, start, []);
      if ExpandFrom(start, rows).Ok? {
        ExpandFromKeeps(center, start, [], rows);
        assert [] + rows == rows;
      }
    }
  }

  /** `expand_node`'s loop over the query rows. */
  method ExpandNode(center: string, rows: seq<ExpandRow>) returns (r: Result<GraphResponse, string>)
    ensures r == Expanded(center, rows)
  {
    if rows == [] {
      return Ok(GraphResponse([Bare(center, None)], []));
    }
    var nodes := [CenterNode(center)];
    var links := [];
    for i := 0 to |rows|
      invariant ExpandFrom(Expansion(nodes, links), rows[i..]) == ExpandFrom(Expansion([CenterNode(center)], []), rows)
    {
      assert rows[i..][1..] == rows[i + 1..];
      var row := rows[i];
      if row.dst !in NodeIds(nodes) {
        var node := EnrichNode(NeighborData(row), "expanded");
        if node.Err? {
          return Err(node.error);
        }
        nodes := nodes + [node.value];
      }
      links := links + [LinkOf(row)];
    }
    assert rows[|rows|..] == [];
    r := Ok(GraphResponse(nodes, links));
  }

  // ---------------------------------------------------------------------
  // get_graph_daily

  /** A row of the edges query. */
  datatype EdgeRow = EdgeRow(src: string, dst: string)

  /** Enriching rows in order; the first failure is raised. */
  function EnrichAll(rows: seq<PaperRow>, nodeType: string): (r: Result<seq<DisplayNode>, string>)
    ensures r.Ok? ==> |r.value| == |rows|
    ensures r.Ok? ==> forall i | 0 <= i < |rows| :: Ok(r.value[i]) == EnrichNode(rows[i], nodeType)
    ensures r.Err? <==> exists i | 0 <= i < |rows| :: EnrichNode(rows[i], nodeType).Err?
    decreases |rows|
  {
    if rows == [] then Ok([])
    else
      match EnrichNode(rows[0], nodeType)
      case Err(e) => Err(e)
      case Ok(n) =>
        var rest := EnrichAll(rows[1..], nodeType);
        assert forall i | 1 <= i < |rows| :: rows[i] == rows[1..][i - 1];
        match rest
        case Err(e) => Err(e)
        case Ok(ns) => Ok([n] + ns)
  }

  function RowIds(rows: seq<PaperRow>): seq<string> {
    seq(|rows|, i requires 0 <= i < |rows| => rows[i].id)
  }

  /** The links of the daily graph: one src -> dst link per edge row. */
  function EdgeLinks(edges: seq<EdgeRow>): seq<Link> {
    seq(|edges|, i requires 0 <= i < |edges| => Link(edges[i].src, edges[i].dst, "CITES"))
  }

  /** The daily response for featured rows, cited rows and edge rows:
      featured nodes, then cited nodes, then the links. */
  function Assembled(featured: seq<PaperRow>, cited: seq<PaperRow>, edges: seq<EdgeRow>): Result<GraphResponse, string> {
    match EnrichAll(featured, "today")
    case Err(e) => Err(e)
    case Ok(todayNodes) =>
      match EnrichAll(cited, "cited")
      case Err(e) => Err(e)
      case Ok(citedNodes) => Ok(GraphResponse(todayNodes + citedNodes, EdgeLinks(edges)))
  }

  /** What `get_graph_daily` returns: today's papers, else the latest ones;
      nothing when there are none; else today's nodes, then the cited
      nodes, and the edges of the featured papers as links. The cited and
      edge queries are functions of the featured ids. */
  function DailyGraph(todays: seq<PaperRow>, latest: seq<PaperRow>,
                      citedOf: seq<string> -> seq<PaperRow>, edgesOf: seq<string> -> seq<EdgeRow>): Result<GraphResponse, string> {
    var featured := if todays != [] then todays else latest;
    if featured == [] then Ok(GraphResponse([], []))
    else Assembled(featured, citedOf(RowIds(featured)), edgesOf(RowIds(featured)))
  }

  /** Enriched rows keep their ids and carry the requested type. */
  lemma EnrichAllIdsTypes(rows: seq<PaperRow>, nodeType: string)
    requires EnrichAll(rows, nodeType).Ok?
    ensures forall i | 0 <= i < |rows| ::
      EnrichAll(rows, nodeType).value[i].id == rows[i].id && EnrichAll(rows, nodeType).value[i].nodeType == Some(nodeType)
  {
    var ns := EnrichAll(rows, nodeType).value;
    forall i | 0 <= i < |rows|
      ensures ns[i].id == rows[i].id && ns[i].nodeType == Some(nodeType)
    {
      assert Ok(ns[i]) == EnrichNode(rows[i], nodeType);
    }
  }

  /** Featured nodes come first, in row order and typed "today", then the
      cited ones typed "cited"; every edge row gives one link. */
  lemma AssembledProperties(featured: seq<PaperRow>, cited: seq<PaperRow>, edges: seq<EdgeRow>)
    requires Assembled(featured, cited, edges).Ok?
    ensures var nodes := Assembled(featured, cited, edges).value.nodes;
      && |nodes| == |featured| + |cited|
      && (forall i | 0 <= i < |featured| :: nodes[i].id == featured[i].id && nodes[i].nodeType == Some("today"))
      && (forall i | |featured| <= i < |nodes| ::
            nodes[i].id == cited[i - |featured|].id && nodes[i].nodeType == Some("cited"))
    ensures var links := Assembled(featured, cited, edges).value.links;
      |links| == |edges| && forall i | 0 <= i < |edges| :: links[i] == Link(edges[i].src, edges[i].dst, "CITES")
  {
    EnrichAllIdsTypes(featured, "today");
    EnrichAllIdsTypes(cited, "cited");
    var t := EnrichAll(featured, "today").value;
    var c := EnrichAll(cited, "cited").value;
    assert Assembled(featured, cited, edges) == Ok(GraphResponse(t + c, EdgeLinks(edges)));
    TodayThenCited(t, c, featured, cited);
  }

  /** Today's nodes followed by the cited nodes, position by position. */
  lemma TodayThenCited(t: seq<DisplayNode>, c: seq<DisplayNode>, featured: seq<PaperRow>, cited: seq<PaperRow>)
    requires |t| == |featured| && forall i | 0 <= i < |t| :: t[i].id == featured[i].id && t[i].nodeType == Some("today")
    requires |c| == |cited| && forall i | 0 <= i < |c| :: c[i].id == cited[i].id && c[i].nodeType == Some("cited")
    ensures var nodes := t + c;
      && |nodes| == |featured| + |cited|
      && (forall i | 0 <= i < |featured| :: nodes[i].id == featured[i].id && nodes[i].nodeType == Some("today"))
      && (forall i | |featured| <= i < |nodes| ::
            nodes[i].id == cited[i - |featured|].id && nodes[i].nodeType == Some("cited"))
  {
    var nodes := t + c;
    assert forall i | 0 <= i < |featured| :: nodes[i] == t[i];
    assert forall i | |featured| <= i < |nodes| :: nodes[i] == c[i - |featured|];
  }

  /** `enrich_node` over a list of rows, appended one by one. */
  method EnrichRows(rows: seq<PaperRow>, nodeType: string) returns (r: Result<seq<DisplayNode>, string>)
    ensures r == EnrichAll(rows, nodeType)
  {
    var nodes := [];
    assert rows[0..] == rows;
    assert Prepended(nodes, EnrichAll(rows, nodeType)) == EnrichAll(rows, nodeType) by {
      if EnrichAll(rows, nodeType).Ok? {
        assert nodes + EnrichAll(rows, nodeType).value == EnrichAll(rows, nodeType).value;
      }
    }
    for i := 0 to |rows|
      invariant EnrichAll(rows, nodeType) == Prepended(nodes, EnrichAll(rows[i..], nodeType))
    {
      assert rows[i..][1..] == rows[i + 1..];
      var node := EnrichNode(rows[i], nodeType);
      if node.Err? {
        return Err(node.error);
      }
      PrependedAppend(nodes, [node.value], EnrichAll(rows[i + 1..], nodeType));
      nodes := nodes + [node.value];
    }
    assert rows[|rows|..] == [];
    assert nodes + [] == nodes;
    r := Ok(nodes);
  }

  function Prepended(prefix: seq<DisplayNode>, r: Result<seq<DisplayNode>, string>): Result<seq<DisplayNode>, string> {
    match r
    case Err(e) => Err(e)
    case Ok(ns) => Ok(prefix + ns)
  }

  lemma PrependedAppend(a: seq<DisplayNode>, b: seq<DisplayNode>, r: Result<seq<DisplayNode>, string>)
    ensures Prepended(a, Prepended(b, r)) == Prepended(a + b, r)
  {
    if r.Ok? {
      assert a + (b + r.value) == a + b + r.value;
    }
  }

  /** `get_graph_daily` after its queries: the node loops and the link
      comprehension. */
  method GetGraphDaily(todays: seq<PaperRow>, latest: seq<PaperRow>,
                       citedOf: seq<string> -> seq<PaperRow>, edgesOf: seq<string> -> seq<EdgeRow>)
    returns (r: Result<GraphResponse, string>)
    ensures r == DailyGraph(todays, latest, citedOf, edgesOf)
  {
    var featured := todays;
    if featured == [] {
      featured := latest;
    }
    if featured == [] {
      return Ok(GraphResponse([], []));
    }
    var ids := RowIds(featured);
    var citedRows := citedOf(ids);
    var edges := edgesOf(ids);
    var todayNodes := EnrichRows(featured, "today");
    if todayNodes.Err? {
      return Err(todayNodes.error);
    }
    var citedNodes := EnrichRows(citedRows, "cited");
    if citedNodes.Err? {
      return Err(citedNodes.error);
    }
    var links := [];
    for i := 0 to |edges|
      invariant links == EdgeLinks(edges[..i])
    {
      links := links + [Link(edges[i].src, edges[i].dst, "CITES")];
    }
    assert edges[..|edges|] == edges;
    r := Ok(GraphResponse(todayNodes.value + citedNodes.value, links));
  }
}
