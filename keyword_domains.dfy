/** Research-domain detection by keyword tables: the first table entry with
    a keyword occurring in the lowercased "title abstract" wins. Used by
    `PaperSummarizer.detect_domain` (rag/summarizer.py) and `extract_domain`
    (server/main.py), which differ only in their tables and defaults. */
module KeywordDomains {

  import opened Strings

  /** One `domain: [keywords]` item of a table, in insertion order. */
  datatype DomainEntry = DomainEntry(name: string, keywords: seq<string>)

  /** `any(keyword in text for keyword in keywords)` */
  predicate Mentions(text: string, e: DomainEntry) {
    exists k | k in e.keywords :: Contains(text, k)
  }

  /** Index of the first entry that `text` mentions, or `|table|`. */
  function FirstMatch(table: seq<DomainEntry>, text: string): (k: nat)
    ensures k <= |table|
    ensures k < |table| ==> Mentions(text, table[k])
    ensures forall j | 0 <= j < k :: !Mentions(text, table[j])
  {
    if table == [] then 0
    else if Mentions(text, table[0]) then 0
    else 1 + FirstMatch(table[1..], text)
  }

  /** The loop over `domains.items()` with early return, then the default.
      The result is a table key or the default; a mentioned entry wins over
      every later one; with no entry mentioned the default is returned. */
  function Classify(table: seq<DomainEntry>, default: string, text: string): (r: string)
    ensures r == default || exists i | 0 <= i < |table| :: r == table[i].name
    ensures (exists i | 0 <= i < |table| :: Mentions(text, table[i])) ==>
      exists i | 0 <= i < |table| ::
        && r == table[i].name && Mentions(text, table[i])
        && forall j | 0 <= j < i :: !Mentions(text, table[j])
    ensures (forall i | 0 <= i < |table| :: !Mentions(text, table[i])) ==> r == default
  {
    var k := FirstMatch(table, text);
    if k < |table| then table[k].name else default
  }

  /** The table of `detect_domain` (rag/summarizer.py). */
  const SummarizerTable: seq<DomainEntry> := [
    DomainEntry("Computer Vision", ["computer vision", "image", "visual", "object detection", "segmentation", "cnn", "convolution"]),
    DomainEntry("Natural Language Processing", ["nlp", "language", "text", "linguistic", "bert", "transformer", "chatbot", "dialogue"]),
    DomainEntry("Machine Learning", ["machine learning", "neural network", "deep learning", "training", "optimization", "gradient"]),
    DomainEntry("Reinforcement Learning", ["reinforcement", "reward", "policy", "agent", "environment", "q-learning"]),
    DomainEntry("Robotics", ["robot", "robotic", "manipulation", "navigation", "autonomous", "control"]),
    DomainEntry("Speech Processing", ["speech", "audio", "voice", "acoustic", "phoneme", "asr"]),
    DomainEntry("Information Retrieval", ["retrieval", "search", "ranking", "recommendation", "information"]),
    DomainEntry("Artificial Intelligence", ["artificial intelligence", "ai", "intelligent", "reasoning", "knowledge"])
  ]

  /** The table of `extract_domain` (server/main.py). */
  const ServerTable: seq<DomainEntry> := [
    DomainEntry("Computer Vision", ["vision", "image", "visual", "cnn", "convolution", "detection", "segmentation", "object"]),
    DomainEntry("Natural Language Processing", ["language", "nlp", "text", "transformer", "attention", "bert", "gpt", "linguistic"]),
    DomainEntry("Machine Learning", ["learning", "neural", "network", "deep", "training", "optimization", "model"]),
    DomainEntry("Reinforcement Learning", ["reinforcement", "rl", "agent", "policy", "reward", "environment", "action"]),
    DomainEntry("Robotics", ["robot", "robotics", "manipulation", "control", "autonomous", "motion"]),
    DomainEntry("Speech & Audio", ["speech", "audio", "acoustic", "voice", "recognition", "sound"]),
    DomainEntry("Graph Neural Networks", ["graph", "node", "edge", "network", "topology", "gnn"]),
    DomainEntry("Generative AI", ["generative", "generation", "diffusion", "gan", "vae", "autoencoder", "generate"]),
    DomainEntry("Multimodal", ["multimodal", "multi-modal", "vision-language", "cross-modal"])
  ]

  /** `detect_domain(title, abstract)`: one of the eight table domains, or
      "Computer Science". */
  function DetectDomain(title: string, abstractText: string): (r: string)
    ensures r in {"Computer Vision", "Natural Language Processing", "Machine Learning",
                  "Reinforcement Learning", "Robotics", "Speech Processing",
                  "Information Retrieval", "Artificial Intelligence", "Computer Science"}
  {
    Classify(SummarizerTable, "Computer Science", Lower(title + " " + abstractText))
  }

  /** `extract_domain(title, abstract)`: one of the nine table domains, or
      "AI/ML". */
  function ExtractDomain(title: string, abstractText: string): (r: string)
    ensures r in {"Computer Vision", "Natural Language Processing", "Machine Learning",
                  "Reinforcement Learning", "Robotics", "Speech & Audio",
                  "Graph Neural Networks", "Generative AI", "Multimodal", "AI/ML"}
  {
    Classify(ServerTable, "AI/ML", Lower(title + " " + abstractText))
  }

  /** Case does not matter, and the earlier table entry wins: "image" puts
      a title in Computer Vision in both tables, although "generation" is
      a Generative AI keyword of the server table. */
  lemma ImageTitleIsVision()
    ensures DetectDomain("Image Generation", "") == "Computer Vision"
    ensures ExtractDomain("Image Generation", "") == "Computer Vision"
  {
    var t := Lower("Image Generation" + " " + "");
    assert t[0..5] == "image";
    assert OccursAt("image", t, 0);
    assert Contains(t, "image");
    assert SummarizerTable[0].keywords[1] == "image" && ServerTable[0].keywords[1] == "image";
    assert Mentions(t, SummarizerTable[0]);
    assert Mentions(t, ServerTable[0]);
  }
}
