/** The tool entry point: locating the project root, the lazily built
    process-wide index, and the text `rag_search` answers with. */
module RagTool {
  import opened Wrappers
  import opened PyStr
  import opened Runtime
  import opened Embedding
  import opened VectorStore
  import opened RagIndex

  /** The filesystem as the set of paths that exist. */
  type FileSystem = set<Path>

  const CorpusDir: string := "AiRules"
  const ProjectFile: string := "pyproject.toml"
  const IndexSubdir: Path := ["ai_latest_development", "knowledge", "rag_index"]

  const Unavailable: string := "RAG unavailable: "
  const NoCorpus: string := "No AiRules corpus found. Ensure the 'AiRules' folder exists at project root."
  const QueryFailed: string := "RAG query failed: "
  const NoContext: string := "No relevant context found in AiRules."
  const ExcerptLength: nat := 1500
  const CitationSeparator: string := "\n\n"

  // ---------------------------------------------------------------------
  // _find_project_root

  /** `Path.parent`: the root is its own parent. */
  function Parent(p: Path): (q: Path)
    ensures p != [] ==> q == p[..|p| - 1]
    ensures p == [] ==> q == []
  {
    if p == [] then [] else p[..|p| - 1]
  }

  /** `p / "AiRules"` or `p / "pyproject.toml"` exists. */
  predicate HasMarker(fs: FileSystem, p: Path)
  {
    p + [CorpusDir] in fs || p + [ProjectFile] in fs
  }

  /** The nearest of `p` and its ancestors that holds a marker, if any. */
  function MarkedAncestor(fs: FileSystem, p: Path): Option<Path>
    decreases |p|
  {
    if HasMarker(fs, p) then Some(p)
    else if p == [] then None
    else MarkedAncestor(fs, Parent(p))
  }

  /** What `_find_project_root(start)` returns: the nearest marked ancestor,
      and `start` itself when there is none. */
  function ProjectRoot(fs: FileSystem, start: Path): Path
  {
    var m := MarkedAncestor(fs, start);
    if m.Some? then m.value else start
  }

  /** `MarkedAncestor` finds the longest marked prefix, and finds none exactly
      when no prefix is marked. */
  lemma {:induction false} MarkedAncestorIsNearest(fs: FileSystem, p: Path)
    ensures var m := MarkedAncestor(fs, p);
            && (m.Some? ==> |m.value| <= |p| && m.value == p[..|m.value|] && HasMarker(fs, m.value)
                            && forall j :: |m.value| < j <= |p| ==> !HasMarker(fs, p[..j]))
            && (m.None? <==> forall j :: 0 <= j <= |p| ==> !HasMarker(fs, p[..j]))
    decreases |p|
  {
    assert p[..|p|] == p;
    if !HasMarker(fs, p) && p != [] {
      var q := Parent(p);
      MarkedAncestorIsNearest(fs, q);
      forall j | 0 <= j <= |q| ensures p[..j] == q[..j] { }
    }
  }

  /** The project root is `start` or one of its ancestors; it is the nearest
      marked one when some ancestor is marked, and `start` (not the top-most
      ancestor) when none is. */
  lemma ProjectRootIsNearest(fs: FileSystem, start: Path)
    ensures var r := ProjectRoot(fs, start);
            && |r| <= |start| && r == start[..|r|]
            && (HasMarker(fs, r) ==> forall j :: |r| < j <= |start| ==> !HasMarker(fs, start[..j]))
            && (!HasMarker(fs, r) ==> r == start && forall j :: 0 <= j <= |start| ==> !HasMarker(fs, start[..j]))
  {
    MarkedAncestorIsNearest(fs, start);
    assert start[..|start|] == start;
  }

  /** `_find_project_root(start)`: the walk towards the root, which stops
      once `parent` no longer changes the path. */
  method FindProjectRoot(start: Path, fs: FileSystem) returns (r: Path)
    ensures r == ProjectRoot(fs, start)
  {
    var current := start;
    var last: Option<Path> := None;
    while last != Some(current)
      invariant last.None? ==> current == start
      invariant last != Some(current) ==> MarkedAncestor(fs, start) == MarkedAncestor(fs, current)
      invariant last == Some(current) ==> current == [] && MarkedAncestor(fs, start) == None
      decreases |current| + (if last == Some(current) then 0 else 1)
    {
      if HasMarker(fs, current) {
        return current;
      }
      last := Some(current);
      current := Parent(current);
    }
    return start;
  }

  // ---------------------------------------------------------------------
  // The reply text

  /** `f"{src}"` for a stored metadata value. */
  function ValueText(v: MetaValue): string
  {
    match v
    case MStr(s) => s
    case MInt(i) => IntToString(i)
    case MBool(b) => if b then "True" else "False"
  }

  /** `meta.get("source", "unknown") if isinstance(meta, dict) else "unknown"`. */
  function SourceOf(meta: Metadata): string
  {
    if meta.MetaDict? && "source" in meta.fields then ValueText(meta.fields["source"]) else "unknown"
  }

  /** `doc.strip()[:1500]`. */
  function Excerpt(doc: string): (e: string)
    ensures |e| <= ExcerptLength && |e| <= |Strip(doc)|
    ensures e == Strip(doc)[..|e|]
    ensures |Strip(doc)| <= ExcerptLength ==> e == Strip(doc)
    ensures ExcerptLength < |Strip(doc)| ==> e == Strip(doc)[..ExcerptLength]
  {
    var s := Strip(doc);
    if |s| <= ExcerptLength then s else s[..ExcerptLength]
  }

  function CitationHeader(number: nat, meta: Metadata): string
  {
    "[" + NatToString(number) + "] Source: " + SourceOf(meta) + "\n"
  }

  /** The entry for the result numbered `number`. */
  function Citation(number: nat, result: (string, Metadata)): string
  {
    CitationHeader(number, result.1) + Excerpt(result.0)
  }

  /** The citations of the results, numbered from 1 in result order. */
  function Citations(results: seq<(string, Metadata)>): (cs: seq<string>)
    ensures |cs| == |results|
    ensures forall i {:trigger cs[i]} :: 0 <= i < |results| ==> cs[i] == Citation(i + 1, results[i])
  {
    seq(|results|, i requires 0 <= i < |results| => Citation(i + 1, results[i]))
  }

  lemma CitationsSnoc(results: seq<(string, Metadata)>, x: (string, Metadata))
    ensures Citations(results + [x]) == Citations(results) + [Citation(|results| + 1, x)]
  {
    var l := Citations(results + [x]);
    var p := Citations(results);
    forall k | 0 <= k < |p|
      ensures l[k] == p[k]
    {
      assert (results + [x])[k] == results[k];
    }
    assert l[|p|] == Citation(|results| + 1, x) by {
      assert (results + [x])[|results|] == x;
    }
    SnocExt(l, p, Citation(|results| + 1, x));
  }

  /** The formatting loop of `rag_search` over `enumerate(results, 1)`. */
  method FormatResults(results: seq<(string, Metadata)>) returns (r: string)
    ensures r == Join(Citations(results), CitationSeparator)
  {
    var lines: seq<string> := [];
    for i := 0 to |results|
      invariant lines == Citations(results[..i])
    {
      var doc := results[i].0;
      var meta := results[i].1;
      var src := SourceOf(meta);
      var line := "[" + NatToString(i + 1) + "] Source: " + src + "\n" + Excerpt(doc);
      assert line == Citation(i + 1, results[i]);
      CitationsSnoc(results[..i], results[i]);
      PrefixSnoc(results, i);
      lines := lines + [line];
    }
    assert results[..|results|] == results;
    r := Join(lines, CitationSeparator);
  }

  /** The reply is the citations in order, one blank line between each: the
      i-th result (counted from 0) appears as its header, numbered i + 1,
      followed by at most 1500 characters of its stripped document. */
  lemma CitationsInReply(results: seq<(string, Metadata)>, i: nat)
    requires i < |results|
    ensures var cs := Citations(results);
            var r := Join(cs, CitationSeparator);
            var o := PartOffset(cs, CitationSeparator, i);
            var h := CitationHeader(i + 1, results[i].1);
            var e := Excerpt(results[i].0);
            && ShowsPair(r, o, h, e)
            && |e| <= ExcerptLength
            && (i + 1 < |results| ==> ShowsTriple(r, o, h, e, CitationSeparator))
  {
    var cs := Citations(results);
    var h := CitationHeader(i + 1, results[i].1);
    var e := Excerpt(results[i].0);
    CitationAt(results, i);
    PiecesInJoin(cs, CitationSeparator, i, h, e);
  }

  lemma CitationAt(results: seq<(string, Metadata)>, i: nat)
    requires i < |results|
    ensures Citations(results)[i] == CitationHeader(i + 1, results[i].1) + Excerpt(results[i].0)
  {
  }

  /** `r` holds `a` then `b` from position `o` on. */
  predicate ShowsPair(r: string, o: int, a: string, b: string)
  {
    InfixAt(r, o, a) && InfixAt(r, o + |a|, b)
  }

  /** `r` holds `a`, `b`, then `c` from position `o` on. */
  predicate ShowsTriple(r: string, o: int, a: string, b: string, c: string)
  {
    ShowsPair(r, o, a, b) && InfixAt(r, o + |a| + |b|, c)
  }

  /** Part i of a join, made of `a` then `b`, shows `a` then `b` at its offset. */
  lemma PiecesInJoin(parts: seq<string>, sep: string, i: nat, a: string, b: string)
    requires i < |parts| && parts[i] == a + b
    ensures var r := Join(parts, sep);
            var o := PartOffset(parts, sep, i);
            && ShowsPair(r, o, a, b)
            && (i + 1 < |parts| ==> ShowsTriple(r, o, a, b, sep))
  {
    JoinPartAt(parts, sep, i);
    SliceOfConcat(Join(parts, sep), PartOffset(parts, sep, i), a, b);
  }

  /** A slice of `r` equal to `a + b` holds `a`, then `b`. */
  lemma SliceOfConcat(r: string, o: int, a: string, b: string)
    requires InfixAt(r, o, a + b)
    ensures InfixAt(r, o, a) && InfixAt(r, o + |a|, b)
  {
    assert r[o..o + |a|] == r[o..o + |a| + |b|][..|a|];
    assert r[o + |a|..o + |a| + |b|] == r[o..o + |a| + |b|][|a|..];
  }

  /** What `rag_search` answers: `index` is the data directory of the index
      `_get_index` gave, or the message of its exception; `answer` is what
      `query` gave. Each failure has its own message, checked in this order. */
  function SearchReply(index: Result<Path>, fs: FileSystem, answer: Result<seq<(string, Metadata)>>): string
  {
    if index.Err? then Unavailable + index.error
    else if index.value !in fs then NoCorpus
    else if answer.Err? then QueryFailed + answer.error
    else if answer.value == [] then NoContext
    else Join(Citations(answer.value), CitationSeparator)
  }

  /** The reply states which step failed, and otherwise opens with the first
      result's header. */
  lemma SearchReplyCases(index: Result<Path>, fs: FileSystem, answer: Result<seq<(string, Metadata)>>)
    ensures var r := SearchReply(index, fs, answer);
            && (index.Err? ==> StartsWith(r, Unavailable))
            && (index.Ok? && index.value !in fs ==> r == NoCorpus)
            && (index.Ok? && index.value in fs && answer.Err? ==> StartsWith(r, QueryFailed))
            && (index.Ok? && index.value in fs && answer == Ok([]) ==> r == NoContext)
            && (index.Ok? && index.value in fs && answer.Ok? && answer.value != [] ==>
                  StartsWith(r, CitationHeader(1, answer.value[0].1)))
  {
    var r := SearchReply(index, fs, answer);
    if index.Ok? && index.value in fs && answer.Ok? && answer.value != [] {
      CitationsInReply(answer.value, 0);
      var cs := Citations(answer.value);
      assert cs[..0] == [];
      assert PartOffset(cs, CitationSeparator, 0) == 0;
    }
  }

  // ---------------------------------------------------------------------
  // _get_index and rag_search

  /** The module state of the tool: `_index_singleton`, and the `genai`
      module the embeddings go through. */
  class RagTool {
    var index: RAGIndex?
    const service: EmbeddingService

    /** Every index this module creates embeds through the module's
        `genai` and reads the default key variable. */
    predicate Valid()
      reads this
    {
      index != null ==> index.collection.embeddingFn.service == service
                        && index.collection.embeddingFn.apiKeyEnv == DefaultKeyEnv
    }

    constructor (service: EmbeddingService)
      ensures index == null && this.service == service && Valid()
    {
      index := null;
      this.service := service;
    }

    /** `_get_index()`. `moduleDir` is the resolved directory of the tool's
        source file, `mkdir` what creating the index directory gave, `store`
        what opening the persistent collection gave (its stored entries or the
        exception), `listing` the corpus directory's entries. The index is
        created and built once; a build failure is swallowed and the index is
        kept; a failure before the index exists leaves the slot empty. */
    method GetIndex(moduleDir: Path, fs: FileSystem, mkdir: Outcome, store: Result<map<string, Entry>>,
                    listing: seq<PdfFile>, rt: Runtime) returns (r: Result<RAGIndex>)
      requires Valid()
      modifies this, service
      ensures Valid()
      ensures old(index) != null ==> r == Ok(old(index)) && index == old(index) && unchanged(service)
      ensures old(index) == null && mkdir.Raised? ==> r == Err(mkdir.error) && index == null
      ensures old(index) == null && mkdir.Done? && store.Err? ==> r == Err(store.error) && index == null
      ensures old(index) == null && mkdir.Done? && store.Ok? ==>
                var root := ProjectRoot(fs, moduleDir);
                var pdfs := SortByName(PdfFiles(listing));
                var embed := ConfigureOutcome(false, rt, DefaultKeyEnv);
                && r.Ok? && index == r.value && fresh(index) && fresh(index.collection)
                && fresh(index.collection.embeddingFn)
                && index.dataDir == root + [CorpusDir] && index.indexDir == root + IndexSubdir
                && index.collection.embeddingFn.service == service
                && index.collection.embeddingFn.apiKeyEnv == DefaultKeyEnv
                && AllPdfNames(pdfs)
                && index.collection.View()
                   == (if root + [CorpusDir] in fs then BuildAll(DocsView(store.value), pdfs, rt.pypdfInstalled, embed).view
                       else DocsView(store.value))
                && ConfigureOutcome(index.collection.embeddingFn.configured, rt, DefaultKeyEnv) == embed
    {
      if index != null {
        return Ok(index);
      }
      var projectRoot := FindProjectRoot(moduleDir, fs);
      var dataDir := projectRoot + [CorpusDir];
      var indexDir := projectRoot + IndexSubdir;
      if mkdir.Raised? {
        return Err(mkdir.error);
      }
      if store.Err? {
        return Err(store.error);
      }
      var fn := new GeminiEmbeddingFunction(service);
      var collection := new Collection(fn, store.value);
      var created := new RAGIndex(dataDir, indexDir, collection);
      index := created;
      CorpusOrderIsPdfs(listing);
      if dataDir in fs {
        var _ := created.Build(listing, rt);
      }
      return Ok(created);
    }

    /** `rag_search(query, k)`: never raises; every failure becomes a reply.
        `nearest` is the nearest-neighbour search's answer for the query. */
    method RagSearch(query: string, k: int, moduleDir: Path, fs: FileSystem, mkdir: Outcome,
                     store: Result<map<string, Entry>>, listing: seq<PdfFile>, rt: Runtime,
                     nearest: Result<QueryAnswer>) returns (reply: string)
      requires Valid()
      modifies this, service
      modifies if index != null then {index.collection.embeddingFn} else {}
      ensures Valid()
      ensures old(index) != null ==>
                reply == SearchReply(Ok(old(index).dataDir), fs,
                           QueryReply(ConfigureOutcome(old(index.collection.embeddingFn.configured), rt, DefaultKeyEnv),
                                      nearest))
      ensures old(index) == null && mkdir.Raised? ==> reply == SearchReply(Err(mkdir.error), fs, Err(""))
      ensures old(index) == null && mkdir.Done? && store.Err? ==> reply == SearchReply(Err(store.error), fs, Err(""))
      ensures old(index) == null && mkdir.Done? && store.Ok? ==>
                reply == SearchReply(Ok(ProjectRoot(fs, moduleDir) + [CorpusDir]), fs,
                                     QueryReply(ConfigureOutcome(false, rt, DefaultKeyEnv), nearest))
      ensures old(index) != null ==> index == old(index)
      ensures old(index) == null && (mkdir.Raised? || store.Err?) ==> index == null
      ensures old(index) == null && mkdir.Done? && store.Ok? ==>
                && index != null && fresh(index)
                && index.dataDir == ProjectRoot(fs, moduleDir) + [CorpusDir]
                && index.indexDir == ProjectRoot(fs, moduleDir) + IndexSubdir
    {
      var got := GetIndex(moduleDir, fs, mkdir, store, listing, rt);
      if got.Err? {
        return Unavailable + got.error;
      }
      var idx := got.value;
      if idx.dataDir !in fs {
        return NoCorpus;
      }
      var results := idx.Query(query, k, rt, nearest);
      if results.Err? {
        return QueryFailed + results.error;
      }
      if results.value == [] {
        return NoContext;
      }
      reply := FormatResults(results.value);
    }
  }
}
