/** `RAGIndex`: the incremental build over the PDF corpus and the query that
    pairs up the store's answer. */
module RagIndex {
  import opened Wrappers
  import opened PyStr
  import opened Runtime
  import opened Chunking
  import opened PdfText
  import opened Embedding
  import opened VectorStore

  /** A path as the sequence of its components below the filesystem root. */
  type Path = seq<string>

  /** A directory entry of the corpus directory. `reader` is what
      `PdfReader(path)` gives for it: its pages, or the exception it raises. */
  datatype PdfFile = PdfFile(name: string, reader: Result<seq<Page>>)

  /** `data_dir.glob("*.pdf")` keeps the entries whose name ends in `.pdf`. */
  predicate IsPdfName(name: string)
  {
    |name| >= 4 && name[|name| - 4..] == ".pdf"
  }

  function PdfFiles(listing: seq<PdfFile>): (r: seq<PdfFile>)
    ensures forall i :: 0 <= i < |r| ==> IsPdfName(r[i].name)
    ensures multiset(r) <= multiset(listing)
    ensures forall f :: f in listing && IsPdfName(f.name) ==> f in r
  {
    if listing == [] then []
    else
      assert listing == [listing[0]] + listing[1..];
      if IsPdfName(listing[0].name) then [listing[0]] + PdfFiles(listing[1..])
      else PdfFiles(listing[1..])
  }

  /** `Path(name).stem` for a name ending in `.pdf`: the name without that
      suffix, except that `.pdf` itself has no suffix (a leading dot does not
      start one). */
  function Stem(name: string): string
    requires IsPdfName(name)
  {
    if |name| == 4 then name else name[..|name| - 4]
  }

  // ---------------------------------------------------------------------
  // sorted(...) on the corpus entries, by name

  predicate SortedByName(fs: seq<PdfFile>)
  {
    forall i :: 0 <= i < |fs| - 1 ==> StrLe(fs[i].name, fs[i + 1].name)
  }

  function InsertByName(f: PdfFile, fs: seq<PdfFile>): (r: seq<PdfFile>)
    requires SortedByName(fs)
    ensures SortedByName(r)
    ensures multiset(r) == multiset(fs) + multiset{f}
    ensures |r| == |fs| + 1
    ensures r[0] == f || (fs != [] && r[0] == fs[0])
  {
    if fs == [] then [f]
    else if StrLe(f.name, fs[0].name) then [f] + fs
    else
      StrLeTotal(f.name, fs[0].name);
      var rest := InsertByName(f, fs[1..]);
      assert fs == [fs[0]] + fs[1..];
      [fs[0]] + rest
  }

  /** The visiting order of `build`: the same entries, sorted by name. */
  function SortByName(fs: seq<PdfFile>): (r: seq<PdfFile>)
    ensures SortedByName(r)
    ensures multiset(r) == multiset(fs)
  {
    if fs == [] then []
    else
      assert fs == [fs[0]] + fs[1..];
      InsertByName(fs[0], SortByName(fs[1..]))
  }

  /** `build` visits exactly the `.pdf` entries of the listing, in name order. */
  lemma CorpusOrderIsPdfs(listing: seq<PdfFile>)
    ensures var pdfs := SortByName(PdfFiles(listing));
            && AllPdfNames(pdfs) && SortedByName(pdfs)
            && forall f :: f in listing && IsPdfName(f.name) ==> f in pdfs
  {
    var pdfs := SortByName(PdfFiles(listing));
    forall i | 0 <= i < |pdfs| ensures IsPdfName(pdfs[i].name) {
      assert pdfs[i] in multiset(PdfFiles(listing));
    }
    forall f | f in listing && IsPdfName(f.name) ensures f in pdfs {
      assert f in multiset(PdfFiles(listing));
    }
  }

  // ---------------------------------------------------------------------
  // Ids and metadata

  /** `f"{doc_id_prefix}_{i}"`. */
  function ChunkId(stem: string, i: nat): string
  {
    stem + "_" + NatToString(i)
  }

  /** `{"source": pdf.name, "chunk": i}`. */
  function ChunkMeta(name: string, i: nat): Metadata
  {
    MetaDict(map["source" := MStr(name), "chunk" := MInt(i)])
  }

  function DocIds(stem: string, n: nat): (ids: seq<string>)
    ensures |ids| == n && forall i :: 0 <= i < n ==> ids[i] == ChunkId(stem, i)
  {
    seq(n, i requires 0 <= i < n => ChunkId(stem, i))
  }

  function DocMetas(name: string, n: nat): (ms: seq<Metadata>)
    ensures |ms| == n && forall i :: 0 <= i < n ==> ms[i] == ChunkMeta(name, i)
  {
    seq(n, i requires 0 <= i < n => ChunkMeta(name, i))
  }

  /** Different chunk numbers of one document give different ids. */
  lemma ChunkIdsDistinct(stem: string, n: nat)
    ensures Distinct(DocIds(stem, n))
  {
    forall i, j | 0 <= i < j < n ensures ChunkId(stem, i) != ChunkId(stem, j) {
      if ChunkId(stem, i) == ChunkId(stem, j) {
        var p := |stem| + 1;
        assert NatToString(i) == ChunkId(stem, i)[p..];
        assert NatToString(j) == ChunkId(stem, j)[p..];
        ParseIntOfRendering(i);
        ParseIntOfRendering(j);
      }
    }
  }

  // ---------------------------------------------------------------------
  // The specification of build

  function ReadOutcome(pypdfInstalled: bool, reader: Result<seq<Page>>): Result<string>
  {
    if !pypdfInstalled then Err(PypdfMissing)
    else if reader.Err? then Err(reader.error)
    else Ok(DocumentText(reader.value))
  }

  function DocumentChunks(text: string): seq<string>
  {
    Chunks(text, DefaultChunkSize, DefaultOverlap)
  }

  /** The stored documents after (part of) a build, and whether it raised. */
  datatype BuildState = BuildState(view: map<string, Doc>, outcome: Outcome)

  /** One iteration of the `build` loop. `embed` is what configuring the
      embedding function gives at that point (it is the same for the whole
      build: see `Build`). */
  function IndexDocument(view: map<string, Doc>, pdf: PdfFile, pypdfInstalled: bool, embed: Outcome): BuildState
    requires IsPdfName(pdf.name)
  {
    var stem := Stem(pdf.name);
    if ChunkId(stem, 0) in view then BuildState(view, Done)
    else
      match ReadOutcome(pypdfInstalled, pdf.reader)
      case Err(e) => BuildState(view, Raised(e))
      case Ok(text) =>
        var cs := DocumentChunks(text);
        if cs == [] then BuildState(view, Done)
        else if embed.Raised? then BuildState(view, embed)
        else
          ChunkIdsDistinct(stem, |cs|);
          BuildState(InsertNew(view, DocIds(stem, |cs|), cs, DocMetas(pdf.name, |cs|)), Done)
  }

  predicate AllPdfNames(pdfs: seq<PdfFile>)
  {
    forall i :: 0 <= i < |pdfs| ==> IsPdfName(pdfs[i].name)
  }

  /** The loop of `build` over the given documents, in order: the first
      document that raises ends it, with what the earlier ones stored kept. */
  function BuildAll(view: map<string, Doc>, pdfs: seq<PdfFile>, pypdfInstalled: bool, embed: Outcome): BuildState
    requires AllPdfNames(pdfs)
    decreases |pdfs|
  {
    if pdfs == [] then BuildState(view, Done)
    else
      var s := IndexDocument(view, pdfs[0], pypdfInstalled, embed);
      if s.outcome.Raised? then s else BuildAll(s.view, pdfs[1..], pypdfInstalled, embed)
  }

  lemma {:induction false} BuildAllSnoc(view: map<string, Doc>, pdfs: seq<PdfFile>, p: PdfFile, pypdfInstalled: bool, embed: Outcome)
    requires AllPdfNames(pdfs) && IsPdfName(p.name)
    requires BuildAll(view, pdfs, pypdfInstalled, embed).outcome == Done
    ensures AllPdfNames(pdfs + [p])
    ensures BuildAll(view, pdfs + [p], pypdfInstalled, embed)
         == IndexDocument(BuildAll(view, pdfs, pypdfInstalled, embed).view, p, pypdfInstalled, embed)
    decreases |pdfs|
  {
    AllPdfNamesSnoc(pdfs, p);
    if pdfs == [] {
      assert [p][1..] == [];
    } else {
      var s := IndexDocument(view, pdfs[0], pypdfInstalled, embed);
      assert (pdfs + [p])[0] == pdfs[0];
      assert (pdfs + [p])[1..] == pdfs[1..] + [p];
      AllPdfNamesSnoc(pdfs[1..], p);
      BuildAllSnoc(s.view, pdfs[1..], p, pypdfInstalled, embed);
    }
  }

  lemma AllPdfNamesSnoc(pdfs: seq<PdfFile>, p: PdfFile)
    requires AllPdfNames(pdfs) && IsPdfName(p.name)
    ensures AllPdfNames(pdfs + [p]) && (pdfs != [] ==> AllPdfNames(pdfs[1..]))
  {
    forall i | 0 <= i < |pdfs + [p]| ensures IsPdfName((pdfs + [p])[i].name) {
      if i < |pdfs| { assert (pdfs + [p])[i] == pdfs[i]; }
    }
  }

  /** Once a prefix of the documents raises, the ones after it are not visited. */
  lemma {:induction false} BuildAllRaisedPrefix(view: map<string, Doc>, pdfs: seq<PdfFile>, rest: seq<PdfFile>, pypdfInstalled: bool, embed: Outcome)
    requires AllPdfNames(pdfs) && AllPdfNames(rest)
    requires BuildAll(view, pdfs, pypdfInstalled, embed).outcome.Raised?
    ensures AllPdfNames(pdfs + rest)
    ensures BuildAll(view, pdfs + rest, pypdfInstalled, embed) == BuildAll(view, pdfs, pypdfInstalled, embed)
    decreases |pdfs|
  {
    assert AllPdfNames(pdfs + rest) by {
      forall i | 0 <= i < |pdfs + rest| ensures IsPdfName((pdfs + rest)[i].name) {
        if i < |pdfs| { assert (pdfs + rest)[i] == pdfs[i]; } else { assert (pdfs + rest)[i] == rest[i - |pdfs|]; }
      }
    }
    var s := IndexDocument(view, pdfs[0], pypdfInstalled, embed);
    assert (pdfs + rest)[0] == pdfs[0];
    if s.outcome.Done? {
      assert (pdfs + rest)[1..] == pdfs[1..] + rest;
      AllPdfNamesSnoc(pdfs, pdfs[0]);
      BuildAllRaisedPrefix(s.view, pdfs[1..], rest, pypdfInstalled, embed);
    }
  }

  /** A build whose first k documents raise gives what those k gave. */
  lemma RaisedPrefixEndsBuild(view: map<string, Doc>, pdfs: seq<PdfFile>, k: nat, pypdfInstalled: bool, embed: Outcome)
    requires AllPdfNames(pdfs) && k <= |pdfs|
    requires AllPdfNames(pdfs[..k]) && BuildAll(view, pdfs[..k], pypdfInstalled, embed).outcome.Raised?
    ensures BuildAll(view, pdfs, pypdfInstalled, embed) == BuildAll(view, pdfs[..k], pypdfInstalled, embed)
  {
    AllPdfNamesDrop(pdfs, k);
    BuildAllRaisedPrefix(view, pdfs[..k], pdfs[k..], pypdfInstalled, embed);
    assert pdfs[..k] + pdfs[k..] == pdfs;
  }

  lemma AllPdfNamesDrop(pdfs: seq<PdfFile>, k: nat)
    requires AllPdfNames(pdfs) && k <= |pdfs|
    ensures AllPdfNames(pdfs[..k]) && AllPdfNames(pdfs[k..])
  {
    forall i | 0 <= i < |pdfs| - k ensures IsPdfName(pdfs[k..][i].name) {
      assert pdfs[k..][i] == pdfs[k + i];
    }
  }

  /** `w` extends `v`: every stored id keeps its entry. */
  predicate Extends(v: map<string, Doc>, w: map<string, Doc>)
  {
    v.Keys <= w.Keys && forall id :: id in v ==> w[id] == v[id]
  }

  /** A build never overwrites or removes a stored entry, whether it
      completes or raises. */
  lemma {:induction false} BuildExtends(view: map<string, Doc>, pdfs: seq<PdfFile>, pypdfInstalled: bool, embed: Outcome)
    requires AllPdfNames(pdfs)
    ensures Extends(view, BuildAll(view, pdfs, pypdfInstalled, embed).view)
    decreases |pdfs|
  {
    if pdfs != [] {
      var s := IndexDocument(view, pdfs[0], pypdfInstalled, embed);
      if s.outcome.Done? {
        BuildExtends(s.view, pdfs[1..], pypdfInstalled, embed);
      }
    }
  }

  /** A document that is not yet indexed, reads, has chunks and can be
      embedded gets the ids `stem_0 .. stem_{k-1}`, aligned one to one with its
      chunks and with the metadata `{source: name, chunk: i}`; ids already
      present keep their entries; nothing else is added. */
  lemma IndexDocumentAligned(view: map<string, Doc>, pdf: PdfFile, pypdfInstalled: bool, text: string)
    requires IsPdfName(pdf.name)
    requires ChunkId(Stem(pdf.name), 0) !in view
    requires ReadOutcome(pypdfInstalled, pdf.reader) == Ok(text)
    ensures var cs := DocumentChunks(text);
            var stem := Stem(pdf.name);
            var w := IndexDocument(view, pdf, pypdfInstalled, Done).view;
            && w.Keys == view.Keys + (set i | 0 <= i < |cs| :: ChunkId(stem, i))
            && Extends(view, w)
            && forall i :: 0 <= i < |cs| && ChunkId(stem, i) !in view ==> w[ChunkId(stem, i)] == Doc(cs[i], ChunkMeta(pdf.name, i))
  {
    var cs := DocumentChunks(text);
    var stem := Stem(pdf.name);
    var ids := DocIds(stem, |cs|);
    assert (set i | 0 <= i < |cs| :: ChunkId(stem, i)) == (set i | 0 <= i < |ids| :: ids[i]);
  }

  /** After this, indexing `p` again changes nothing: its first id is stored,
      or it reads to a text with no chunks. */
  predicate Settled(view: map<string, Doc>, p: PdfFile, pypdfInstalled: bool)
    requires IsPdfName(p.name)
  {
    || ChunkId(Stem(p.name), 0) in view
    || (var t := ReadOutcome(pypdfInstalled, p.reader); t.Ok? && DocumentChunks(t.value) == [])
  }

  lemma IndexDocumentSettles(view: map<string, Doc>, p: PdfFile, pypdfInstalled: bool, embed: Outcome)
    requires IsPdfName(p.name)
    requires IndexDocument(view, p, pypdfInstalled, embed).outcome == Done
    ensures Settled(IndexDocument(view, p, pypdfInstalled, embed).view, p, pypdfInstalled)
  {
    var stem := Stem(p.name);
    var t := ReadOutcome(pypdfInstalled, p.reader);
    if ChunkId(stem, 0) !in view && t.Ok? && DocumentChunks(t.value) != [] {
      var cs := DocumentChunks(t.value);
      assert DocIds(stem, |cs|)[0] == ChunkId(stem, 0);
    }
  }

  lemma {:induction false} BuildSettlesAll(view: map<string, Doc>, pdfs: seq<PdfFile>, pypdfInstalled: bool, embed: Outcome)
    requires AllPdfNames(pdfs)
    requires BuildAll(view, pdfs, pypdfInstalled, embed).outcome == Done
    ensures forall i :: 0 <= i < |pdfs| ==> Settled(BuildAll(view, pdfs, pypdfInstalled, embed).view, pdfs[i], pypdfInstalled)
    decreases |pdfs|
  {
    if pdfs != [] {
      var s := IndexDocument(view, pdfs[0], pypdfInstalled, embed);
      var w := BuildAll(view, pdfs, pypdfInstalled, embed).view;
      IndexDocumentSettles(view, pdfs[0], pypdfInstalled, embed);
      BuildExtends(s.view, pdfs[1..], pypdfInstalled, embed);
      BuildSettlesAll(s.view, pdfs[1..], pypdfInstalled, embed);
      forall i | 0 <= i < |pdfs| ensures Settled(w, pdfs[i], pypdfInstalled) {
        if i > 0 {
          assert pdfs[1..][i - 1] == pdfs[i];
        }
      }
    }
  }

  lemma {:induction false} SettledBuildIsIdentity(view: map<string, Doc>, pdfs: seq<PdfFile>, pypdfInstalled: bool, embed: Outcome)
    requires AllPdfNames(pdfs)
    requires forall i :: 0 <= i < |pdfs| ==> Settled(view, pdfs[i], pypdfInstalled)
    ensures BuildAll(view, pdfs, pypdfInstalled, embed) == BuildState(view, Done)
    decreases |pdfs|
  {
    if pdfs != [] {
      assert Settled(view, pdfs[0], pypdfInstalled);
      forall i | 0 <= i < |pdfs| - 1 ensures Settled(view, pdfs[1..][i], pypdfInstalled) {
        assert pdfs[1..][i] == pdfs[i + 1];
      }
      SettledBuildIsIdentity(view, pdfs[1..], pypdfInstalled, embed);
    }
  }

  /** A second build over an unchanged corpus, after one that completed,
      stores nothing new and completes, whatever the embedding function would
      now do: every document is skipped by its first id or has no chunks. */
  lemma BuildIdempotent(view: map<string, Doc>, pdfs: seq<PdfFile>, pypdfInstalled: bool, embed: Outcome, embedAgain: Outcome)
    requires AllPdfNames(pdfs)
    requires BuildAll(view, pdfs, pypdfInstalled, embed).outcome == Done
    ensures var w := BuildAll(view, pdfs, pypdfInstalled, embed).view;
            BuildAll(w, pdfs, pypdfInstalled, embedAgain) == BuildState(w, Done)
  {
    BuildSettlesAll(view, pdfs, pypdfInstalled, embed);
    SettledBuildIsIdentity(BuildAll(view, pdfs, pypdfInstalled, embed).view, pdfs, pypdfInstalled, embedAgain);
  }

  /** An exception on one document ends the build: the result is that of the
      documents before it, then the failing one, and nothing after it. */
  lemma {:induction false} BuildStopsAtFailure(view: map<string, Doc>, pdfs: seq<PdfFile>, pypdfInstalled: bool, embed: Outcome)
    requires AllPdfNames(pdfs)
    requires BuildAll(view, pdfs, pypdfInstalled, embed).outcome.Raised?
    ensures exists j :: 0 <= j < |pdfs| && AllPdfNames(pdfs[..j])
              && BuildAll(view, pdfs[..j], pypdfInstalled, embed).outcome == Done
              && BuildAll(view, pdfs, pypdfInstalled, embed)
                 == IndexDocument(BuildAll(view, pdfs[..j], pypdfInstalled, embed).view, pdfs[j], pypdfInstalled, embed)
    decreases |pdfs|
  {
    var s := IndexDocument(view, pdfs[0], pypdfInstalled, embed);
    BuildAllCons(view, pdfs, pypdfInstalled, embed);
    if s.outcome.Done? {
      var rest := pdfs[1..];
      BuildStopsAtFailure(s.view, rest, pypdfInstalled, embed);
      var j :| 0 <= j < |rest| && AllPdfNames(rest[..j])
              && BuildAll(s.view, rest[..j], pypdfInstalled, embed).outcome == Done
              && BuildAll(s.view, rest, pypdfInstalled, embed)
                 == IndexDocument(BuildAll(s.view, rest[..j], pypdfInstalled, embed).view, rest[j], pypdfInstalled, embed);
      var pre := pdfs[..j + 1];
      AllPdfNamesDrop(pdfs, j + 1);
      assert pre[0] == pdfs[0] && pre[1..] == rest[..j];
      BuildAllCons(view, pre, pypdfInstalled, embed);
      assert rest[j] == pdfs[j + 1];
    } else {
      assert pdfs[..0] == [];
      assert BuildAll(view, pdfs[..0], pypdfInstalled, embed) == BuildState(view, Done);
    }
  }

  /** One step of the build loop. */
  lemma BuildAllCons(view: map<string, Doc>, pdfs: seq<PdfFile>, pypdfInstalled: bool, embed: Outcome)
    requires pdfs != [] && AllPdfNames(pdfs)
    ensures AllPdfNames(pdfs[1..])
    ensures var s := IndexDocument(view, pdfs[0], pypdfInstalled, embed);
            BuildAll(view, pdfs, pypdfInstalled, embed)
            == if s.outcome.Raised? then s else BuildAll(s.view, pdfs[1..], pypdfInstalled, embed)
  {
    AllPdfNamesDrop(pdfs, 1);
  }

  // ---------------------------------------------------------------------
  // query

  /** `(res.get(field) or [[]])[0]`: the list for the first query text. */
  function FirstList<T>(field: Option<seq<seq<T>>>): seq<T>
  {
    if field.Some? && field.value != [] then field.value[0] else []
  }

  /** `list(zip(a, b))`. */
  function Zip<A, B>(a: seq<A>, b: seq<B>): (r: seq<(A, B)>)
    ensures |r| == if |a| < |b| then |a| else |b|
    ensures forall i :: 0 <= i < |r| ==> r[i] == (a[i], b[i])
  {
    if a == [] || b == [] then [] else [(a[0], b[0])] + Zip(a[1..], b[1..])
  }

  /** What `query` returns for the store's answer. */
  function QueryResults(ans: QueryAnswer): seq<(string, Metadata)>
  {
    Zip(FirstList(ans.documents), FirstList(ans.metadatas))
  }

  /** What `query` gives when configuring the embedding function gives
      `embed` and the nearest-neighbour search gives `nearest`. */
  function QueryReply(embed: Outcome, nearest: Result<QueryAnswer>): (r: Result<seq<(string, Metadata)>>)
    ensures r.Ok? <==> embed.Done? && nearest.Ok?
    ensures r.Ok? ==> |r.value| <= |FirstList(nearest.value.documents)| && |r.value| <= |FirstList(nearest.value.metadatas)|
  {
    if embed.Raised? then Err(embed.error)
    else if nearest.Err? then Err(nearest.error)
    else Ok(QueryResults(nearest.value))
  }

  class RAGIndex {
    const dataDir: Path
    const indexDir: Path
    const collection: Collection

    /** `RAGIndex(data_dir, index_dir)` over a collection opened from
        `index_dir` with a fresh `GeminiEmbeddingFunction`. */
    constructor (dataDir: Path, indexDir: Path, collection: Collection)
      ensures this.dataDir == dataDir && this.indexDir == indexDir && this.collection == collection
    {
      this.dataDir := dataDir;
      this.indexDir := indexDir;
      this.collection := collection;
    }

    /** `build()` over the corpus directory's entries `listing`. Configuring
        the embedding function gives the same outcome at every `add` of one
        build, so the whole build follows `BuildAll` with that outcome. */
    method Build(listing: seq<PdfFile>, rt: Runtime) returns (o: Outcome)
      modifies collection, collection.embeddingFn, collection.embeddingFn.service
      ensures var pdfs := SortByName(PdfFiles(listing));
              var embed := ConfigureOutcome(old(collection.embeddingFn.configured), rt, collection.embeddingFn.apiKeyEnv);
              AllPdfNames(pdfs) &&
              BuildState(collection.View(), o) == BuildAll(old(collection.View()), pdfs, rt.pypdfInstalled, embed)
      ensures ConfigureOutcome(collection.embeddingFn.configured, rt, collection.embeddingFn.apiKeyEnv)
           == ConfigureOutcome(old(collection.embeddingFn.configured), rt, collection.embeddingFn.apiKeyEnv)
    {
      var pdfFiles := SortByName(PdfFiles(listing));
      CorpusOrderIsPdfs(listing);
      o := IndexAll(pdfFiles, rt);
    }

    /** The `build` loop over the documents in visiting order. */
    method IndexAll(pdfFiles: seq<PdfFile>, rt: Runtime) returns (o: Outcome)
      requires AllPdfNames(pdfFiles)
      modifies collection, collection.embeddingFn, collection.embeddingFn.service
      ensures var embed := ConfigureOutcome(old(collection.embeddingFn.configured), rt, collection.embeddingFn.apiKeyEnv);
              BuildState(collection.View(), o) == BuildAll(old(collection.View()), pdfFiles, rt.pypdfInstalled, embed)
      ensures ConfigureOutcome(collection.embeddingFn.configured, rt, collection.embeddingFn.apiKeyEnv)
           == ConfigureOutcome(old(collection.embeddingFn.configured), rt, collection.embeddingFn.apiKeyEnv)
    {
      var fn := collection.embeddingFn;
      ghost var view0 := collection.View();
      ghost var embed := ConfigureOutcome(fn.configured, rt, fn.apiKeyEnv);
      for idx := 0 to |pdfFiles|
        invariant AllPdfNames(pdfFiles[..idx])
        invariant BuildAll(view0, pdfFiles[..idx], rt.pypdfInstalled, embed) == BuildState(collection.View(), Done)
        invariant ConfigureOutcome(fn.configured, rt, fn.apiKeyEnv) == embed
      {
        var pdf := pdfFiles[idx];
        var o' := IndexOne(pdf, rt, embed);
        assert BuildAll(view0, pdfFiles[..idx + 1], rt.pypdfInstalled, embed) == BuildState(collection.View(), o') by {
          assert pdfFiles[..idx + 1] == pdfFiles[..idx] + [pdf];
          BuildAllSnoc(view0, pdfFiles[..idx], pdf, rt.pypdfInstalled, embed);
        }
        if o'.Raised? {
          RaisedPrefixEndsBuild(view0, pdfFiles, idx + 1, rt.pypdfInstalled, embed);
          return o';
        }
      }
      assert pdfFiles[..|pdfFiles|] == pdfFiles;
      return Done;
    }

    /** The body of the `build` loop for one document. */
    method IndexOne(pdf: PdfFile, rt: Runtime, ghost embed: Outcome) returns (o: Outcome)
      requires IsPdfName(pdf.name)
      requires ConfigureOutcome(collection.embeddingFn.configured, rt, collection.embeddingFn.apiKeyEnv) == embed
      modifies collection, collection.embeddingFn, collection.embeddingFn.service
      ensures BuildState(collection.View(), o) == IndexDocument(old(collection.View()), pdf, rt.pypdfInstalled, embed)
      ensures ConfigureOutcome(collection.embeddingFn.configured, rt, collection.embeddingFn.apiKeyEnv) == embed
    {
      var docIdPrefix := Stem(pdf.name);
      var existing := collection.Get(ChunkId(docIdPrefix, 0));
      if existing {
        return Done;
      }
      var text := ReadPdfText(rt.pypdfInstalled, pdf.reader);
      assert text == ReadOutcome(rt.pypdfInstalled, pdf.reader);
      if text.Err? {
        return Raised(text.error);
      }
      var chunks := ChunkText(text.value, DefaultChunkSize, DefaultOverlap);
      var ids := DocIds(docIdPrefix, |chunks|);
      var metadatas := DocMetas(pdf.name, |chunks|);
      if chunks == [] {
        return Done;
      }
      ChunkIdsDistinct(docIdPrefix, |chunks|);
      o := collection.Add(ids, chunks, metadatas, rt);
    }

    /** `query(question, k)`: the store's documents and metadatas for the
        question, paired up and cut to the shorter of the two lists. */
    method Query(question: string, k: int, rt: Runtime, nearest: Result<QueryAnswer>)
      returns (r: Result<seq<(string, Metadata)>>)
      modifies collection.embeddingFn, collection.embeddingFn.service
      ensures r == QueryReply(ConfigureOutcome(old(collection.embeddingFn.configured), rt, collection.embeddingFn.apiKeyEnv), nearest)
      ensures collection.embeddingFn.configured ==
                (old(collection.embeddingFn.configured)
                 || ConfigureOutcome(old(collection.embeddingFn.configured), rt, collection.embeddingFn.apiKeyEnv).Done?)
      ensures collection.embeddingFn.service.script ==
                if ConfigureOutcome(old(collection.embeddingFn.configured), rt, collection.embeddingFn.apiKeyEnv).Done?
                then Drop(old(collection.embeddingFn.service.script), 1)
                else old(collection.embeddingFn.service.script)
    {
      var res := collection.Query(question, k, rt, nearest);
      if res.Err? {
        return Err(res.error);
      }
      var docs := FirstList(res.value.documents);
      var metas := FirstList(res.value.metadatas);
      return Ok(Zip(docs, metas));
    }
  }
}
