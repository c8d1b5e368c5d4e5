/** The Chroma collection `ai_rules` as the retrieval index uses it: a map
    from chunk id to the stored document, its metadata and its embedding,
    with `get` by id, `add`, and a nearest-neighbour `query` whose answer is
    supplied from outside. */
module VectorStore {
  import opened Wrappers
  import opened Runtime
  import opened Embedding

  datatype MetaValue = MStr(s: string) | MInt(i: int) | MBool(b: bool)

  /** A stored metadata value: a dict, or something else (`None`). */
  datatype Metadata = MetaDict(fields: map<string, MetaValue>) | MetaOther

  datatype Entry = Entry(document: string, metadata: Metadata, embedding: Vector)

  /** An entry without its embedding: what `build` and `query` look at. */
  datatype Doc = Doc(document: string, metadata: Metadata)

  /** The raw answer of `collection.query`: its `"documents"` and
      `"metadatas"` fields (one list per query text), each possibly absent. */
  datatype QueryAnswer = QueryAnswer(documents: Option<seq<seq<string>>>, metadatas: Option<seq<seq<Metadata>>>)

  const InvalidBatch: string := "ids, documents and metadatas must be aligned and the ids unique"

  predicate Distinct(ids: seq<string>)
  {
    forall i, j :: 0 <= i < j < |ids| ==> ids[i] != ids[j]
  }

  function DocsView(entries: map<string, Entry>): (v: map<string, Doc>)
    ensures v.Keys == entries.Keys
    ensures forall id :: id in entries ==> v[id] == Doc(entries[id].document, entries[id].metadata)
  {
    map id | id in entries :: Doc(entries[id].document, entries[id].metadata)
  }

  /** The documents after an `add` of distinct ids: ids already present keep
      their entry, the others get theirs, nothing else changes. */
  function InsertNew(view: map<string, Doc>, ids: seq<string>, docs: seq<string>, metas: seq<Metadata>): (r: map<string, Doc>)
    requires |ids| == |docs| == |metas| && Distinct(ids)
    ensures r.Keys == view.Keys + set i | 0 <= i < |ids| :: ids[i]
    ensures forall id :: id in view ==> r[id] == view[id]
    ensures forall i :: 0 <= i < |ids| && ids[i] !in view ==> r[ids[i]] == Doc(docs[i], metas[i])
    decreases |ids|
  {
    if ids == [] then view
    else
      DistinctTail(ids);
      IdsCons(ids);
      var rest := InsertNew(view, ids[1..], docs[1..], metas[1..]);
      if ids[0] in view then rest else rest[ids[0] := Doc(docs[0], metas[0])]
  }

  lemma DistinctTail(ids: seq<string>)
    requires ids != [] && Distinct(ids)
    ensures Distinct(ids[1..])
    ensures forall i :: 1 <= i < |ids| ==> ids[1..][i - 1] == ids[i] && ids[i] != ids[0]
  {
  }

  /** The ids of a batch are its first id and the ids of the rest. */
  lemma IdsCons(ids: seq<string>)
    requires ids != []
    ensures (set i | 0 <= i < |ids| :: ids[i]) == {ids[0]} + set i | 0 <= i < |ids| - 1 :: ids[1..][i]
  {
    var l := set i | 0 <= i < |ids| :: ids[i];
    var r := set i | 0 <= i < |ids| - 1 :: ids[1..][i];
    forall x | x in l ensures x in {ids[0]} + r {
      var i :| 0 <= i < |ids| && ids[i] == x;
      if i > 0 {
        assert ids[1..][i - 1] == x;
      }
    }
  }

  /** The same insertion on the stored entries, with their embeddings. */
  function InsertEntries(entries: map<string, Entry>, ids: seq<string>, docs: seq<string>,
                         metas: seq<Metadata>, vecs: seq<Vector>): (r: map<string, Entry>)
    requires |ids| == |docs| == |metas| == |vecs| && Distinct(ids)
    ensures DocsView(r) == InsertNew(DocsView(entries), ids, docs, metas)
    decreases |ids|
  {
    if ids == [] then entries
    else
      DistinctTail(ids);
      var rest := InsertEntries(entries, ids[1..], docs[1..], metas[1..], vecs[1..]);
      DocsViewUpdate(rest, ids[0], Entry(docs[0], metas[0], vecs[0]));
      if ids[0] in entries then rest else rest[ids[0] := Entry(docs[0], metas[0], vecs[0])]
  }

  lemma DocsViewUpdate(entries: map<string, Entry>, id: string, e: Entry)
    ensures DocsView(entries[id := e]) == DocsView(entries)[id := Doc(e.document, e.metadata)]
  {
  }

  class Collection {
    var entries: map<string, Entry>
    const embeddingFn: GeminiEmbeddingFunction

    /** `get_or_create_collection` on a store that already holds `persisted`. */
    constructor (embeddingFn: GeminiEmbeddingFunction, persisted: map<string, Entry>)
      ensures entries == persisted && this.embeddingFn == embeddingFn
    {
      entries := persisted;
      this.embeddingFn := embeddingFn;
    }

    function View(): map<string, Doc>
      reads this
    {
      DocsView(entries)
    }

    /** `collection.get(ids=[id])` returned a non-empty `"ids"` list. */
    method Get(id: string) returns (found: bool)
      ensures found <==> id in entries
    {
      found := id in entries;
    }

    /** `collection.add(ids=..., documents=..., metadatas=...)`: embeds the
        documents with the collection's embedding function, then stores the
        new ids. An embedding failure propagates and stores nothing. */
    method Add(ids: seq<string>, docs: seq<string>, metas: seq<Metadata>, rt: Runtime) returns (o: Outcome)
      modifies this, embeddingFn, embeddingFn.service
      ensures var c := ConfigureOutcome(old(embeddingFn.configured), rt, embeddingFn.apiKeyEnv);
              var valid := |ids| == |docs| == |metas| && Distinct(ids);
              && (!valid ==> o == Raised(InvalidBatch) && View() == old(View()))
              && (valid && c.Raised? ==> o == c && View() == old(View()))
              && (valid && c.Done? ==> o == Done && View() == InsertNew(old(View()), ids, docs, metas))
      ensures embeddingFn.configured ==
                (old(embeddingFn.configured) ||
                 (|ids| == |docs| == |metas| && Distinct(ids)
                  && ConfigureOutcome(old(embeddingFn.configured), rt, embeddingFn.apiKeyEnv).Done?))
      ensures embeddingFn.service.script ==
                if |ids| == |docs| == |metas| && Distinct(ids)
                   && ConfigureOutcome(old(embeddingFn.configured), rt, embeddingFn.apiKeyEnv).Done?
                then Drop(old(embeddingFn.service.script), |docs|)
                else old(embeddingFn.service.script)
    {
      if !(|ids| == |docs| == |metas| && Distinct(ids)) {
        return Raised(InvalidBatch);
      }
      var vecs := embeddingFn.Call(docs, rt);
      if vecs.Err? {
        return Raised(vecs.error);
      }
      entries := InsertEntries(entries, ids, docs, metas, vecs.value);
      return Done;
    }

    /** `collection.query(query_texts=[question], n_results=k)`: embeds the
        question, then takes the nearest-neighbour search's answer `nearest`
        (its ranking and any failure of its own are outside the model). */
    method Query(question: string, k: int, rt: Runtime, nearest: Result<QueryAnswer>) returns (r: Result<QueryAnswer>)
      modifies embeddingFn, embeddingFn.service
      ensures var c := ConfigureOutcome(old(embeddingFn.configured), rt, embeddingFn.apiKeyEnv);
              r == if c.Raised? then Err(c.error) else nearest
      ensures embeddingFn.configured ==
                (old(embeddingFn.configured) || ConfigureOutcome(old(embeddingFn.configured), rt, embeddingFn.apiKeyEnv).Done?)
      ensures embeddingFn.service.script ==
                if ConfigureOutcome(old(embeddingFn.configured), rt, embeddingFn.apiKeyEnv).Done?
                then Drop(old(embeddingFn.service.script), 1)
                else old(embeddingFn.service.script)
    {
      var v := embeddingFn.Call([question], rt);
      if v.Err? {
        return Err(v.error);
      }
      return nearest;
    }
  }
}
