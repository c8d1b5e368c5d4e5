/** `GeminiEmbeddingFunction`: the adapter that turns texts into vectors by
    calling `genai.embed_content` once per text. */
module Embedding {
  import opened Wrappers
  import opened Runtime

  const DefaultModel: string := "text-embedding-004"
  const DefaultKeyEnv: string := "GEMINI_API_KEY"
  const FallbackKeyEnv: string := "GOOGLE_API_KEY"
  const GenaiMissing: string := "google-generativeai is not installed. Please add it to dependencies."
  const KeyMissing: string := "GEMINI_API_KEY or GOOGLE_API_KEY not set in environment."
  const ZeroDim: nat := 768

  /** Vector components are carried but never computed with. */
  type Vector = seq<real>

  function ZeroVector(): (v: Vector)
    ensures |v| == ZeroDim && forall i :: 0 <= i < |v| ==> v[i] == 0.0
  {
    seq(ZeroDim, i => 0.0)
  }

  /** What one `genai.embed_content` call produced. */
  datatype Response =
    | CallRaised(error: string)
      /** a dict; `entry` is its `"embedding"` value when it has that key */
    | DictResponse(entry: Option<Vector>)
      /** an object; `embedding` is its `.embedding` attribute when it has one,
          `embeddings` its `.embeddings` list (empty when missing), each
          element's `.values` or `None` when that attribute is missing */
    | ObjectResponse(embedding: Option<Vector>, embeddings: seq<Option<Vector>>)

  /** The vector the adapter appends for one response: the first shape that
      matches, and the 768-long zero vector when none does or the call (or
      reading `.values`) raised. */
  function VectorOf(r: Response): Vector
  {
    match r
    case CallRaised(_) => ZeroVector()
    case DictResponse(entry) => if entry.Some? then entry.value else ZeroVector()
    case ObjectResponse(embedding, embeddings) =>
      if embedding.Some? then embedding.value
      else if embeddings != [] && embeddings[0].Some? then embeddings[0].value
      else ZeroVector()
  }

  /** The response carries a vector in one of the shapes the adapter reads. */
  predicate Recognised(r: Response)
  {
    match r
    case CallRaised(_) => false
    case DictResponse(entry) => entry.Some?
    case ObjectResponse(embedding, embeddings) =>
      embedding.Some? || (embeddings != [] && embeddings[0].Some?)
  }

  /** The fallback is taken exactly for the responses it does not recognise;
      a recognised response's own vector is passed through unchanged. */
  lemma FallbackIffUnrecognised(r: Response)
    ensures !Recognised(r) ==> VectorOf(r) == ZeroVector()
    ensures r.DictResponse? && r.entry.Some? ==> VectorOf(r) == r.entry.value
    ensures r.ObjectResponse? && r.embedding.Some? ==> VectorOf(r) == r.embedding.value
    ensures r.ObjectResponse? && r.embedding.None? && Recognised(r) ==> VectorOf(r) == r.embeddings[0].value
  {
  }

  /** What the `embed_content` calls made for a batch return, in call order:
      the service's scripted answers, then failures once the script runs out. */
  function Answers(script: seq<Response>, k: nat): (rs: seq<Response>)
    ensures |rs| == k
    ensures forall i :: 0 <= i < k ==> rs[i] == AnswerAt(script, i)
  {
    seq(k, i requires 0 <= i < k => AnswerAt(script, i))
  }

  /** The answer the i-th call, counted from now, receives. */
  function AnswerAt(script: seq<Response>, i: nat): Response
  {
    if i < |script| then script[i] else CallRaised(NoAnswer)
  }

  /** The script once `k` calls have consumed their answers. */
  function Drop(script: seq<Response>, k: nat): (rest: seq<Response>)
    ensures forall i: nat :: AnswerAt(rest, i) == AnswerAt(script, k + i)
  {
    if k < |script| then script[k..] else []
  }

  const NoAnswer: string := "no response"

  /** The vectors of a batch, one per response, in order. */
  function Vectors(rs: seq<Response>): (vs: seq<Vector>)
    ensures |vs| == |rs|
    ensures forall i :: 0 <= i < |rs| ==> vs[i] == VectorOf(rs[i])
  {
    seq(|rs|, i requires 0 <= i < |rs| => VectorOf(rs[i]))
  }

  /** The remote model behind `genai`: the key `genai.configure` installed
      and the answers its `embed_content` calls will give, in order. */
  class EmbeddingService {
    var configuredKey: Option<string>
    var script: seq<Response>

    constructor (script: seq<Response>)
      ensures this.script == script && configuredKey == None
    {
      this.script := script;
      configuredKey := None;
    }

    /** `genai.configure(api_key=key)`. */
    method Configure(key: string)
      modifies this
      ensures configuredKey == Some(key) && script == old(script)
    {
      configuredKey := Some(key);
    }

    /** One `genai.embed_content(model=..., content=text)` call. */
    method EmbedContent(model: string, text: string) returns (r: Response)
      modifies this
      ensures r == AnswerAt(old(script), 0)
      ensures script == Drop(old(script), 1)
      ensures configuredKey == old(configuredKey)
    {
      if script == [] {
        r := CallRaised(NoAnswer);
      } else {
        r := script[0];
        script := script[1..];
      }
    }
  }

  /** The key `_ensure_configured` reads: `os.getenv(api_key_env) or
      os.getenv("GOOGLE_API_KEY")`. */
  function ApiKey(rt: Runtime, keyEnv: string): string
  {
    if EnvValue(rt, keyEnv) != "" then EnvValue(rt, keyEnv) else EnvValue(rt, FallbackKeyEnv)
  }

  /** What `_ensure_configured` does when called with the flag `configured`:
      nothing once configured, else the library check, then the key check. */
  function ConfigureOutcome(configured: bool, rt: Runtime, keyEnv: string): (o: Outcome)
    ensures o.Raised? <==> !configured && (!rt.genaiInstalled || ApiKey(rt, keyEnv) == "")
  {
    if configured then Done
    else if !rt.genaiInstalled then Raised(GenaiMissing)
    else if ApiKey(rt, keyEnv) == "" then Raised(KeyMissing)
    else Done
  }

  class GeminiEmbeddingFunction {
    const model: string
    const apiKeyEnv: string
    var configured: bool
    const service: EmbeddingService

    constructor (service: EmbeddingService)
      ensures model == DefaultModel && apiKeyEnv == DefaultKeyEnv && !configured
      ensures this.service == service
    {
      model := DefaultModel;
      apiKeyEnv := DefaultKeyEnv;
      configured := false;
      this.service := service;
    }

    /** `_ensure_configured`: the one-shot configuration. Once it has
        succeeded the flag stays set and the checks are skipped. */
    method EnsureConfigured(rt: Runtime) returns (o: Outcome)
      modifies this, service
      ensures o == ConfigureOutcome(old(configured), rt, apiKeyEnv)
      ensures configured == (old(configured) || o.Done?)
      ensures service.script == old(service.script)
      ensures service.configuredKey ==
                if !old(configured) && o.Done? then Some(ApiKey(rt, apiKeyEnv)) else old(service.configuredKey)
    {
      if configured {
        return Done;
      }
      var apiKey := if EnvValue(rt, apiKeyEnv) != "" then EnvValue(rt, apiKeyEnv) else EnvValue(rt, FallbackKeyEnv);
      if !rt.genaiInstalled {
        return Raised(GenaiMissing);
      }
      if apiKey == "" {
        return Raised(KeyMissing);
      }
      service.Configure(apiKey);
      configured := true;
      return Done;
    }

    /** `__call__(texts)`: configure, then one call per text. Exactly one
        vector per text, in input order, and a failing or unrecognised answer
        turns into the zero vector for that text alone. A configuration
        failure raises before any call is made. */
    method Call(texts: seq<string>, rt: Runtime) returns (r: Result<seq<Vector>>)
      modifies this, service
      ensures var c := ConfigureOutcome(old(configured), rt, apiKeyEnv);
              && (c.Raised? ==> r == Err(c.error) && service.script == old(service.script))
              && (c.Done? ==> var rs := Answers(old(service.script), |texts|);
                    && r == Ok(Vectors(rs))
                    && service.script == Drop(old(service.script), |texts|))
      ensures configured == (old(configured) || ConfigureOutcome(old(configured), rt, apiKeyEnv).Done?)
    {
      var o := EnsureConfigured(rt);
      if o.Raised? {
        return Err(o.error);
      }
      ghost var script0 := service.script;
      var vectors: seq<Vector> := [];
      for i := 0 to |texts|
        invariant |vectors| == i
        invariant forall k :: 0 <= k < i ==> vectors[k] == VectorOf(AnswerAt(script0, k))
        invariant service.script == Drop(script0, i)
        invariant configured
      {
        var resp := service.EmbedContent(model, texts[i]);
        assert resp == AnswerAt(script0, i);
        if resp.DictResponse? && resp.entry.Some? {
          vectors := vectors + [resp.entry.value];
        } else if resp.ObjectResponse? && resp.embedding.Some? {
          vectors := vectors + [resp.embedding.value];
        } else if resp.ObjectResponse? && resp.embeddings != [] && resp.embeddings[0].Some? {
          vectors := vectors + [resp.embeddings[0].value];
        } else {
          vectors := vectors + [ZeroVector()];
        }
        assert Drop(Drop(script0, i), 1) == Drop(script0, i + 1);
      }
      assert vectors == Vectors(Answers(script0, |texts|));
      return Ok(vectors);
    }
  }

  /** With exactly one failing answer among the batch, every vector but that
      one is its answer's own vector, and that one is the zero vector. */
  lemma OneFailureIsolated(rs: seq<Response>, j: nat)
    requires j < |rs| && rs[j].CallRaised?
    ensures |Vectors(rs)| == |rs|
    ensures Vectors(rs)[j] == ZeroVector()
    ensures forall i :: 0 <= i < |rs| && i != j ==> Vectors(rs)[i] == VectorOf(rs[i])
  {
  }
}
