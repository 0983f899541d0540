/** The provider registry of script.js:38-59: for each provider identifier, the adapter that
    shapes the chat request for that provider and the builder of its streaming endpoint URL. */
module Providers {
  import opened Wrappers

  datatype Source = OpenAI | Anthropic | Gemini | Cerebras | Groq

  datatype Role = System | User

  datatype Message = Message(role: Role, content: string)

  /** The body the script builds before adaptation: `{ model, messages, stream: true }`. */
  datatype ChatRequest = ChatRequest(model: string, messages: seq<Message>, stream: bool)

  /** What an adapter returns. The identity adapters return the request itself; the anthropic
      and gemini adapters are library functions whose output is not part of this model, so
      their result is only tagged with the provider and the request they were given. */
  datatype Payload = Passthrough(request: ChatRequest) | Translated(provider: Source, request: ChatRequest)

  /** The registry key of each provider. */
  function Identifier(p: Source): string {
    match p
    case OpenAI => "openai"
    case Anthropic => "anthropic"
    case Gemini => "gemini"
    case Cerebras => "cerebras"
    case Groq => "groq"
  }

  /** `sources[source]` for the registry's own keys: the provider registered under a key, if
      any. Inherited names such as `toString` find an object member that is not a provider;
      they map to `None` like every other unregistered key. */
  function Lookup(id: string): (r: Option<Source>)
    ensures r.Some? ==> Identifier(r.value) == id
  {
    if id == "openai" then Some(OpenAI)
    else if id == "anthropic" then Some(Anthropic)
    else if id == "gemini" then Some(Gemini)
    else if id == "cerebras" then Some(Cerebras)
    else if id == "groq" then Some(Groq)
    else None
  }

  /** The registry is total over its five identifiers: each key finds its own provider. */
  lemma LookupIdentifier(p: Source)
    ensures Lookup(Identifier(p)) == Some(p)
  {
  }

  /** openai, cerebras and groq use `(d) => d`. */
  predicate IsIdentityAdapter(p: Source) {
    p == OpenAI || p == Cerebras || p == Groq
  }

  /** `adapter(body)` for the provider's registered adapter. */
  function Adapt(p: Source, body: ChatRequest): (r: Payload)
    ensures r.request == body
  {
    if IsIdentityAdapter(p) then Passthrough(body) else Translated(p, body)
  }

  /** The identity adapters hand the request on untouched, and only they do. */
  lemma AdaptIdentity(p: Source, body: ChatRequest)
    ensures Adapt(p, body) == Passthrough(body) <==> IsIdentityAdapter(p)
  {
  }

  const Host: string := "https://llmfoundry.straive.com/"

  const GeminiPrefix: string := Host + "gemini" + "/v1beta/models/"

  const GeminiSuffix: string := ":streamGenerateContent?alt=sse"

  /** `url(model)` for the provider's registered builder (each literal URL is written split
      after the provider's key; the text is the same). */
  function Url(p: Source, model: string): string {
    match p
    case OpenAI => Host + "openai" + "/v1/chat/completions"
    case Anthropic => Host + "anthropic" + "/v1/messages"
    case Gemini => GeminiPrefix + model + GeminiSuffix
    case Cerebras => Host + "cerebras" + "/v1/chat/completions"
    case Groq => Host + "groq" + "/v1/chat/completions"
  }

  /** Every endpoint lives on the one host, under a path that starts with the provider's key. */
  lemma UrlRoute(p: Source, model: string)
    ensures Host + Identifier(p) + "/" <= Url(p, model)
  {
    var r := Host + Identifier(p) + "/";
    assert Url(p, model)[..|r|] == r;
  }

  /** Only the gemini URL depends on the model id. */
  lemma UrlIgnoresModel(p: Source, m1: string, m2: string)
    requires p != Gemini
    ensures Url(p, m1) == Url(p, m2)
  {
  }

  /** The gemini URL embeds the model id in its path, right after `models/`. */
  lemma GeminiUrlEmbedsModel(model: string)
    ensures |Url(Gemini, model)| == |GeminiPrefix| + |model| + |GeminiSuffix|
    ensures Url(Gemini, model)[|GeminiPrefix|..|GeminiPrefix| + |model|] == model
  {
    var u := Url(Gemini, model);
    assert u == GeminiPrefix + model + GeminiSuffix;
    assert (GeminiPrefix + model + GeminiSuffix)[|GeminiPrefix|..|GeminiPrefix| + |model|] == model;
  }

  /** Distinct models get distinct gemini endpoints. */
  lemma GeminiUrlInjective(m1: string, m2: string)
    requires Url(Gemini, m1) == Url(Gemini, m2)
    ensures m1 == m2
  {
    GeminiUrlEmbedsModel(m1);
    GeminiUrlEmbedsModel(m2);
  }

  /** Distinct providers never share an endpoint, whatever the models. */
  lemma UrlsDistinguishProviders(p: Source, q: Source, m1: string, m2: string)
    requires p != q
    ensures Url(p, m1) != Url(q, m2)
  {
    UrlRoute(p, m1);
    UrlRoute(q, m2);
    var i := |Host|;
    assert Url(p, m1)[i] == Identifier(p)[0] && Url(p, m1)[i + 1] == Identifier(p)[1];
    assert Url(q, m2)[i] == Identifier(q)[0] && Url(q, m2)[i + 1] == Identifier(q)[1];
  }
}
