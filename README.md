# Adverse-event analysis page: a Dafny model of its script

`script.js` drives a page where a clinical description is sent to several large language
models. Each `.eval` section of the form has a system prompt and a model select. On submit,
the script handles the sections in order. For each one it:

- picks the model descriptor from the `models` catalog;
- builds a streaming chat request for that model's provider from the `sources` registry;
- stores every accumulated content the stream yields under the section's key in `results`;
- redraws the results container through a 100 ms throttle.

The model has five modules:

- `Catalog` holds the sixteen-entry `models` array and the lookup `models[value]` of a select's
  option value. JavaScript only finds an array entry for a canonical decimal index ("0" to
  "15"). Any other string yields `undefined`, or for an inherited name such as `length` or
  `map` a value that is not a catalog entry; the model maps all of these to `None`.
- `Providers` is the `sources` registry. It holds the five provider keys, the identity
  adapters, and the endpoint URL builders.
- `Display` is the list `draw` renders: cards for the analysis types whose result is truthy,
  in table order, then a spinner while loading. A card carries the raw markdown it would show.
- `Throttle` is the module state `lastCalledTime` and the results container, as the class
  `Renderer`. `Renderer.Draw` is `draw`. The clock reading `now` is a parameter.
- `Workflow` is the submit handler: the `id` split, the request for one section, the
  per-stream overwrites of `results[id]`, and the loop over the sections (`Submit`). Each
  section is an input. It carries the page values the loop reads for it, including the
  clinical description, which is read afresh for every section. It also carries its stream:
  the accumulated contents the stream yields, and the clock time of each draw call.

`Wrappers` supplies `Option`.

A section whose select value names no catalog entry makes the handler throw before that
section sends a request or draws anything. For `undefined` the destructuring at script.js:99
throws. For an inherited name such as `length` it yields no `source`, and
`sources[undefined]` at script.js:102 throws. The async handler then stops. The model calls
this `Aborted(i)`.

## Model

| member | source | states |
|---|---|---|
| Catalog.Decimal | script.js:63 | the option value written for a position (`${index}`): non-empty decimal digits, with a leading `0` only for position 0 |
| Catalog.ParseIndex | script.js:63-99 | a property name denotes position `n` exactly when it is the option value text `Decimal(n)`; no other name denotes a position |
| Catalog.DecimalParses | script.js:63 | the option value written for position `n` is canonical and denotes `n` |
| Catalog.CanonicalPrints | script.js:63 | a canonical index string is the decimal text of the number it denotes, so no other spelling names the same position |
| Catalog.Select | script.js:99 | `models[value]` on an array of descriptors: either no entry, or an element of that array |
| Catalog.ModelForValue | script.js:19-36 | `models[value]` is `undefined` or one of the catalog's entries |
| Catalog.OptionValueSelects | script.js:62-64 | the option written for entry `i` selects exactly entry `i` |
| Catalog.ValueSelectsOnlyOptions | script.js:63-99 | a select value finds a model only if it is the option value written for that entry's position ("03", "16" and "" find none) |
| Catalog.CatalogModelsDistinct | script.js:19-36 | the sixteen model identifiers are pairwise distinct |
| Providers.Identifier | script.js:38-59 | the registry key of each of the five providers; `LookupIdentifier` shows the registry finds each provider under it |
| Providers.Lookup | script.js:38-59 | a key the registry knows finds the provider registered under that key |
| Providers.LookupIdentifier | script.js:38-59 | the registry covers all five providers: each key finds its own provider |
| Providers.Adapt | script.js:38-59 | every adapter is applied to the request the script built |
| Providers.AdaptIdentity | script.js:38-59 | the request passes through unchanged exactly for openai, cerebras and groq |
| Providers.Url | script.js:38-59 | the URL each provider's builder returns for a model; `UrlRoute`, `UrlIgnoresModel`, `GeminiUrlEmbedsModel` and `UrlsDistinguishProviders` state its properties |
| Providers.UrlRoute | script.js:41-57 | every endpoint is on the one host, under a path that starts with the provider's key |
| Providers.UrlIgnoresModel | script.js:41-57 | for every provider except gemini the URL does not depend on the model |
| Providers.GeminiUrlEmbedsModel | script.js:49 | the gemini URL holds the model id right after `models/`, between fixed prefix and suffix |
| Providers.GeminiUrlInjective | script.js:49 | distinct models get distinct gemini URLs |
| Providers.UrlsDistinguishProviders | script.js:38-59 | two providers never share an endpoint, whatever the models |
| Display.Cards | script.js:136-150 | the filtered and mapped table; `CardsMembers`, `CardsAppend` and `CardsDependOnTableKeys` state what it holds and in which order |
| Display.Contents | script.js:136-156 | the list passed to `render`; `ContentsShape` and `ShowsExactly` state its shape and which cards it shows |
| Display.CardsMembers | script.js:136-150 | every card belongs to a table entry with a truthy result and shows that result; every table entry with a truthy result has its card; there are no more cards than entries |
| Display.CardsAppend | script.js:136-137 | filtering keeps table order: the cards of a concatenated table are the first part's followed by the second's |
| Display.ContentsShape | script.js:152-156 | the rendered list has one entry per card plus one when loading; the spinner appears exactly when loading, as the last and only spinner |
| Display.ShowsExactly | script.js:130-137 | a card for `key` is shown exactly when `key` is basic, intermediate or judge and its result is present and non-empty |
| Display.TableOrder | script.js:130-137 | cards come in the order basic, intermediate, judge |
| Display.CardShowsResult | script.js:146 | each card shows the current, non-empty result of its key |
| Display.CardsDependOnTableKeys | script.js:136-137 | keys outside the table never influence what is rendered |
| Throttle.DropsWithinInterval | script.js:126 | a loading call less than 100 ms after the last accepted call is dropped and leaves `lastCalledTime` alone |
| Throttle.DoneAlwaysRenders | script.js:126-127 | a call with `loading: false` is always accepted and records its time |
| Throttle.FirstCallRenders | script.js:122-126 | while `lastCalledTime` is undefined every call is accepted |
| Throttle.Accepts | script.js:126 | whether a call goes through in a given state; `DropsWithinInterval`, `DoneAlwaysRenders` and `FirstCallRenders` state when |
| Throttle.Next | script.js:126-127 | `lastCalledTime` after one call; the same three lemmas state its value |
| Throttle.After | script.js:126-127 | `lastCalledTime` after a sequence of calls; `AfterIsLastRendered` states its value |
| Throttle.Rendered | script.js:123-127 | the calls that render: no more than the calls made, and each one of them |
| Throttle.AcceptedPositions | script.js:126-127 | the positions of the calls that render, strictly increasing and within the sequence |
| Throttle.AcceptedPositionsAccepted | script.js:126-127 | every listed position holds a call that the state left by the calls before it accepts |
| Throttle.AcceptedCallListed | script.js:126-127 | every call that its state accepts is listed |
| Throttle.RenderedSubsequence | script.js:123-127 | the rendered calls are exactly the calls at the accepted positions, in order: an order-preserving subsequence of the calls made |
| Throttle.AfterIsLastRendered | script.js:126-127 | after any sequence of calls, `lastCalledTime` is the time of the last call that rendered, or its initial value if none did |
| Throttle.LoadingRendersSpaced | script.js:124-127 | every render made while loading is at least 100 ms after the render before it |
| Throttle.FinalDoneCallRenders | script.js:118-127 | a sequence that ends with a `loading: false` call always renders that call last |
| Throttle.Renderer.constructor | script.js:122 | at load, `lastCalledTime` is undefined and the container is empty |
| Throttle.Renderer.Draw | script.js:123-157 | `draw` renders exactly when the throttle accepts the call; it then records `now` and the container shows the cards and spinner for `results`; otherwise nothing changes |
| Workflow.StepKey | script.js:100 | the key is a prefix of the select id, contains no `-`, and is followed by `-` whenever it is shorter than the id |
| Workflow.StepKeyUnique | script.js:100 | those three properties determine the key: it is the longest `-`-free prefix |
| Workflow.BuildRequest | script.js:98-109 | the request for one section, or none; `BuildRequestSpec` states its fields |
| Workflow.BuildRequestSpec | script.js:98-109 | a section is sent exactly when its select value names a catalog entry; the request is a POST with credentials included and JSON content type, to the provider's URL for the entry's model, carrying only the section's system prompt and the description as read for that section, adapted by the provider's adapter |
| Workflow.AfterStep | script.js:111-113 | after a stream, `results[id]` holds its last accumulated content; a stream with no increment leaves `results` unchanged |
| Workflow.AfterStepFrame | script.js:111-112 | a stream touches no key other than its own |
| Workflow.CompletedCount | script.js:97-99 | the number of sections run is the length of the longest prefix whose models all resolve |
| Workflow.LastWriter | script.js:97-112 | the reported section writes the key, and no later section does; none is reported only when no section writes it |
| Workflow.RunResults | script.js:96-113 | `results` after the sections ran, from `{}`; `RunResultsLookup` states what it holds |
| Workflow.RunResultsLookup | script.js:96-113 | after a submission a key is present exactly when some section of that submission wrote it, and it holds the final content of the last such section; nothing survives from an earlier submission |
| Workflow.Submit | script.js:94-119 | the sections run in order until one names no model; `results` is the fold of their streams from `{}`; one request per section that ran is sent, in order; if any section ran, the container then shows the final results without a spinner, at the time of that section's final draw |
| Workflow.RunStream | script.js:110-118 | one section's stream overwrites `results[id]` with every increment and ends with a `loading: false` draw, which always renders the final results |
| Workflow.Requests | script.js:97-111 | the requests sent for a sequence of sections, in order; `RequestsInOrder`, `RequestsResolve` and `RequestsLength` state its properties |
| Workflow.PrefixStep | script.js:97-113 | running one more section appends its request and applies its stream's writes |
| Workflow.RequestsInOrder | script.js:97-111 | when every section resolves, the i-th request sent is the i-th section's request |
| Workflow.RequestsResolve | script.js:97-111 | a request is sent for every section only if every section's model resolves |
| Workflow.RequestsLength | script.js:97-111 | no more requests are sent than there are sections |
| Workflow.CompletedCountAt | script.js:97-99 | if the first `i` sections were sent and section `i` names no model, the handler ran exactly `i` sections |

## Left out

- The streaming transport `asyncLLM` (script.js:111) is network I/O in an external library. Each stream is an input: its accumulated contents and the times of the draws that follow them.
- The `anthropic` and `gemini` adapters (script.js:7-8) are library functions whose bodies are not part of this model. Their result is tagged `Translated` with the provider and the request they were given.
- `JSON.stringify` of the body and the `headers` object (script.js:103, script.js:109) are kept as fields of `HttpRequest`, not serialised.
- lit-html `html`/`render`, `unsafeHTML` and `marked.parse` (script.js:139-156) are external rendering libraries. A card holds its key, title and raw markdown, not HTML.
- The wall clock `+new Date()` (script.js:125) is a parameter: every draw call carries its time.
- DOM queries, `event.preventDefault()`, the samples list and its change listener, and `FormPersistence.persist` (script.js:10-13, 68-90, 95, 160) are browser plumbing.
- A catalog entry's `source` is held as the provider itself rather than as its key string. The registry lookup `sources[source]` (script.js:102) therefore cannot miss in `BuildRequest`. `Providers.LookupIdentifier` states that every provider's key is registered and finds that provider.
- The `<option>` markup and labels of script.js:63 are not modelled; only the option values are (the decimal index of each entry).
- Stream increments whose `content` is `undefined` are not modelled: every increment carries a string. The destructured `message` (script.js:111) is never used by the script.
- The commented-out slowdown (script.js:115-116) is not code.
- The model does not capture the JavaScript exception itself. A section whose select value names no catalog entry ends the submission as `Aborted(i)`, with no request and no draw for that section.
- A stream that fails partway is not modelled. If `asyncLLM` throws inside the `for await` loop (script.js:111), the handler stops before the `loading: false` draw of script.js:118, and the spinner stays on screen. In the model every stream completes and `RunStream` always ends with that draw.
- Concurrent submissions are not modelled. Submitting again while a run waits in `for await` starts a second handler (script.js:94). The two interleave their draws on the shared `lastCalledTime` and `$results` (script.js:122-156). `Submit` runs one submission as a single uninterrupted step on the `Renderer`.
- Workflow.RunStream: states only the final state of the container and of `lastCalledTime`, not the throttling of its intermediate loading draws. The `Throttle` lemmas about call sequences state those.
