/** The submit handler of script.js:94-119. Each submission starts an empty `results` map and
    runs the `.eval` sections strictly in order: it picks the section's model, derives the step
    key from the select's id, builds and sends one streaming request, overwrites `results[id]`
    with every accumulated content the stream yields (drawing while loading), and ends the
    section with an unconditional `draw(results, { loading: false })`. The transport and the
    clock are inputs: each section comes with the stream's accumulated contents and the time
    of every draw call it makes. */
module Workflow {
  import opened Wrappers
  import Catalog
  import Providers
  import Display
  import Throttle

  /** What the page supplies for one `.eval` section when the loop reaches it: the textarea's
      system prompt, the id and current value of its model select, and the clinical description
      as it reads at that moment (script.js:101 reads it afresh for every section, after the
      previous section's stream has finished, so the user may have edited it in between). */
  datatype EvalSection = EvalSection(system: string, selectId: string, selectValue: string, description: string)

  /** One increment of the stream: the content accumulated so far, and the time of the draw
      call that follows it. */
  datatype Increment = Increment(content: string, time: int)

  /** What the stream and the clock deliver for one section: the time of the draw before the
      request, the increments, and the time of the final draw. */
  datatype StreamRun = StreamRun(startTime: int, increments: seq<Increment>, endTime: int)

  datatype Step = Step(section: EvalSection, stream: StreamRun)

  /** The `fetch` options and URL handed to the streaming transport. */
  datatype HttpRequest = HttpRequest(
    httpMethod: string, credentials: string, contentType: string, url: string, body: Providers.Payload)

  /** How a submission ends: every section ran, or the section at `at` named no model, so the
      handler threw there (at script.js:99 or script.js:102) and stopped. */
  datatype Outcome = Completed | Aborted(at: nat)

  /** `id.split("-")[0]` (script.js:100): the select id up to its first `-`. */
  function StepKey(selectId: string): (k: string)
    ensures k <= selectId
    ensures '-' !in k
    ensures |k| < |selectId| ==> selectId[|k|] == '-'
  {
    if selectId == [] || selectId[0] == '-' then [] else [selectId[0]] + StepKey(selectId[1..])
  }

  /** The three clauses of `StepKey`'s contract determine it: it is the longest prefix free of `-`. */
  lemma StepKeyUnique(selectId: string, k: string)
    requires k <= selectId && '-' !in k && (|k| < |selectId| ==> selectId[|k|] == '-')
    ensures k == StepKey(selectId)
  {
    var s := StepKey(selectId);
    assert k == selectId[..|k|] && s == selectId[..|s|];
  }

  /** The request for one section (script.js:98-109) against a catalog `models` (the page's
      is `Catalog.Models`), or `None` when `models[value]` is not a catalog entry and the
      handler throws before sending anything. */
  function BuildRequest(models: seq<Catalog.ModelDescriptor>, section: EvalSection): Option<HttpRequest> {
    match Catalog.Select(models, section.selectValue)
    case None => None
    case Some(m) =>
      var messages := [Providers.Message(Providers.System, section.system), Providers.Message(Providers.User, section.description)];
      var body := Providers.Adapt(m.source, Providers.ChatRequest(m.model, messages, true));
      Some(HttpRequest("POST", "include", "application/json", Providers.Url(m.source, m.model), body))
  }

  /** A section is sent exactly when its select value names a catalog entry. The request is a
      streaming POST with the session's credentials, to the entry's provider endpoint for its
      model; its messages are the section's system prompt and the clinical description, and
      nothing else: no earlier result is ever forwarded. */
  lemma BuildRequestSpec(models: seq<Catalog.ModelDescriptor>, section: EvalSection)
    ensures BuildRequest(models, section).Some? <==> Catalog.Select(models, section.selectValue).Some?
    ensures BuildRequest(models, section).Some? ==>
      var r := BuildRequest(models, section).value;
      var m := Catalog.Select(models, section.selectValue).value;
      && r.httpMethod == "POST" && r.credentials == "include" && r.contentType == "application/json"
      && r.url == Providers.Url(m.source, m.model)
      && r.body == Providers.Adapt(m.source, r.body.request)
      && r.body.request == Providers.ChatRequest(m.model,
           [Providers.Message(Providers.System, section.system), Providers.Message(Providers.User, section.description)], true)
  {
  }

  /** `results` after one stream: each increment overwrites `results[id]`, so only the last one
      remains; a stream with no increment leaves the map as it was. */
  function AfterStep(results: map<string, string>, id: string, incs: seq<Increment>): (r: map<string, string>)
    ensures r == if incs == [] then results else results[id := incs[|incs| - 1].content]
  {
    if incs == [] then results
    else AfterStep(results, id, incs[..|incs| - 1])[id := incs[|incs| - 1].content]
  }

  /** No other key than the step's own is touched by a stream. */
  lemma AfterStepFrame(results: map<string, string>, id: string, incs: seq<Increment>, k: string)
    requires k != id
    ensures k in AfterStep(results, id, incs) <==> k in results
    ensures k in results ==> AfterStep(results, id, incs)[k] == results[k]
  {
  }

  /** The model of a section resolves. */
  predicate Resolves(models: seq<Catalog.ModelDescriptor>, s: Step) {
    Catalog.Select(models, s.section.selectValue).Some?
  }

  /** How many sections run before the first one whose model does not resolve. */
  function CompletedCount(models: seq<Catalog.ModelDescriptor>, steps: seq<Step>): (n: nat)
    ensures n <= |steps|
    ensures forall i :: 0 <= i < n ==> Resolves(models, steps[i])
    ensures n < |steps| ==> !Resolves(models, steps[n])
  {
    if steps == [] || !Resolves(models, steps[0]) then 0 else 1 + CompletedCount(models, steps[1..])
  }

  /** `results` after a submission's sections ran, starting from `{}`. */
  function RunResults(steps: seq<Step>): map<string, string> {
    if steps == [] then map[]
    else
      var s := steps[|steps| - 1];
      AfterStep(RunResults(steps[..|steps| - 1]), StepKey(s.section.selectId), s.stream.increments)
  }

  /** The section writes `results[k]`: its key is `k` and its stream yields something. */
  predicate Writes(s: Step, k: string) {
    StepKey(s.section.selectId) == k && s.stream.increments != []
  }

  function FinalContent(s: Step): string
    requires s.stream.increments != []
  {
    s.stream.increments[|s.stream.increments| - 1].content
  }

  /** The position of the last section that writes `results[k]`, if any. */
  function LastWriter(steps: seq<Step>, k: string): (r: Option<nat>)
    ensures r.Some? ==> r.value < |steps| && Writes(steps[r.value], k)
    ensures r.Some? ==> forall j :: r.value < j < |steps| ==> !Writes(steps[j], k)
    ensures r.None? ==> forall j :: 0 <= j < |steps| ==> !Writes(steps[j], k)
  {
    if steps == [] then None
    else if Writes(steps[|steps| - 1], k) then Some(|steps| - 1)
    else
      var prefix := steps[..|steps| - 1];
      assert forall j :: 0 <= j < |prefix| ==> prefix[j] == steps[j];
      LastWriter(prefix, k)
  }

  /** A key is in the results exactly when some section of this submission wrote it, and then
      it holds the final content of the last section that did. Nothing survives from an
      earlier submission, since every submission starts from `{}`. */
  lemma {:induction false} RunResultsLookup(steps: seq<Step>, k: string)
    ensures k in RunResults(steps) <==> LastWriter(steps, k).Some?
    ensures k in RunResults(steps) ==> RunResults(steps)[k] == FinalContent(steps[LastWriter(steps, k).value])
  {
    if steps != [] {
      var prefix := steps[..|steps| - 1];
      RunResultsLookup(prefix, k);
      if !Writes(steps[|steps| - 1], k) && LastWriter(prefix, k).Some? {
        assert prefix[LastWriter(prefix, k).value] == steps[LastWriter(prefix, k).value];
      }
    }
  }

  /** The submit handler on the page's catalog. `renderer` is the module state shared with
      `draw`, which persists from one submission to the next; `results` is the map this
      submission builds; `issued` lists the requests sent, one per section that ran. */
  method Submit(renderer: Throttle.Renderer, steps: seq<Step>)
    returns (results: map<string, string>, issued: seq<HttpRequest>, outcome: Outcome)
    modifies renderer
    ensures var n := CompletedCount(Catalog.Models, steps);
      && outcome == (if n == |steps| then Completed else Aborted(n))
      && results == RunResults(steps[..n])
      && issued == Requests(Catalog.Models, steps[..n])
      && renderer.view == (if n > 0 then Display.Contents(results, false) else old(renderer.view))
      && renderer.lastCalledTime == (if n > 0 then Some(steps[n - 1].stream.endTime) else old(renderer.lastCalledTime))
  {
    results := map[];
    issued := [];
    var i := 0;
    while i < |steps|
      invariant 0 <= i <= |steps|
      invariant results == RunResults(steps[..i])
      invariant issued == Requests(Catalog.Models, steps[..i]) && |issued| == i
      invariant renderer.view == if i > 0 then Display.Contents(results, false) else old(renderer.view)
      invariant renderer.lastCalledTime == if i > 0 then Some(steps[i - 1].stream.endTime) else old(renderer.lastCalledTime)
    {
      var step := steps[i];
      var request := BuildRequest(Catalog.Models, step.section);
      if request.None? {
        CompletedCountAt(Catalog.Models, steps, i);
        outcome := Aborted(i);
        return;
      }
      PrefixStep(Catalog.Models, steps, i);
      issued := issued + [request.value];
      results := RunStream(renderer, results, StepKey(step.section.selectId), step.stream);
      i := i + 1;
    }
    assert steps[..|steps|] == steps;
    CompletedCountAt(Catalog.Models, steps, |steps|);
    outcome := Completed;
  }

  /** Lines 110-118 for one section: draw while loading, overwrite `results[id]` with every
      increment and draw again, then draw with `loading: false`, which always renders. */
  method RunStream(renderer: Throttle.Renderer, results: map<string, string>, id: string, run: StreamRun)
    returns (after: map<string, string>)
    modifies renderer
    ensures after == AfterStep(results, id, run.increments)
    ensures renderer.view == Display.Contents(after, false) && renderer.lastCalledTime == Some(run.endTime)
  {
    var incs := run.increments;
    after := results;
    var _ := renderer.Draw(after, true, run.startTime);
    var k := 0;
    while k < |incs|
      invariant 0 <= k <= |incs|
      invariant after == AfterStep(results, id, incs[..k])
    {
      after := after[id := incs[k].content];
      var _ := renderer.Draw(after, true, incs[k].time);
      assert incs[..k + 1][..k] == incs[..k];
      k := k + 1;
    }
    assert incs[..|incs|] == incs;
    var _ := renderer.Draw(after, false, run.endTime);
  }

  /** The requests sent for a sequence of sections, in order (a section whose model does not
      resolve sends nothing). */
  function Requests(models: seq<Catalog.ModelDescriptor>, steps: seq<Step>): seq<HttpRequest> {
    if steps == [] then []
    else
      var last := BuildRequest(models, steps[|steps| - 1].section);
      Requests(models, steps[..|steps| - 1]) + (if last.Some? then [last.value] else [])
  }

  /** Running one more section that resolves appends its request and its stream's writes. */
  lemma PrefixStep(models: seq<Catalog.ModelDescriptor>, steps: seq<Step>, i: nat)
    requires i < |steps| && BuildRequest(models, steps[i].section).Some?
    ensures Requests(models, steps[..i + 1]) ==
      Requests(models, steps[..i]) + [BuildRequest(models, steps[i].section).value]
    ensures RunResults(steps[..i + 1]) ==
      AfterStep(RunResults(steps[..i]), StepKey(steps[i].section.selectId), steps[i].stream.increments)
  {
    assert steps[..i + 1][..i] == steps[..i];
  }

  /** When every section resolves, the i-th request sent is the i-th section's request. */
  lemma {:induction false} RequestsInOrder(models: seq<Catalog.ModelDescriptor>, steps: seq<Step>)
    requires forall j :: 0 <= j < |steps| ==> Resolves(models, steps[j])
    ensures |Requests(models, steps)| == |steps|
    ensures forall j :: 0 <= j < |steps| ==> BuildRequest(models, steps[j].section) == Some(Requests(models, steps)[j])
  {
    if steps != [] {
      var n := |steps| - 1;
      var prefix := steps[..n];
      assert forall j :: 0 <= j < n ==> prefix[j] == steps[j];
      RequestsInOrder(models, prefix);
      var last := BuildRequest(models, steps[n].section);
      assert Resolves(models, steps[n]);
      assert last.Some?;
      var sent := Requests(models, steps);
      assert sent == Requests(models, prefix) + [last.value];
      forall j | 0 <= j < |steps|
        ensures BuildRequest(models, steps[j].section) == Some(sent[j])
      {
        if j < n {
          assert steps[j] == prefix[j];
        }
      }
    }
  }

  /** A request is sent for every section of a sequence only if every section resolves. */
  lemma {:induction false} RequestsResolve(models: seq<Catalog.ModelDescriptor>, steps: seq<Step>)
    requires |Requests(models, steps)| == |steps|
    ensures forall j :: 0 <= j < |steps| ==> Resolves(models, steps[j])
  {
    if steps != [] {
      var prefix := steps[..|steps| - 1];
      assert forall j :: 0 <= j < |prefix| ==> prefix[j] == steps[j];
      RequestsLength(models, prefix);
      BuildRequestSpec(models, steps[|steps| - 1].section);
      RequestsResolve(models, prefix);
    }
  }

  lemma {:induction false} RequestsLength(models: seq<Catalog.ModelDescriptor>, steps: seq<Step>)
    ensures |Requests(models, steps)| <= |steps|
  {
    if steps != [] {
      RequestsLength(models, steps[..|steps| - 1]);
    }
  }

  /** The sections before `i` resolve and the one at `i` (if any) does not: then `i` sections run. */
  lemma {:induction false} CompletedCountAt(models: seq<Catalog.ModelDescriptor>, steps: seq<Step>, i: nat)
    requires i <= |steps| && |Requests(models, steps[..i])| == i
    requires i < |steps| ==> BuildRequest(models, steps[i].section).None?
    ensures CompletedCount(models, steps) == i
  {
    RequestsResolve(models, steps[..i]);
    assert forall j :: 0 <= j < i ==> steps[..i][j] == steps[j];
    if i < |steps| {
      BuildRequestSpec(models, steps[i].section);
    }
  }
}
