/** The render throttle of `draw` (script.js:122-157). The module-level `lastCalledTime` starts
    `undefined`; a call while loading is dropped when fewer than 100 ms have passed since the last
    accepted call, and every other call is accepted, records its time and re-renders the results
    container. The wall clock is a parameter: each call carries the time it was made. */
module Throttle {
  import opened Wrappers
  import Display

  /** The minimum spacing, in milliseconds, between renders while loading. */
  const Interval: int := 100

  /** One call `draw(results, { loading })` made at time `now`. */
  datatype DrawCall = DrawCall(loading: bool, now: int)

  /** Whether a call goes through. `None` is the initial `undefined`: `now - undefined` is NaN and
      `NaN < 100` is false, so nothing is dropped before the first accepted call. */
  predicate Accepts(last: Option<int>, c: DrawCall) {
    !(c.loading && last.Some? && c.now - last.value < Interval)
  }

  /** `lastCalledTime` after one call. */
  function Next(last: Option<int>, c: DrawCall): Option<int> {
    if Accepts(last, c) then Some(c.now) else last
  }

  /** A loading call within the interval is dropped and leaves the state alone. */
  lemma DropsWithinInterval(t: int, c: DrawCall)
    requires c.loading && c.now - t < Interval
    ensures !Accepts(Some(t), c) && Next(Some(t), c) == Some(t)
  {
  }

  /** A call with `loading: false` is always accepted, however little time has passed. */
  lemma DoneAlwaysRenders(last: Option<int>, c: DrawCall)
    requires !c.loading
    ensures Accepts(last, c) && Next(last, c) == Some(c.now)
  {
  }

  /** Before any call has been accepted, every call is accepted. */
  lemma FirstCallRenders(c: DrawCall)
    ensures Accepts(None, c) && Next(None, c) == Some(c.now)
  {
  }

  /** `lastCalledTime` after a sequence of calls. */
  function After(last: Option<int>, calls: seq<DrawCall>): Option<int> {
    if calls == [] then last else Next(After(last, calls[..|calls| - 1]), calls[|calls| - 1])
  }

  /** The calls of a sequence that render, in order. */
  function Rendered(last: Option<int>, calls: seq<DrawCall>): (r: seq<DrawCall>)
    ensures |r| <= |calls|
    ensures forall c :: c in r ==> c in calls
  {
    if calls == [] then []
    else
      var prefix := calls[..|calls| - 1];
      var c := calls[|calls| - 1];
      Rendered(last, prefix) + (if Accepts(After(last, prefix), c) then [c] else [])
  }

  /** The positions of the calls that are accepted, each in the state the calls before it
      left; they are increasing and in range. */
  function AcceptedPositions(last: Option<int>, calls: seq<DrawCall>): (p: seq<nat>)
    ensures forall k :: 0 <= k < |p| ==> p[k] < |calls|
    ensures forall k, l :: 0 <= k < l < |p| ==> p[k] < p[l]
  {
    if calls == [] then []
    else
      var n := |calls| - 1;
      AcceptedPositions(last, calls[..n]) + (if Accepts(After(last, calls[..n]), calls[n]) then [n] else [])
  }

  /** Every position in `p` holds a call that the state left by the calls before it accepts. */
  predicate AllAccepted(last: Option<int>, calls: seq<DrawCall>, p: seq<nat>) {
    forall k :: 0 <= k < |p| ==> p[k] < |calls| && Accepts(After(last, calls[..p[k]]), calls[p[k]])
  }

  /** Each listed position holds a call that the state left by the calls before it accepts. */
  lemma {:induction false} AcceptedPositionsAccepted(last: Option<int>, calls: seq<DrawCall>)
    ensures AllAccepted(last, calls, AcceptedPositions(last, calls))
  {
    if calls != [] {
      var n := |calls| - 1;
      AcceptedPositionsAccepted(last, calls[..n]);
      var p := AcceptedPositions(last, calls[..n]);
      var full := AcceptedPositions(last, calls);
      assert full == p + (if Accepts(After(last, calls[..n]), calls[n]) then [n] else []);
      forall k | 0 <= k < |full|
        ensures full[k] < |calls| && Accepts(After(last, calls[..full[k]]), calls[full[k]])
      {
        if k < |p| {
          assert full[k] == p[k];
          assert calls[..n][..p[k]] == calls[..p[k]] && calls[..n][p[k]] == calls[p[k]];
        } else {
          assert full[k] == n;
        }
      }
    }
  }

  /** Conversely, every call that the state left by the calls before it accepts is listed. */
  lemma {:induction false} AcceptedCallListed(last: Option<int>, calls: seq<DrawCall>, j: nat)
    requires j < |calls| && Accepts(After(last, calls[..j]), calls[j])
    ensures j in AcceptedPositions(last, calls)
  {
    var n := |calls| - 1;
    if j < n {
      assert calls[..n][..j] == calls[..j] && calls[..n][j] == calls[j];
      AcceptedCallListed(last, calls[..n], j);
    }
  }

  /** The rendered calls are the calls at the accepted positions, in order: an order-preserving
      subsequence of the calls made. */
  lemma {:induction false} RenderedSubsequence(last: Option<int>, calls: seq<DrawCall>)
    ensures var r := Rendered(last, calls);
      var p := AcceptedPositions(last, calls);
      |r| == |p| && forall k :: 0 <= k < |r| ==> r[k] == calls[p[k]]
  {
    if calls != [] {
      var n := |calls| - 1;
      RenderedSubsequence(last, calls[..n]);
      var p := AcceptedPositions(last, calls[..n]);
      assert forall k :: 0 <= k < |p| ==> calls[..n][p[k]] == calls[p[k]];
    }
  }

  /** The state is the time of the last call that rendered, or the initial state if none did. */
  lemma {:induction false} AfterIsLastRendered(last: Option<int>, calls: seq<DrawCall>)
    ensures var r := Rendered(last, calls);
      After(last, calls) == if r == [] then last else Some(r[|r| - 1].now)
  {
    if calls != [] {
      AfterIsLastRendered(last, calls[..|calls| - 1]);
    }
  }

  /** Renders made while loading are at least 100 ms after the render before them (and after the
      initial state's time), whatever the clock does: bursts of increments are coalesced. */
  lemma {:induction false} LoadingRendersSpaced(last: Option<int>, calls: seq<DrawCall>)
    ensures var r := Rendered(last, calls);
      && (forall k :: 0 < k < |r| && r[k].loading ==> r[k].now - r[k - 1].now >= Interval)
      && (last.Some? && |r| > 0 && r[0].loading ==> r[0].now - last.value >= Interval)
  {
    if calls != [] {
      var prefix := calls[..|calls| - 1];
      var c := calls[|calls| - 1];
      LoadingRendersSpaced(last, prefix);
      AfterIsLastRendered(last, prefix);
    }
  }

  /** A sequence ending with a `loading: false` call always renders that call last, so the final
      state of a stream is never dropped. */
  lemma FinalDoneCallRenders(last: Option<int>, calls: seq<DrawCall>)
    requires |calls| > 0 && !calls[|calls| - 1].loading
    ensures var r := Rendered(last, calls);
      |r| > 0 && r[|r| - 1] == calls[|calls| - 1] && After(last, calls) == Some(calls[|calls| - 1].now)
  {
  }

  /** The module state of script.js: `lastCalledTime` and the results container `$results`,
      whose content is the list last passed to `render`. */
  class Renderer {
    var lastCalledTime: Option<int>
    var view: seq<Display.Entry>

    /** The state when the script loads: `lastCalledTime` undefined, the container empty. */
    constructor ()
      ensures lastCalledTime == None && view == []
    {
      lastCalledTime := None;
      view := [];
    }

    /** `draw(results, { loading })` at time `now`; `drawn` says whether it rendered. */
    method Draw(results: map<string, string>, loading: bool, now: int) returns (drawn: bool)
      modifies this
      ensures drawn == Accepts(old(lastCalledTime), DrawCall(loading, now))
      ensures lastCalledTime == Next(old(lastCalledTime), DrawCall(loading, now))
      ensures view == if drawn then Display.Contents(results, loading) else old(view)
    {
      if loading && lastCalledTime.Some? && now - lastCalledTime.value < Interval {
        drawn := false;
        return;
      }
      lastCalledTime := Some(now);
      view := Display.Contents(results, loading);
      drawn := true;
    }
  }
}
