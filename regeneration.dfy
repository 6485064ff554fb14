/** The regeneration controller as a state machine: `runSync`'s single-flight
    loop with its rerun flag, and the one-timer debounce in front of it. The
    plugin class is proved to move through exactly these states. */
module Regeneration {
  import opened Wrappers

  /** `WATCH_DEBOUNCE_MS`. */
  const WatchDebounceMs: nat := 250

  // ---------------------------------------------------------------------------
  // The single-flight loop

  /** The closure flags `running` and `rerunRequested`, with the number of
      sync processes in flight and the number started so far. */
  datatype Loop = Loop(running: bool, rerunRequested: bool, inFlight: nat, started: nat)

  /** At most one process is in flight, and only while `running` is set. */
  predicate SingleFlight(l: Loop) {
    l.inFlight <= 1 && (l.inFlight == 1 ==> l.running)
  }

  /** `running` is set but nothing is in flight: a failed process threw out of
      the loop before `running` was cleared. */
  predicate Stuck(l: Loop) {
    l.running && l.inFlight == 0
  }

  /** The part of `runSync` that runs before its first `await`: while a loop
      is running the call only asks for a rerun; otherwise it takes over,
      clears the flag and starts a process. */
  function RunSync(l: Loop): (r: Loop)
    ensures r.running
    ensures l.running ==> r.rerunRequested && r.inFlight == l.inFlight && r.started == l.started
    ensures !l.running ==> !r.rerunRequested && r.inFlight == l.inFlight + 1 && r.started == l.started + 1
  {
    if l.running then l.(rerunRequested := true)
    else Loop(true, false, l.inFlight + 1, l.started + 1)
  }

  /** The loop resuming once the process in flight has exited. On success it
      starts another process if a rerun was asked for, and otherwise clears
      `running`. On failure the rejection leaves the loop: `running` stays
      set and a requested rerun is never served. */
  function Settle(l: Loop, ok: bool): (r: Loop)
    requires l.inFlight > 0
    ensures r.running == (l.running && !(ok && !l.rerunRequested))
    ensures ok && l.rerunRequested ==> r.inFlight == l.inFlight && r.started == l.started + 1 && !r.rerunRequested
    ensures !(ok && l.rerunRequested) ==> r.inFlight == l.inFlight - 1 && r.started == l.started
                                          && r.rerunRequested == l.rerunRequested
  {
    if !ok then l.(inFlight := l.inFlight - 1)
    else if l.rerunRequested then l.(rerunRequested := false, started := l.started + 1)
    else l.(running := false, inFlight := l.inFlight - 1)
  }

  /** What can happen to the loop: a call of `runSync`, or the process in
      flight exiting (successfully or not). */
  datatype Event = Call | Exit(ok: bool)

  /** One event; an exit with nothing in flight cannot occur and changes nothing. */
  function Step(l: Loop, e: Event): Loop {
    match e
    case Call => RunSync(l)
    case Exit(ok) => if l.inFlight > 0 then Settle(l, ok) else l
  }

  function Replay(l: Loop, events: seq<Event>): Loop
    decreases |events|
  {
    if events == [] then l else Replay(Step(l, events[0]), events[1..])
  }

  /** Every event keeps at most one process in flight. */
  lemma StepKeepsSingleFlight(l: Loop, e: Event)
    requires SingleFlight(l)
    ensures SingleFlight(Step(l, e))
  {
  }

  /** Whatever happens, at most one sync process is ever in flight. */
  lemma {:induction false} ReplayKeepsSingleFlight(l: Loop, events: seq<Event>)
    requires SingleFlight(l)
    ensures SingleFlight(Replay(l, events))
    decreases |events|
  {
    if events != [] {
      StepKeepsSingleFlight(l, events[0]);
      ReplayKeepsSingleFlight(Step(l, events[0]), events[1..]);
    }
  }

  /** The loop starting from rest. */
  function Idle(): Loop {
    Loop(false, false, 0, 0)
  }

  /** A call made while a process runs is served by one more process once
      that one succeeds. */
  lemma RerunAfterTrigger(l: Loop)
    requires SingleFlight(l) && l.inFlight == 1
    ensures var r := Settle(RunSync(l), true);
            r.started == l.started + 1 && r.inFlight == 1 && !r.rerunRequested
  {
  }

  /** Calls made while a loop runs start nothing, however many there are;
      together they ask for one rerun. */
  lemma {:induction false} CallsCoalesce(l: Loop, n: nat)
    requires l.running
    ensures var r := Replay(l, seq(n, _ => Call));
            r.started == l.started && r.inFlight == l.inFlight && r.running
            && (n > 0 ==> r.rerunRequested)
    decreases n
  {
    if n > 0 {
      var calls := seq(n, _ => Call);
      assert calls[0] == Call;
      assert calls[1..] == seq(n - 1, _ => Call);
      CallsCoalesce(RunSync(l), n - 1);
    }
  }

  /** A failed process leaves the loop stuck: no later call or exit ever
      starts another process, and `running` is never cleared. */
  lemma {:induction false} FailureIsPermanent(l: Loop, events: seq<Event>)
    requires SingleFlight(l) && l.inFlight == 1
    ensures Stuck(Settle(l, false))
    ensures var r := Replay(Settle(l, false), events);
            Stuck(r) && r.started == l.started
  {
    StuckStays(Settle(l, false), events);
  }

  lemma {:induction false} StuckStays(l: Loop, events: seq<Event>)
    requires Stuck(l)
    ensures Stuck(Replay(l, events)) && Replay(l, events).started == l.started
    decreases |events|
  {
    if events != [] {
      StuckStays(Step(l, events[0]), events[1..]);
    }
  }

  /** A successful exit with no rerun asked for brings the loop back to rest. */
  lemma SuccessReturnsToRest(l: Loop)
    requires SingleFlight(l) && l.inFlight == 1 && !l.rerunRequested
    ensures var r := Settle(l, true); !r.running && r.inFlight == 0 && r.started == l.started
  {
  }

  // ---------------------------------------------------------------------------
  // The debounce timer

  /** `debounce`'s returned function called at `now`: the pending timer, if
      any, is cleared and a new one is set `WatchDebounceMs` ahead. */
  function Debounce(timeout: Option<nat>, now: nat): (r: Option<nat>)
    ensures r.Some? && r.value == now + WatchDebounceMs
  {
    Some(now + WatchDebounceMs)
  }

  /** The timer fires once the clock reaches its deadline. */
  predicate Due(timeout: Option<nat>, now: nat) {
    timeout.Some? && timeout.value <= now
  }

  /** A call of the debounced function at `time`, or the clock advanced to
      `time` with no call. */
  datatype TimerEvent = CallAt(time: nat) | AdvanceTo(time: nat)

  /** The times at which the wrapped function ran, and the timer left pending. */
  datatype Timeline = Timeline(fired: seq<nat>, timeout: Option<nat>)

  /** The run of `events` from the pending `timeout`. Moving the clock to an
      event's time first fires a due timer (at its deadline) and clears it;
      a call then sets a new one. */
  function Feed(timeout: Option<nat>, events: seq<TimerEvent>): (r: Timeline)
    ensures |r.fired| <= |events|
    ensures events != [] && events[|events| - 1].CallAt? ==>
              r.timeout == Some(events[|events| - 1].time + WatchDebounceMs)
    decreases |events|
  {
    if events == [] then Timeline([], timeout)
    else
      var e := events[0];
      var fired := if Due(timeout, e.time) then [timeout.value] else [];
      var left := if Due(timeout, e.time) then None else timeout;
      var next := if e.CallAt? then Debounce(left, e.time) else left;
      var rest := Feed(next, events[1..]);
      Timeline(fired + rest.fired, rest.timeout)
  }

  /** Calls at `times`, each less than `WatchDebounceMs` after the previous. */
  predicate Burst(times: seq<nat>) {
    forall k :: 0 < k < |times| ==> times[k - 1] <= times[k] < times[k - 1] + WatchDebounceMs
  }

  function Calls(times: seq<nat>): seq<TimerEvent> {
    seq(|times|, k requires 0 <= k < |times| => CallAt(times[k]))
  }

  /** A burst of calls, starting with no timer pending or one not yet due,
      runs the wrapped function not at all and leaves a single timer due
      `WatchDebounceMs` after the last call. */
  lemma {:induction false} BurstCoalesces(timeout: Option<nat>, times: seq<nat>)
    requires |times| > 0 && Burst(times) && !Due(timeout, times[0])
    ensures Feed(timeout, Calls(times)) == Timeline([], Some(times[|times| - 1] + WatchDebounceMs))
    decreases |times|
  {
    var evs := Calls(times);
    assert evs[0] == CallAt(times[0]);
    var t' := Some(times[0] + WatchDebounceMs);
    if |times| == 1 {
      assert evs[1..] == [];
      assert Feed(t', evs[1..]) == Timeline([], t');
    } else {
      assert evs[1..] == Calls(times[1..]);
      assert Burst(times[1..]) by {
        forall k | 0 < k < |times[1..]| ensures times[1..][k - 1] <= times[1..][k] < times[1..][k - 1] + WatchDebounceMs {
          assert times[1..][k - 1] == times[k] && times[1..][k] == times[k + 1];
        }
      }
      assert !Due(t', times[1]);
      BurstCoalesces(t', times[1..]);
    }
  }

  /** After a burst, the wrapped function runs exactly once, at the deadline
      set by the last call, as soon as the clock reaches it, and not before. */
  lemma BurstFiresOnce(timeout: Option<nat>, times: seq<nat>, later: nat)
    requires |times| > 0 && Burst(times) && !Due(timeout, times[0])
    requires times[|times| - 1] <= later
    ensures var deadline := times[|times| - 1] + WatchDebounceMs;
            Feed(timeout, Calls(times) + [AdvanceTo(later)])
            == if deadline <= later then Timeline([deadline], None) else Timeline([], Some(deadline))
  {
    BurstCoalesces(timeout, times);
    FeedAppend(timeout, Calls(times), [AdvanceTo(later)]);
  }

  /** Feeding two runs of events is feeding the first, then the second from
      where it left the timer. */
  lemma {:induction false} FeedAppend(timeout: Option<nat>, xs: seq<TimerEvent>, ys: seq<TimerEvent>)
    ensures var first := Feed(timeout, xs);
            var second := Feed(first.timeout, ys);
            Feed(timeout, xs + ys) == Timeline(first.fired + second.fired, second.timeout)
    decreases |xs|
  {
    if xs == [] {
      assert xs + ys == ys;
    } else {
      var e := xs[0];
      assert (xs + ys)[0] == e;
      assert (xs + ys)[1..] == xs[1..] + ys;
      var left := if Due(timeout, e.time) then None else timeout;
      var next := if e.CallAt? then Debounce(left, e.time) else left;
      FeedAppend(next, xs[1..], ys);
      var fired := if Due(timeout, e.time) then [timeout.value] else [];
      var rest := Feed(next, xs[1..]);
      var second := Feed(rest.timeout, ys);
      assert fired + (rest.fired + second.fired) == (fired + rest.fired) + second.fired;
    }
  }
}
