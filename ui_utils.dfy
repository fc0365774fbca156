/** `core/ui_utils.py`: the throttler that limits how often a progress
    callback fires, the batch updater that merges update requests, and the
    throttled progress callback built on the throttler. Clock readings are
    parameters; each callback invocation is recorded in a log. */
module UiUtils {
  import opened Wrappers

  /** The `(stage, current, total)` a progress callback receives. */
  datatype Progress = Progress(stage: string, current: int, total: int)

  /** `current / max(total, 1)`. */
  function Fraction(p: Progress): real {
    p.current as real / (if p.total >= 1 then p.total else 1) as real
  }

  function Abs(x: real): real {
    if x < 0.0 then -x else x
  }

  /** What the throttler remembers between calls. */
  datatype Throttle = Throttle(lastTime: real, lastProgress: real, lastStage: string, pending: Option<Progress>)

  /** The state `__init__` and `reset` set up. */
  const Initial := Throttle(0.0, -1.0, "", None)

  /** `update`'s decision to call the callback. */
  predicate ShouldSend(t: Throttle, p: Progress, now: real, minInterval: real, minChange: real) {
    if p.stage != t.lastStage then true
    else if p.current >= p.total then true
    else if now - t.lastTime >= minInterval then Abs(Fraction(p) - t.lastProgress) >= minChange
    else false
  }

  /** `update(stage, current, total)` at time `now` with a callback set: the
      new state and whether the callback fired. */
  function Updated(t: Throttle, p: Progress, now: real, minInterval: real, minChange: real): (Throttle, bool) {
    if ShouldSend(t, p, now, minInterval, minChange) then (Throttle(now, Fraction(p), p.stage, None), true)
    else (t.(pending := Some(p)), false)
  }

  /** A stage change or a completed count always fires; otherwise the
      callback fires exactly when the interval has passed and the progress
      moved enough. A fired update leaves nothing pending and remembers
      what it sent; a suppressed one keeps the previous send and holds the
      latest update as pending. */
  lemma UpdatedFacts(t: Throttle, p: Progress, now: real, minInterval: real, minChange: real)
    ensures var (t', fired) := Updated(t, p, now, minInterval, minChange);
            && (p.stage != t.lastStage || p.current >= p.total ==> fired)
            && (p.stage == t.lastStage && p.current < p.total ==>
                  (fired <==> now - t.lastTime >= minInterval && Abs(Fraction(p) - t.lastProgress) >= minChange))
            && (fired ==> t' == Throttle(now, Fraction(p), p.stage, None))
            && (!fired ==> t' == t.(pending := Some(p)))
  {
  }

  /** Repeating the update just sent, before the interval has passed and
      without reaching the total, does not fire again. */
  lemma RepeatSuppressed(t: Throttle, p: Progress, now: real, later: real, minInterval: real, minChange: real)
    requires Updated(t, p, now, minInterval, minChange).1
    requires p.current < p.total && later - now < minInterval
    ensures !Updated(Updated(t, p, now, minInterval, minChange).0, p, later, minInterval, minChange).1
  {
  }

  /** Repeating the update just sent, with a positive minimum change, does
      not fire again before the total is reached, however late. */
  lemma SameProgressSuppressed(t: Throttle, p: Progress, now: real, later: real, minInterval: real,
                               minChange: real)
    requires Updated(t, p, now, minInterval, minChange).1
    requires p.current < p.total && minChange > 0.0
    ensures !Updated(Updated(t, p, now, minInterval, minChange).0, p, later, minInterval, minChange).1
  {
  }

  /** What `finish` sends, given what is pending. */
  function Flushed(pending: Option<Progress>): (sent: seq<Progress>)
    ensures pending.None? <==> sent == []
  {
    if pending.Some? then [pending.value] else []
  }

  /** Whatever `update` decides, the update reaches the callback by the
      following `finish` at the latest, and is the last thing sent. */
  lemma LastUpdateDelivered(t: Throttle, p: Progress, now: real, minInterval: real, minChange: real)
    ensures var (t', fired) := Updated(t, p, now, minInterval, minChange);
            var sent := (if fired then [p] else []) + Flushed(t'.pending);
            sent == [p]
  {
  }

  /** `ProgressThrottler`. `sent` logs the callback's invocations. */
  class ProgressThrottler {
    const hasCallback: bool
    const minInterval: real
    const minChange: real
    var lastTime: real
    var lastProgress: real
    var lastStage: string
    var pending: Option<Progress>
    var sent: seq<Progress>

    function State(): Throttle
      reads this
    {
      Throttle(lastTime, lastProgress, lastStage, pending)
    }

    /** `ProgressThrottler(callback, min_interval, min_progress_change)`;
        `hasCallback` says whether the callback is truthy. */
    constructor (hasCallback: bool, minInterval: real, minChange: real)
      ensures this.hasCallback == hasCallback && this.minInterval == minInterval && this.minChange == minChange
      ensures State() == Initial && sent == []
    {
      this.hasCallback, this.minInterval, this.minChange := hasCallback, minInterval, minChange;
      lastTime, lastProgress, lastStage, pending := 0.0, -1.0, "", None;
      sent := [];
    }

    /** `update(stage, current, total)` at time `now`. */
    method Update(p: Progress, now: real) returns (fired: bool)
      modifies this
      ensures !hasCallback ==> !fired && State() == old(State()) && sent == old(sent)
      ensures hasCallback ==>
                && (State(), fired) == Updated(old(State()), p, now, minInterval, minChange)
                && sent == old(sent) + (if fired then [p] else [])
    {
      if !hasCallback {
        return false;
      }
      pending := Some(p);
      fired := ShouldSend(Throttle(lastTime, lastProgress, lastStage, None), p, now, minInterval, minChange);
      if fired {
        sent := sent + [p];
        lastTime, lastProgress, lastStage, pending := now, Fraction(p), p.stage, None;
      }
    }

    /** `finish`: sends the pending update, if any, once. */
    method Finish()
      modifies this
      ensures State() == old(State()).(pending := if hasCallback then None else old(pending))
      ensures sent == old(sent) + (if hasCallback then Flushed(old(pending)) else [])
    {
      if pending.Some? && hasCallback {
        sent := sent + [pending.value];
        pending := None;
      }
    }

    /** `reset`. */
    method Reset()
      modifies this
      ensures State() == Initial && sent == old(sent)
    {
      lastTime, lastProgress, lastStage, pending := 0.0, -1.0, "", None;
    }

    /** The callback `create_progress_callback` returns, called at time
        `now`: an update, followed by `finish` once the count is complete. */
    method ThrottledCallback(p: Progress, now: real)
      modifies this
      ensures !hasCallback ==> State() == old(State()) && sent == old(sent)
      ensures hasCallback ==>
                var (t, fired) := Updated(old(State()), p, now, minInterval, minChange);
                && State() == t.(pending := if p.current >= p.total then None else t.pending)
                && sent == old(sent) + (if fired then [p] else [])
      ensures hasCallback && p.current >= p.total ==> sent == old(sent) + [p] && pending.None?
    {
      var _ := Update(p, now);
      if p.current >= p.total {
        Finish();
      }
    }
  }

  /** `BatchUpdater` without its timer. `runs` counts the calls of the
      update function. */
  class BatchUpdater {
    const hasFunction: bool
    var pending: bool
    var runs: nat

    constructor (hasFunction: bool)
      ensures this.hasFunction == hasFunction && !pending && runs == 0
    {
      this.hasFunction := hasFunction;
      pending, runs := false, 0;
    }

    /** `request_update`. */
    method RequestUpdate()
      modifies this`pending
      ensures pending
    {
      pending := true;
    }

    /** `_do_update`, which `flush` calls: runs the update function only
        when a request is pending, and clears the request. */
    method DoUpdate()
      modifies this`pending, this`runs
      ensures !pending
      ensures runs == old(runs) + (if old(pending) && hasFunction then 1 else 0)
    {
      if pending {
        pending := false;
        if hasFunction {
          runs := runs + 1;
        }
      }
    }

    /** `cancel`: drops the pending request without running anything. */
    method Cancel()
      modifies this`pending
      ensures !pending
    {
      pending := false;
    }
  }
}
