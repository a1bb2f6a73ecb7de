/**
 * The single-flight detection guard of the currency detector component
 * (src/components/CurrencyDetector.tsx, `processFrame`).
 *
 * `processFrame` is asynchronous and suspends once, while it awaits the
 * detection step. The model splits it at that point: `BeginFrame` runs up to
 * the await, `FinishFrame` runs once the step settles. A second call issued
 * while the first is suspended is a `BeginFrame` between the two.
 */
module CurrencyDetector {
  import opened Wrappers
  import CurrencyData

  /** A JavaScript `Error`; only its message is observable here. */
  datatype Error = Error(message: string)

  /** What a rejected promise carries: an `Error` instance or any other value. */
  datatype Thrown = ThrownError(error: Error) | ThrownOther

  /** How the awaited detection step settles. */
  datatype DetectOutcome = Resolved(value: int) | Rejected(reason: Thrown)

  /** What `processFrame` reads before deciding to run. */
  datatype FrameInputs = FrameInputs(hasVideo: bool, hasModel: bool, isActive: bool)

  /**
   * What the detector does, in order: its own writes of the in-flight flag,
   * which the parent cannot see, together with the calls of the three
   * callbacks the parent receives.
   */
  datatype Event =
    | InFlightWritten(inFlight: bool)
    | DetectionStart
    | DetectionComplete(value: int)
    | DetectionError(error: Error)

  /** The placeholder detection step: a random index into the seven face values. */
  function PlaceholderDetect(randomIndex: nat): (value: int)
    requires randomIndex < 7
    ensures value in CurrencyData.Denominations
    ensures CurrencyData.GetCurrencyById(value).Some?
  {
    [10, 20, 50, 100, 200, 500, 2000][randomIndex]
  }

  /** A detection outcome the placeholder step can produce. */
  predicate PlaceholderOutcome(o: DetectOutcome)
  {
    o.Resolved? ==> o.value in CurrencyData.Denominations
  }

  /** The error handed to `onError`: a non-`Error` rejection is wrapped. */
  function AsError(reason: Thrown): Error
  {
    match reason
    case ThrownError(e) => e
    case ThrownOther => Error("Detection failed")
  }

  /** Whether the guard lets a call through. */
  predicate Admits(inputs: FrameInputs, inFlight: bool)
  {
    inputs.hasVideo && inputs.hasModel && inputs.isActive && !inFlight
  }

  /** The events of an admitted call up to the await. */
  const StartEvents: seq<Event> := [InFlightWritten(true), DetectionStart]

  /** The events of an admitted call after the detection step settles with `o`. */
  function FinishEvents(o: DetectOutcome): seq<Event>
  {
    match o
    case Resolved(v) => [DetectionComplete(v), InFlightWritten(false)]
    case Rejected(t) => [DetectionError(AsError(t)), InFlightWritten(false)]
  }

  /** What an admitted call returns once the detection step settles with `o`. */
  function ResultOf(o: DetectOutcome): Option<int>
  {
    match o
    case Resolved(v) => Some(v)
    case Rejected(_) => None
  }

  /** Number of start events in `t`. */
  function Starts(t: seq<Event>): nat
  {
    if t == [] then 0
    else Starts(t[..|t| - 1]) + (if t[|t| - 1].DetectionStart? then 1 else 0)
  }

  /** Number of completion and error events in `t`. */
  function Finishes(t: seq<Event>): nat
  {
    if t == [] then 0
    else Finishes(t[..|t| - 1]) +
         (if t[|t| - 1].DetectionComplete? || t[|t| - 1].DetectionError? then 1 else 0)
  }

  /** The value of the in-flight flag after `t`; the flag starts out false. */
  function InFlight(t: seq<Event>): bool
  {
    if t == [] then false
    else if t[|t| - 1].InFlightWritten? then t[|t| - 1].inFlight
    else InFlight(t[..|t| - 1])
  }

  lemma {:induction false} StartsAppend(a: seq<Event>, b: seq<Event>)
    ensures Starts(a + b) == Starts(a) + Starts(b)
    decreases |b|
  {
    if b == [] {
      assert a + b == a;
    } else {
      assert (a + b)[..|a + b| - 1] == a + b[..|b| - 1];
      StartsAppend(a, b[..|b| - 1]);
    }
  }

  lemma {:induction false} FinishesAppend(a: seq<Event>, b: seq<Event>)
    ensures Finishes(a + b) == Finishes(a) + Finishes(b)
    decreases |b|
  {
    if b == [] {
      assert a + b == a;
    } else {
      assert (a + b)[..|a + b| - 1] == a + b[..|b| - 1];
      FinishesAppend(a, b[..|b| - 1]);
    }
  }

  /** Appending events that end with a flag write leaves the flag at that write. */
  lemma {:induction false} InFlightAppend(a: seq<Event>, b: seq<Event>)
    requires b != [] && b[|b| - 1].InFlightWritten?
    ensures InFlight(a + b) == b[|b| - 1].inFlight
  {
    assert (a + b)[|a + b| - 1] == b[|b| - 1];
  }

  /** Once an admitted call has signalled its start, the flag is set. */
  lemma InFlightAfterStart(a: seq<Event>)
    ensures InFlight(a + StartEvents)
  {
    assert (a + StartEvents)[..|a + StartEvents| - 1] == a + [InFlightWritten(true)];
    InFlightAppend(a, [InFlightWritten(true)]);
  }

  /**
   * An admitted call emits exactly one start event, then exactly one of
   * completion, carrying the detected value, or error, carrying the rejection
   * wrapped as an `Error` when it is not one. The flag is already set when the start callback
   * fires and still set when the final callback fires, and it is clear once
   * the call returns.
   */
  lemma AdmittedCallEvents(prior: seq<Event>, o: DetectOutcome)
    ensures Starts(prior + StartEvents + FinishEvents(o)) == Starts(prior) + 1
    ensures Finishes(prior + StartEvents + FinishEvents(o)) == Finishes(prior) + 1
    ensures InFlight(prior + StartEvents[..1])
    ensures InFlight(prior + StartEvents + FinishEvents(o)[..1])
    ensures !InFlight(prior + StartEvents + FinishEvents(o))
    ensures o.Resolved? ==> (StartEvents + FinishEvents(o))[2] == DetectionComplete(o.value)
    ensures o.Rejected? && o.reason.ThrownError? ==>
              (StartEvents + FinishEvents(o))[2] == DetectionError(o.reason.error)
    ensures o == Rejected(ThrownOther) ==>
              (StartEvents + FinishEvents(o))[2] == DetectionError(Error("Detection failed"))
  {
    StartsAppend(prior, StartEvents);
    StartsAppend(prior + StartEvents, FinishEvents(o));
    FinishesAppend(prior, StartEvents);
    FinishesAppend(prior + StartEvents, FinishEvents(o));
    InFlightAppend(prior, StartEvents[..1]);
    InFlightAfterStart(prior);
    assert prior + StartEvents + FinishEvents(o)[..1] == (prior + StartEvents) + FinishEvents(o)[..1];
    InFlightAppend(prior + StartEvents, FinishEvents(o));
  }

  /**
   * The events of a run of calls made one after another, each awaited before
   * the next is issued, starting from a detector with no call in flight. Each
   * call meets the guard with the flag as the earlier calls left it.
   */
  function SequentialTrace(calls: seq<(FrameInputs, DetectOutcome)>): seq<Event>
  {
    if calls == [] then []
    else
      var earlier := SequentialTrace(calls[..|calls| - 1]);
      var last := calls[|calls| - 1];
      earlier + (if Admits(last.0, InFlight(earlier)) then StartEvents + FinishEvents(last.1) else [])
  }

  /** Number of calls in `calls` whose inputs pass the guard when nothing is in flight. */
  function AdmissibleCalls(calls: seq<(FrameInputs, DetectOutcome)>): nat
  {
    if calls == [] then 0
    else AdmissibleCalls(calls[..|calls| - 1]) + (if Admits(calls[|calls| - 1].0, false) then 1 else 0)
  }

  /**
   * Calls awaited one after another are never blocked by one another: each
   * call with video, model and active component is admitted, every admitted
   * call is matched by exactly one completion or error, and the flag is clear
   * at the end.
   */
  lemma {:induction false} SequentialCallsBalanced(calls: seq<(FrameInputs, DetectOutcome)>)
    ensures Starts(SequentialTrace(calls)) == AdmissibleCalls(calls)
    ensures Finishes(SequentialTrace(calls)) == AdmissibleCalls(calls)
    ensures !InFlight(SequentialTrace(calls))
  {
    if calls != [] {
      var init := calls[..|calls| - 1];
      var last := calls[|calls| - 1];
      SequentialCallsBalanced(init);
      assert Admits(last.0, InFlight(SequentialTrace(init))) == Admits(last.0, false);
      if Admits(last.0, false) {
        AdmittedCallEvents(SequentialTrace(init), last.1);
        assert SequentialTrace(calls) == SequentialTrace(init) + StartEvents + FinishEvents(last.1);
      } else {
        assert SequentialTrace(calls) == SequentialTrace(init);
      }
    }
  }

  /** The detector component: its in-flight flag and what it has emitted. */
  class Detector {
    var detectionInProgress: bool
    var trace: seq<Event>

    /** The flag agrees with the last write in the trace, and only an in-flight call lacks its final event. */
    ghost predicate Valid()
      reads this
    {
      && detectionInProgress == InFlight(trace)
      && Starts(trace) == Finishes(trace) + (if detectionInProgress then 1 else 0)
    }

    constructor ()
      ensures Valid()
      ensures !detectionInProgress && trace == []
    {
      detectionInProgress := false;
      trace := [];
    }

    /**
     * `processFrame` up to the await: reject when the video, the model or the
     * active state is missing or a call is in flight; otherwise set the flag
     * and signal the start.
     */
    method BeginFrame(inputs: FrameInputs) returns (admitted: bool)
      requires Valid()
      modifies this
      ensures Valid()
      ensures admitted == Admits(inputs, old(detectionInProgress))
      ensures admitted ==> detectionInProgress && trace == old(trace) + StartEvents
      ensures !admitted ==> detectionInProgress == old(detectionInProgress) && trace == old(trace)
    {
      if !inputs.hasVideo || !inputs.hasModel || !inputs.isActive || detectionInProgress {
        return false;
      }
      StartsAppend(trace, StartEvents);
      FinishesAppend(trace, StartEvents);
      InFlightAfterStart(trace);
      detectionInProgress := true;
      trace := trace + [InFlightWritten(true)];
      trace := trace + [DetectionStart];
      admitted := true;
    }

    /**
     * `processFrame` after the await: on success report the value, on failure
     * report the error; clear the flag on both paths.
     */
    method FinishFrame(o: DetectOutcome) returns (r: Option<int>)
      requires Valid() && detectionInProgress
      modifies this
      ensures Valid()
      ensures !detectionInProgress
      ensures trace == old(trace) + FinishEvents(o)
      ensures r == ResultOf(o)
    {
      StartsAppend(trace, FinishEvents(o));
      FinishesAppend(trace, FinishEvents(o));
      InFlightAppend(trace, FinishEvents(o));
      match o
      case Resolved(v) =>
        trace := trace + [DetectionComplete(v)];
        detectionInProgress := false;
        trace := trace + [InFlightWritten(false)];
        r := Some(v);
      case Rejected(reason) =>
        var e := if reason.ThrownError? then reason.error else Error("Detection failed");
        trace := trace + [DetectionError(e)];
        detectionInProgress := false;
        trace := trace + [InFlightWritten(false)];
        r := None;
    }

    /** A whole call of `processFrame` whose await is not interleaved with another call. */
    method ProcessFrame(inputs: FrameInputs, o: DetectOutcome) returns (r: Option<int>)
      requires Valid()
      modifies this
      ensures Valid()
      ensures Admits(inputs, old(detectionInProgress)) ==>
                !detectionInProgress && r == ResultOf(o) &&
                trace == old(trace) + StartEvents + FinishEvents(o)
      ensures !Admits(inputs, old(detectionInProgress)) ==>
                r == None && detectionInProgress == old(detectionInProgress) && trace == old(trace)
    {
      var admitted := BeginFrame(inputs);
      if !admitted {
        return None;
      }
      r := FinishFrame(o);
    }
  }

  /**
   * A fresh detector that receives `calls` one after another, each call's
   * await settling before the next call is issued. Its trace is the
   * sequential trace, so `SequentialCallsBalanced` holds of it, and each call
   * returns its outcome's value exactly when its inputs pass the guard.
   */
  method ProcessSequentially(calls: seq<(FrameInputs, DetectOutcome)>)
    returns (d: Detector, results: seq<Option<int>>)
    ensures fresh(d) && d.Valid()
    ensures !d.detectionInProgress && d.trace == SequentialTrace(calls)
    ensures |results| == |calls|
    ensures forall i :: 0 <= i < |calls| ==>
              results[i] == (if Admits(calls[i].0, false) then ResultOf(calls[i].1) else None)
  {
    d := new Detector();
    results := [];
    var i := 0;
    while i < |calls|
      invariant 0 <= i <= |calls|
      invariant d.Valid() && !d.detectionInProgress
      invariant d.trace == SequentialTrace(calls[..i])
      invariant |results| == i
      invariant forall j :: 0 <= j < i ==>
                  results[j] == (if Admits(calls[j].0, false) then ResultOf(calls[j].1) else None)
    {
      assert calls[..i + 1][..i] == calls[..i];
      var r := d.ProcessFrame(calls[i].0, calls[i].1);
      results := results + [r];
      i := i + 1;
    }
    assert calls[..i] == calls;
  }
}
