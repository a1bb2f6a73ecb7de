/**
 * The detection state of the main page and the sentence it speaks for a
 * detection result (src/pages/Index.tsx).
 */
module IndexPage {
  import opened Wrappers
  import CurrencyData
  import CurrencyDetector

  const UnknownCurrency: string := "Unknown currency detected"

  /** The sentence announcing that note `n` was detected. */
  function Announcement(n: CurrencyData.CurrencyNote): string
  {
    n.name + " note detected. This is a " + n.color + " colored note with " + n.description + "."
  }

  /**
   * The sentence spoken for a detection result: failure for no value, a
   * generic sentence for a value without a catalogue entry, and otherwise the
   * announcement of the note with that value.
   */
  function CreateCurrencySpeechText(value: Option<int>): (text: string)
    ensures value.None? ==> text == CurrencyData.DetectionFailed
    ensures value.Some? && value.value !in CurrencyData.Denominations ==> text == UnknownCurrency
    ensures forall n :: n in CurrencyData.IndianCurrencyNotes && value == Some(n.value) ==>
                          text == Announcement(n)
  {
    if value.None? then CurrencyData.DetectionFailed
    else
      match CurrencyData.GetCurrencyById(value.value)
      case None => UnknownCurrency
      case Some(currency) => Announcement(currency)
  }

  /** A detection result the page can announce specifically: none, or a catalogue value. */
  predicate Recognised(value: Option<int>)
  {
    value.None? || value.value in CurrencyData.Denominations
  }

  /** An announcement opens with the note's name and is longer than the failure sentence. */
  lemma AnnouncementOpening(n: CurrencyData.CurrencyNote)
    requires |n.name| >= 5
    ensures |Announcement(n)| > |CurrencyData.DetectionFailed|
    ensures Announcement(n)[..5] == n.name[..5]
  {
    var rest := " note detected. This is a " + n.color + " colored note with " + n.description + ".";
    assert Announcement(n) == n.name + rest;
  }

  /** The sentence for the catalogue's `i`-th value is that note's announcement. */
  lemma NoteSpeechText(i: nat)
    requires i < |CurrencyData.Denominations|
    ensures var n := CurrencyData.IndianCurrencyNotes[i];
      var text := CreateCurrencySpeechText(Some(CurrencyData.Denominations[i]));
      && |n.name| >= 5
      && text == Announcement(n)
      && |text| > |CurrencyData.DetectionFailed|
      && text[..5] == n.name[..5]
  {
    var n := CurrencyData.IndianCurrencyNotes[i];
    CurrencyData.GetCurrencyByIdOnDenominations(i);
    assert CreateCurrencySpeechText(Some(CurrencyData.Denominations[i])) == Announcement(n);
    CurrencyData.NamesAtLeastFiveLong(i);
    AnnouncementOpening(n);
  }

  lemma FailureSpeechLength()
    ensures |CreateCurrencySpeechText(None)| == 48
  {
  }

  lemma UnknownSpeechLength(v: int)
    requires v !in CurrencyData.Denominations
    ensures |CreateCurrencySpeechText(Some(v))| == 25
  {
  }

  /**
   * Different results are announced with different sentences, except that
   * every value outside the catalogue gets the same generic one: the listener
   * can tell a failure, an unknown value and every denomination apart.
   */
  lemma SpeechTextIdentifiesValue(a: Option<int>, b: Option<int>)
    ensures CreateCurrencySpeechText(a) == CreateCurrencySpeechText(b) <==>
              a == b || (a.Some? && b.Some? && !Recognised(a) && !Recognised(b))
  {
    if a.None? { FailureSpeechLength(); }
    else if !Recognised(a) { UnknownSpeechLength(a.value); }
    else { NoteSpeechText(CurrencyData.DenominationIndex(a.value)); }
    if b.None? { FailureSpeechLength(); }
    else if !Recognised(b) { UnknownSpeechLength(b.value); }
    else { NoteSpeechText(CurrencyData.DenominationIndex(b.value)); }
    if a.Some? && b.Some? && Recognised(a) && Recognised(b) && a != b {
      CurrencyData.NameOpeningsDistinct(CurrencyData.DenominationIndex(a.value),
                                         CurrencyData.DenominationIndex(b.value));
    }
  }

  /** The page's detection-related state. */
  datatype PageState = PageState(
    isDetecting: bool,
    detectedValue: Option<int>,
    isModelLoaded: bool,
    speechText: Option<string>)

  const InitialState: PageState := PageState(false, None, false, None)

  /** The page's handlers that the detector component calls. */
  datatype Handler =
    | DetectionStarted
    | DetectionCompleted(value: Option<int>)
    | ModelLoaded
    | ErrorRaised(error: CurrencyDetector.Error)

  /** The state after handler `h` runs in state `s`, as the handlers are written. */
  function Handle(s: PageState, h: Handler): (t: PageState)
    ensures t.speechText.Some?
    ensures s.isModelLoaded ==> t.isModelLoaded
    ensures t.isDetecting != s.isDetecting ==> h.DetectionStarted? || h.DetectionCompleted?
    ensures t.detectedValue != s.detectedValue ==> h.DetectionCompleted?
    ensures h.DetectionStarted? ==> t.isDetecting && t.detectedValue == s.detectedValue
    ensures h.DetectionCompleted? ==> !t.isDetecting && t.detectedValue == h.value
    ensures h.ErrorRaised? ==> t.isDetecting == s.isDetecting && t.isModelLoaded == s.isModelLoaded
  {
    match h
    case DetectionStarted =>
      s.(isDetecting := true, speechText := Some(CurrencyData.DetectionInProgress))
    case DetectionCompleted(v) =>
      s.(isDetecting := false, detectedValue := v, speechText := Some(CreateCurrencySpeechText(v)))
    case ModelLoaded =>
      s.(isModelLoaded := true, speechText := Some(CurrencyData.Welcome))
    case ErrorRaised(e) =>
      s.(speechText := Some("Error: " + e.message))
  }

  /** The state after `handlers` run one after another from `s`. */
  function Run(s: PageState, handlers: seq<Handler>): PageState
    decreases |handlers|
  {
    if handlers == [] then s else Run(Handle(s, handlers[0]), handlers[1..])
  }

  /** The guard of the detection trigger: the model is loaded and no detection is under way. */
  predicate TriggerProceeds(s: PageState)
  {
    s.isModelLoaded && !s.isDetecting
  }

  /** Once loaded, the model stays loaded whatever handlers run. */
  lemma {:induction false} ModelStaysLoaded(s: PageState, handlers: seq<Handler>)
    requires s.isModelLoaded
    ensures Run(s, handlers).isModelLoaded
    decreases |handlers|
  {
    if handlers != [] {
      ModelStaysLoaded(Handle(s, handlers[0]), handlers[1..]);
    }
  }

  /**
   * As written, the error handler leaves `isDetecting` as it was. Once a
   * detection has started, every later run of handlers without a completion
   * leaves the page detecting, so the trigger stays blocked.
   */
  lemma {:induction false} ErrorLeavesTriggerBlocked(s: PageState, handlers: seq<Handler>)
    requires s.isDetecting
    requires forall i :: 0 <= i < |handlers| ==> !handlers[i].DetectionCompleted?
    ensures Run(s, handlers).isDetecting && !TriggerProceeds(Run(s, handlers))
    decreases |handlers|
  {
    if handlers != [] {
      ErrorLeavesTriggerBlocked(Handle(s, handlers[0]), handlers[1..]);
    }
  }

  /** The smallest run that shows it: the model loads, a detection starts and fails. */
  lemma FailedDetectionBlocksTrigger(e: CurrencyDetector.Error)
    ensures var s := Run(InitialState, [ModelLoaded, DetectionStarted, ErrorRaised(e)]);
      s.isModelLoaded && s.isDetecting && !TriggerProceeds(s)
  {
    var s1 := Handle(InitialState, ModelLoaded);
    var s2 := Handle(s1, DetectionStarted);
    var hs := [ModelLoaded, DetectionStarted, ErrorRaised(e)];
    assert hs[1..][1..][1..] == [];
    assert Run(InitialState, hs) == Run(s2, [ErrorRaised(e)]);
  }

  /** The handlers with the error handler as evidently intended: it also ends the detection. */
  function HandleCorrected(s: PageState, h: Handler): (t: PageState)
    ensures h.ErrorRaised? || h.DetectionCompleted? ==> !t.isDetecting
    ensures t.isModelLoaded == (s.isModelLoaded || h.ModelLoaded?)
    ensures !h.ErrorRaised? ==> t == Handle(s, h)
  {
    match h
    case ErrorRaised(e) => s.(isDetecting := false, speechText := Some("Error: " + e.message))
    case _ => Handle(s, h)
  }

  function RunCorrected(s: PageState, handlers: seq<Handler>): PageState
    decreases |handlers|
  {
    if handlers == [] then s else RunCorrected(HandleCorrected(s, handlers[0]), handlers[1..])
  }

  /**
   * With the corrected handler, after every run that ends with a completion
   * or an error and leaves the model loaded, the trigger proceeds again.
   */
  lemma {:induction false} CorrectedRunReleasesTrigger(s: PageState, handlers: seq<Handler>)
    requires handlers != []
    requires handlers[|handlers| - 1].DetectionCompleted? || handlers[|handlers| - 1].ErrorRaised?
    requires RunCorrected(s, handlers).isModelLoaded
    ensures TriggerProceeds(RunCorrected(s, handlers))
    decreases |handlers|
  {
    if |handlers| > 1 {
      CorrectedRunReleasesTrigger(HandleCorrected(s, handlers[0]), handlers[1..]);
    }
  }

  /** The page handler a detector event is delivered to (src/pages/Index.tsx:270-277). */
  function HandlersFor(events: seq<CurrencyDetector.Event>): (hs: seq<Handler>)
    ensures |hs| <= |events|
    ensures forall h | h in hs :: !h.ModelLoaded?
    decreases |events|
  {
    if events == [] then []
    else
      var rest := HandlersFor(events[1..]);
      match events[0]
      case InFlightWritten(_) => rest
      case DetectionStart => [DetectionStarted] + rest
      case DetectionComplete(v) => [DetectionCompleted(Some(v))] + rest
      case DetectionError(e) => [ErrorRaised(e)] + rest
  }

  /**
   * Every callback the detector makes reaches exactly one page handler: the
   * handlers delivered are as many as the start, completion and error events.
   */
  lemma {:induction false} HandlersForCounts(events: seq<CurrencyDetector.Event>)
    ensures |HandlersFor(events)| == CurrencyDetector.Starts(events) + CurrencyDetector.Finishes(events)
    decreases |events|
  {
    if events != [] {
      HandlersForCounts(events[1..]);
      assert events == [events[0]] + events[1..];
      CurrencyDetector.StartsAppend([events[0]], events[1..]);
      CurrencyDetector.FinishesAppend([events[0]], events[1..]);
      assert [events[0]][..0] == [];
    }
  }

  /**
   * What one admitted detector call does to a page whose model is loaded. A
   * detected catalogue value is announced and the page is ready for the next
   * trigger; a failure is spoken as an error, but as written the page then
   * stays detecting, while with the corrected error handler it is ready again.
   */
  lemma AdmittedCallOnPage(s: PageState, o: CurrencyDetector.DetectOutcome)
    requires s.isModelLoaded
    requires CurrencyDetector.PlaceholderOutcome(o)
    ensures var handlers := HandlersFor(CurrencyDetector.StartEvents + CurrencyDetector.FinishEvents(o));
      var t := Run(s, handlers);
      && (o.Resolved? ==>
            && t.detectedValue == Some(o.value)
            && CurrencyData.GetCurrencyById(o.value).Some?
            && t.speechText == Some(Announcement(CurrencyData.GetCurrencyById(o.value).value))
            && TriggerProceeds(t))
      && (o.Rejected? ==>
            && t.speechText == Some("Error: " + CurrencyDetector.AsError(o.reason).message)
            && !TriggerProceeds(t)
            && TriggerProceeds(RunCorrected(s, handlers)))
  {
    var events := CurrencyDetector.StartEvents + CurrencyDetector.FinishEvents(o);
    var h := if o.Resolved? then DetectionCompleted(Some(o.value))
             else ErrorRaised(CurrencyDetector.AsError(o.reason));
    var finish := if o.Resolved? then CurrencyDetector.DetectionComplete(o.value)
                  else CurrencyDetector.DetectionError(CurrencyDetector.AsError(o.reason));
    assert events == [CurrencyDetector.InFlightWritten(true), CurrencyDetector.DetectionStart,
                      finish, CurrencyDetector.InFlightWritten(false)];
    assert HandlersFor(events[3..]) == [] by { assert events[3..][1..] == []; }
    assert HandlersFor(events[2..]) == [h] by { assert events[2..][1..] == events[3..]; }
    assert HandlersFor(events[1..]) == [DetectionStarted, h] by { assert events[1..][1..] == events[2..]; }
    assert HandlersFor(events) == [DetectionStarted, h] by { assert events[0].InFlightWritten?; }
    var hs := [DetectionStarted, h];
    assert hs[1..] == [h] && hs[1..][1..] == [];
    var s1, c1 := Handle(s, DetectionStarted), HandleCorrected(s, DetectionStarted);
    assert Run(s1, [h]) == Run(Handle(s1, h), []);
    assert Run(s, hs) == Run(s1, [h]);
    assert RunCorrected(c1, [h]) == RunCorrected(HandleCorrected(c1, h), []);
    assert RunCorrected(s, hs) == RunCorrected(c1, [h]);
    if o.Resolved? {
      assert CurrencyData.GetCurrencyById(o.value).Some?;
    }
  }

  /** The page component's detection-related state. */
  class Page {
    var isDetecting: bool
    var detectedValue: Option<int>
    var isModelLoaded: bool
    var speechText: Option<string>

    function State(): PageState
      reads this
    {
      PageState(isDetecting, detectedValue, isModelLoaded, speechText)
    }

    constructor ()
      ensures State() == InitialState
    {
      isDetecting, detectedValue, isModelLoaded, speechText := false, None, false, None;
    }

    method HandleDetectionStart()
      modifies this
      ensures isDetecting && speechText == Some(CurrencyData.DetectionInProgress)
      ensures detectedValue == old(detectedValue) && isModelLoaded == old(isModelLoaded)
      ensures State() == Handle(old(State()), DetectionStarted)
    {
      isDetecting := true;
      speechText := Some(CurrencyData.DetectionInProgress);
    }

    method HandleDetectionComplete(value: Option<int>)
      modifies this
      ensures !isDetecting && detectedValue == value
      ensures speechText == Some(CreateCurrencySpeechText(value))
      ensures isModelLoaded == old(isModelLoaded)
      ensures State() == Handle(old(State()), DetectionCompleted(value))
    {
      isDetecting := false;
      detectedValue := value;
      var resultText := CreateCurrencySpeechText(value);
      speechText := Some(resultText);
    }

    method HandleModelLoaded()
      modifies this
      ensures isModelLoaded && speechText == Some(CurrencyData.Welcome)
      ensures isDetecting == old(isDetecting) && detectedValue == old(detectedValue)
      ensures State() == Handle(old(State()), ModelLoaded)
    {
      isModelLoaded := true;
      speechText := Some(CurrencyData.Welcome);
    }

    method HandleError(error: CurrencyDetector.Error)
      modifies this
      ensures speechText == Some("Error: " + error.message)
      ensures isDetecting == old(isDetecting) && detectedValue == old(detectedValue)
      ensures isModelLoaded == old(isModelLoaded)
      ensures State() == Handle(old(State()), ErrorRaised(error))
    {
      speechText := Some("Error: " + error.message);
    }

    /**
     * The guard of the detection trigger. Past the guard the source looks up
     * the detector in the document, which changes none of this state.
     */
    method HandleDetectionTrigger() returns (proceeds: bool)
      ensures proceeds == TriggerProceeds(State())
      ensures proceeds <==> isModelLoaded && !isDetecting
    {
      if !isModelLoaded || isDetecting {
        return false;
      }
      proceeds := true;
    }
  }
}
