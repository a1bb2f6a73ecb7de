# Currency helper: verified model of the detection core

This project models the logic of a voice-guided currency detector for
visually impaired users. The detector recognises Indian banknotes from the
camera and announces the result by voice. The model covers four parts:

- **The note catalogue** (`CurrencyData`, `currency_data.dfy`). This covers:
  - the seven Indian currency notes (10, 20, 50, 100, 200, 500 and 2000
    rupees) with their names, colours and descriptions;
  - the lookup of a note by face value;
  - the fixed messages the application speaks.
- **The detector's single-flight guard** (`CurrencyDetector`,
  `currency_detector.dfy`). `processFrame` refuses to run without a video
  element, without a model, while inactive, or while another detection is
  in flight. Otherwise it sets the in-flight flag and signals the start. It
  then awaits the detection step and signals completion or error, clearing
  the flag on both paths. The model is class `Detector`:
  - the flag is a field;
  - an event trace records the component's own writes of the flag, which the
    parent cannot see, together with the calls of the three callbacks the
    parent receives;
  - the call is split at its one await into `BeginFrame` and `FinishFrame`,
    so a second call issued while the first is suspended is a `BeginFrame`
    between the two.

  The detection step is a parameter, either a resolved value or a rejection.
- **Touch gestures** (`Gestures`, `gesture_handler.dfy`):
  - the double-tap timing rule, on a class holding the last tap time and the
    touch start point;
  - the swipe decision, as a pure function of the displacement.
- **The main page's detection state** (`IndexPage`, `index_page.dfy`):
  - the sentence spoken for a detection result;
  - the handlers that move `isDetecting`, `detectedValue`, `isModelLoaded`
    and `speechText`, as class `Page`;
  - the guard on the detection trigger.

  Each handler is also given as a pure transition over a `PageState` value,
  so that lemmas can reason about runs of handlers. They can also reason
  about the handlers the detector's events are delivered to.

The detection step in the source is a placeholder. It picks one of the seven
face values at random (src/utils/modelLoader.ts:55-57); no real classifier
exists in the code, so none is modelled. The random pick is `PlaceholderDetect`,
whose random index is a parameter. The lookup is a function over a constant
sequence, so it cannot change the catalogue.

## Model

| member | source | states |
|---|---|---|
| `CurrencyData.CatalogueShape` | src/utils/currencyData.ts:16-80 | The catalogue has exactly seven entries. Their values are 10, 20, 50, 100, 200, 500, 2000 in strictly ascending order, and no two entries share a value. |
| `CurrencyData.Find` | src/utils/currencyData.ts:84 | `find` with `note.value === value`. A result is an entry of the list with that value, and the first such entry. The result is empty exactly when no entry has the value. |
| `CurrencyData.FindIsOnlyMatch` | src/utils/currencyData.ts:84 | In a list without repeated values, the entry found is the only entry with that value. |
| `CurrencyData.GetCurrencyById` | src/utils/currencyData.ts:83-85 | A returned note is a catalogue entry whose value is the one asked for, and it is the only such entry. Nothing is returned exactly when the value is not one of the seven face values. |
| `CurrencyData.GetCurrencyByIdOnDenominations` | src/utils/currencyData.ts:16-85 | The lookup of the i-th face value returns the i-th catalogue entry. |
| `CurrencyDetector.PlaceholderDetect` | src/utils/modelLoader.ts:55-57 | The placeholder detection step returns one of the seven face values, and the catalogue has a note for it. |
| `CurrencyDetector.AdmittedCallEvents` | src/components/CurrencyDetector.tsx:88-108 | An admitted call adds exactly one start event and exactly one completion or error. The flag is set when the start callback fires, still set when the final callback fires, and clear afterwards. Completion carries the detected value. Error carries the rejection, and a rejection that is not an `Error` becomes `Error("Detection failed")`. |
| `CurrencyDetector.SequentialCallsBalanced` | src/components/CurrencyDetector.tsx:78-108 | In a run of calls each awaited before the next, where each call meets the guard with the flag the earlier calls left, every call with video, model and active component is admitted, so no call is blocked by an earlier one. Starts and finishes both equal the number of admitted calls, and the flag is clear at the end. |
| `CurrencyDetector.ProcessSequentially` | src/components/CurrencyDetector.tsx:77-109 | A fresh detector given calls one after another ends with exactly the sequential trace, the flag clear and the invariant kept; each call returns its outcome's value when its inputs pass the guard and null otherwise. |
| `CurrencyDetector.Detector.constructor` | src/components/CurrencyDetector.tsx:31 | The flag starts false and nothing has been emitted. |
| `CurrencyDetector.Detector.BeginFrame` | src/components/CurrencyDetector.tsx:77-91 | The call is admitted exactly when video, model and active state are present and no call is in flight. A refused call changes neither the flag nor the trace. An admitted one sets the flag, then emits the start event. The invariant (the flag matches the trace, and only the call in flight lacks its final event) is kept. |
| `CurrencyDetector.Detector.FinishFrame` | src/components/CurrencyDetector.tsx:94-108 | After the await, a resolved value is reported by completion and returned; a rejection is reported by error and null is returned. Each is followed by clearing the flag, so the flag is false on both exit paths. |
| `CurrencyDetector.Detector.ProcessFrame` | src/components/CurrencyDetector.tsx:77-109 | A whole call without interleaving. A refused call returns null and changes nothing. An admitted call emits the start events then the finish events, returns the outcome's value or null, and leaves the flag false. |
| `Gestures.ClassifySwipe` | src/components/GestureHandler.tsx:63-78 | A swipe is recognised exactly when abs(dx) > 50 or abs(dy) > 50. Right means dx > 50 and abs(dy) < dx; left means dx < -50 and abs(dy) < -dx. Down means dy > 50 and abs(dx) <= dy; up means dy < -50 and abs(dx) <= -dy. So the vertical branch never fires with dy = 0 and the horizontal one never with dx = 0. |
| `Gestures.ClassifySwipeComplete` | src/components/GestureHandler.tsx:63-78 | Conversely, a movement past 50 along its strictly dominant horizontal axis is a right or left swipe by the sign of dx. A movement past 50 vertically that is at least as large as the horizontal one (ties go vertical) is a down or up swipe by the sign of dy. |
| `Gestures.ClassifySwipeMirrors` | src/components/GestureHandler.tsx:63-78 | Negating dx swaps left and right and leaves everything else as it was; negating dy swaps up and down. |
| `Gestures.SwipeCallbacks` | src/components/GestureHandler.tsx:63-80 | At most one swipe callback fires per touch end, and it is the recognised direction. |
| `Gestures.DoubleTapsFired` | src/components/GestureHandler.tsx:43-52 | The number of double taps that touch starts at the given times fire after a last tap at the given time, each start recording its own time as the next start's reference; at most one per touch start. |
| `Gestures.QuickTapsFireEach` | src/components/GestureHandler.tsx:43-52 | Every touch start records its own time. So in a run of taps each less than 300 ms after the previous one, every tap but the first fires a double tap, however long the run lasts in all; the first fires one only if it comes less than 300 ms after the previous last tap. For example, three such taps after a pause fire two double taps. |
| `Gestures.TouchStarts` | src/components/GestureHandler.tsx:36-53 | Touch starts at the times of a run on one enabled handler fire exactly the double taps `DoubleTapsFired` counts, and nothing else, and leave the last start recorded. On a disabled handler, or for an empty run, nothing changes. |
| `Gestures.GestureHandler.constructor` | src/components/GestureHandler.tsx:26-28 | No start point is recorded, the last tap time is 0 and no callback has fired. |
| `Gestures.GestureHandler.HandleTouchStart` | src/components/GestureHandler.tsx:36-53 | When disabled, nothing changes. Otherwise the start point is recorded, a double tap fires exactly when now − lastTapTime < 300, and the last tap time becomes now in either case. |
| `Gestures.GestureHandler.HandleTouchEnd` | src/components/GestureHandler.tsx:36-84 | When disabled, or when no start point is recorded, nothing changes. Otherwise the recognised swipe for the displacement (if any) fires, both start coordinates become null, and the last tap time is untouched. |
| `IndexPage.CreateCurrencySpeechText` | src/pages/Index.tsx:33-42 | No value gives the detection-failed message. A value outside the catalogue gives "Unknown currency detected". The value of a catalogue note gives name + " note detected. This is a " + color + " colored note with " + description + ".". |
| `IndexPage.NoteSpeechText` | src/pages/Index.tsx:38-41 | The sentence for the i-th face value is the i-th note's announcement, longer than the failure message and opening with the note's name. |
| `IndexPage.SpeechTextIdentifiesValue` | src/pages/Index.tsx:33-42 | Two results get the same sentence exactly when they are equal or are both outside the catalogue. So a failure, an unknown value and each of the seven notes are announced distinctly. |
| `IndexPage.Handle` | src/pages/Index.tsx:44-94 | The four handlers as written. Each sets the speech text; none unloads the model; only a start or a completion changes `isDetecting` (a start sets it, a completion clears it); only a completion changes `detectedValue`, to the value it carries; an error keeps `isDetecting` and the model flag. |
| `IndexPage.ModelStaysLoaded` | src/pages/Index.tsx:44-94 | No handler unloads the model: once `isModelLoaded` is true it stays true. |
| `IndexPage.ErrorLeavesTriggerBlocked` | src/pages/Index.tsx:85-108 | Once a detection has started, no sequence of handlers without a completion ends the detection, so the trigger guard stays closed. |
| `IndexPage.FailedDetectionBlocksTrigger` | src/pages/Index.tsx:79-108 | Model loaded, detection started, error: the page is left detecting with the trigger blocked. |
| `IndexPage.HandleCorrected` | src/pages/Index.tsx:85-94 | The handlers with `handleError` also clearing `isDetecting`. After an error or a completion the page is not detecting, and the model stays loaded once it is. |
| `IndexPage.CorrectedRunReleasesTrigger` | src/pages/Index.tsx:85-108 | With the corrected error handler, every run that ends with a completion or an error, with the model loaded, leaves the trigger able to proceed. |
| `IndexPage.HandlersFor` | src/pages/Index.tsx:270-277 | The prop wiring: each detector callback is delivered to its page handler and flag writes reach none, so there are no more handlers than events and none of them is the model-loaded handler. |
| `IndexPage.HandlersForCounts` | src/pages/Index.tsx:270-277 | The handlers delivered are exactly as many as the detector's start, completion and error events. |
| `IndexPage.AdmittedCallOnPage` | src/pages/Index.tsx:44-94 | The detector's events reach the page's handlers. With the model loaded, a detected catalogue value is stored, its note is announced and the trigger can proceed again. A failure is spoken as "Error: " + message and leaves the trigger blocked as written; with the corrected handler the trigger can proceed. |
| `IndexPage.Page.constructor` | src/pages/Index.tsx:23-29 | Not detecting, no detected value, model not loaded, no speech text. |
| `IndexPage.Page.HandleDetectionStart` | src/pages/Index.tsx:45-48 | `isDetecting` becomes true and the speech text the in-progress message; the detected value and the model flag are kept. |
| `IndexPage.Page.HandleDetectionComplete` | src/pages/Index.tsx:51-56 | `isDetecting` becomes false, `detectedValue` the given value, and the speech text the sentence for that value; the model flag is kept. |
| `IndexPage.Page.HandleModelLoaded` | src/pages/Index.tsx:79-82 | `isModelLoaded` becomes true and the speech text the welcome message; the detection state is kept. |
| `IndexPage.Page.HandleError` | src/pages/Index.tsx:85-94 | The speech text becomes "Error: " + message; `isDetecting`, `detectedValue` and `isModelLoaded` are kept. |
| `IndexPage.Page.HandleDetectionTrigger` | src/pages/Index.tsx:107-108 | The trigger proceeds exactly when `TriggerProceeds` holds of the page state, the predicate the page lemmas reason about: the model is loaded and no detection is under way. It changes no page state. |

## Findings

| source | as written | input that shows it | evidently intended | confidence | as-written member | corrected member |
|---|---|---|---|---|---|---|
| src/pages/Index.tsx:85-94 | `handleError` sets only the speech text and leaves `isDetecting` true when a detection fails. The trigger guard at line 108 then returns early forever, and the button at line 252 stays disabled. | Model loaded, `onDetectionStart`, then `onError(e)` (detector events for a rejected detection step) | A failed detection ends the detection like a completed one does, so the user can try again | medium: latent, because the page never reaches `processFrame` (the document lookup at lines 116-119 finds no detector); not executed | `IndexPage.FailedDetectionBlocksTrigger` | `IndexPage.CorrectedRunReleasesTrigger` |

The as-written handlers are `IndexPage.Handle` and `IndexPage.Page.HandleError`.
`IndexPage.ErrorLeavesTriggerBlocked` proves that the blockage lasts. The
corrected handler is `IndexPage.HandleCorrected`. `IndexPage.AdmittedCallOnPage`
states both behaviours for one failed detector call.

## Left out

- src/utils/modelLoader.ts: model construction, the simulated loading progress
  and timers, and `Math.random` are not modelled. The detection step is a
  parameter (`DetectOutcome`). The random pick is `PlaceholderDetect` with the
  random index as a parameter.
- Currency recognition itself: the detection step is a random placeholder
  (src/utils/modelLoader.ts:55-57), and no real classifier exists to model.
- The model-loading effect of the detector (src/components/CurrencyDetector.tsx:33-74)
  is React lifecycle and async plumbing. Whether a model is present is an input
  of `BeginFrame`.
- The console output of `processFrame` is not modelled: the refusal log
  (src/components/CurrencyDetector.tsx:79-84), the start log (line 91), the
  lookup of the detected value only to log it (lines 97-98) and the error log
  (line 104). None of them changes the flag or the callbacks.
- `CurrencyDetector.Detector`: the callbacks are taken to be present (the page
  passes all of them) and not to throw. A throwing start or completion callback
  would send the source into its error path; that is not modelled.
- src/components/CameraView.tsx, src/components/VoiceFeedback.tsx and
  src/components/AccessibilityInstructions.tsx are platform wrappers and static
  UI, so they are not modelled.
- `IndexPage.Page.HandleDetectionTrigger`: past the guard the source vibrates and
  looks up the detector in the document (src/pages/Index.tsx:111-119). Both are
  DOM side effects that change no page state, so they are not modelled.
- Toasts, console output, the one-second welcome timer (src/pages/Index.tsx:123-139),
  the camera and video-element handlers, the instructions modal and `isSpeaking`
  are page side effects, so they are not modelled.
- The wiring of gestures to page actions (double tap to trigger, swipe right to
  instructions) is not modelled beyond the guard of the trigger.
- JavaScript numbers are doubles; face values, touch coordinates and
  `Date.now()` readings are integers here. A fractional value never matches the
  catalogue in the source either.
- `Gestures.GestureHandler`: React re-attaches the listeners after every state
  change, so each handler sees the start point set by the previous event. The
  model assumes this and does not model stale closures. `preventDefault` is not
  modelled. `disabled` is fixed for the life of a handler: when it changes, the
  source re-runs the effect.
- Catalogue entries keep `features`, `dimensions` and `tailwindColor` as data;
  no property is stated about them.
