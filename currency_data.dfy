/**
 * The catalogue of Indian currency notes and the lookup by face value
 * (src/utils/currencyData.ts).
 */
module CurrencyData {
  import opened Wrappers

  datatype Dimensions = Dimensions(width: int, height: int)

  /** One entry of the catalogue: a note and the text used to describe it. */
  datatype CurrencyNote = CurrencyNote(
    value: int,
    name: string,
    description: string,
    color: string,
    features: seq<string>,
    dimensions: Dimensions,
    tailwindColor: string)

  /** The face values the application recognises, smallest first. */
  const Denominations: seq<int> := [10, 20, 50, 100, 200, 500, 2000]

  const IndianCurrencyNotes: seq<CurrencyNote> := [
    CurrencyNote(10, "Ten Rupees",
      "Ten Rupee note, chocolate brown color, featuring the Konark Sun Temple on the reverse",
      "chocolate brown", ["Konark Sun Temple", "Mahatma Gandhi portrait"],
      Dimensions(123, 63), "bg-currency-orange"),
    CurrencyNote(20, "Twenty Rupees",
      "Twenty Rupee note, greenish-yellow color, featuring the Ellora Caves on the reverse",
      "greenish-yellow", ["Ellora Caves", "Mahatma Gandhi portrait"],
      Dimensions(129, 63), "bg-yellow-600"),
    CurrencyNote(50, "Fifty Rupees",
      "Fifty Rupee note, fluorescent blue color, featuring Hampi with Chariot on the reverse",
      "fluorescent blue", ["Hampi with Chariot", "Mahatma Gandhi portrait"],
      Dimensions(135, 66), "bg-currency-blue"),
    CurrencyNote(100, "One Hundred Rupees",
      "One Hundred Rupee note, lavender color, featuring Rani Ki Vav on the reverse",
      "lavender", ["Rani Ki Vav (Queen's Stepwell)", "Mahatma Gandhi portrait"],
      Dimensions(142, 66), "bg-currency-purple"),
    CurrencyNote(200, "Two Hundred Rupees",
      "Two Hundred Rupee note, bright yellow color, featuring Sanchi Stupa on the reverse",
      "bright yellow", ["Sanchi Stupa", "Mahatma Gandhi portrait"],
      Dimensions(146, 66), "bg-yellow-500"),
    CurrencyNote(500, "Five Hundred Rupees",
      "Five Hundred Rupee note, stone grey color, featuring Red Fort on the reverse",
      "stone grey", ["Red Fort", "Mahatma Gandhi portrait"],
      Dimensions(150, 66), "bg-gray-500"),
    CurrencyNote(2000, "Two Thousand Rupees",
      "Two Thousand Rupee note, magenta color, featuring Mangalyaan (Mars Orbiter Mission) on the reverse",
      "magenta", ["Mangalyaan (Mars Orbiter Mission)", "Mahatma Gandhi portrait"],
      Dimensions(166, 66), "bg-pink-600")
  ]

  /** The face values of `notes`, in order. */
  function Values(notes: seq<CurrencyNote>): (vs: seq<int>)
    ensures |vs| == |notes|
    ensures forall i :: 0 <= i < |notes| ==> vs[i] == notes[i].value
  {
    seq(|notes|, i requires 0 <= i < |notes| => notes[i].value)
  }

  /** No two entries of `notes` share a face value. */
  predicate DistinctValues(notes: seq<CurrencyNote>)
  {
    forall i, j :: 0 <= i < |notes| && 0 <= j < |notes| && notes[i].value == notes[j].value ==> i == j
  }

  /** Face values strictly increase along `notes`. */
  predicate StrictlyAscending(notes: seq<CurrencyNote>)
  {
    forall i, j :: 0 <= i < j < |notes| ==> notes[i].value < notes[j].value
  }

  /**
   * `Array.prototype.find` with the predicate `note.value === value`: the first
   * entry whose face value is `value`, or nothing.
   */
  function Find(notes: seq<CurrencyNote>, value: int): (r: Option<CurrencyNote>)
    ensures r.Some? ==> r.value in notes && r.value.value == value
    ensures r.None? <==> forall i :: 0 <= i < |notes| ==> notes[i].value != value
    ensures r.Some? ==> exists k :: 0 <= k < |notes| && notes[k] == r.value &&
                                    forall j :: 0 <= j < k ==> notes[j].value != value
  {
    if |notes| == 0 then None
    else if notes[0].value == value then Some(notes[0])
    else
      var r := Find(notes[1..], value);
      assert r.Some? ==> exists k :: 1 <= k < |notes| && notes[k] == r.value &&
                                     forall j :: 0 <= j < k ==> notes[j].value != value by {
        if r.Some? {
          var k :| 0 <= k < |notes[1..]| && notes[1..][k] == r.value &&
                   forall j :: 0 <= j < k ==> notes[1..][j].value != value;
          assert notes[k + 1] == r.value;
          assert forall j :: 0 <= j < k + 1 ==> notes[j].value != value by {
            forall j | 0 <= j < k + 1 ensures notes[j].value != value {
              if j > 0 { assert notes[j] == notes[1..][j - 1]; }
            }
          }
        }
      }
      assert r.None? ==> forall i :: 0 <= i < |notes| ==> notes[i].value != value by {
        if r.None? {
          forall i | 0 <= i < |notes| ensures notes[i].value != value {
            if i > 0 { assert notes[i] == notes[1..][i - 1]; }
          }
        }
      }
      r
  }

  /** In a catalogue without repeated values, the entry `Find` returns is the only match. */
  lemma FindIsOnlyMatch(notes: seq<CurrencyNote>, value: int)
    requires DistinctValues(notes)
    ensures Find(notes, value).Some? ==>
              forall n :: n in notes && n.value == value ==> n == Find(notes, value).value
  {
  }

  /** The catalogue holds exactly the seven recognised face values, in strictly ascending order. */
  lemma CatalogueShape()
    ensures |IndianCurrencyNotes| == 7
    ensures Values(IndianCurrencyNotes) == Denominations
    ensures StrictlyAscending(IndianCurrencyNotes)
    ensures DistinctValues(IndianCurrencyNotes)
  {
  }

  /** The note for face value `value`, or nothing when no entry has that value. */
  function GetCurrencyById(value: int): (r: Option<CurrencyNote>)
    ensures r.Some? ==> r.value in IndianCurrencyNotes && r.value.value == value
    ensures r.None? <==> value !in Denominations
    ensures r.Some? ==> forall n :: n in IndianCurrencyNotes && n.value == value ==> n == r.value
  {
    CatalogueShape();
    FindIsOnlyMatch(IndianCurrencyNotes, value);
    Find(IndianCurrencyNotes, value)
  }

  /** The position of a recognised value in the catalogue. */
  function DenominationIndex(value: int): (i: nat)
    requires value in Denominations
    ensures i < |Denominations| && Denominations[i] == value
  {
    if value == 10 then 0 else if value == 20 then 1 else if value == 50 then 2
    else if value == 100 then 3 else if value == 200 then 4 else if value == 500 then 5 else 6
  }

  /** Every recognised value has an entry, and that entry carries the value. */
  lemma GetCurrencyByIdOnDenominations(i: nat)
    requires i < |Denominations|
    ensures GetCurrencyById(Denominations[i]) == Some(IndianCurrencyNotes[i])
  {
    CatalogueShape();
  }

  lemma NamesAtLeastFiveLong(i: nat)
    requires i < |IndianCurrencyNotes|
    ensures |IndianCurrencyNotes[i].name| >= 5
  {
  }

  /** Any two notes' names differ within their first five characters. */
  lemma NameOpeningsDistinct(i: nat, j: nat)
    requires i < |IndianCurrencyNotes| && j < |IndianCurrencyNotes| && i != j
    ensures |IndianCurrencyNotes[i].name| >= 5 && |IndianCurrencyNotes[j].name| >= 5
    ensures IndianCurrencyNotes[i].name[..5] != IndianCurrencyNotes[j].name[..5]
  {
    var a := IndianCurrencyNotes[i].name;
    var b := IndianCurrencyNotes[j].name;
    assert a[2] != b[2] || a[4] != b[4];
    assert a[..5][2] == a[2] && a[..5][4] == a[4];
    assert b[..5][2] == b[2] && b[..5][4] == b[4];
  }

  // Messages spoken to the user (src/utils/currencyData.ts:88-97).
  const Welcome: string :=
    "Welcome to Currency Detector. Position an Indian currency note within the frame and hold steady for detection."
  const Instructions: string :=
    "Double tap anywhere to detect the currency note. Swipe right for instructions. Swipe left to adjust settings."
  const DetectionInProgress: string := "Analyzing currency note..."
  const DetectionSuccess: string := "Currency detected:"
  const DetectionFailed: string := "Could not detect any currency. Please try again."
  const CameraPermissionNeeded: string := "Camera access is required to detect currency notes."
  const CameraNotAvailable: string := "Camera is not available on this device."
  const Loading: string := "Loading currency detection model..."
}
