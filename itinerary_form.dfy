/** The trip form of `src/components/Itinerary.tsx`: its field values, the change handler, the
    normalisation of the comma-separated interests into a list, and the submit lifecycle around
    the request to `/api/generate-itinerary`. */
module ItineraryForm {
  import opened Wrappers
  import opened Text
  import opened ItineraryType
  import ItineraryApi
  import ItineraryPrompt

  // ---------------------------------------------------------------------------
  // interests normalisation: split on ",", trim each piece, drop the empty ones

  /** Each piece trimmed, in order. */
  function TrimAll(pieces: seq<string>): (r: seq<string>)
    ensures |r| == |pieces|
    ensures forall i :: 0 <= i < |r| ==> r[i] == Trim(pieces[i])
  {
    if pieces == [] then [] else [Trim(pieces[0])] + TrimAll(pieces[1..])
  }

  /** The non-empty entries, in order (`filter(Boolean)` on strings). */
  function DropEmpty(xs: seq<string>): (r: seq<string>)
    ensures forall x :: x in r <==> x in xs && x != ""
    ensures |r| <= |xs|
  {
    if xs == [] then []
    else (if xs[0] == "" then [] else [xs[0]]) + DropEmpty(xs[1..])
  }

  lemma {:induction false} TrimAllAppend(a: seq<string>, b: seq<string>)
    ensures TrimAll(a + b) == TrimAll(a) + TrimAll(b)
  {
    if a != [] {
      assert (a + b)[1..] == a[1..] + b;
      TrimAllAppend(a[1..], b);
    } else {
      assert a + b == b;
    }
  }

  lemma {:induction false} DropEmptyAppend(a: seq<string>, b: seq<string>)
    ensures DropEmpty(a + b) == DropEmpty(a) + DropEmpty(b)
  {
    if a != [] {
      assert (a + b)[1..] == a[1..] + b;
      DropEmptyAppend(a[1..], b);
    } else {
      assert a + b == b;
    }
  }

  /** A trimmed piece holds no character its piece did not hold. */
  lemma TrimKeepsOut(p: string, c: char)
    requires c !in p
    ensures c !in Trim(p)
  {
  }

  /** An interest as the normalisation leaves it: not empty, no comma, no white space at either end. */
  predicate Clean(x: string) {
    x != "" && ',' !in x && !IsWs(x[0]) && !IsWs(x[|x| - 1])
  }

  predicate AllClean(xs: seq<string>) {
    forall i :: 0 <= i < |xs| ==> Clean(xs[i])
  }

  lemma AllCleanAppend(a: seq<string>, b: seq<string>)
    requires AllClean(a) && AllClean(b)
    ensures AllClean(a + b)
  {
    forall i | 0 <= i < |a + b| ensures Clean((a + b)[i]) {
      if i >= |a| {
        assert (a + b)[i] == b[i - |a|];
      }
    }
  }

  /** Trimming comma-free pieces and dropping the empty ones leaves clean interests only. */
  lemma {:induction false} TrimmedPiecesClean(pieces: seq<string>)
    requires forall i :: 0 <= i < |pieces| ==> ',' !in pieces[i]
    ensures AllClean(DropEmpty(TrimAll(pieces)))
  {
    if pieces != [] {
      var t := TrimAll(pieces);
      assert t[1..] == TrimAll(pieces[1..]);
      assert forall i :: 0 <= i < |pieces[1..]| ==> pieces[1..][i] == pieces[i + 1];
      TrimmedPiecesClean(pieces[1..]);
      TrimKeepsOut(pieces[0], ',');
      var head: seq<string> := if t[0] == "" then [] else [t[0]];
      assert AllClean(head);
      AllCleanAppend(head, DropEmpty(t[1..]));
    }
  }

  /** The interests list sent with the request: `interests.split(',').map(trim).filter(Boolean)`.
      Every entry is non-empty, holds no comma and neither begins nor ends with white space. */
  function NormalizeInterests(s: string): (r: seq<string>)
    ensures forall i :: 0 <= i < |r| ==> Clean(r[i])
  {
    TrimmedPiecesClean(Split(s, ','));
    DropEmpty(TrimAll(Split(s, ',')))
  }

  /** Normalisation works piece by piece, left to right: the interests before a comma come first,
      in their order, then those after it. */
  lemma NormalizeAppend(a: string, b: string)
    ensures NormalizeInterests(a + [','] + b) == NormalizeInterests(a) + NormalizeInterests(b)
  {
    SplitAppend(a, b, ',');
    TrimAllAppend(Split(a, ','), Split(b, ','));
    DropEmptyAppend(TrimAll(Split(a, ',')), TrimAll(Split(b, ',')));
  }

  /** A text without a comma is one interest, trimmed, or none when it is all white space. */
  lemma NormalizeOnePiece(s: string)
    requires ',' !in s
    ensures NormalizeInterests(s) == if AllWs(s) then [] else [Trim(s)]
  {
    SplitWithoutSep(s, ',');
    assert TrimAll([s]) == [Trim(s)];
    assert DropEmpty([Trim(s)]) == (if Trim(s) == "" then [] else [Trim(s)]) + DropEmpty([]);
  }

  /** Every piece is white space only. */
  predicate AllBlank(pieces: seq<string>) {
    forall i :: 0 <= i < |pieces| ==> AllWs(pieces[i])
  }

  /** Nothing but commas and white space. */
  predicate CommasAndWs(s: string) {
    forall k :: 0 <= k < |s| ==> s[k] == ',' || IsWs(s[k])
  }

  lemma AllBlankCons(x: string, ys: seq<string>)
    ensures AllBlank([x] + ys) <==> AllWs(x) && AllBlank(ys)
  {
    var zs := [x] + ys;
    if AllBlank(zs) {
      assert AllWs(zs[0]);
      forall i | 0 <= i < |ys| ensures AllWs(ys[i]) {
        assert zs[i + 1] == ys[i];
      }
    }
  }

  lemma AllWsCons(c: char, y: string)
    ensures AllWs([c] + y) <==> IsWs(c) && AllWs(y)
  {
    var z := [c] + y;
    if AllWs(z) {
      assert IsWs(z[0]);
      forall k | 0 <= k < |y| ensures IsWs(y[k]) {
        assert z[k + 1] == y[k];
      }
    }
  }

  /** Every piece of `s` is white space only exactly when `s` holds nothing but commas and white
      space. */
  lemma {:induction false} PiecesBlankIff(s: string)
    ensures AllBlank(Split(s, ',')) <==> CommasAndWs(s)
  {
    if s == [] {
      assert Split(s, ',') == [[]];
    } else {
      PiecesBlankIff(s[1..]);
      var rest := Split(s[1..], ',');
      assert CommasAndWs(s) <==> (s[0] == ',' || IsWs(s[0])) && CommasAndWs(s[1..]) by {
        assert forall k :: 1 <= k < |s| ==> s[k] == s[1..][k - 1];
      }
      if s[0] == ',' {
        AllBlankCons([], rest);
      } else {
        assert rest == [rest[0]] + rest[1..];
        AllBlankCons([s[0]] + rest[0], rest[1..]);
        AllBlankCons(rest[0], rest[1..]);
        AllWsCons(s[0], rest[0]);
      }
    }
  }

  lemma {:induction false} DropEmptyNil(xs: seq<string>)
    ensures DropEmpty(xs) == [] <==> forall i :: 0 <= i < |xs| ==> xs[i] == ""
  {
    if xs != [] {
      DropEmptyNil(xs[1..]);
      assert forall i :: 1 <= i < |xs| ==> xs[i] == xs[1..][i - 1];
    }
  }

  /** The list is empty exactly when the text is empty or holds nothing but commas and white space. */
  lemma NormalizeEmptyIff(s: string)
    ensures NormalizeInterests(s) == [] <==> CommasAndWs(s)
  {
    PiecesBlankIff(s);
    DropEmptyNil(TrimAll(Split(s, ',')));
  }

  /** White space before the first piece does not change the list. */
  lemma NormalizeAfterSpace(s: string)
    ensures NormalizeInterests([' '] + s) == NormalizeInterests(s)
  {
    var rest := Split(s, ',');
    assert ([' '] + s)[1..] == s;
    assert Split([' '] + s, ',') == [[' '] + rest[0]] + rest[1..];
    assert AllWs([' ']);
    TrimAfterWs([' '], rest[0]);
    assert rest == [rest[0]] + rest[1..];
    TrimAllAppend([[' '] + rest[0]], rest[1..]);
    TrimAllAppend([rest[0]], rest[1..]);
  }

  /** The interests after a ", " follow those before it. */
  lemma NormalizeAfterComma(x: string, j: string)
    ensures NormalizeInterests(x + ", " + j) == NormalizeInterests(x) + NormalizeInterests(j)
  {
    var t := [' '] + j;
    assert ", " == [','] + [' '];
    assert x + ", " + j == x + [','] + t;
    NormalizeAppend(x, t);
    NormalizeAfterSpace(j);
  }

  /** One clean interest normalises to itself. */
  lemma NormalizeClean(x: string)
    requires Clean(x)
    ensures NormalizeInterests(x) == [x]
  {
    NormalizeOnePiece(x);
    TrimOfTrimmed(x);
  }

  /** Normalisation gives back any list of non-empty, comma-free, trimmed entries joined by ", ". */
  lemma {:induction false} NormalizeJoined(xs: seq<string>)
    requires AllClean(xs)
    ensures NormalizeInterests(Join(xs, ", ")) == xs
  {
    if |xs| == 0 {
      assert Split("", ',') == [""];
      assert TrimAll([""]) == [""];
    } else if |xs| == 1 {
      NormalizeClean(xs[0]);
    } else {
      var rest := xs[1..];
      var j := Join(rest, ", ");
      assert AllClean(rest) by {
        assert forall i :: 0 <= i < |rest| ==> rest[i] == xs[i + 1];
      }
      calc {
        NormalizeInterests(Join(xs, ", "));
        NormalizeInterests(xs[0] + ", " + j);
        { NormalizeAfterComma(xs[0], j); }
        NormalizeInterests(xs[0]) + NormalizeInterests(j);
        { NormalizeClean(xs[0]); NormalizeJoined(rest); }
        [xs[0]] + rest;
        xs;
      }
    }
  }

  /** Normalising the normalised list written back as "a, b, c" changes nothing. */
  lemma NormalizeIdempotent(s: string)
    ensures NormalizeInterests(Join(NormalizeInterests(s), ", ")) == NormalizeInterests(s)
  {
    NormalizeJoined(NormalizeInterests(s));
  }

  // ---------------------------------------------------------------------------
  // form fields

  /** The named inputs of the form. */
  datatype Field = Destination | Duration | Budget | TravelerType | Interests

  /** `formData`: the numbers are stored as numbers, the rest as the text typed. */
  datatype FormData = FormData(destination: string, duration: int, budget: int, travelerType: string, interests: string)

  const InitialFormData: FormData := FormData("", 3, 1000, "solo", "")

  datatype FieldValue = Text(text: string) | Number(number: int)

  /** The value the form holds for one field. */
  function Get(f: FormData, name: Field): FieldValue {
    match name
    case Destination => Text(f.destination)
    case Duration => Number(f.duration)
    case Budget => Number(f.budget)
    case TravelerType => Text(f.travelerType)
    case Interests => Text(f.interests)
  }

  predicate IsNumeric(name: Field) {
    name == Duration || name == Budget
  }

  /** The update `handleChange` makes: the named field takes the new value, converted with
      `toNumber` (JavaScript `Number`) for duration and budget; every other field keeps its value. */
  function WithChange(f: FormData, name: Field, value: string, toNumber: string -> int): (r: FormData)
    ensures Get(r, name) == if IsNumeric(name) then Number(toNumber(value)) else Text(value)
    ensures forall other :: other != name ==> Get(r, other) == Get(f, other)
  {
    match name
    case Destination => f.(destination := value)
    case Duration => f.(duration := toNumber(value))
    case Budget => f.(budget := toNumber(value))
    case TravelerType => f.(travelerType := value)
    case Interests => f.(interests := value)
  }

  /** A form is determined by its field values. */
  lemma FieldsDetermineForm(f: FormData, g: FormData)
    requires forall name :: Get(f, name) == Get(g, name)
    ensures f == g
  {
    assert Get(f, Destination) == Get(g, Destination);
    assert Get(f, Duration) == Get(g, Duration);
    assert Get(f, Budget) == Get(g, Budget);
    assert Get(f, TravelerType) == Get(g, TravelerType);
    assert Get(f, Interests) == Get(g, Interests);
  }

  /** The last change to a field wins, and changes to different fields do not interfere. */
  lemma ChangesCompose(f: FormData, a: Field, u: string, b: Field, v: string, toNumber: string -> int)
    ensures a == b ==> WithChange(WithChange(f, a, u, toNumber), b, v, toNumber) == WithChange(f, b, v, toNumber)
    ensures a != b ==> WithChange(WithChange(f, a, u, toNumber), b, v, toNumber)
                       == WithChange(WithChange(f, b, v, toNumber), a, u, toNumber)
  {
    var x := WithChange(WithChange(f, a, u, toNumber), b, v, toNumber);
    if a == b {
      FieldsDetermineForm(x, WithChange(f, b, v, toNumber));
    } else {
      FieldsDetermineForm(x, WithChange(WithChange(f, b, v, toNumber), a, u, toNumber));
    }
  }

  /** The JSON body posted on submit: every field of the form as it is, with the interests
      normalised into a list. */
  function RequestBodyOf(f: FormData): (b: ItineraryApi.RequestBody)
    ensures b.Body?
    ensures b.destination == Some(f.destination) && b.travelerType == Some(f.travelerType)
    ensures b.duration == Some(f.duration) && b.budget == Some(f.budget)
    ensures b.interests == Some(NormalizeInterests(f.interests))
    ensures ItineraryApi.HasRequired(b) <==>
      f.destination != "" && f.duration != 0 && f.budget != 0 && f.travelerType != ""
  {
    ItineraryApi.Body(Some(f.destination), Some(f.duration), Some(f.budget), Some(f.travelerType),
                      Some(NormalizeInterests(f.interests)))
  }

  /** The browser's constraint validation of the form's inputs: destination and traveler type
      are `required` (not empty), the duration lies between `min` 1 and `max` 30, and the budget
      is at least its `min` of 100 and on its `step` of 100 counted from that minimum. The submit
      event, and so `handleSubmit`, only happens for a form that passes. */
  predicate Submittable(f: FormData): (r: bool)
    ensures r ==> ItineraryApi.HasRequired(RequestBodyOf(f))
  {
    && f.destination != ""
    && 1 <= f.duration <= 30
    && f.budget >= 100 && (f.budget - 100) % 100 == 0
    && f.travelerType != ""
  }

  /** The untouched form cannot be submitted, and its empty destination is all that stops it:
      with any destination filled in it passes. */
  lemma InitialFormNeedsDestination(d: string)
    requires d != ""
    ensures !Submittable(InitialFormData)
    ensures Submittable(InitialFormData.(destination := d))
  {
  }

  /** A form that passes the browser's validation posts a body that passes the handler's: the
      handler builds its prompt from exactly the form's values and the normalised interests, so
      the form never sees the 400 answer. */
  lemma SubmittedFormReachesPrompt(f: FormData, generate: string -> Result<Itinerary, string>)
    requires Submittable(f)
    ensures ItineraryApi.HasRequired(RequestBodyOf(f))
    ensures ItineraryApi.ToTripRequest(RequestBodyOf(f))
      == ItineraryPrompt.TripRequest(f.destination, f.duration, f.budget, f.travelerType,
                                     NormalizeInterests(f.interests))
    ensures ItineraryApi.Respond("POST", RequestBodyOf(f), generate).status in {200, 500}
  {
  }

  // ---------------------------------------------------------------------------
  // submit lifecycle

  const GenerationAlert: string := "Failed to generate itinerary. Please try again."
  const ErrorAlert: string := "An error occurred. Please try again later."

  /** How the request ended: it threw (network failure, a body that is not JSON), or an envelope
      came back. */
  datatype Outcome = Threw | Answered(result: ItineraryApi.Response<Itinerary>)

  /** What the form does with the outcome: hand the itinerary to `onItineraryGenerated`, or alert. */
  datatype Reaction = Deliver(itinerary: Itinerary) | Alert(message: string)

  /** The itinerary is delivered exactly when the envelope says success and carries data; an
      envelope without them raises one alert, a thrown request another. */
  function React(outcome: Outcome): (r: Reaction)
    ensures r.Deliver? <==> outcome.Answered? && outcome.result.success && outcome.result.data.Some?
    ensures r.Deliver? ==> Some(r.itinerary) == outcome.result.data
    ensures r.Alert? ==> r.message == if outcome.Threw? then ErrorAlert else GenerationAlert
  {
    match outcome
    case Threw => Alert(ErrorAlert)
    case Answered(result) =>
      if result.success && result.data.Some? then Deliver(result.data.value) else Alert(GenerationAlert)
  }

  /** Against the request handler, the form delivers an itinerary exactly when the status is 200. */
  lemma DeliversIffStatus200(verb: string, body: ItineraryApi.RequestBody, generate: string -> Result<Itinerary, string>)
    ensures React(Answered(ItineraryApi.Respond(verb, body, generate))).Deliver?
        <==> ItineraryApi.Respond(verb, body, generate).status == 200
  {
  }

  /** The form component: its field values, the loading flag its parent owns, and what it has
      done so far (itineraries delivered, alerts raised). */
  class ItineraryForm {
    var formData: FormData
    var isLoading: bool
    var delivered: seq<Itinerary>
    var alerts: seq<string>

    constructor()
      ensures formData == InitialFormData && !isLoading && delivered == [] && alerts == []
    {
      formData := InitialFormData;
      isLoading := false;
      delivered := [];
      alerts := [];
    }

    /** The submit button is disabled exactly while a request is in flight. */
    function SubmitDisabled(): (r: bool)
      reads this
      ensures r <==> isLoading
    {
      isLoading
    }

    /** `handleChange`: one field takes the new value, nothing else changes. */
    method HandleChange(name: Field, value: string, toNumber: string -> int)
      modifies this
      ensures formData == WithChange(old(formData), name, value, toNumber)
      ensures isLoading == old(isLoading) && delivered == old(delivered) && alerts == old(alerts)
    {
      formData := WithChange(formData, name, value, toNumber);
    }

    /** The start of `handleSubmit`: loading is set and the body to post is built. */
    method BeginSubmit() returns (body: ItineraryApi.RequestBody)
      modifies this
      ensures isLoading && SubmitDisabled()
      ensures body == RequestBodyOf(formData)
      ensures formData == old(formData) && delivered == old(delivered) && alerts == old(alerts)
    {
      isLoading := true;
      body := RequestBodyOf(formData);
    }

    /** The end of `handleSubmit`: the outcome is acted on and, whatever it was, loading is reset. */
    method FinishSubmit(outcome: Outcome)
      modifies this
      ensures !isLoading && !SubmitDisabled()
      ensures formData == old(formData)
      ensures React(outcome).Deliver? ==>
        delivered == old(delivered) + [React(outcome).itinerary] && alerts == old(alerts)
      ensures React(outcome).Alert? ==>
        alerts == old(alerts) + [React(outcome).message] && delivered == old(delivered)
    {
      match React(outcome) {
        case Deliver(itinerary) =>
          delivered := delivered + [itinerary];
        case Alert(message) =>
          alerts := alerts + [message];
      }
      isLoading := false;
    }

    /** `handleSubmit`, with `send` standing for the request and the reading of its reply. */
    method HandleSubmit(send: ItineraryApi.RequestBody -> Outcome)
      modifies this
      ensures !isLoading && formData == old(formData)
      ensures var reaction := React(send(RequestBodyOf(old(formData))));
        && (reaction.Deliver? ==> delivered == old(delivered) + [reaction.itinerary] && alerts == old(alerts))
        && (reaction.Alert? ==> alerts == old(alerts) + [reaction.message] && delivered == old(delivered))
    {
      var body := BeginSubmit();
      var outcome := send(body);
      FinishSubmit(outcome);
    }

    /** A press of the submit button: a disabled button (a request is in flight) does nothing, and
        otherwise the browser validates the form first, and only a form that passes reaches
        `handleSubmit`; in the other cases nothing is sent and nothing changes. */
    method Submit(send: ItineraryApi.RequestBody -> Outcome)
      modifies this
      ensures !Submittable(old(formData)) || old(isLoading) ==>
        && formData == old(formData) && isLoading == old(isLoading)
        && delivered == old(delivered) && alerts == old(alerts)
      ensures Submittable(old(formData)) && !old(isLoading) ==> !isLoading && formData == old(formData)
      ensures Submittable(old(formData)) && !old(isLoading) ==>
        var reaction := React(send(RequestBodyOf(old(formData))));
        && (reaction.Deliver? ==> delivered == old(delivered) + [reaction.itinerary] && alerts == old(alerts))
        && (reaction.Alert? ==> alerts == old(alerts) + [reaction.message] && delivered == old(delivered))
    {
      if Submittable(formData) && !SubmitDisabled() {
        HandleSubmit(send);
      }
    }
  }
}
