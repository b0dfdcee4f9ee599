/** The request handler shared by `pages/api/generate-itinerary.ts` and `pages/api/GenAI.ts`: a
    chain of early returns (405 for a method other than POST, 400 for a missing required field),
    then the prompt, then the generation, whose success is answered with 200 and whose failure,
    like any other exception in the handler, with 500. The two files differ only in the
    generation step, which is a parameter here. */
module ItineraryApi {
  import opened Wrappers
  import opened ItineraryPrompt

  const MethodNotAllowed: string := "Method not allowed"
  const MissingParameters: string :=
    "Missing required parameters: destination, duration, budget, and travelerType are required"
  const GenerationFailed: string := "Failed to generate itinerary. Please try again later."
  /** The message both generation steps throw, whatever went wrong inside them. */
  const ModelFailure: string := "Failed to generate itinerary with language model"

  /** The parsed request body. `Undefined` is a body that is absent or `null`: destructuring it
      throws. A field is `None` when the body does not have it. */
  datatype RequestBody =
    | Undefined
    | Body(destination: Option<string>, duration: Option<int>, budget: Option<int>,
           travelerType: Option<string>, interests: Option<seq<string>>)

  /** The JSON envelope and status the handler answers with; `data` is the parsed itinerary. */
  datatype Response<J> = Response(status: int, success: bool, data: Option<J>, error: Option<string>)

  /** JavaScript truthiness of an optional string: present and not empty. */
  predicate TruthyText(x: Option<string>) {
    x.Some? && x.value != ""
  }

  /** JavaScript truthiness of an optional number: present and not zero. */
  predicate TruthyNumber(x: Option<int>) {
    x.Some? && x.value != 0
  }

  /** The validation of the handler: destination, duration, budget and travelerType are all truthy. */
  predicate HasRequired(b: RequestBody): (r: bool)
    ensures r <==> && b.Body?
                   && b.destination.Some? && b.destination.value != ""
                   && b.duration.Some? && b.duration.value != 0
                   && b.budget.Some? && b.budget.value != 0
                   && b.travelerType.Some? && b.travelerType.value != ""
  {
    && b.Body?
    && TruthyText(b.destination)
    && TruthyNumber(b.duration)
    && TruthyNumber(b.budget)
    && TruthyText(b.travelerType)
  }

  /** The parameters the prompt is built from; missing interests become the empty list. */
  function ToTripRequest(b: RequestBody): (t: TripRequest)
    requires HasRequired(b)
    ensures t.destination == b.destination.value && t.travelerType == b.travelerType.value
    ensures t.duration == b.duration.value && t.budget == b.budget.value
    ensures b.interests.None? ==> t.interests == []
    ensures b.interests.Some? ==> t.interests == b.interests.value
  {
    TripRequest(b.destination.value, b.duration.value, b.budget.value, b.travelerType.value,
                b.interests.GetOr([]))
  }

  function ErrorResponse<J>(status: int, message: string): Response<J> {
    Response(status, false, None, Some(message))
  }

  /** `handler`, given the generation step, which maps the prompt to the parsed itinerary or to
      the message it threw. */
  function Respond<J>(verb: string, body: RequestBody, generate: string -> Result<J, string>): (r: Response<J>)
    ensures r.status == 405 <==> verb != "POST"
    ensures r.status == 400 <==> verb == "POST" && body.Body? && !HasRequired(body)
    ensures r.status == 200 <==>
      verb == "POST" && HasRequired(body) && generate(CreateItineraryPrompt(ToTripRequest(body))).Success?
    ensures r.status in {200, 400, 405, 500}
    ensures r.success <==> r.status == 200
    ensures r.success ==> r.data == Some(generate(CreateItineraryPrompt(ToTripRequest(body))).value)
    ensures !r.success ==> r.data.None? && r.error.Some?
    ensures r.status == 405 ==> r.error == Some(MethodNotAllowed)
    ensures r.status == 400 ==> r.error == Some(MissingParameters)
    ensures r.status == 500 ==> r.error == Some(GenerationFailed)
  {
    if verb != "POST" then ErrorResponse(405, MethodNotAllowed)
    else if body.Undefined? then ErrorResponse(500, GenerationFailed)
    else if !HasRequired(body) then ErrorResponse(400, MissingParameters)
    else match generate(CreateItineraryPrompt(ToTripRequest(body)))
      case Success(d) => Response(200, true, Some(d), None)
      case Failure(_) => ErrorResponse(500, GenerationFailed)
  }

  /** No prompt is built and no model is called on the early returns: the 405 and 400 answers are
      the same whatever the generation step would do. */
  lemma EarlyAnswersIgnoreGenerator<J>(verb: string, body: RequestBody,
                                      g1: string -> Result<J, string>, g2: string -> Result<J, string>)
    requires verb != "POST" || !HasRequired(body)
    ensures Respond(verb, body, g1) == Respond(verb, body, g2)
    ensures Respond(verb, body, g1).status in {400, 405, 500}
    ensures Respond(verb, body, g1).status == 500 <==> verb == "POST" && body.Undefined?
  {
  }

  /** The generation step is called with the prompt of the request and nothing else: two steps
      that agree on that prompt give the same answer. */
  lemma GeneratorSeesOnlyThePrompt<J>(verb: string, body: RequestBody,
                                     g1: string -> Result<J, string>, g2: string -> Result<J, string>)
    requires HasRequired(body) ==>
      g1(CreateItineraryPrompt(ToTripRequest(body))) == g2(CreateItineraryPrompt(ToTripRequest(body)))
    ensures Respond(verb, body, g1) == Respond(verb, body, g2)
  {
  }

  /** A missing interests field is the empty list: the request is answered as if `interests: []`
      had been sent. */
  lemma MissingInterestsAreEmpty<J>(verb: string, body: RequestBody, generate: string -> Result<J, string>)
    requires body.Body? && body.interests.None?
    ensures Respond(verb, body, generate) == Respond(verb, body.(interests := Some([])), generate)
  {
    var body' := body.(interests := Some([]));
    if HasRequired(body) {
      assert ToTripRequest(body) == ToTripRequest(body');
    }
  }
}
