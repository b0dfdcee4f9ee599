/** The generation step of `pages/api/GenAI.ts`, `generateItineraryWithOllama`: one request to a
    local Ollama server whose reply carries the itinerary as a JSON string in its `response` field.
    The request and `JSON.parse` are parameters. */
module OllamaGeneration {
  import opened Wrappers
  import opened Text
  import opened ItineraryApi
  import NvidiaGeneration

  const ApiErrorPrefix: string := "Ollama API error: "

  /** What the request gives: a rejected request, or a reply with its `ok` flag, its HTTP status and
      the text `JSON.parse` receives from the `response` field of its JSON body. `JSON.parse`
      converts its argument to text first, so a `null` field is the text "null" and a missing one
      the text "undefined"; `None` is a body that is not JSON at all. */
  datatype OllamaReply =
    | FetchFailed
    | Reply(ok: bool, status: int, response: Option<string>)

  /** What can go wrong inside the step, before it is rethrown with the generic message. */
  datatype OllamaError =
    | FetchRejected
    | ApiStatus(status: int)
    | InvalidBody

  /** The message thrown for an error; only the non-ok status has one of its own in the source. */
  function ErrorMessage(e: OllamaError): (m: string)
    requires e.ApiStatus?
    ensures |ApiErrorPrefix| < |m| && m[..|ApiErrorPrefix|] == ApiErrorPrefix
  {
    ApiErrorPrefix + IntToDecimal(e.status)
  }

  /** The status can be read back from the message: the text after the prefix is its decimal form. */
  lemma ErrorMessageNamesStatus(status: int)
    ensures DecimalToInt(ErrorMessage(ApiStatus(status))[|ApiErrorPrefix|..]) == status
  {
    var m := ErrorMessage(ApiStatus(status));
    assert m[|ApiErrorPrefix|..] == IntToDecimal(status);
    IntDecimalRoundTrip(status);
  }

  /** The `try` block of `generateItineraryWithOllama`: a non-ok reply is an error naming its
      status, whatever its body; otherwise the `response` string is parsed. */
  function OllamaAttempt<J>(reply: OllamaReply, parse: string -> Option<J>): (r: Result<J, OllamaError>)
    ensures reply.Reply? && !reply.ok ==> r == Failure(ApiStatus(reply.status))
    ensures r.Success? <==> reply.Reply? && reply.ok && reply.response.Some? && parse(reply.response.value).Some?
    ensures r.Success? ==> r.value == parse(reply.response.value).value
  {
    match reply
    case FetchFailed => Failure(FetchRejected)
    case Reply(ok, status, response) =>
      if !ok then Failure(ApiStatus(status))
      else match response
        case None => Failure(InvalidBody)
        case Some(text) =>
          match parse(text)
          case Some(d) => Success(d)
          case None => Failure(InvalidBody)
  }

  /** `generateItineraryWithOllama`: every error of the attempt is rethrown with the generic
      message, the data of a successful one is returned as it is. */
  function OllamaGenerate<J>(reply: OllamaReply, parse: string -> Option<J>): (r: Result<J, string>)
    ensures r.Failure? <==> OllamaAttempt(reply, parse).Failure?
    ensures r.Failure? ==> r.error == ModelFailure
    ensures r.Success? ==> r.value == OllamaAttempt(reply, parse).value
  {
    match OllamaAttempt(reply, parse)
    case Success(d) => Success(d)
    case Failure(_) => Failure(ModelFailure)
  }

  /** `handler` of `pages/api/GenAI.ts`; `fetch` is the Ollama server, from prompt to reply. */
  function HandleOllama<J>(verb: string, body: RequestBody, fetch: string -> OllamaReply,
                           parse: string -> Option<J>): (r: Response<J>)
    ensures r.status == 200 ==> verb == "POST" && HasRequired(body)
    ensures verb == "POST" && HasRequired(body) ==>
      var attempt := OllamaAttempt(fetch(ItineraryPrompt.CreateItineraryPrompt(ToTripRequest(body))), parse);
      && (r.status == 200 <==> attempt.Success?)
      && (attempt.Success? ==> r.data == Some(attempt.value))
    ensures r.status == 500 ==> r.error == Some(GenerationFailed)
  {
    Respond(verb, body, p => OllamaGenerate(fetch(p), parse))
  }

  /** A non-ok reply to a valid request is an error naming the status inside the step, and reaches
      the client as 500 with the client-safe message. */
  lemma NonOkStatusIs500<J>(body: RequestBody, fetch: string -> OllamaReply, parse: string -> Option<J>)
    requires HasRequired(body)
    requires var reply := fetch(ItineraryPrompt.CreateItineraryPrompt(ToTripRequest(body)));
      reply.Reply? && !reply.ok
    ensures var reply := fetch(ItineraryPrompt.CreateItineraryPrompt(ToTripRequest(body)));
      OllamaAttempt(reply, parse) == Failure(ApiStatus(reply.status))
    ensures HandleOllama("POST", body, fetch, parse) == ErrorResponse(500, GenerationFailed)
  {
  }

  /** A valid request whose reply is ok and parses is answered with 200, success and the parsed
      data unchanged. */
  lemma ParsedReplyIs200<J>(body: RequestBody, fetch: string -> OllamaReply, parse: string -> Option<J>)
    requires HasRequired(body)
    requires var reply := fetch(ItineraryPrompt.CreateItineraryPrompt(ToTripRequest(body)));
      reply.Reply? && reply.ok && reply.response.Some? && parse(reply.response.value).Some?
    ensures var reply := fetch(ItineraryPrompt.CreateItineraryPrompt(ToTripRequest(body)));
      HandleOllama("POST", body, fetch, parse) == Response(200, true, Some(parse(reply.response.value).value), None)
  {
  }

  /** The two handlers differ only in their generation step: on the early returns they answer
      identically, and a request both generation steps fail is answered identically too. */
  lemma HandlersAgreeBeforeGeneration<J>(verb: string, body: RequestBody, complete: string -> NvidiaGeneration.Completion,
                                         fetch: string -> OllamaReply, parse: string -> Option<J>)
    requires HasRequired(body) ==>
      var prompt := ItineraryPrompt.CreateItineraryPrompt(ToTripRequest(body));
      NvidiaGeneration.NvidiaGenerate(complete(prompt), parse).Failure? && OllamaGenerate(fetch(prompt), parse).Failure?
    ensures Respond(verb, body, p => NvidiaGeneration.NvidiaGenerate(complete(p), parse))
      == HandleOllama(verb, body, fetch, parse)
  {
  }
}
