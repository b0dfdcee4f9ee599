/** The generation step of `pages/api/generate-itinerary.ts`, `generateItineraryWithNvidia`: the
    streamed completion is accumulated chunk by chunk, the JSON text is picked out of it and
    parsed. The chat-completion request and `JSON.parse` are parameters. */
module NvidiaGeneration {
  import opened Wrappers
  import opened JsonExtraction
  import opened ItineraryApi

  const InvalidJson: string := "Failed to parse itinerary data. The response was not valid JSON."

  /** The parts of a streamed chunk the accumulation looks at. */
  datatype Delta = Delta(content: Option<string>)
  datatype Choice = Choice(delta: Option<Delta>)
  datatype Chunk = Chunk(choices: seq<Choice>)

  /** What the completion request gives: a rejected request, or the chunks that arrived and
      whether the stream then ended normally (`completed`) or threw. */
  datatype Completion =
    | Rejected
    | Streamed(chunks: seq<Chunk>, completed: bool)

  /** The content of the first choice's delta, or "" when any part of it is missing. */
  function ChunkText(c: Chunk): (r: string)
    ensures |c.choices| > 0 && c.choices[0].delta.Some? && c.choices[0].delta.value.content.Some?
      ==> r == c.choices[0].delta.value.content.value
    ensures c.choices == [] || c.choices[0].delta.None? || c.choices[0].delta.value.content.None?
      ==> r == ""
  {
    if |c.choices| > 0 && c.choices[0].delta.Some? && c.choices[0].delta.value.content.Some?
    then c.choices[0].delta.value.content.value
    else ""
  }

  /** No chunk of the stream carries any text. */
  predicate Silent(chunks: seq<Chunk>) {
    forall i :: 0 <= i < |chunks| ==> ChunkText(chunks[i]) == ""
  }

  /** The text of the chunks, in arrival order. */
  function Accumulated(chunks: seq<Chunk>): string {
    if chunks == [] then "" else Accumulated(chunks[..|chunks| - 1]) + ChunkText(chunks[|chunks| - 1])
  }

  /** The accumulation loop: `completeResponse` starts empty and each chunk's text is appended. */
  method AccumulateStream(chunks: seq<Chunk>) returns (completeResponse: string)
    ensures completeResponse == Accumulated(chunks)
  {
    completeResponse := "";
    var i := 0;
    while i < |chunks|
      invariant 0 <= i <= |chunks|
      invariant completeResponse == Accumulated(chunks[..i])
    {
      assert chunks[..i + 1][..i] == chunks[..i];
      completeResponse := completeResponse + ChunkText(chunks[i]);
      i := i + 1;
    }
    assert chunks[..i] == chunks;
  }

  /** Accumulation respects concatenation of the chunk stream: what the first part contributes
      comes first, then what the second part contributes. */
  lemma {:induction false} AccumulatedAppend(a: seq<Chunk>, b: seq<Chunk>)
    ensures Accumulated(a + b) == Accumulated(a) + Accumulated(b)
    decreases |b|
  {
    if b == [] {
      assert a + b == a;
    } else {
      var b', c := b[..|b| - 1], b[|b| - 1];
      assert (a + b)[..|a + b| - 1] == a + b';
      assert (a + b)[|a + b| - 1] == c;
      calc {
        Accumulated(a + b);
        { AccumulatedSnoc(a + b); }
        Accumulated(a + b') + ChunkText(c);
        { AccumulatedAppend(a, b'); }
        (Accumulated(a) + Accumulated(b')) + ChunkText(c);
        Accumulated(a) + (Accumulated(b') + ChunkText(c));
        { AccumulatedSnoc(b); }
        Accumulated(a) + Accumulated(b);
      }
    }
  }

  /** The text of a non-empty stream is that of all but its last chunk, then the last chunk's. */
  lemma AccumulatedSnoc(chunks: seq<Chunk>)
    requires chunks != []
    ensures Accumulated(chunks) == Accumulated(chunks[..|chunks| - 1]) + ChunkText(chunks[|chunks| - 1])
  {
  }

  /** The accumulated text is empty exactly when no chunk carries text. */
  lemma {:induction false} AccumulatedEmptyIff(chunks: seq<Chunk>)
    ensures Accumulated(chunks) == "" <==> Silent(chunks)
  {
    if chunks != [] {
      var init, c := chunks[..|chunks| - 1], chunks[|chunks| - 1];
      AccumulatedEmptyIff(init);
      AccumulatedSnoc(chunks);
      assert Silent(chunks) <==> Silent(init) && ChunkText(c) == "" by {
        assert forall i :: 0 <= i < |init| ==> init[i] == chunks[i];
      }
    }
  }

  /** A stream of one chunk has that chunk's text. */
  lemma AccumulatedSingle(c: Chunk)
    ensures Accumulated([c]) == ChunkText(c)
  {
    assert [c][..0] == [];
  }

  /** The accumulated text lists each chunk's text in arrival order. */
  lemma AccumulatedCons(c: Chunk, rest: seq<Chunk>)
    ensures Accumulated([c] + rest) == ChunkText(c) + Accumulated(rest)
  {
    AccumulatedAppend([c], rest);
    AccumulatedSingle(c);
  }

  /** A chunk without content contributes nothing, wherever it arrives. */
  lemma EmptyChunkContributesNothing(a: seq<Chunk>, c: Chunk, b: seq<Chunk>)
    requires c.choices == [] || c.choices[0].delta.None? || c.choices[0].delta.value.content.None?
    ensures Accumulated(a + [c] + b) == Accumulated(a + b)
  {
    calc {
      Accumulated(a + [c] + b);
      { AccumulatedAppend(a + [c], b); }
      Accumulated(a + [c]) + Accumulated(b);
      { AccumulatedAppend(a, [c]); AccumulatedSingle(c); }
      Accumulated(a) + Accumulated(b);
      { AccumulatedAppend(a, b); }
      Accumulated(a + b);
    }
  }

  /** The inner step of `generateItineraryWithNvidia`: the extracted JSON text parsed, or the
      "not valid JSON" error when nothing is extracted or the parse throws. */
  function ParseReply<J>(text: string, parse: string -> Option<J>): (r: Result<J, string>)
    ensures r.Success? <==> ExtractJson(text).Success? && parse(ExtractJson(text).value).Some?
    ensures r.Success? ==> r.value == parse(ExtractJson(text).value).value
    ensures r.Failure? ==> r.error == InvalidJson
  {
    match ExtractJson(text)
    case Failure(_) => Failure(InvalidJson)
    case Success(candidate) =>
      match parse(candidate)
      case Some(d) => Success(d)
      case None => Failure(InvalidJson)
  }

  /** `generateItineraryWithNvidia` as a value: every failure inside, a rejected request, a broken
      stream or an unparsable reply, is rethrown with the one generic message. */
  function NvidiaGenerate<J>(completion: Completion, parse: string -> Option<J>): (r: Result<J, string>)
    ensures r.Failure? ==> r.error == ModelFailure
    ensures r.Success? <==>
      (completion.Streamed? && completion.completed
       && ParseReply(Accumulated(completion.chunks), parse).Success?)
  {
    match completion
    case Rejected => Failure(ModelFailure)
    case Streamed(chunks, completed) =>
      if !completed then Failure(ModelFailure)
      else match ParseReply(Accumulated(chunks), parse)
        case Success(d) => Success(d)
        case Failure(_) => Failure(ModelFailure)
  }

  /** `generateItineraryWithNvidia`, with its accumulation loop. */
  method GenerateWithNvidia<J>(completion: Completion, parse: string -> Option<J>) returns (r: Result<J, string>)
    ensures r == NvidiaGenerate(completion, parse)
  {
    if completion.Rejected? || !completion.completed {
      return Failure(ModelFailure);
    }
    var completeResponse := AccumulateStream(completion.chunks);
    var parsed := ParseReply(completeResponse, parse);
    if parsed.Success? {
      r := Success(parsed.value);
    } else {
      r := Failure(ModelFailure);
    }
  }

  /** `handler` of `pages/api/generate-itinerary.ts`; `complete` is the model behind the
      chat-completion request, from prompt to streamed reply. */
  method HandleNvidia<J>(verb: string, body: RequestBody, complete: string -> Completion,
                         parse: string -> Option<J>) returns (r: Response<J>)
    ensures r == Respond(verb, body, p => NvidiaGenerate(complete(p), parse))
  {
    if verb != "POST" {
      return ErrorResponse(405, MethodNotAllowed);
    }
    if body.Undefined? {
      return ErrorResponse(500, GenerationFailed);
    }
    if !HasRequired(body) {
      return ErrorResponse(400, MissingParameters);
    }
    var prompt := ItineraryPrompt.CreateItineraryPrompt(ToTripRequest(body));
    var itineraryData := GenerateWithNvidia(complete(prompt), parse);
    if itineraryData.Success? {
      r := Response(200, true, Some(itineraryData.value), None);
    } else {
      r := ErrorResponse(500, GenerationFailed);
    }
  }

  /** Any extraction, parse or transport failure of a valid request is answered with 500 and the
      client-safe message; the reason never reaches the client. */
  lemma NvidiaFailureIs500<J>(body: RequestBody, complete: string -> Completion, parse: string -> Option<J>)
    requires HasRequired(body)
    requires var c := complete(ItineraryPrompt.CreateItineraryPrompt(ToTripRequest(body)));
      c.Rejected? || !c.completed || ExtractJson(Accumulated(c.chunks)).Failure?
      || parse(ExtractJson(Accumulated(c.chunks)).value).None?
    ensures Respond("POST", body, p => NvidiaGenerate(complete(p), parse))
      == ErrorResponse(500, GenerationFailed)
  {
  }

  /** A completed stream yields what the parser makes of the extracted candidate. */
  lemma CompletedStreamParsesCandidate<J>(chunks: seq<Chunk>, parse: string -> Option<J>, candidate: string)
    requires ExtractJson(Accumulated(chunks)) == Success(candidate)
    ensures NvidiaGenerate(Streamed(chunks, true), parse)
      == if parse(candidate).Some? then Success(parse(candidate).value) else Failure(ModelFailure)
  {
    assert ParseReply(Accumulated(chunks), parse)
      == if parse(candidate).Some? then Success(parse(candidate).value) else Failure(InvalidJson);
  }

  /** A completed stream whose text holds a fenced block yields what the parser makes of the
      capture of the leftmost, shortest fenced match, whatever else the text holds. */
  lemma NvidiaUsesFencedCapture<J>(chunks: seq<Chunk>, parse: string -> Option<J>,
                                   p: nat, tag: int, q: int, e: int, f: int)
    requires FencedMatch(Accumulated(chunks), p, tag, q, e, f)
    ensures var text := Accumulated(chunks);
      && FirstFenced(text, 0).Some?
      && var m := FirstFenced(text, 0).value;
      && FencedMatch(text, m.start, m.tag, m.open, m.close, m.end)
      && var capture := Capture(text, m);
      NvidiaGenerate(Streamed(chunks, true), parse)
        == (if parse(capture).Some? then Success(parse(capture).value) else Failure(ModelFailure))
  {
    var text := Accumulated(chunks);
    FencedTakesPrecedence(text, p, tag, q, e, f);
    var m := FirstFenced(text, 0).value;
    CompletedStreamParsesCandidate(chunks, parse, Capture(text, m));
  }
}
