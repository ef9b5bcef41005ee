/** The search service (services/geminiService.ts): one call to the model
    with the search tools, then extraction of the JSON candidate, parsing,
    collection and deduplication of the citations, with a status message
    before each stage and a user-facing message for every failure.

    The network call and `JSON.parse` are not modelled as code: the method
    takes the model's answer to the request (`transport`) and the parser
    (`parse`) as parameters. */
module GeminiService {
  import opened Wrappers
  import opened Text
  import opened Types
  import opened Prompt
  import opened Extraction
  import opened Sources

  /** What the `catch` block can receive. */
  datatype Thrown =
    | SyntaxErr(message: string)    // a `SyntaxError`, e.g. from `JSON.parse`
    | Err(message: string)          // any other `Error`
    | NonErrorValue(json: string)   // a thrown non-`Error` value, as `JSON.stringify` renders it

  const UnknownErrorMessage := "An unknown error occurred. Please try again."
  const MalformedResponseMessage := "The response from the AI was not in a valid format. This may be due to the complexity of the request. Try reducing the number of centers or specialties."
  const InternalErrorMessage := "The AI model encountered an internal error, likely due to the request's complexity. Please try searching for fewer centers or a different city."

  /** The text inspected for signs of a server-side failure: the message of an
      `Error`, the JSON rendering of anything else. */
  function ErrorString(e: Thrown): string
    requires !e.SyntaxErr?
  {
    if e.Err? then e.message else e.json
  }

  /** The three substrings that mark an internal failure of the model service. */
  predicate LooksInternal(s: string): (b: bool)
    ensures b <==> IsInfix("Internal error encountered", s) || IsInfix("500", s) || IsInfix("xhr error", s)
  {
    IncludesIff(s, "Internal error encountered");
    IncludesIff(s, "500");
    IncludesIff(s, "xhr error");
    Includes(s, "Internal error encountered") || Includes(s, "500") || Includes(s, "xhr error")
  }

  /** The message of the `Error` the service rethrows. */
  function ClassifyError(e: Thrown): (msg: string)
    ensures e.SyntaxErr? ==> msg == MalformedResponseMessage
    ensures !e.SyntaxErr? && LooksInternal(ErrorString(e)) ==> msg == InternalErrorMessage
    ensures e.Err? && !LooksInternal(e.message) ==> msg == e.message
    ensures e.NonErrorValue? && !LooksInternal(e.json) ==> msg == UnknownErrorMessage
  {
    if e.SyntaxErr? then MalformedResponseMessage
    else if LooksInternal(ErrorString(e)) then InternalErrorMessage
    else if e.Err? then e.message
    else UnknownErrorMessage
  }

  /** An error whose text contains "500" anywhere (say an HTTP status in the
      message) is reported as an internal failure, unless it is a `SyntaxError`. */
  lemma ServerStatusIsInternal(e: Thrown, before: string, after: string)
    requires !e.SyntaxErr? && ErrorString(e) == before + "500" + after
    ensures ClassifyError(e) == InternalErrorMessage
  {
    InfixOfConcat(before, "500", after);
    IncludesIff(ErrorString(e), "500");
  }

  /** An internal failure is reported only when one of the three markers occurs in the error text. */
  lemma InternalOnlyWithMarker(e: Thrown)
    requires ClassifyError(e) == InternalErrorMessage && !e.SyntaxErr?
    ensures IsInfix("Internal error encountered", ErrorString(e)) || IsInfix("500", ErrorString(e))
            || IsInfix("xhr error", ErrorString(e)) || (e.Err? && e.message == InternalErrorMessage)
  {
    IncludesIff(ErrorString(e), "Internal error encountered");
    IncludesIff(ErrorString(e), "500");
    IncludesIff(ErrorString(e), "xhr error");
  }

  /** The rethrown message is empty exactly when an ordinary `Error` with an
      empty message was caught; the three fixed messages are not empty. */
  lemma ClassifiedMessageEmptyIff(e: Thrown)
    ensures ClassifyError(e) == "" <==> e.Err? && e.message == ""
  {
    if e.Err? && e.message == "" {
      assert OccursAt("", "500", 0) == false;
      assert !LooksInternal("");
    }
  }

  /** The parts of the model's answer the service reads. */
  datatype ModelReply = ModelReply(text: string, groundingChunks: Option<seq<GroundingChunk>>)

  /** The parsed JSON object; a missing or falsy `diagnosticCenters` is `None`. */
  datatype ParsedJson = ParsedJson(diagnosticCenters: Option<seq<DiagnosticCenter>>)

  /** The retrieval tools the request enables. */
  datatype Tool = GoogleSearch | GoogleMaps

  /** The `generateContent` request: model, prompt, tools and, when the user's
      position is known, that position as retrieval bias. */
  datatype GenerateRequest = GenerateRequest(model: string, contents: string, tools: seq<Tool>, latLng: Option<LatLng>)

  const ModelName := "gemini-2.5-pro"

  /** The request for a search. */
  function RequestFor(city: string, numberOfCenters: string, specialties: seq<string>, userLocation: Option<LatLng>): (r: GenerateRequest)
    ensures r.model == ModelName && r.tools == [GoogleSearch, GoogleMaps]
    ensures r.contents == BuildPrompt(city, numberOfCenters, specialties)
    ensures r.latLng == userLocation
  {
    GenerateRequest(ModelName, BuildPrompt(city, numberOfCenters, specialties), [GoogleSearch, GoogleMaps], userLocation)
  }

  /** The first status: what is searched for, and where. */
  function FindingStatus(city: string, numberOfCenters: string): (status: string)
    ensures var head := "Finding the top " + numberOfCenters;
            |head| <= |status| && status[..|head|] == head
    ensures |status| >= 3 && status[|status| - 3..] == "..."
    ensures city != "" ==> |city| + 3 <= |status| && status[|status| - 3 - |city|..|status| - 3] == city
    ensures city != "" ==> var tail := "in " + city + "...";
            |tail| <= |status| && status[|status| - |tail|..] == tail
    ensures city == "" ==> var tail := "near you...";
            |tail| <= |status| && status[|status| - |tail|..] == tail
    ensures var head := "Finding the top " + numberOfCenters;
            var mid := " diagnostic centers with CT machines ";
            var tail := if city != "" then "in " + city + "..." else "near you...";
            |status| == |head| + |mid| + |tail| && status[|head|..|head| + |mid|] == mid
  {
    "Finding " + CountText(numberOfCenters) + " diagnostic centers with CT machines "
    + (if city != "" then "in " + city else "near you") + "..."
  }

  const ParsingStatus := "Parsing AI response..."
  const ExtractingStatus := "Extracting data sources..."
  const CompilingStatus := "Compiling results..."

  /** The reassignments of `jsonText` before it is parsed: the fenced body when
      there is one, else the brace span when there is one, else the text. */
  method ExtractJsonText(text: string) returns (jsonText: string)
    ensures jsonText == JsonCandidate(text)
  {
    jsonText := text;
    var jsonMatch := MatchFence(jsonText);
    if jsonMatch.Some? && jsonMatch.value.bodyStart < jsonMatch.value.bodyEnd {
      jsonText := jsonText[jsonMatch.value.bodyStart..jsonMatch.value.bodyEnd];
      assert HasFencedBody(text) && jsonText == FencedBody(text);
    } else {
      var startIndex := IndexOf(jsonText, "{");
      var endIndex := LastIndexOf(jsonText, '}');
      if startIndex > -1 && endIndex > -1 {
        jsonText := Substring(jsonText, startIndex, endIndex + 1);
      }
      assert !HasFencedBody(text) && jsonText == BraceSlice(text, startIndex, endIndex);
    }
  }

  /** The sources of the reply's chunks, before deduplication. */
  function ReplySources(chunks: Option<seq<GroundingChunk>>): seq<GroundingSource> {
    if chunks.Some? then Flatten(chunks.value) else []
  }

  /** What the search resolves to once the model has answered (or failed):
      the classified message of the caught error, the malformed-response
      message when the candidate does not parse, or the centers (none when
      the object lacks them) with the deduplicated citations. */
  function SearchOutcome(response: Result<ModelReply, Thrown>, parse: string -> Option<ParsedJson>): (o: Result<ApiResponse, string>)
    ensures o.Success? <==> response.Success? && parse(JsonCandidate(response.value.text)).Some?
    ensures response.Failure? ==> o == Failure(ClassifyError(response.error))
    ensures o.Success? ==> DistinctUris(o.value.groundingSources)
  {
    match response
    case Failure(e) => Failure(ClassifyError(e))
    case Success(reply) =>
      match parse(JsonCandidate(reply.text))
      case None => Failure(ClassifyError(SyntaxErr("")))
      case Some(parsed) =>
        DedupSpec(ReplySources(reply.groundingChunks));
        Success(ApiResponse(parsed.diagnosticCenters.GetOr([]), Dedup(ReplySources(reply.groundingChunks))))
  }

  /** The statuses reported after the first one: each stage reached announces itself. */
  function LaterStatuses(response: Result<ModelReply, Thrown>, parse: string -> Option<ParsedJson>): (statuses: seq<string>)
    ensures |statuses| <= 3 && statuses == [ParsingStatus, ExtractingStatus, CompilingStatus][..|statuses|]
    ensures statuses == [] <==> response.Failure?
  {
    if response.Failure? then []
    else if parse(JsonCandidate(response.value.text)).None? then [ParsingStatus]
    else [ParsingStatus, ExtractingStatus, CompilingStatus]
  }

  /** The search succeeds exactly when the model answered and its candidate
      parsed; the centers are then the parsed object's (none when it has no
      `diagnosticCenters`), and the citations are the reply's, deduplicated. */
  lemma SearchSucceedsIff(response: Result<ModelReply, Thrown>, parse: string -> Option<ParsedJson>)
    ensures SearchOutcome(response, parse).Success?
            <==> response.Success? && parse(JsonCandidate(response.value.text)).Some?
    ensures SearchOutcome(response, parse).Success? ==>
              SearchOutcome(response, parse).value.diagnosticCenters
              == parse(JsonCandidate(response.value.text)).value.diagnosticCenters.GetOr([])
    ensures SearchOutcome(response, parse).Success? ==>
              SearchOutcome(response, parse).value.groundingSources == Dedup(ReplySources(response.value.groundingChunks))
  {
  }

  /** Three stages are announced after the first exactly on success, one
      when the reply did not parse, none when the call failed. */
  lemma StatusesTellTheStage(response: Result<ModelReply, Thrown>, parse: string -> Option<ParsedJson>)
    ensures |LaterStatuses(response, parse)| == 3 <==> SearchOutcome(response, parse).Success?
    ensures LaterStatuses(response, parse) == [] <==> response.Failure?
    ensures |LaterStatuses(response, parse)| == 1 ==> SearchOutcome(response, parse) == Failure(MalformedResponseMessage)
    ensures response.Success? && parse(JsonCandidate(response.value.text)).None? ==>
              LaterStatuses(response, parse) == [ParsingStatus]
  {
  }

  /** The failure message is empty only when the model call itself threw an
      `Error` with an empty message. */
  lemma SearchFailureMessageEmptyIff(response: Result<ModelReply, Thrown>, parse: string -> Option<ParsedJson>)
    ensures var o := SearchOutcome(response, parse);
            (o.Failure? && o.error == "") <==> response == Failure(Err(""))
  {
    if response.Failure? {
      ClassifiedMessageEmptyIff(response.error);
    } else {
      ClassifiedMessageEmptyIff(SyntaxErr(""));
    }
  }

  /** The `try` block after the model's answer arrives, and its `catch`. */
  method HandleResponse(response: Result<ModelReply, Thrown>, parse: string -> Option<ParsedJson>)
    returns (statuses: seq<string>, outcome: Result<ApiResponse, string>)
    ensures statuses == LaterStatuses(response, parse)
    ensures outcome == SearchOutcome(response, parse)
  {
    statuses := [];
    if response.Failure? {
      outcome := Failure(ClassifyError(response.error));
      return;
    }
    statuses := statuses + [ParsingStatus];
    var reply := response.value;
    var jsonText := ExtractJsonText(reply.text);
    var parsedData := parse(jsonText);
    if parsedData.None? {
      outcome := Failure(ClassifyError(SyntaxErr("")));
      return;
    }
    statuses := statuses + [ExtractingStatus];
    var groundingSources := CollectSources(reply.groundingChunks);
    var uniqueSources := Dedup(groundingSources);
    statuses := statuses + [CompilingStatus];
    outcome := Success(ApiResponse(parsedData.value.diagnosticCenters.GetOr([]), uniqueSources));
  }

  /** The `try` block: announce the search, call the model with the request
      and hand its answer on. */
  method RunRequest(city: string, numberOfCenters: string, request: GenerateRequest,
    transport: GenerateRequest -> Result<ModelReply, Thrown>, parse: string -> Option<ParsedJson>)
    returns (statuses: seq<string>, outcome: Result<ApiResponse, string>)
    ensures statuses == [FindingStatus(city, numberOfCenters)] + LaterStatuses(transport(request), parse)
    ensures outcome == SearchOutcome(transport(request), parse)
  {
    statuses := [FindingStatus(city, numberOfCenters)];
    var response := transport(request);
    var later;
    later, outcome := HandleResponse(response, parse);
    statuses := statuses + later;
  }

  /** `findCentersAndSpecialists`: builds the request and runs it. `statuses`
      are the messages passed to `onStatusUpdate`, in order; `outcome` is the
      resolved value or the message of the rejected `Error`. */
  method FindCentersAndSpecialists(
    city: string, numberOfCenters: string, specialties: seq<string>, userLocation: Option<LatLng>,
    transport: GenerateRequest -> Result<ModelReply, Thrown>, parse: string -> Option<ParsedJson>)
    returns (request: GenerateRequest, statuses: seq<string>, outcome: Result<ApiResponse, string>)
    ensures request == RequestFor(city, numberOfCenters, specialties, userLocation)
    ensures statuses == [FindingStatus(city, numberOfCenters)] + LaterStatuses(transport(request), parse)
    ensures outcome == SearchOutcome(transport(request), parse)
  {
    request := RequestFor(city, numberOfCenters, specialties, userLocation);
    statuses, outcome := RunRequest(city, numberOfCenters, request, transport, parse);
  }
}
