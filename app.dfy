/** The page component (App.tsx): its five pieces of state, the geolocation
    callback that records the user's position, and `handleSearch`, which
    resets the state, runs the service while appending every status update,
    and stores either the results or an error message. The component's state
    hooks are the fields of an `App` object. */
module AppComponent {
  import opened Wrappers
  import opened Types
  import opened Sources
  import opened GeminiService
  import opened SearchFormComponent

  const InitialStatus := "Initializing search..."
  const FallbackErrorMessage := "An unexpected error occurred."

  /** The error the page shows for an outcome: the rejection's message, or the
      fallback when that message is empty (`err.message || ...`). */
  function ErrorShown(outcome: Result<ApiResponse, string>): (shown: Option<string>)
    ensures shown.Some? <==> outcome.Failure?
    ensures shown.Some? ==> shown.value != ""
    ensures shown.Some? && outcome.error != "" ==> shown.value == outcome.error
  {
    if outcome.Success? then None
    else Some(if outcome.error != "" then outcome.error else FallbackErrorMessage)
  }

  /** The results the page shows for an outcome. */
  function ResultsShown(outcome: Result<ApiResponse, string>): (shown: Option<ApiResponse>)
    ensures shown.Some? <==> outcome.Success?
    ensures shown.Some? ==> shown.value == outcome.value
  {
    if outcome.Success? then Some(outcome.value) else None
  }

  /** The fallback message appears when the model call threw an `Error` with
      an empty message, and otherwise only when an `Error` carried exactly
      that text. */
  lemma FallbackOnlyForEmptyMessage(response: Result<ModelReply, Thrown>, parse: string -> Option<ParsedJson>)
    ensures response == Failure(Err("")) ==> ErrorShown(SearchOutcome(response, parse)) == Some(FallbackErrorMessage)
    ensures ErrorShown(SearchOutcome(response, parse)) == Some(FallbackErrorMessage) ==>
              response == Failure(Err("")) || response == Failure(Err(FallbackErrorMessage))
  {
    SearchFailureMessageEmptyIff(response, parse);
    assert |FallbackErrorMessage| != |MalformedResponseMessage|;
    assert |FallbackErrorMessage| != |InternalErrorMessage|;
    assert |FallbackErrorMessage| != |UnknownErrorMessage|;
  }

  /** App.tsx renders `<SearchForm>` without an `isLocationAvailable` prop, so
      the form sees `undefined`, which is falsy. */
  const LocationPropAsWritten := false

  /** As written, the "Or Near Me" button is always disabled and its handler
      never searches, whether or not the position is known. */
  lemma NearMeNeverSearchesAsWritten(loading: bool, numberOfCenters: string, selected: seq<string>)
    ensures NearMeDisabled(loading, LocationPropAsWritten, selected)
    ensures LocationCall(LocationPropAsWritten, numberOfCenters, selected) == None
  {
  }

  /** The evidently intended prop: the location is available once the
      geolocation callback has stored a position. */
  function IntendedLocationProp(userLocation: Option<LatLng>): bool {
    userLocation.Some?
  }

  /** With the intended prop, a known position and some specialty ticked,
      "Or Near Me" is enabled outside a search and searches around the user. */
  lemma NearMeSearchesWhenLocated(userLocation: Option<LatLng>, numberOfCenters: string, selected: seq<string>)
    requires userLocation.Some? && |selected| > 0
    ensures !NearMeDisabled(false, IntendedLocationProp(userLocation), selected)
    ensures LocationCall(IntendedLocationProp(userLocation), numberOfCenters, selected)
            == Some(SearchCall("", numberOfCenters, selected))
  {
  }

  class App {
    var results: Option<ApiResponse>
    var loading: bool
    var error: Option<string>
    var userLocation: Option<LatLng>
    var statusMessages: seq<string>

    /** Never both results and an error; neither while loading; a shown error
        is never empty. */
    predicate Consistent()
      reads this
    {
      && !(results.Some? && error.Some?)
      && (loading ==> results.None? && error.None?)
      && (error.Some? ==> error.value != "")
    }

    /** The initial state: nothing loaded, no position yet. */
    constructor ()
      ensures results == None && !loading && error == None
      ensures userLocation == None && statusMessages == []
      ensures Consistent()
    {
      results := None;
      loading := false;
      error := None;
      userLocation := None;
      statusMessages := [];
    }

    /** The success callback of `getCurrentPosition`. */
    method OnPositionSuccess(position: LatLng)
      modifies this
      ensures userLocation == Some(position)
      ensures results == old(results) && loading == old(loading) && error == old(error)
      ensures statusMessages == old(statusMessages)
      ensures old(Consistent()) ==> Consistent()
    {
      userLocation := Some(position);
    }

    /** The first four updates of `handleSearch`. */
    method BeginSearch()
      modifies this
      ensures loading && error == None && results == None && statusMessages == [InitialStatus]
      ensures userLocation == old(userLocation)
      ensures Consistent()
    {
      loading := true;
      error := None;
      results := None;
      statusMessages := [InitialStatus];
    }

    /** `handleStatusUpdate`: the message goes to the end of the list. */
    method AppendStatus(message: string)
      modifies this
      ensures statusMessages == old(statusMessages) + [message]
      ensures results == old(results) && loading == old(loading) && error == old(error)
      ensures userLocation == old(userLocation)
      ensures old(Consistent()) ==> Consistent()
    {
      statusMessages := statusMessages + [message];
    }

    /** The `try`/`catch`/`finally` tail: results or error, then loading off. */
    method FinishSearch(outcome: Result<ApiResponse, string>)
      requires loading && results == None && error == None
      modifies this
      ensures results == ResultsShown(outcome) && error == ErrorShown(outcome) && !loading
      ensures userLocation == old(userLocation) && statusMessages == old(statusMessages)
      ensures Consistent()
    {
      if outcome.Success? {
        results := Some(outcome.value);
      } else {
        error := Some(if outcome.error != "" then outcome.error else FallbackErrorMessage);
      }
      loading := false;
    }

    /** The page's side of a search: the reset, the service's status
        updates appended one by one, then its outcome. */
    method ShowSearch(statuses: seq<string>, outcome: Result<ApiResponse, string>)
      modifies this
      ensures statusMessages == [InitialStatus] + statuses
      ensures results == ResultsShown(outcome) && error == ErrorShown(outcome) && !loading
      ensures userLocation == old(userLocation)
      ensures Consistent()
    {
      BeginSearch();
      for i := 0 to |statuses|
        invariant statusMessages == [InitialStatus] + statuses[..i]
        invariant loading && results == None && error == None
        invariant userLocation == old(userLocation)
      {
        AppendStatus(statuses[i]);
        assert statuses[..i + 1] == statuses[..i] + [statuses[i]];
      }
      assert statuses[..|statuses|] == statuses;
      FinishSearch(outcome);
    }

    /** A search for a request already built: the service runs it while the
        page shows its progress and then its outcome. */
    method SearchWith(city: string, numberOfCenters: string, request: GenerateRequest,
      transport: GenerateRequest -> Result<ModelReply, Thrown>, parse: string -> Option<ParsedJson>)
      modifies this
      ensures statusMessages == [InitialStatus, FindingStatus(city, numberOfCenters)] + LaterStatuses(transport(request), parse)
      ensures results == ResultsShown(SearchOutcome(transport(request), parse))
      ensures error == ErrorShown(SearchOutcome(transport(request), parse))
      ensures !loading && userLocation == old(userLocation)
      ensures Consistent()
    {
      var statuses, outcome := RunRequest(city, numberOfCenters, request, transport, parse);
      ShowSearch(statuses, outcome);
    }

    /** `handleSearch`: one search with the position known at the time of the
        call. */
    method HandleSearch(city: string, numberOfCenters: string, specialties: seq<string>,
      transport: GenerateRequest -> Result<ModelReply, Thrown>, parse: string -> Option<ParsedJson>)
      modifies this
      ensures var response := transport(RequestFor(city, numberOfCenters, specialties, old(userLocation)));
              && statusMessages == [InitialStatus, FindingStatus(city, numberOfCenters)] + LaterStatuses(response, parse)
              && results == ResultsShown(SearchOutcome(response, parse))
              && error == ErrorShown(SearchOutcome(response, parse))
      ensures !loading && userLocation == old(userLocation)
      ensures Consistent()
    {
      SearchWith(city, numberOfCenters, RequestFor(city, numberOfCenters, specialties, userLocation), transport, parse);
    }
  }

  /** After a search the page holds results exactly when five status messages
      were shown: the initial one and one per stage of the service. */
  lemma FiveStatusesExactlyOnSuccess(city: string, numberOfCenters: string,
    response: Result<ModelReply, Thrown>, parse: string -> Option<ParsedJson>)
    ensures |[InitialStatus, FindingStatus(city, numberOfCenters)] + LaterStatuses(response, parse)| == 5
            <==> ResultsShown(SearchOutcome(response, parse)).Some?
  {
    StatusesTellTheStage(response, parse);
  }
}
