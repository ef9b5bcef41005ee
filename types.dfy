/** The records exchanged between the model reply, the service and the views. */
module Types {
  import opened Wrappers

  /** A practitioner near a center; the phone number may be missing. */
  datatype Specialist = Specialist(name: string, address: string, phone: Option<string>)

  datatype ContactDetails = ContactDetails(phone: string, website: string)

  /** A diagnostic center as the model reports it. `googleRating` is a
      JavaScript number; `real` stands in for it and nothing depends on its
      floating-point behaviour. `nearbySpecialists` maps each specialty key to
      its practitioners, possibly none. */
  datatype DiagnosticCenter = DiagnosticCenter(
    name: string,
    address: string,
    contactDetails: ContactDetails,
    googleRating: real,
    userReviewSummary: string,
    hasCTMachine: bool,
    nearbySpecialists: map<string, seq<Specialist>>)

  /** The `type` field of a grounding source: `'web'` or `'maps'`. */
  datatype SourceType = Web | Maps

  /** A citation the model's retrieval tools consulted. */
  datatype GroundingSource = GroundingSource(uri: string, title: string, sourceType: SourceType)

  /** What a successful search returns. */
  datatype ApiResponse = ApiResponse(
    diagnosticCenters: seq<DiagnosticCenter>,
    groundingSources: seq<GroundingSource>)

  /** A geographic position from the browser; floats stand as `real`. */
  datatype LatLng = LatLng(latitude: real, longitude: real)
}
