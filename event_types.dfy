/** The form's records: an impacted-region record, an external source, and the
    string fields of the form with their initial values. */
module EventTypes {

  /** One record per region that has at least one selected country code. */
  datatype ImpactedLocation = ImpactedLocation(region: string, countries: seq<string>)

  /** An external reference entry. Only its `id` is read by the reducers; the
      rest of the record is carried along untouched. */
  datatype ExternalSource = ExternalSource(id: string, details: map<string, string>)

  /** The form's keys that hold lists rather than strings. */
  const ListFields: set<string> := {"impactedRegions", "perils", "externalSources"}

  /** The string-valued fields of a fresh form. */
  const InitialFields: map<string, string> := map[
    "eventStatus" := "Draft", "eventId" := "EVT-2026-923",
    "catCode" := "", "catPremiumAllocation" := "", "eventName" := "", "eventType" := "",
    "eventSubType" := "", "eventDescription" := "", "eventDate" := "", "affectedYear" := "",
    "reportingCurrency" := "", "underwritingYear" := "",
    "brokerEventId" := "", "marketEventId" := "", "clientEventId" := "", "externalReference" := "",
    "industrylossEstimate" := "", "industryLossSource" := "", "industryLossDate" := "",
    "marketShare" := "",
    "lossPickDeadline" := "", "finalSubmissionDeadline" := "", "assignedAnalyst" := "",
    "reviewerName" := "", "notes" := ""
  ]
}
