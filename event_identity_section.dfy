/** Step 1 of the wizard: the identity fields. The sub-type list depends on the
    chosen event type, and choosing a type clears the sub-type. */
module EventIdentitySection {
  import opened EventTypes
  import opened RegionData
  import opened CreateEventSlice

  /** The value of a string field; a missing key reads as empty, as `undefined`
      is falsy. */
  function FieldValue(fields: map<string, string>, field: string): string {
    if field in fields then fields[field] else ""
  }

  /** `subTypes`: nothing before a type is chosen, the catalogue entry of a chosen
      type, nothing for a type without an entry. */
  function SubTypes(eventType: string): (r: seq<string>)
    ensures eventType == "" ==> r == []
    ensures eventType != "" && eventType in EventSubTypes ==> r == EventSubTypes[eventType]
    ensures eventType !in EventSubTypes ==> r == []
  {
    if eventType == "" then []
    else if eventType in EventSubTypes then EventSubTypes[eventType]
    else []
  }

  /** The sub-type select is disabled exactly until a type is chosen; a disabled
      select offers nothing, and an enabled one on an offered type offers something. */
  function SubTypeDisabled(fields: map<string, string>): (r: bool)
    ensures r <==> FieldValue(fields, "eventType") == ""
    ensures r ==> SubTypes(FieldValue(fields, "eventType")) == []
    ensures !r && FieldValue(fields, "eventType") in EventTypeOptions ==> SubTypes(FieldValue(fields, "eventType")) != []
  {
    CatalogueShape();
    FieldValue(fields, "eventType") == ""
  }

  /** Every type offered has sub-types, and the empty value is never one of them. */
  lemma CatalogueShape()
    ensures forall t :: t in EventTypeOptions ==> SubTypes(t) != []
    ensures forall t :: "" !in SubTypes(t)
  {
  }

  /** A form whose sub-type is empty or one the chosen type offers. */
  predicate SubTypeConsistent(fields: map<string, string>) {
    var sub := FieldValue(fields, "eventSubType");
    sub == "" || sub in SubTypes(FieldValue(fields, "eventType"))
  }

  /** The fields the section writes: the status and the ID are shown read-only. */
  const IdentityWritable: set<string> := {
    "catCode", "catPremiumAllocation", "eventName", "eventType", "eventSubType",
    "primaryPeril", "eventDate", "lossStartDate", "lossEndDate",
    "shortDescription", "longDescription"
  }

  /** Nothing the section writes is a list field, the status or the ID. */
  lemma WritableFieldsAreStrings()
    ensures "eventStatus" !in IdentityWritable && "eventId" !in IdentityWritable
    ensures IdentityWritable !! ListFields
  {
  }

  /** The fields after choosing an event type: the type, then an empty sub-type. */
  function AfterTypeChange(fields: map<string, string>, v: string): (r: map<string, string>)
    ensures FieldValue(r, "eventType") == v && FieldValue(r, "eventSubType") == ""
    ensures forall f :: f in fields && f != "eventType" && f != "eventSubType" ==> f in r && r[f] == fields[f]
    ensures SubTypeConsistent(r)
  {
    fields["eventType" := v]["eventSubType" := ""]
  }

  /** Choosing a sub-type from the offered list keeps the form consistent; editing
      any other identity field leaves type and sub-type alone. */
  lemma IdentityEditsKeepConsistency(fields: map<string, string>, field: string, v: string)
    requires SubTypeConsistent(fields)
    requires field in IdentityWritable && field != "eventType"
    requires field == "eventSubType" ==> v == "" || v in SubTypes(FieldValue(fields, "eventType"))
    ensures SubTypeConsistent(fields[field := v])
  {
    assert FieldValue(fields[field := v], "eventType") == FieldValue(fields, "eventType");
  }

  /** The type select's `onChange`: two `updateField` dispatches in a row. */
  method ChangeEventType(store: EventStore, v: string)
    requires store.Valid()
    modifies store
    ensures store.Valid()
    ensures store.State() == old(store.State()).(fields := AfterTypeChange(old(store.fields), v), isDirty := true)
  {
    store.UpdateField("eventType", v);
    store.UpdateField("eventSubType", "");
  }

  /** Any other field's `onChange`: one `updateField`. The status and ID stay. */
  method ChangeIdentityField(store: EventStore, field: string, v: string)
    requires store.Valid() && field in IdentityWritable
    modifies store
    ensures store.Valid()
    ensures store.State() == old(store.State()).(fields := old(store.fields)[field := v], isDirty := true)
    ensures FieldValue(store.fields, "eventStatus") == FieldValue(old(store.fields), "eventStatus")
    ensures FieldValue(store.fields, "eventId") == FieldValue(old(store.fields), "eventId")
  {
    WritableFieldsAreStrings();
    store.UpdateField(field, v);
  }
}
