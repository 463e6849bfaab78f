/** The static reference data: the region tree, the peril list and the
    event sub-type catalogue. */
module RegionData {
  import opened Wrappers

  datatype SubRegion = SubRegion(code: string, name: string)

  /** A country; `subRegions` is read by the label resolver (`country?.subRegions`)
      although none of the static countries carries one. */
  datatype Country = Country(code: string, name: string, subRegions: Option<seq<SubRegion>>)

  datatype Region = Region(id: string, displayLabel: string, countries: seq<Country>)

  function Leaf(code: string, name: string): Country {
    Country(code, name, None)
  }

  const Regions: seq<Region> := [
    Region("north_america", "NORTH AMERICA", [
      Leaf("US", "United States"), Leaf("CA", "Canada"), Leaf("MX", "Mexico")]),
    Region("latin_america", "LATIN AMERICA", [
      Leaf("BR", "Brazil"), Leaf("AR", "Argentina"), Leaf("CL", "Chile"),
      Leaf("CO", "Colombia"), Leaf("PE", "Peru")]),
    Region("europe", "EUROPE", [
      Leaf("GB", "United Kingdom"), Leaf("DE", "Germany"), Leaf("FR", "France"),
      Leaf("IT", "Italy"), Leaf("ES", "Spain"), Leaf("NL", "Netherlands"),
      Leaf("CH", "Switzerland")]),
    Region("middle_east_africa", "MIDDLE EAST & AFRICA", [
      Leaf("SA", "Saudi Arabia"), Leaf("AE", "United Arab Emirates"),
      Leaf("ZA", "South Africa"), Leaf("NG", "Nigeria"), Leaf("EG", "Egypt")]),
    Region("asia_pacific", "ASIA PACIFIC", [
      Leaf("JP", "Japan"), Leaf("AU", "Australia"), Leaf("CN", "China"),
      Leaf("IN", "India"), Leaf("SG", "Singapore"), Leaf("KR", "South Korea")])
  ]

  const Perils: seq<string> := [
    "Hurricane / Typhoon", "Earthquake", "Flood", "Severe Convective Storm", "Wildfire",
    "Winter Storm", "Terrorism", "Cyber", "Marine", "Aviation"
  ]

  const EventTypeOptions: seq<string> := [
    "Natural Catastrophe", "Man-Made", "Cyber", "Pandemic", "Political Risk"
  ]

  const EventSubTypes: map<string, seq<string>> := map[
    "Natural Catastrophe" := ["Hurricane", "Earthquake", "Flood", "Wildfire", "Tornado", "Winter Storm"],
    "Man-Made" := ["Industrial Accident", "Explosion", "Structural Collapse"],
    "Cyber" := ["Ransomware", "Data Breach", "DDoS"],
    "Pandemic" := ["Infectious Disease", "Biological"],
    "Political Risk" := ["Strike", "Riot", "War"]
  ]

  /** The codes of a region's countries, in display order. */
  function CountryCodes(region: Region): (codes: seq<string>)
    ensures |codes| == |region.countries|
    ensures forall i :: 0 <= i < |codes| ==> codes[i] == region.countries[i].code
  {
    seq(|region.countries|, i requires 0 <= i < |region.countries| => region.countries[i].code)
  }

  /** No two countries of the region share a code. */
  predicate DistinctCodes(region: Region) {
    forall i, j :: 0 <= i < j < |region.countries| ==> region.countries[i].code != region.countries[j].code
  }
}
