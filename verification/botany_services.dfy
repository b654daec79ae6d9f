/**
 * The plant services: taxon details and image occurrences from GBIF, the
 * summary that combines them, and the shaping of a Kindwise plant
 * identification. Every call to GBIF or Kindwise is a parameter of the
 * model; `None` from such a call stands for an exception it raised.
 */
module BotanyServices {
  import opened Values
  import opened BotanyUtils

  /** What the plant services raise. */
  datatype BotanyError =
    | GBIFNotFound(message: string)
    | GBIFError(message: string)
    | Unresolvable(cause: ResolveError)

  /** A JSON object as GBIF returns it. */
  type Record = map<string, Json>

  /** `species.name_usage(key=id, data="all", limit=1)`. */
  type NameUsage = Json -> Option<Record>

  /** The `results` entry of an occurrence search response. */
  datatype ResultsField = ResultsMissing | ResultsNull | Results(items: seq<Record>)

  /**
   * `occurrences.search(taxon_key=id, has_coordinate=True,
   * has_geospatial_issue=False, mediatype="StillImage", fields=..., limit=...)`.
   */
  type OccurrenceSearch = (Json, seq<string>, int) -> Option<ResultsField>

  /** The default `limit` of `get_plant_occurrences` and `get_plant_summary`. */
  const DefaultOccurrenceLimit: int := 300

  /** The fields asked for when the caller gives none. */
  const DefaultFields: seq<string> := ["name", "media", "license", "month", "year", "eventDate"]

  /** `get_plant_details(identifier)`. */
  function GetPlantDetails(identifier: Option<string>, backbone: Backbone, nameUsage: NameUsage)
    : (r: Result<Record, BotanyError>)
    ensures ResolveGbifId(identifier, backbone).Err? ==> r == Err(Unresolvable(ResolveGbifId(identifier, backbone).error))
    ensures r.Ok? ==> ResolveGbifId(identifier, backbone).Ok? && ResolveGbifId(identifier, backbone).value.Some?
  {
    match ResolveGbifId(identifier, backbone)
    case Err(e) => Err(Unresolvable(e))
    case Ok(None) => Err(GBIFNotFound("Plant not found"))
    case Ok(Some(id)) =>
      match nameUsage(id)
      case None => Err(GBIFError("Error accessing GBIF API"))
      case Some(details) => Ok(details)
  }

  /** An identifier that resolves to no id is not found, whatever the details service would answer. */
  lemma DetailsNotFoundBeforeCall(identifier: Option<string>, backbone: Backbone, u1: NameUsage, u2: NameUsage)
    requires ResolveGbifId(identifier, backbone) == Ok(None)
    ensures GetPlantDetails(identifier, backbone, u1) == GetPlantDetails(identifier, backbone, u2)
    ensures GetPlantDetails(identifier, backbone, u1) == Err(GBIFNotFound("Plant not found"))
  {
  }

  /** Any exception from the details call becomes `GBIFError`; an answer is returned as it came. */
  lemma DetailsCallOutcome(identifier: Option<string>, backbone: Backbone, nameUsage: NameUsage)
    requires ResolveGbifId(identifier, backbone).Ok? && ResolveGbifId(identifier, backbone).value.Some?
    ensures var id := ResolveGbifId(identifier, backbone).value.value;
      && (nameUsage(id).None? ==> GetPlantDetails(identifier, backbone, nameUsage) == Err(GBIFError("Error accessing GBIF API")))
      && (nameUsage(id).Some? ==> GetPlantDetails(identifier, backbone, nameUsage) == Ok(nameUsage(id).value))
  {
  }

  /** `fields or [...]`: the given fields, unless they are missing or empty. */
  function OccurrenceFields(fields: Option<seq<string>>): (fs: seq<string>)
    ensures |fs| > 0
    ensures fields.Some? && fields.value != [] ==> fs == fields.value
  {
    if fields.None? || fields.value == [] then DefaultFields else fields.value
  }

  /** `occ_data.get("results", []) or []`. */
  function ResultsOf(field: ResultsField): (items: seq<Record>)
    ensures field.Results? ==> items == field.items
    ensures !field.Results? ==> items == []
  {
    if field.Results? then field.items else []
  }

  /** `get_plant_occurrences(identifier, limit, fields)`. */
  function GetPlantOccurrences(identifier: Option<string>, limit: int := DefaultOccurrenceLimit,
                               fields: Option<seq<string>> := None,
                               backbone: Backbone, search: OccurrenceSearch)
    : (r: Result<seq<Record>, BotanyError>)
    ensures r.Ok? ==> |r.value| > 0
    ensures ResolveGbifId(identifier, backbone).Err? ==> r == Err(Unresolvable(ResolveGbifId(identifier, backbone).error))
  {
    match ResolveGbifId(identifier, backbone)
    case Err(e) => Err(Unresolvable(e))
    case Ok(None) => Err(GBIFNotFound("Plant not found"))
    case Ok(Some(id)) =>
      match search(id, OccurrenceFields(fields), limit)
      case None => Err(GBIFError("Error retrieving occurrences from GBIF API"))
      case Some(data) =>
        var results := ResultsOf(data);
        if results == [] then Err(GBIFNotFound("No occurrences found")) else Ok(results)
  }

  /** Leaving the fields out, or passing none, searches the six default fields. */
  lemma OccurrencesDefaultFields(identifier: Option<string>, limit: int, fields: Option<seq<string>>,
                                 backbone: Backbone, search: OccurrenceSearch)
    requires fields.None? || fields == Some([])
    ensures GetPlantOccurrences(identifier, limit, fields, backbone, search)
         == GetPlantOccurrences(identifier, limit, Some(DefaultFields), backbone, search)
  {
  }

  /**
   * A search that answers with a missing, null or empty `results` list is
   * not found; a non-empty list is returned unchanged.
   */
  lemma OccurrencesFromResults(identifier: Option<string>, limit: int, fields: Option<seq<string>>,
                               backbone: Backbone, search: OccurrenceSearch)
    requires ResolveGbifId(identifier, backbone).Ok? && ResolveGbifId(identifier, backbone).value.Some?
    requires search(ResolveGbifId(identifier, backbone).value.value, OccurrenceFields(fields), limit).Some?
    ensures var data := search(ResolveGbifId(identifier, backbone).value.value, OccurrenceFields(fields), limit).value;
      var r := GetPlantOccurrences(identifier, limit, fields, backbone, search);
      && (data.Results? && data.items != [] <==> r.Ok?)
      && (r.Ok? ==> r.value == data.items)
      && (r.Err? ==> r.error == GBIFNotFound("No occurrences found"))
  {
  }

  /** `sum(1 for o in occurrences if o.get("media"))`. */
  function CountWithMedia(occurrences: seq<Record>): (n: nat)
    ensures n <= |occurrences|
    ensures n == 0 <==> forall i :: 0 <= i < |occurrences| ==> !Truthy(Get(occurrences[i], "media"))
    ensures n == |occurrences| <==> forall i :: 0 <= i < |occurrences| ==> Truthy(Get(occurrences[i], "media"))
  {
    if occurrences == [] then 0
    else
      var rest := CountWithMedia(occurrences[1..]);
      assert forall i :: 1 <= i < |occurrences| ==> occurrences[1..][i - 1] == occurrences[i];
      (if Truthy(Get(occurrences[0], "media")) then 1 else 0) + rest
  }

  /** The `summary` block. */
  datatype Summary = Summary(
    scientificName: Json,
    canonicalName: Json,
    rank: Json,
    kingdom: Json,
    phylum: Json,
    family: Json,
    genus: Json,
    usageKey: Json,
    numOccurrences: nat,
    numWithMedia: nat)

  /** What `get_plant_summary` returns. */
  datatype PlantSummary = PlantSummary(details: Record, occurrences: seq<Record>, summary: Summary)

  /** The summary block computed from the details and the occurrences. */
  function Summarize(details: Record, occurrences: seq<Record>): (s: Summary)
    ensures s.numOccurrences == |occurrences|
    ensures s.numWithMedia <= s.numOccurrences
  {
    Summary(
      Get(details, "scientificName"), Get(details, "canonicalName"), Get(details, "rank"),
      Get(details, "kingdom"), Get(details, "phylum"), Get(details, "family"), Get(details, "genus"),
      Get(details, "usageKey"), |occurrences|, CountWithMedia(occurrences))
  }

  /** `get_plant_summary(identifier, occurrence_limit, occurrence_fields)`. */
  function GetPlantSummary(identifier: Option<string>, limit: int := DefaultOccurrenceLimit,
                           fields: Option<seq<string>> := None,
                           backbone: Backbone, nameUsage: NameUsage, search: OccurrenceSearch)
    : (r: Result<PlantSummary, BotanyError>)
    ensures r.Ok? ==> 0 < r.value.summary.numOccurrences == |r.value.occurrences|
    ensures r.Ok? ==> r.value.summary.numWithMedia <= r.value.summary.numOccurrences
  {
    match GetPlantDetails(identifier, backbone, nameUsage)
    case Err(e) => Err(e)
    case Ok(details) =>
      match GetPlantOccurrences(identifier, limit, fields, backbone, search)
      case Err(e) => Err(e)
      case Ok(occ) => Ok(PlantSummary(details, occ, Summarize(details, occ)))
  }

  /**
   * A summary is built from the details and the occurrences the two calls
   * return; it counts at least one occurrence, and no more with media than
   * occurrences.
   */
  lemma SummaryCounts(identifier: Option<string>, limit: int, fields: Option<seq<string>>,
                      backbone: Backbone, nameUsage: NameUsage, search: OccurrenceSearch)
    ensures var r := GetPlantSummary(identifier, limit, fields, backbone, nameUsage, search);
      r.Ok? ==>
        && GetPlantDetails(identifier, backbone, nameUsage) == Ok(r.value.details)
        && GetPlantOccurrences(identifier, limit, fields, backbone, search) == Ok(r.value.occurrences)
        && r.value.summary.numOccurrences == |r.value.occurrences| > 0
        && r.value.summary.numWithMedia <= r.value.summary.numOccurrences
        && r.value.summary.usageKey == Get(r.value.details, "usageKey")
  {
  }

  /**
   * Errors surface in call order: a details error first, then an
   * occurrences error (not-found included) exactly as raised.
   */
  lemma SummaryErrorsPropagate(identifier: Option<string>, limit: int, fields: Option<seq<string>>,
                               backbone: Backbone, nameUsage: NameUsage, search: OccurrenceSearch)
    ensures var d := GetPlantDetails(identifier, backbone, nameUsage);
      var o := GetPlantOccurrences(identifier, limit, fields, backbone, search);
      var r := GetPlantSummary(identifier, limit, fields, backbone, nameUsage, search);
      && (d.Err? ==> r == Err(d.error))
      && (d.Ok? && o.Err? ==> r == Err(o.error))
      && (r.Err? <==> d.Err? || o.Err?)
  {
  }

  // ---------------------------------------------------------------------
  // Kindwise
  // ---------------------------------------------------------------------

  /**
   * A probability as Kindwise reports it. It is only ever copied, so the
   * model does not need floating-point arithmetic.
   */
  type Probability = real

  /** One suggestion of an identification: a name, a probability, and the requested details. */
  datatype Suggestion = Suggestion(name: string, probability: Probability, details: map<string, Json>)

  /** The input echoed by an identification. */
  datatype IdentificationInput = IdentificationInput(latitude: Json, longitude: Json, datetime: Json)

  /** A `PlantIdentification`, with the parts that are read. */
  datatype Identification = Identification(
    accessToken: string,
    input: IdentificationInput,
    isPlantProbability: Probability,
    suggestions: seq<Suggestion>)

  /** What `parse_suggestions` raises: `IndexError` on no suggestions, `KeyError` on a missing `gbif_id`. */
  datatype KindwiseError = NoSuggestions | MissingGbifId | IdentifyFailed

  /** One entry of the `suggestions` dict. */
  datatype SuggestionEntry = SuggestionEntry(id: Json, name: string, probability: Probability)

  /** What `parse_suggestions` returns. */
  datatype ParsedSuggestions = ParsedSuggestions(
    suggestions: map<nat, SuggestionEntry>,
    topMatchId: Json,
    topMatchName: string,
    topMatchProbability: Probability)

  predicate HasGbifId(s: Suggestion)
  {
    "gbif_id" in s.details
  }

  function EntryOf(s: Suggestion): SuggestionEntry
    requires HasGbifId(s)
  {
    SuggestionEntry(s.details["gbif_id"], s.name, s.probability)
  }

  /**
   * `KindwiseService.parse_suggestions(suggestions)`: the suggestions keyed
   * by their position, and the first one repeated as the top match.
   */
  function ParseSuggestions(suggestions: seq<Suggestion>): (r: Result<ParsedSuggestions, KindwiseError>)
    ensures r == Err(NoSuggestions) <==> suggestions == []
    ensures r == Err(MissingGbifId) <==> suggestions != [] && exists i :: 0 <= i < |suggestions| && !HasGbifId(suggestions[i])
    ensures r.Ok? ==>
      && (forall i: nat :: i in r.value.suggestions <==> i < |suggestions|)
      && (forall i: nat :: i < |suggestions| ==> i in r.value.suggestions && r.value.suggestions[i] == EntryOf(suggestions[i]))
      && r.value.topMatchId == r.value.suggestions[0].id
      && r.value.topMatchName == r.value.suggestions[0].name
      && r.value.topMatchProbability == r.value.suggestions[0].probability
  {
    if suggestions == [] then Err(NoSuggestions)
    else if exists i :: 0 <= i < |suggestions| && !HasGbifId(suggestions[i]) then Err(MissingGbifId)
    else
      var top := suggestions[0];
      Ok(ParsedSuggestions(
        map i: nat | i < |suggestions| :: EntryOf(suggestions[i]),
        top.details["gbif_id"], top.name, top.probability))
  }

  /** What `parse_identification` returns: the echoed input merged with the parsed suggestions. */
  datatype IdentificationPayload = IdentificationPayload(
    accessToken: string,
    latitude: Json,
    longitude: Json,
    datetime: Json,
    probabilityIsPlant: Probability,
    parsed: ParsedSuggestions)

  /** `KindwiseService.parse_identification(identification)`. */
  function ParseIdentification(identification: Identification): (r: Result<IdentificationPayload, KindwiseError>)
    ensures r.Err? <==> ParseSuggestions(identification.suggestions).Err?
    ensures r.Err? ==> r.error == ParseSuggestions(identification.suggestions).error
    ensures r.Ok? ==>
      && r.value.accessToken == identification.accessToken
      && r.value.latitude == identification.input.latitude
      && r.value.longitude == identification.input.longitude
      && r.value.datetime == identification.input.datetime
      && r.value.probabilityIsPlant == identification.isPlantProbability
      && r.value.parsed == ParseSuggestions(identification.suggestions).value
  {
    match ParseSuggestions(identification.suggestions)
    case Err(e) => Err(e)
    case Ok(parsed) =>
      Ok(IdentificationPayload(
        identification.accessToken, identification.input.latitude, identification.input.longitude,
        identification.input.datetime, identification.isPlantProbability, parsed))
  }

  /** An uploaded image, passed through to Kindwise as it is. */
  type Image = string

  /**
   * `PlantApi.identify(images, latitude_longitude=..., language=["en"],
   * details=["gbif_id"], classification_level=SPECIES)`.
   */
  type Identify = (seq<Image>, Option<(Json, Json)>) -> Option<Identification>

  /** `KindwiseService.identify_plant(images, coordinates)`: every exception is re-raised. */
  function IdentifyPlant(images: seq<Image>, coordinates: Option<(Json, Json)>, identify: Identify)
    : (r: Result<IdentificationPayload, KindwiseError>)
    ensures identify(images, coordinates).None? ==> r == Err(IdentifyFailed)
    ensures identify(images, coordinates).Some? ==> r == ParseIdentification(identify(images, coordinates).value)
  {
    match identify(images, coordinates)
    case None => Err(IdentifyFailed)
    case Some(identification) => ParseIdentification(identification)
  }

  /**
   * A successful identification names as top match the first suggestion
   * Kindwise returned, with its GBIF id, and lists every suggestion.
   */
  lemma IdentifyTopMatch(images: seq<Image>, coordinates: Option<(Json, Json)>, identify: Identify)
    ensures var r := IdentifyPlant(images, coordinates, identify);
      r.Ok? ==>
        && identify(images, coordinates).Some?
        && var sug := identify(images, coordinates).value.suggestions;
        && |sug| > 0
        && r.value.parsed.topMatchId == sug[0].details["gbif_id"]
        && r.value.parsed.topMatchName == sug[0].name
        && |r.value.parsed.suggestions| == |sug|
  {
    var r := IdentifyPlant(images, coordinates, identify);
    if r.Ok? {
      var sug := identify(images, coordinates).value.suggestions;
      RangeSize(r.value.parsed.suggestions.Keys, |sug|);
    }
  }

  /** A set holding exactly the naturals below `n` has `n` elements. */
  lemma {:induction false} RangeSize(keys: set<nat>, n: nat)
    requires forall i: nat :: i in keys <==> i < n
    ensures |keys| == n
  {
    if n > 0 {
      RangeSize(keys - {n - 1}, n - 1);
    }
  }
}
