/** Workspace deep links: the structured location, its canonical hash and the total, lenient
    decoder. */
module Locations {
  import opened Text

  datatype Surface =
    | Today | Opportunities | Accounts | Intelligence | Map | Actions | Communications | Settings | Monitor

  datatype Scope = AccountScope | FacilityScope

  datatype RouteType = DirectBtx | CustomerExpansion | StrategicPartner | NewProspect | MarketWatch

  datatype Assessment = Assessment(assessmentId: string, version: int, eventId: string, accountId: string)

  datatype Federal = Federal(
    opportunityId: string, assessmentId: string, version: int, routeType: RouteType,
    accountId: Option<string>, partnershipId: Option<string>)

  datatype Relationship = Relationship(pathId: Option<string>, mode: Option<string>, startAccountId: Option<string>)

  datatype FilterValue = One(value: string) | Many(values: seq<string>)

  type Filters = map<string, FilterValue>

  datatype Location = Location(
    surface: Surface,
    accountId: Option<string>,
    assessment: Option<Assessment>,
    eventId: Option<string>,
    federal: Option<Federal>,
    partnershipId: Option<string>,
    facilityId: Option<string>,
    scope: Option<Scope>,
    relationship: Option<Relationship>,
    actionId: Option<string>,
    recordId: Option<string>,
    subview: Option<string>,
    filters: Option<Filters>,
    sort: Option<string>,
    returnTo: Option<Location>,
    anchor: Option<string>)

  function SurfaceName(s: Surface): string {
    match s
    case Today => "today"
    case Opportunities => "opportunities"
    case Accounts => "accounts"
    case Intelligence => "intelligence"
    case Map => "map"
    case Actions => "actions"
    case Communications => "communications"
    case Settings => "settings"
    case Monitor => "monitor"
  }

  function SurfaceOf(name: string): Option<Surface> {
    if name == "today" then Some(Today)
    else if name == "opportunities" then Some(Opportunities)
    else if name == "accounts" then Some(Accounts)
    else if name == "intelligence" then Some(Intelligence)
    else if name == "map" then Some(Map)
    else if name == "actions" then Some(Actions)
    else if name == "communications" then Some(Communications)
    else if name == "settings" then Some(Settings)
    else if name == "monitor" then Some(Monitor)
    else None
  }

  function RouteName(r: RouteType): string {
    match r
    case DirectBtx => "DIRECT_BTX"
    case CustomerExpansion => "CUSTOMER_EXPANSION"
    case StrategicPartner => "STRATEGIC_PARTNER"
    case NewProspect => "NEW_PROSPECT"
    case MarketWatch => "MARKET_WATCH"
  }

  function RouteOf(name: string): Option<RouteType> {
    if name == "DIRECT_BTX" then Some(DirectBtx)
    else if name == "CUSTOMER_EXPANSION" then Some(CustomerExpansion)
    else if name == "STRATEGIC_PARTNER" then Some(StrategicPartner)
    else if name == "NEW_PROSPECT" then Some(NewProspect)
    else if name == "MARKET_WATCH" then Some(MarketWatch)
    else None
  }

  function ScopeName(s: Scope): string {
    match s case AccountScope => "account" case FacilityScope => "facility"
  }

  predicate SubviewAllowed(surface: Surface, view: string) {
    match surface
    case Today => view == "recovery"
    case Accounts => view in {"overview", "partnership", "relationships", "record"}
    case Intelligence => view in {"monitor", "brief", "federal", "markets"}
    case Map => view in {"map", "list"}
    case Actions => view in {"actions", "suggestions", "completed"}
    case Settings => view in {"personal", "access", "integrations"}
    case Opportunities | Communications | Monitor => false
  }

  const FILTER_KEYS: set<string> := {
    "view", "profileTab", "lane", "kind", "account", "business_unit", "market", "metric", "average", "compare",
    "customer", "source", "timing", "status", "priority", "query", "notice_type", "fiscal_year", "classification",
    "industry", "industries", "relationships", "layers", "signal_timing", "naics", "business_units", "capabilities",
    "fulfillment", "radius", "scope", "partnership", "shortlist", "top100", "coverage", "page", "validation_page",
    "sort_direction", "suggestion_view", "opportunity_view", "opportunity_group", "opportunity_stage",
    "opportunity_collapsed", "opportunity_fixture"
  }

  lemma SurfaceRoundTrip(s: Surface)
    ensures SurfaceOf(SurfaceName(s)) == Some(s)
    ensures '/' !in SurfaceName(s) && '?' !in SurfaceName(s) && SurfaceName(s) != ""
  {
  }

  lemma RouteRoundTrip(r: RouteType)
    ensures RouteOf(RouteName(r)) == Some(r) && RouteName(r) != ""
  {
  }

  // ---- Safe identifiers, versions and filter values -------------------------------------------

  predicate IdCharacter(c: char) {
    IsAlphanumeric(c) || c in "_.:@-"
  }

  /** An alphanumeric character followed by at most 199 letters, digits, `_ . : @ -`. */
  predicate ValidId(id: string) {
    1 <= |id| <= 200 && IsAlphanumeric(id[0]) && All(id, IdCharacter)
  }

  /** The pattern of an id, character by character. */
  lemma ValidIdIff(id: string)
    ensures ValidId(id)
       <==> exists first: char, rest: string ::
              && id == [first] + rest && |rest| < 200
              && ('A' <= first <= 'Z' || 'a' <= first <= 'z' || '0' <= first <= '9')
              && forall c | c in rest ::
                   || 'A' <= c <= 'Z' || 'a' <= c <= 'z' || '0' <= c <= '9'
                   || c == '_' || c == '.' || c == ':' || c == '@' || c == '-'
  {
    if ValidId(id) {
      assert id == [id[0]] + id[1..];
      forall c | c in id[1..] ensures IdCharacter(c) {
        assert c in id;
      }
    }
  }

  predicate OptionalId(id: Option<string>) {
    id.Some? ==> ValidId(id.value)
  }

  const MAX_VERSION := 999_999_999

  predicate ValidVersion(n: int) {
    1 <= n <= MAX_VERSION
  }

  /** The length JavaScript reports: code units of UTF-16. */
  function Utf16Length(s: string): nat {
    if s == "" then 0 else (if s[0] as int >= 0x10000 then 2 else 1) + Utf16Length(s[1..])
  }

  /** At most 200 code units and no control character. */
  predicate SafeValue(value: string) {
    Utf16Length(value) <= 200 && forall c | c in value :: c >= ' ' && c != '\U{7F}'
  }

  /** The places of the characters beyond the basic plane. */
  function Wide(s: string): set<nat> { set k: nat | k < |s| && s[k] as int >= 0x10000 }

  lemma {:induction false} Utf16Snoc(s: string, c: char)
    ensures Utf16Length(s + [c]) == Utf16Length(s) + if c as int >= 0x10000 then 2 else 1
  {
    if s == "" {
      assert s + [c] == [c] && Utf16Length([c][1..]) == 0;
    } else {
      assert (s + [c])[1..] == s[1..] + [c];
      Utf16Snoc(s[1..], c);
    }
  }

  lemma WideSnoc(s: string, c: char)
    ensures |Wide(s + [c])| == |Wide(s)| + if c as int >= 0x10000 then 1 else 0
  {
    assert |s| !in Wide(s);
    assert Wide(s + [c]) == Wide(s) + if c as int >= 0x10000 then {|s|} else {};
  }

  lemma {:induction false} WideCount(s: string)
    ensures Utf16Length(s) == |s| + |Wide(s)|
    decreases |s|
  {
    if s == "" {
      assert Wide(s) == {};
    } else {
      hide Utf16Length;
      hide Wide;
      var init, c := s[..|s| - 1], s[|s| - 1];
      assert init + [c] == s;
      WideCount(init);
      Utf16Snoc(init, c);
      WideSnoc(init, c);
    }
  }

  /** A value is safe exactly when its characters, those beyond the basic plane counted twice, are at most 200 and none
      is a control character. */
  lemma SafeValueIff(value: string)
    ensures SafeValue(value)
       <==> && |value| + |Wide(value)| <= 200
            && forall k | 0 <= k < |value| :: value[k] as int >= 0x20 && value[k] as int != 0x7F
  {
    WideCount(value);
    if SafeValue(value) {
      forall k | 0 <= k < |value| ensures value[k] >= ' ' && value[k] != '\U{7F}' {
        assert value[k] in value;
      }
    }
  }

  function SafeValues(values: seq<string>): (r: seq<string>)
    ensures forall v | v in r :: SafeValue(v)
  {
    if values == [] then []
    else (if SafeValue(values[0]) then [values[0]] else []) + SafeValues(values[1..])
  }

  function ValuesIn(value: FilterValue): seq<string> {
    match value case One(v) => [v] case Many(vs) => vs
  }

  // ---- The normal form --------------------------------------------------------------------------

  predicate NormalAssessment(a: Assessment) {
    ValidId(a.assessmentId) && ValidVersion(a.version) && ValidId(a.eventId) && ValidId(a.accountId)
  }

  predicate NormalFederal(f: Federal) {
    && ValidId(f.opportunityId) && ValidId(f.assessmentId) && ValidVersion(f.version)
    && OptionalId(f.accountId) && OptionalId(f.partnershipId)
  }

  predicate NormalRelationship(r: Relationship) {
    && OptionalId(r.pathId) && OptionalId(r.mode) && OptionalId(r.startAccountId)
    && (r.pathId.Some? || r.mode.Some? || r.startAccountId.Some?)
  }

  predicate NormalFilterValue(value: FilterValue) {
    && (value.Many? ==> |value.values| >= 2)
    && forall v | v in ValuesIn(value) :: SafeValue(v)
  }

  predicate NormalFilters(filters: Filters) {
    && filters != map[]
    && filters.Keys <= FILTER_KEYS
    && forall k | k in filters :: NormalFilterValue(filters[k])
  }

  /** The normal form apart from the return link: identifiers are valid; an account fixes a scope; a
      facility scope names a facility; an assessment repeats its event as the selected event; a
      federal partner is also the selected partnership; filters are nonempty, allowed, safe and a
      single value is not a list. */
  predicate NormalHere(loc: Location) {
    && OptionalId(loc.accountId)
    && (loc.assessment.Some? ==>
          NormalAssessment(loc.assessment.value) && loc.eventId == Some(loc.assessment.value.eventId))
    && OptionalId(loc.eventId)
    && (loc.federal.Some? ==>
          NormalFederal(loc.federal.value) && (loc.federal.value.partnershipId.Some? ==> loc.partnershipId.Some?))
    && OptionalId(loc.partnershipId) && OptionalId(loc.facilityId)
    && (loc.accountId.Some? ==> loc.scope.Some?)
    && (loc.scope == Some(FacilityScope) ==> loc.facilityId.Some?)
    && (loc.relationship.Some? ==> NormalRelationship(loc.relationship.value))
    && OptionalId(loc.actionId) && OptionalId(loc.recordId)
    && (loc.subview.Some? ==> SubviewAllowed(loc.surface, loc.subview.value))
    && (loc.filters.Some? ==> NormalFilters(loc.filters.value))
    && OptionalId(loc.sort) && OptionalId(loc.anchor)
  }

  /** The full normal form: a return link is itself normal and returns nowhere. */
  predicate Normal(loc: Location) {
    && NormalHere(loc)
    && (loc.returnTo.Some? ==> loc.returnTo.value.returnTo.None? && NormalHere(loc.returnTo.value))
  }
}
