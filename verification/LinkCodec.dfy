/** Printing a location as a hash and decoding any string as a location. */
module LinkCodec {
  import opened Text
  import opened Locations
  import opened UrlEncoding
  import Ordering

  // ---- Query parameters --------------------------------------------------------------------------

  /** The scalar parameters, in the order in which the printer sets them. */
  datatype Field =
    | View | AccountId | Event | AssessmentId | AssessmentVersion | AssessmentAccount
    | Opportunity | FederalAssessment | FederalVersion | Route | RouteAccount | Partner
    | Partnership | Facility | ScopeField | Path | RelationshipMode | RelationshipStart
    | Action | Record | Sort | Anchor

  const FIELDS: seq<Field> := [
    View, AccountId, Event, AssessmentId, AssessmentVersion, AssessmentAccount,
    Opportunity, FederalAssessment, FederalVersion, Route, RouteAccount, Partner,
    Partnership, Facility, ScopeField, Path, RelationshipMode, RelationshipStart,
    Action, Record, Sort, Anchor]

  function Name(f: Field): string {
    match f
    case View => "view"
    case AccountId => "account_id"
    case Event => "event"
    case AssessmentId => "assessment"
    case AssessmentVersion => "av"
    case AssessmentAccount => "aa"
    case Opportunity => "opportunity"
    case FederalAssessment => "fa"
    case FederalVersion => "fav"
    case Route => "route"
    case RouteAccount => "ra"
    case Partner => "partner"
    case Partnership => "partnership"
    case Facility => "facility"
    case ScopeField => "scope"
    case Path => "path"
    case RelationshipMode => "relationship_mode"
    case RelationshipStart => "relationship_start"
    case Action => "action"
    case Record => "record"
    case Sort => "sort"
    case Anchor => "anchor"
  }

  const RETURN := "return"
  const FILTER_PREFIX := "f."

  function FieldIndex(f: Field): nat {
    match f
    case View => 0 case AccountId => 1 case Event => 2 case AssessmentId => 3 case AssessmentVersion => 4
    case AssessmentAccount => 5 case Opportunity => 6 case FederalAssessment => 7 case FederalVersion => 8
    case Route => 9 case RouteAccount => 10 case Partner => 11 case Partnership => 12 case Facility => 13
    case ScopeField => 14 case Path => 15 case RelationshipMode => 16 case RelationshipStart => 17
    case Action => 18 case Record => 19 case Sort => 20 case Anchor => 21
  }

  lemma FieldListed(f: Field)
    ensures FieldIndex(f) < |FIELDS| && FIELDS[FieldIndex(f)] == f
  {
  }

  lemma NamesDistinct(f: Field, g: Field)
    requires Name(f) == Name(g)
    ensures f == g
  {
  }

  lemma NamesAreNoFilters(f: Field)
    ensures Name(f) != RETURN && |Name(f)| >= 2 && Name(f)[1] != '.'
  {
  }

  // ---- Printing ----------------------------------------------------------------------------------

  function IdText(id: Option<string>): string {
    if id.Some? && ValidId(id.value) then id.value else ""
  }

  function VersionText(n: int): string {
    if n < 0 then "-" + Numeral(-n) else Numeral(n)
  }

  /** The text printed for a parameter; the empty string when it is not printed. */
  function Slot(loc: Location, f: Field): string {
    match f
    case View => if loc.subview.Some? && SubviewAllowed(loc.surface, loc.subview.value) then loc.subview.value else ""
    case AccountId => if loc.surface.Accounts? then "" else IdText(loc.accountId)
    case Event => IdText(if loc.assessment.Some? then Some(loc.assessment.value.eventId) else loc.eventId)
    case AssessmentId => if loc.assessment.Some? then IdText(Some(loc.assessment.value.assessmentId)) else ""
    case AssessmentVersion => if loc.assessment.Some? then VersionText(loc.assessment.value.version) else ""
    case AssessmentAccount =>
      if loc.assessment.Some? && Some(loc.assessment.value.accountId) != loc.accountId
      then IdText(Some(loc.assessment.value.accountId)) else ""
    case Opportunity => if loc.federal.Some? then IdText(Some(loc.federal.value.opportunityId)) else ""
    case FederalAssessment => if loc.federal.Some? then IdText(Some(loc.federal.value.assessmentId)) else ""
    case FederalVersion => if loc.federal.Some? then VersionText(loc.federal.value.version) else ""
    case Route => if loc.federal.Some? then RouteName(loc.federal.value.routeType) else ""
    case RouteAccount => if loc.federal.Some? then IdText(loc.federal.value.accountId) else ""
    case Partner => if loc.federal.Some? then IdText(loc.federal.value.partnershipId) else ""
    case Partnership => IdText(loc.partnershipId)
    case Facility => IdText(loc.facilityId)
    case ScopeField => if loc.scope.Some? then ScopeName(loc.scope.value) else ""
    case Path => if loc.relationship.Some? then IdText(loc.relationship.value.pathId) else ""
    case RelationshipMode => if loc.relationship.Some? then IdText(loc.relationship.value.mode) else ""
    case RelationshipStart => if loc.relationship.Some? then IdText(loc.relationship.value.startAccountId) else ""
    case Action => IdText(loc.actionId)
    case Record => IdText(loc.recordId)
    case Sort => IdText(loc.sort)
    case Anchor => IdText(loc.anchor)
  }

  function FieldPairs(fields: seq<Field>, loc: Location): Pairs {
    if fields == [] then []
    else
      (if Slot(loc, fields[0]) != "" then [(Name(fields[0]), Slot(loc, fields[0]))] else [])
      + FieldPairs(fields[1..], loc)
  }

  function ValuePairs(key: string, values: seq<string>): Pairs {
    if values == [] then [] else [(FILTER_PREFIX + key, values[0])] + ValuePairs(key, values[1..])
  }

  /** The filter parameters for the keys of a list, skipping keys that are not allowed. */
  function FilterPairs(keys: seq<string>, filters: Filters): Pairs
    requires forall k | k in keys :: k in filters
  {
    if keys == [] then []
    else
      (if keys[0] in FILTER_KEYS then ValuePairs(keys[0], SafeValues(ValuesIn(filters[keys[0]]))) else [])
      + FilterPairs(keys[1..], filters)
  }

  ghost function AllFilterPairs(filters: Option<Filters>): Pairs {
    if filters.None? then [] else FilterPairs(Ordering.Sorted(filters.value.Keys), filters.value)
  }

  function ReturnPairs(returnHash: string): Pairs {
    if returnHash == "" then [] else [(RETURN, returnHash)]
  }

  ghost function Params(loc: Location, returnHash: string): Pairs {
    FieldPairs(FIELDS, loc) + (AllFilterPairs(loc.filters) + ReturnPairs(returnHash))
  }

  function AccountSegment(loc: Location): string {
    if loc.surface.Accounts? && IdText(loc.accountId) != "" then "/" + EncodeComponent(loc.accountId.value) else ""
  }

  function HashText(loc: Location, params: Pairs): string {
    var query := Serialize(params);
    "#/" + SurfaceName(loc.surface) + AccountSegment(loc) + (if query == "" then "" else "?" + query)
  }

  /** `workspaceHash`: the printed link of a location. */
  ghost function Encode(loc: Location): string
    decreases loc.returnTo.Some?
  {
    var returnHash := if loc.returnTo.None? then "" else Encode(loc.returnTo.value.(returnTo := None));
    HashText(loc, Params(loc, returnHash))
  }

  // ---- Decoding ----------------------------------------------------------------------------------

  function SafeId(raw: string): (id: Option<string>)
    ensures id.Some? ==> ValidId(id.value)
  {
    if raw == "" then None
    else match DecodeComponent(raw)
      case None => None
      case Some(decoded) => if ValidId(decoded) && decoded != ".." && decoded != "." then Some(decoded) else None
  }

  function PositiveInteger(raw: string): (n: Option<int>)
    ensures n.Some? ==> ValidVersion(n.value)
  {
    if raw == "" || |raw| > 9 || !All(raw, IsDigit) then None
    else
      NumeralValueBound(raw);
      DigitsBound(|raw|);
      if NumeralValue(raw) > 0 then Some(NumeralValue(raw)) else None
  }

  lemma DigitsBound(k: nat)
    requires k <= 9
    ensures Power10(k) <= MAX_VERSION + 1
  {
    if k < 9 {
      PowerMonotone(k, 9);
    }
    assert Power10(9) == 1_000_000_000 by {
      assert Power10(3) == 1000;
      assert Power10(6) == 1000 * Power10(3);
    }
  }

  lemma {:induction false} PowerMonotone(j: nat, k: nat)
    requires j <= k
    ensures Power10(j) <= Power10(k)
    decreases k - j
  {
    if j < k {
      PowerMonotone(j + 1, k);
    }
  }

  function Raw(params: Pairs, f: Field): string { Get(params, Name(f)) }

  function Id(params: Pairs, f: Field): (id: Option<string>)
    ensures OptionalId(id)
  {
    SafeId(Raw(params, f))
  }

  predicate BadId(params: Pairs, f: Field) { Raw(params, f) != "" && Id(params, f).None? }

  function OrElse<T>(a: Option<T>, b: Option<T>): Option<T> { if a.Some? then a else b }

  function AssessmentOf(params: Pairs, accountId: Option<string>): Option<Assessment> {
    var id := Id(params, AssessmentId);
    var version := PositiveInteger(Raw(params, AssessmentVersion));
    var event := Id(params, Event);
    var account := OrElse(Id(params, AssessmentAccount), accountId);
    if id.Some? && version.Some? && event.Some? && account.Some?
    then Some(Assessment(id.value, version.value, event.value, account.value)) else None
  }

  function FederalOf(params: Pairs): Option<Federal> {
    var opportunity := Id(params, Opportunity);
    var id := Id(params, FederalAssessment);
    var version := PositiveInteger(Raw(params, FederalVersion));
    var route := RouteOf(Raw(params, Route));
    if opportunity.Some? && id.Some? && version.Some? && route.Some?
    then Some(Federal(opportunity.value, id.value, version.value, route.value, Id(params, RouteAccount),
                      Id(params, Partner)))
    else None
  }

  function ScopeOf(params: Pairs, accountId: Option<string>): Option<Scope> {
    var raw := Raw(params, ScopeField);
    if raw == "facility" && Id(params, Facility).Some? then Some(FacilityScope)
    else if raw == "account" || accountId.Some? then Some(AccountScope)
    else None
  }

  function RelationshipOf(params: Pairs): Option<Relationship> {
    var r := Relationship(Id(params, Path), Id(params, RelationshipMode), Id(params, RelationshipStart));
    if r.pathId.Some? || r.mode.Some? || r.startAccountId.Some? then Some(r) else None
  }

  function SubviewOf(surface: Surface, params: Pairs): Option<string> {
    var raw := Raw(params, View);
    if raw != "" && SubviewAllowed(surface, raw) then Some(raw) else None
  }

  /** The safe values of one filter key, in the order of the query. */
  function ValuesOf(params: Pairs, key: string): seq<string> {
    if params == [] then []
    else
      (if params[0].0 == FILTER_PREFIX + key && SafeValue(params[0].1) then [params[0].1] else [])
      + ValuesOf(params[1..], key)
  }

  function Collapse(values: seq<string>): FilterValue {
    if |values| == 1 then One(values[0]) else Many(values)
  }

  function FilterMap(params: Pairs): Filters {
    map k | k in FILTER_KEYS && ValuesOf(params, k) != [] :: Collapse(ValuesOf(params, k))
  }

  function FiltersOf(params: Pairs): Option<Filters> {
    if FilterMap(params) == map[] then None else Some(FilterMap(params))
  }

  datatype Decoded = Decoded(location: Location, canonicalHash: string, malformed: bool)

  predicate AssessmentInvalid(params: Pairs, accountId: Option<string>) {
    || BadId(params, AssessmentId) || BadId(params, Event) || BadId(params, AssessmentAccount)
    || ((Id(params, AssessmentId).Some? || PositiveInteger(Raw(params, AssessmentVersion)).Some?)
        && AssessmentOf(params, accountId).None?)
  }

  predicate FederalInvalid(params: Pairs) {
    var route := RouteOf(Raw(params, Route));
    || BadId(params, Opportunity) || BadId(params, FederalAssessment)
    || (Raw(params, Route) != "" && route.None?)
    || (FederalOf(params).Some? && (BadId(params, RouteAccount) || BadId(params, Partner)))
    || ((Id(params, Opportunity).Some? || Id(params, FederalAssessment).Some?
         || PositiveInteger(Raw(params, FederalVersion)).Some? || route.Some?)
        && FederalOf(params).None?)
  }

  predicate ScopeInvalid(params: Pairs) {
    var raw := Raw(params, ScopeField);
    BadId(params, Facility) || raw !in {"", "facility", "account"} || (raw == "facility" && Id(params, Facility).None?)
  }

  predicate OtherIdsInvalid(params: Pairs) {
    || BadId(params, Path) || BadId(params, RelationshipMode) || BadId(params, RelationshipStart)
    || BadId(params, Partnership) || BadId(params, Action) || BadId(params, Record)
    || BadId(params, Sort) || BadId(params, Anchor)
  }

  /** The account of a query: the one of the path, else the parameter. */
  function AccountOf(params: Pairs, pathAccount: Option<string>): Option<string> {
    OrElse(pathAccount, Id(params, AccountId))
  }

  /** `queryLocation`, with the decoded return link as a parameter. */
  function QueryLocation(surface: Surface, params: Pairs, pathAccount: Option<string>,
                         nested: Option<Decoded>): Location {
    var accountId := AccountOf(params, pathAccount);
    var assessment := AssessmentOf(params, accountId);
    var federal := FederalOf(params);
    Location(
      surface, accountId, assessment, if assessment.Some? then Some(assessment.value.eventId) else Id(params, Event),
      federal, OrElse(Id(params, Partnership), if federal.Some? then federal.value.partnershipId else None),
      Id(params, Facility), ScopeOf(params, accountId), RelationshipOf(params),
      Id(params, Action), Id(params, Record), SubviewOf(surface, params), FiltersOf(params), Id(params, Sort),
      if nested.Some? && !nested.value.malformed then Some(nested.value.location.(returnTo := None)) else None,
      Id(params, Anchor))
  }

  predicate QueryInvalid(surface: Surface, params: Pairs, pathAccount: Option<string>, nested: Option<Decoded>) {
    || (pathAccount.None? && BadId(params, AccountId))
    || (Raw(params, View) != "" && SubviewOf(surface, params).None?)
    || AssessmentInvalid(params, AccountOf(params, pathAccount))
    || FederalInvalid(params)
    || ScopeInvalid(params)
    || OtherIdsInvalid(params)
    || (nested.Some? && nested.value.malformed)
  }

  function DropPrefix(s: string, c: char): string {
    if s != "" && s[0] == c then s[1..] else s
  }

  /** The text between the leading `#/` and the first question mark. */
  function PathText(hash: string): string { Split(DropPrefix(DropPrefix(hash, '#'), '/'), '?')[0] }

  /** The text between the first and the second question mark. */
  function QueryText(hash: string): string {
    var pieces := Split(DropPrefix(DropPrefix(hash, '#'), '/'), '?');
    if |pieces| > 1 then pieces[1] else ""
  }

  function NonEmpty(parts: seq<string>): seq<string> {
    if parts == [] then [] else (if parts[0] != "" then [parts[0]] else []) + NonEmpty(parts[1..])
  }

  function Segments(hash: string): seq<string> { NonEmpty(Split(PathText(hash), '/')) }

  /** Path segment `i`, with the empty string for a missing one. */
  function Segment(parts: seq<string>, i: nat): string { if i < |parts| then parts[i] else "" }

  function PathSurface(parts: seq<string>): Surface {
    var s := SurfaceOf(Segment(parts, 0));
    if s.Some? then s.value else Today
  }

  function PathAccount(surface: Surface, parts: seq<string>): Option<string> {
    if surface.Accounts? then SafeId(Segment(parts, 1)) else None
  }

  /** The view and record a longer path stands for, or nothing when the path is not understood. */
  function PathView(surface: Surface, parts: seq<string>): Option<(string, string)> {
    if surface.Today? && Segment(parts, 1) == "brief" && SafeId(Segment(parts, 2)).Some? then
      Some(("recovery", SafeId(Segment(parts, 2)).value))
    else if surface.Intelligence? && Segment(parts, 1) in {"federal", "markets"} && |parts| == 2 then
      Some((parts[1], ""))
    else if surface.Intelligence? && Segment(parts, 1) == "brief" && SafeId(Segment(parts, 2)).Some? then
      Some(("brief", SafeId(Segment(parts, 2)).value))
    else if surface.Settings? && SubviewAllowed(Settings, Segment(parts, 1)) && |parts| == 2 then Some((parts[1], ""))
    else None
  }

  predicate LongPath(surface: Surface, parts: seq<string>) { |parts| > if surface.Accounts? then 2 else 1 }

  function PathParams(surface: Surface, parts: seq<string>, params: Pairs): Pairs {
    var view := PathView(surface, parts);
    if !LongPath(surface, parts) || view.None? then params
    else
      var viewed := Set(params, Name(View), view.value.0);
      if view.value.1 == "" then viewed else Set(viewed, Name(Record), view.value.1)
  }

  predicate PathInvalid(surface: Surface, parts: seq<string>) {
    || (Segment(parts, 0) != "" && SurfaceOf(Segment(parts, 0)).None?)
    || (surface.Accounts? && Segment(parts, 1) != "" && SafeId(Segment(parts, 1)).None?)
    || (LongPath(surface, parts) && PathView(surface, parts).None?)
  }

  /** Every parameter the decoder sees for a hash. */
  function HashParams(hash: string): Pairs {
    var parts := Segments(hash);
    PathParams(PathSurface(parts), parts, Parse(QueryText(hash)))
  }

  function ReturnText(hash: string): string { Get(HashParams(hash), RETURN) }

  /** The view and record of a path do not touch the other parameters. */
  lemma PathParamsGet(surface: Surface, parts: seq<string>, params: Pairs)
    ensures Get(PathParams(surface, parts, params), RETURN) == Get(params, RETURN)
  {
    hide Get;
    hide Set;
    hide PathView;
    var view := PathView(surface, parts);
    if LongPath(surface, parts) && view.Some? {
      GetSet(params, Name(View), view.value.0, RETURN);
      GetSet(Set(params, Name(View), view.value.0), Name(Record), view.value.1, RETURN);
    }
  }

  lemma QueryTextShorter(hash: string)
    ensures |QueryText(hash)| <= |hash|
  {
    hide Split;
    SplitShorter(DropPrefix(DropPrefix(hash, '#'), '/'), '?');
  }

  /** The link to return to is strictly shorter than the link that carries it, so decoding ends. */
  lemma ReturnTextShorter(hash: string)
    requires ReturnText(hash) != ""
    ensures |ReturnText(hash)| < |hash|
  {
    hide PathParams;
    hide QueryText;
    hide Get;
    hide Parse;
    PathParamsGet(PathSurface(Segments(hash)), Segments(hash), Parse(QueryText(hash)));
    GetShorter(QueryText(hash), RETURN);
    QueryTextShorter(hash);
  }

  /** The decoded return link of a hash, when it carries one. */
  ghost function Nested(hash: string): Option<Decoded>
    decreases |hash|, 0
  {
    if ReturnText(hash) == "" then None
    else
      ReturnTextShorter(hash);
      Some(Decode(ReturnText(hash), false))
  }

  /** `decodeWorkspaceLocation`. */
  ghost function Decode(hash: string, allowReturn: bool): Decoded
    decreases |hash|, 1
  {
    var parts := Segments(hash);
    var surface := PathSurface(parts);
    var params := HashParams(hash);
    var account := PathAccount(surface, parts);
    var nested := Nested(hash);
    var read := QueryLocation(surface, params, account, nested);
    var location := if allowReturn then read else read.(returnTo := None);
    Decoded(location, Encode(location), PathInvalid(surface, parts) || QueryInvalid(surface, params, account, nested))
  }
}
