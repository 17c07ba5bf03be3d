/** Links as people and other pages write them: paths, hand-written queries, and when a link is flagged. */
module LinkPaths {
  import opened Text
  import opened Locations
  import opened UrlEncoding
  import opened LinkCodec
  import opened LinkTheorems

  // ---- A link that is only a path --------------------------------------------------------------------

  /** Path segments as they are written. */
  predicate PathSegments(parts: seq<string>) {
    parts != [] && forall part | part in parts :: part != "" && '/' !in part && '?' !in part
  }

  function PathHash(parts: seq<string>): string { "#/" + Join(parts, "/") }

  lemma PathHashReads(parts: seq<string>)
    requires PathSegments(parts)
    ensures Segments(PathHash(parts)) == parts
    ensures HashParams(PathHash(parts)) == PathParams(PathSurface(parts), parts, [])
  {
    hide PathParams;
    hide PathSurface;
    var path := Join(parts, "/");
    JoinLacks(parts, "/", '?');
    PrefixDropped(path);
    SplitJoin([path], '?');
    assert [path][1..] == [];
    SplitJoin(parts, '/');
    NonEmptyAll(parts);
    NothingParsed();
  }

  lemma NothingParsed()
    ensures Parse("") == []
  {
    assert Split("", '&') == [""];
    assert [""][1..] == [];
  }

  /** The location of a link that names at most a view and a record. */
  function Plain(surface: Surface, recordId: Option<string>, subview: Option<string>): Location {
    Location(surface, None, None, None, None, None, None, None, None, None, recordId, subview, None, None, None, None)
  }

  ghost predicate ReadsAs(hash: string, loc: Location) { Decode(hash, true) == Decoded(loc, Encode(loc), false) }

  function ViewPairs(view: string, record: string): Pairs {
    (if view == "" then [] else [("view", view)]) + if record == "" then [] else [("record", record)]
  }

  lemma GetFirst(pair: (string, string), rest: Pairs, name: string)
    ensures Get([pair] + rest, name) == if pair.0 == name then pair.1 else Get(rest, name)
    ensures Get([], name) == ""
  {
    assert ([pair] + rest)[1..] == rest;
  }

  lemma ViewPairsGet(view: string, record: string, name: string)
    ensures Get(ViewPairs(view, record), name)
         == if name == "view" then view else if name == "record" then record else ""
  {
    var tail: Pairs := if record == "" then [] else [("record", record)];
    GetFirst(("record", record), [], name);
    GetFirst(("view", view), tail, name);
    assert [("record", record)] + [] == [("record", record)] && [] + tail == tail;
  }

  lemma ViewPairsRaw(view: string, record: string, f: Field)
    ensures Raw(ViewPairs(view, record), f) == if f == View then view else if f == Record then record else ""
  {
    ViewPairsGet(view, record, Name(f));
    if Name(f) == Name(View) {
      NamesDistinct(f, View);
    }
    if Name(f) == Name(Record) {
      NamesDistinct(f, Record);
    }
  }

  lemma {:induction false} NoFilters(pairs: Pairs)
    requires forall pair | pair in pairs :: |pair.0| >= 2 && pair.0[1] != '.'
    ensures FiltersOf(pairs) == None
  {
    forall k | k in FILTER_KEYS ensures ValuesOf(pairs, k) == [] {
      forall pair | pair in pairs ensures pair.0 != FILTER_PREFIX + k {
        assert (FILTER_PREFIX + k)[1] == '.';
      }
      ValuesAbsent(pairs, k);
    }
    assert FilterMap(pairs) == map[];
  }

  lemma BlankId(params: Pairs, f: Field)
    requires Raw(params, f) == ""
    ensures Id(params, f) == None && !BadId(params, f)
  {
    NoId();
    hide SafeId;
  }

  /** The parameters of a query besides view and record. */
  ghost predicate Blank(params: Pairs) { forall f | f != View && f != Record :: Raw(params, f) == "" }

  lemma BlankIds(params: Pairs)
    requires Blank(params)
    ensures forall f | f != View && f != Record :: Id(params, f) == None && !BadId(params, f)
  {
    hide Raw;
    hide Id;
    hide BadId;
    forall f | f != View && f != Record ensures Id(params, f) == None && !BadId(params, f) {
      BlankId(params, f);
    }
  }

  lemma BlankFederal(params: Pairs)
    requires Blank(params)
    ensures FederalOf(params) == None && !FederalInvalid(params)
  {
    hide Id;
    hide BadId;
    hide Raw;
    hide RouteOf;
    hide PositiveInteger;
    BlankIds(params);
    NoId();
  }

  lemma BlankAssessment(params: Pairs, account: Option<string>)
    requires Blank(params)
    ensures AssessmentOf(params, account) == None && !AssessmentInvalid(params, account)
  {
    hide Id;
    hide BadId;
    hide Raw;
    hide PositiveInteger;
    BlankIds(params);
    NoId();
  }

  lemma BlankScope(params: Pairs, account: Option<string>)
    requires Blank(params)
    ensures ScopeOf(params, account) == if account.Some? then Some(AccountScope) else None
    ensures !ScopeInvalid(params) && RelationshipOf(params) == None
  {
    hide Id;
    hide BadId;
    hide Raw;
    BlankIds(params);
  }

  lemma RecordRead(params: Pairs, record: string)
    requires Raw(params, Record) == record && (record != "" ==> ValidId(record))
    ensures Id(params, Record) == (if record == "" then None else Some(record)) && !BadId(params, Record)
  {
    if record == "" {
      BlankId(params, Record);
    } else {
      IdRoundTrip(record);
    }
  }

  lemma ViewRead(surface: Surface, params: Pairs, view: string)
    requires Raw(params, View) == view && (view != "" ==> SubviewAllowed(surface, view))
    ensures SubviewOf(surface, params) == (if view == "" then None else Some(view))
    ensures !(Raw(params, View) != "" && SubviewOf(surface, params).None?)
  {
  }

  /** A query with at most a view and a record. */
  ghost predicate ViewOnly(surface: Surface, params: Pairs, view: string, record: string) {
    && (forall f :: Raw(params, f) == if f == View then view else if f == Record then record else "")
    && FiltersOf(params) == None
    && (view != "" ==> SubviewAllowed(surface, view)) && (record != "" ==> ValidId(record))
  }

  lemma ViewOnlyMeans(surface: Surface, params: Pairs, view: string, record: string)
    requires ViewOnly(surface, params, view, record)
    ensures Blank(params) && Raw(params, View) == view && Raw(params, Record) == record
    ensures FiltersOf(params) == None
    ensures (view != "" ==> SubviewAllowed(surface, view)) && (record != "" ==> ValidId(record))
  {
    hide Raw;
    hide FiltersOf;
  }

  /** The parts of a location read from a query. */
  lemma QueryParts(surface: Surface, p: Pairs, account: Option<string>, nested: Option<Decoded>)
    ensures var loc := QueryLocation(surface, p, account, nested);
            && loc.surface == surface && loc.accountId == AccountOf(p, account)
            && loc.assessment == AssessmentOf(p, loc.accountId) && loc.federal == FederalOf(p)
            && loc.eventId == (if loc.assessment.Some? then Some(loc.assessment.value.eventId) else Id(p, Event))
            && loc.partnershipId
               == OrElse(Id(p, Partnership), if loc.federal.Some? then loc.federal.value.partnershipId else None)
            && loc.facilityId == Id(p, Facility) && loc.scope == ScopeOf(p, loc.accountId)
            && loc.relationship == RelationshipOf(p)
            && loc.actionId == Id(p, Action) && loc.recordId == Id(p, Record)
            && loc.sort == Id(p, Sort) && loc.anchor == Id(p, Anchor) && loc.subview == SubviewOf(surface, p)
            && loc.filters == FiltersOf(p)
            && loc.returnTo == (if nested.Some? && !nested.value.malformed
                                then Some(nested.value.location.(returnTo := None)) else None)
  {
    hide Id;
    hide FiltersOf;
    hide AssessmentOf;
    hide FederalOf;
    hide ScopeOf;
    hide RelationshipOf;
    hide SubviewOf;
    hide AccountOf;
  }

  lemma BlankNamed(params: Pairs)
    requires Blank(params)
    ensures AccountOf(params, None) == None && Id(params, Event) == None && Id(params, Partnership) == None
    ensures Id(params, Facility) == None && Id(params, Action) == None && Id(params, Sort) == None
    ensures Id(params, Anchor) == None
  {
    hide Id;
    hide BadId;
    hide Raw;
    BlankIds(params);
  }

  lemma ViewLocation(surface: Surface, params: Pairs, view: string, record: string)
    requires ViewOnly(surface, params, view, record)
    ensures QueryLocation(surface, params, None, None)
         == Plain(surface, if record == "" then None else Some(record), if view == "" then None else Some(view))
  {
    hide QueryLocation;
    hide Raw;
    hide Id;
    hide BadId;
    hide AccountOf;
    hide SubviewOf;
    hide SubviewAllowed;
    hide ValidId;
    hide AssessmentOf;
    hide FederalOf;
    hide ScopeOf;
    hide RelationshipOf;
    hide FiltersOf;
    hide ViewOnly;
    hide Blank;
    hide AssessmentInvalid;
    hide FederalInvalid;
    hide ScopeInvalid;
    ViewOnlyMeans(surface, params, view, record);
    BlankNamed(params);
    BlankAssessment(params, None);
    BlankFederal(params);
    BlankScope(params, None);
    RecordRead(params, record);
    ViewRead(surface, params, view);
    QueryParts(surface, params, None, None);
  }

  lemma ViewValid(surface: Surface, params: Pairs, view: string, record: string)
    requires ViewOnly(surface, params, view, record)
    ensures !QueryInvalid(surface, params, None, None)
  {
    hide Raw;
    hide Id;
    hide BadId;
    hide SubviewOf;
    hide SubviewAllowed;
    hide ValidId;
    hide AssessmentInvalid;
    hide FederalInvalid;
    hide ScopeInvalid;
    hide FiltersOf;
    hide ViewOnly;
    hide Blank;
    ViewOnlyMeans(surface, params, view, record);
    BlankIds(params);
    BlankAssessment(params, None);
    BlankFederal(params);
    BlankScope(params, None);
    RecordRead(params, record);
    ViewRead(surface, params, view);
  }

  lemma ViewPairsOnly(surface: Surface, view: string, record: string)
    requires (view != "" ==> SubviewAllowed(surface, view)) && (record != "" ==> ValidId(record))
    ensures ViewOnly(surface, ViewPairs(view, record), view, record)
  {
    hide Raw;
    hide ViewPairs;
    hide FiltersOf;
    hide SubviewAllowed;
    hide ValidId;
    forall f ensures Raw(ViewPairs(view, record), f) == if f == View then view else if f == Record then record else "" {
      ViewPairsRaw(view, record, f);
    }
    NoViewFilters(view, record);
  }

  lemma NoViewFilters(view: string, record: string)
    ensures FiltersOf(ViewPairs(view, record)) == None
  {
    NoFilters(ViewPairs(view, record));
  }

  lemma NoId()
    ensures SafeId("") == None && PositiveInteger("") == None && RouteOf("") == None
  {
  }

  lemma ViewHash(parts: seq<string>, surface: Surface, view: string, record: string)
    requires PathSegments(parts) && PathSurface(parts) == surface && !surface.Accounts? && !PathInvalid(surface, parts)
    requires PathParams(surface, parts, []) == ViewPairs(view, record)
    requires (view != "" ==> SubviewAllowed(surface, view)) && (record != "" ==> ValidId(record))
    ensures ReadsAs(PathHash(parts),
                    Plain(surface, if record == "" then None else Some(record),
                          if view == "" then None else Some(view)))
  {
    hide PathSurface;
    hide PathParams;
    hide PathInvalid;
    hide ViewPairs;
    hide SubviewAllowed;
    hide ValidId;
    hide QueryLocation;
    hide QueryInvalid;
    hide Encode;
    hide Segments;
    hide HashParams;
    hide PathHash;
    PathHashReads(parts);
    ViewPairsOnly(surface, view, record);
    var params := ViewPairs(view, record);
    ViewPairsGet(view, record, RETURN);
    assert Nested(PathHash(parts)) == None;
    ViewLocation(surface, params, view, record);
    ViewValid(surface, params, view, record);
  }

  lemma JoinFirst(a: string, rest: seq<string>)
    requires rest != []
    ensures Join([a] + rest, "/") == a + ("/" + Join(rest, "/"))
    ensures Join([a], "/") == a
  {
    assert ([a] + rest)[1..] == rest;
    Reassociate(a, "/", Join(rest, "/"));
  }

  lemma PathHashOne(a: string)
    ensures PathHash([a]) == "#/" + a
  {
  }

  lemma PathHashTwo(a: string, b: string)
    ensures PathHash([a, b]) == "#/" + (a + ("/" + b))
  {
    JoinFirst(a, [b]);
    JoinFirst(b, [b]);
    assert [a] + [b] == [a, b];
  }

  lemma PathHashThree(a: string, b: string, c: string)
    ensures PathHash([a, b, c]) == "#/" + (a + ("/" + (b + ("/" + c))))
  {
    JoinFirst(a, [b, c]);
    JoinFirst(b, [c]);
    JoinFirst(c, [c]);
    assert [a] + [b, c] == [a, b, c] && [b] + [c] == [b, c];
  }

  // ---- What each path means ----------------------------------------------------------------------------

  /** The path of each surface. */
  lemma SurfacePath(name: string, surface: Surface)
    requires (name, surface) in {("today", Today), ("opportunities", Opportunities), ("intelligence", Intelligence),
                                 ("map", Map), ("actions", Actions), ("communications", Communications),
                                 ("settings", Settings), ("monitor", Monitor)}
    ensures ReadsAs("#/" + name, Plain(surface, None, None))
  {
    hide ReadsAs;
    hide Plain;
    hide PathHash;
    SurfaceNamed(name, surface);
    hide SurfaceOf;
    PathHashOne(name);
    ViewHash([name], surface, "", "");
  }

  lemma SurfaceNamed(name: string, surface: Surface)
    requires (name, surface) in {("today", Today), ("opportunities", Opportunities), ("intelligence", Intelligence),
                                 ("map", Map), ("actions", Actions), ("communications", Communications),
                                 ("settings", Settings), ("monitor", Monitor), ("accounts", Accounts)}
    ensures SurfaceOf(name) == Some(surface) && name != "" && '/' !in name && '?' !in name
  {
    SurfaceRoundTrip(surface);
  }

  /** The federal and the markets view of the intelligence surface. */
  lemma IntelligencePath(view: string)
    requires view in {"federal", "markets"}
    ensures ReadsAs("#/intelligence/" + view, Plain(Intelligence, None, Some(view)))
  {
    hide ReadsAs;
    hide Plain;
    hide PathHash;
    TwoPartPath("intelligence", Intelligence, view);
    assert "#/" + ("intelligence" + ("/" + view)) == "#/intelligence/" + view;
  }

  /** Each view of the settings. */
  lemma SettingsPath(view: string)
    requires view in {"personal", "access", "integrations"}
    ensures ReadsAs("#/settings/" + view, Plain(Settings, None, Some(view)))
  {
    hide ReadsAs;
    hide Plain;
    hide PathHash;
    TwoPartPath("settings", Settings, view);
    assert "#/" + ("settings" + ("/" + view)) == "#/settings/" + view;
  }

  lemma TwoPartPath(name: string, surface: Surface, view: string)
    requires (name, surface) in {("intelligence", Intelligence), ("settings", Settings)}
    requires view in (if surface.Settings? then {"personal", "access", "integrations"} else {"federal", "markets"})
    ensures ReadsAs("#/" + (name + ("/" + view)), Plain(surface, None, Some(view)))
  {
    hide ReadsAs;
    hide Plain;
    hide PathHash;
    SurfaceNamed(name, surface);
    TwoPartParams(name, surface, view);
    hide SurfaceOf;
    hide PathParams;
    hide PathInvalid;
    PathHashTwo(name, view);
    ViewHash([name, view], surface, view, "");
  }

  lemma TwoPartParams(name: string, surface: Surface, view: string)
    requires (name, surface) in {("intelligence", Intelligence), ("settings", Settings)}
    requires view in (if surface.Settings? then {"personal", "access", "integrations"} else {"federal", "markets"})
    requires SurfaceOf(name) == Some(surface)
    ensures var parts := [name, view];
            && PathSurface(parts) == surface && !PathInvalid(surface, parts)
            && PathParams(surface, parts, []) == ViewPairs(view, "")
    ensures view != "" && '/' !in view && '?' !in view && SubviewAllowed(surface, view)
  {
    hide SurfaceOf;
    hide SafeId;
  }

  /** A brief is opened by its id on two surfaces: recovered on one, as a brief on the other. */
  lemma BriefPaths(id: string)
    requires ValidId(id)
    ensures ReadsAs("#/intelligence/brief/" + EncodeComponent(id), Plain(Intelligence, Some(id), Some("brief")))
    ensures ReadsAs("#/today/brief/" + EncodeComponent(id), Plain(Today, Some(id), Some("recovery")))
  {
    hide ReadsAs;
    hide Plain;
    hide EncodeComponent;
    var part := EncodeComponent(id);
    BriefPath("intelligence", Intelligence, "brief", id);
    BriefPath("today", Today, "recovery", id);
    assert "#/" + ("intelligence" + ("/" + ("brief" + ("/" + part)))) == "#/intelligence/brief/" + part;
    assert "#/" + ("today" + ("/" + ("brief" + ("/" + part)))) == "#/today/brief/" + part;
  }

  lemma BriefPath(name: string, surface: Surface, view: string, id: string)
    requires (name, surface, view) in {("intelligence", Intelligence, "brief"), ("today", Today, "recovery")}
    requires ValidId(id)
    ensures ReadsAs("#/" + (name + ("/" + ("brief" + ("/" + EncodeComponent(id))))),
                    Plain(surface, Some(id), Some(view)))
  {
    hide ReadsAs;
    hide Plain;
    hide PathHash;
    hide EncodeComponent;
    hide SafeId;
    EncodedIdIsSegment(id);
    assert id != "";
    hide ValidId;
    var part := EncodeComponent(id);
    PathHashThree(name, "brief", part);
    BriefParams(name, surface, view, part, id);
    ViewHash([name, "brief", part], surface, view, id);
  }

  lemma BriefParams(name: string, surface: Surface, view: string, part: string, id: string)
    requires (name, surface, view) in {("intelligence", Intelligence, "brief"), ("today", Today, "recovery")}
    requires SafeId(part) == Some(id) && id != ""
    ensures var parts := [name, "brief", part];
            && PathSurface(parts) == surface && !PathInvalid(surface, parts)
            && PathParams(surface, parts, []) == ViewPairs(view, id)
  {
    hide SafeId;
    var viewed := [("view", view)];
    assert Set([], "view", view) == viewed;
    assert viewed[1..] == [];
    assert Set(viewed, "record", id) == viewed + [("record", id)];
  }

  lemma AccountQuery(id: string)
    ensures QueryLocation(Accounts, [], Some(id), None)
         == Plain(Accounts, None, None).(accountId := Some(id), scope := Some(AccountScope))
    ensures !QueryInvalid(Accounts, [], Some(id), None)
  {
    hide Id;
    hide BadId;
    hide SubviewOf;
    hide AssessmentOf;
    hide FederalOf;
    hide ScopeOf;
    hide RelationshipOf;
    hide FiltersOf;
    hide AssessmentInvalid;
    hide FederalInvalid;
    hide ScopeInvalid;
    NothingRaw();
    hide Raw;
    NoFilters([]);
    BlankIds([]);
    BlankAssessment([], Some(id));
    BlankFederal([]);
    BlankScope([], Some(id));
    RecordRead([], "");
    ViewRead(Accounts, [], "");
  }

  lemma NothingRaw()
    ensures forall f :: Raw([], f) == ""
  {
  }

  /** The account of a path is scoped to the account. */
  lemma AccountPath(id: string)
    requires ValidId(id)
    ensures ReadsAs("#/accounts/" + EncodeComponent(id),
                    Plain(Accounts, None, None).(accountId := Some(id), scope := Some(AccountScope)))
  {
    hide Plain;
    hide QueryLocation;
    hide QueryInvalid;
    hide Encode;
    hide Segments;
    hide HashParams;
    hide PathHash;
    hide EncodeComponent;
    hide SafeId;
    EncodedIdIsSegment(id);
    hide ValidId;
    var part := EncodeComponent(id);
    var parts := ["accounts", part];
    SurfaceNamed("accounts", Accounts);
    hide SurfaceOf;
    PathHashTwo("accounts", part);
    assert "#/" + ("accounts" + ("/" + part)) == "#/accounts/" + part;
    PathHashReads(parts);
    assert HashParams(PathHash(parts)) == [];
    assert Nested(PathHash(parts)) == None;
    AccountQuery(id);
  }

  // ---- Which paths are understood ----------------------------------------------------------------------

  const SURFACE_NAMES: set<string> :=
    {"today", "opportunities", "accounts", "intelligence", "map", "actions", "communications", "settings", "monitor"}

  /** The paths that are not flagged: a surface, an account, a view of two surfaces, or a brief, behind whose id further
      segments are ignored. */
  predicate Understood(parts: seq<string>) {
    || parts == []
    || (|parts| == 1 && parts[0] in SURFACE_NAMES)
    || (|parts| == 2 && parts[0] == "accounts" && SafeId(parts[1]).Some?)
    || (|parts| == 2 && parts[0] == "intelligence" && parts[1] in {"federal", "markets"})
    || (|parts| == 2 && parts[0] == "settings" && parts[1] in {"personal", "access", "integrations"})
    || (|parts| >= 3 && parts[0] in {"today", "intelligence"} && parts[1] == "brief" && SafeId(parts[2]).Some?)
  }

  lemma SurfaceOfIff(name: string)
    ensures SurfaceOf(name).Some? <==> name in SURFACE_NAMES
    ensures SurfaceOf(name) == Some(Accounts) <==> name == "accounts"
    ensures SurfaceOf(name) == Some(Intelligence) <==> name == "intelligence"
    ensures SurfaceOf(name) == Some(Settings) <==> name == "settings"
    ensures SurfaceOf(name) == Some(Today) <==> name == "today"
  {
  }

  lemma PathInvalidIff(parts: seq<string>)
    requires "" !in parts
    ensures PathInvalid(PathSurface(parts), parts) <==> !Understood(parts)
  {
    hide SurfaceOf;
    hide SafeId;
    NoId();
    if parts != [] {
      SurfaceOfIff(parts[0]);
      assert parts[0] != "";
    }
  }

  lemma {:induction false} NonEmptyParts(parts: seq<string>)
    ensures "" !in NonEmpty(parts)
  {
    if parts != [] {
      NonEmptyParts(parts[1..]);
    }
  }

  /** A link whose path is not understood is flagged, whatever its query. */
  lemma UnknownPathFlagged(hash: string, allowReturn: bool)
    ensures !Understood(Segments(hash)) ==> Decode(hash, allowReturn).malformed
  {
    NonEmptyParts(Split(PathText(hash), '/'));
    PathInvalidIff(Segments(hash));
    hide PathInvalid;
    hide Understood;
    hide Encode;
    hide HashParams;
    hide QueryInvalid;
    hide QueryLocation;
  }

  // ---- Queries ---------------------------------------------------------------------------------------------

  /** What a location holds of the parameters of a query, by their names; `account` is the account of the path. */
  ghost predicate Reads(surface: Surface, p: Pairs, account: Option<string>, loc: Location) {
    && loc.surface == surface
    && loc.accountId == (if account.Some? then account else SafeId(Get(p, "account_id")))
    && loc.eventId == SafeId(Get(p, "event"))
    && ReadsAssessment(p, loc) && ReadsFederal(p, loc)
    && loc.partnershipId == (if SafeId(Get(p, "partnership")).Some? then SafeId(Get(p, "partnership"))
                             else if loc.federal.Some? then SafeId(Get(p, "partner")) else None)
    && loc.facilityId == SafeId(Get(p, "facility"))
    && loc.scope == (if Get(p, "scope") == "facility" && loc.facilityId.Some? then Some(FacilityScope)
                     else if Get(p, "scope") == "account" || loc.accountId.Some? then Some(AccountScope) else None)
    && (loc.relationship.Some? ==>
          loc.relationship.value == Relationship(SafeId(Get(p, "path")), SafeId(Get(p, "relationship_mode")),
                                                 SafeId(Get(p, "relationship_start"))))
    && (loc.relationship.None? <==>
        SafeId(Get(p, "path")).None? && SafeId(Get(p, "relationship_mode")).None?
        && SafeId(Get(p, "relationship_start")).None?)
    && loc.actionId == SafeId(Get(p, "action")) && loc.recordId == SafeId(Get(p, "record"))
    && loc.sort == SafeId(Get(p, "sort")) && loc.anchor == SafeId(Get(p, "anchor"))
    && loc.subview == (if ViewOf(surface, Get(p, "view")) then Some(Get(p, "view")) else None)
  }

  /** The views of each surface. */
  predicate ViewOf(surface: Surface, view: string) {
    match surface
    case Today => view == "recovery"
    case Accounts => view == "overview" || view == "partnership" || view == "relationships" || view == "record"
    case Intelligence => view == "monitor" || view == "brief" || view == "federal" || view == "markets"
    case Map => view == "map" || view == "list"
    case Actions => view == "actions" || view == "suggestions" || view == "completed"
    case Settings => view == "personal" || view == "access" || view == "integrations"
    case _ => false
  }

  predicate ReadsAssessment(p: Pairs, loc: Location) {
    var id, version, event := SafeId(Get(p, "assessment")), PositiveInteger(Get(p, "av")), SafeId(Get(p, "event"));
    var account := if SafeId(Get(p, "aa")).Some? then SafeId(Get(p, "aa")) else loc.accountId;
    loc.assessment == if id.Some? && version.Some? && event.Some? && account.Some?
                      then Some(Assessment(id.value, version.value, event.value, account.value)) else None
  }

  predicate ReadsFederal(p: Pairs, loc: Location) {
    var opportunity, id, version := SafeId(Get(p, "opportunity")), SafeId(Get(p, "fa")), PositiveInteger(Get(p, "fav"));
    var route := Get(p, "route");
    match loc.federal
    case Some(f) =>
      && opportunity == Some(f.opportunityId) && id == Some(f.assessmentId) && version == Some(f.version)
      && f.accountId == SafeId(Get(p, "ra")) && f.partnershipId == SafeId(Get(p, "partner"))
      && (route == "DIRECT_BTX" <==> f.routeType == DirectBtx)
      && (route == "CUSTOMER_EXPANSION" <==> f.routeType == CustomerExpansion)
      && (route == "STRATEGIC_PARTNER" <==> f.routeType == StrategicPartner)
      && (route == "NEW_PROSPECT" <==> f.routeType == NewProspect)
      && (route == "MARKET_WATCH" <==> f.routeType == MarketWatch)
    case None =>
      opportunity.None? || id.None? || version.None?
      || route !in {"DIRECT_BTX", "CUSTOMER_EXPANSION", "STRATEGIC_PARTNER", "NEW_PROSPECT", "MARKET_WATCH"}
  }

  /** Some parameter the query carries is missing in the location. Numerals that are none and the account and partner of
      a missing route do not count; nor do filters. */
  predicate Drops(p: Pairs, loc: Location) {
    || (Get(p, "view") != "" && loc.subview.None?)
    || (Get(p, "account_id") != "" && loc.accountId.None?)
    || (Get(p, "event") != "" && loc.eventId.None?)
    || ((Get(p, "assessment") != "" || PositiveInteger(Get(p, "av")).Some?) && loc.assessment.None?)
    || (Get(p, "aa") != "" && SafeId(Get(p, "aa")).None?)
    || ((Get(p, "opportunity") != "" || Get(p, "fa") != "" || PositiveInteger(Get(p, "fav")).Some?
         || Get(p, "route") != "") && loc.federal.None?)
    || (loc.federal.Some? && Get(p, "ra") != "" && loc.federal.value.accountId.None?)
    || (loc.federal.Some? && Get(p, "partner") != "" && loc.federal.value.partnershipId.None?)
    || (Get(p, "partnership") != "" && SafeId(Get(p, "partnership")).None?)
    || (Get(p, "facility") != "" && loc.facilityId.None?)
    || (Get(p, "scope") != "" && !(Get(p, "scope") == "account" && loc.scope == Some(AccountScope))
        && !(Get(p, "scope") == "facility" && loc.scope == Some(FacilityScope)))
    || (Get(p, "path") != "" && (loc.relationship.None? || loc.relationship.value.pathId.None?))
    || (Get(p, "relationship_mode") != "" && (loc.relationship.None? || loc.relationship.value.mode.None?))
    || (Get(p, "relationship_start") != "" && (loc.relationship.None? || loc.relationship.value.startAccountId.None?))
    || (Get(p, "action") != "" && loc.actionId.None?) || (Get(p, "record") != "" && loc.recordId.None?)
    || (Get(p, "sort") != "" && loc.sort.None?) || (Get(p, "anchor") != "" && loc.anchor.None?)
    || (Get(p, "return") != "" && loc.returnTo.None?)
  }

  /** The parameters read as ids, by name. */
  lemma IdsByName(p: Pairs)
    ensures Id(p, AccountId) == SafeId(Get(p, "account_id")) && Id(p, Event) == SafeId(Get(p, "event"))
    ensures Id(p, Partnership) == SafeId(Get(p, "partnership")) && Id(p, Facility) == SafeId(Get(p, "facility"))
    ensures Id(p, Action) == SafeId(Get(p, "action")) && Id(p, Record) == SafeId(Get(p, "record"))
    ensures Id(p, Sort) == SafeId(Get(p, "sort")) && Id(p, Anchor) == SafeId(Get(p, "anchor"))
  {
    hide SafeId;
    hide Get;
    IdNames();
    hide Name;
  }

  lemma IdNames()
    ensures Name(AccountId) == "account_id" && Name(Event) == "event"
    ensures Name(Partnership) == "partnership" && Name(Facility) == "facility"
    ensures Name(Action) == "action" && Name(Record) == "record" && Name(Sort) == "sort" && Name(Anchor) == "anchor"
    ensures Name(Path) == "path" && Name(RelationshipMode) == "relationship_mode"
    ensures Name(RelationshipStart) == "relationship_start"
  {
  }

  lemma AssessmentReads(p: Pairs, account: Option<string>, loc: Location)
    requires loc.assessment == AssessmentOf(p, account) && loc.accountId == account
    ensures ReadsAssessment(p, loc)
  {
    hide SafeId;
    hide Get;
    hide PositiveInteger;
  }

  lemma RouteReads(name: string)
    ensures RouteOf(name) == Some(DirectBtx) <==> name == "DIRECT_BTX"
    ensures RouteOf(name) == Some(CustomerExpansion) <==> name == "CUSTOMER_EXPANSION"
    ensures RouteOf(name) == Some(StrategicPartner) <==> name == "STRATEGIC_PARTNER"
    ensures RouteOf(name) == Some(NewProspect) <==> name == "NEW_PROSPECT"
    ensures RouteOf(name) == Some(MarketWatch) <==> name == "MARKET_WATCH"
    ensures RouteOf(name).None?
            <==> name !in {"DIRECT_BTX", "CUSTOMER_EXPANSION", "STRATEGIC_PARTNER", "NEW_PROSPECT", "MARKET_WATCH"}
  {
  }

  lemma FederalReads(p: Pairs, loc: Location)
    requires loc.federal == FederalOf(p)
    ensures ReadsFederal(p, loc)
  {
    FederalNames();
    hide Name;
    hide SafeId;
    hide Get;
    hide PositiveInteger;
    hide RouteOf;
    RouteReads(Get(p, "route"));
  }

  lemma FederalNames()
    ensures Name(Opportunity) == "opportunity" && Name(FederalAssessment) == "fa" && Name(FederalVersion) == "fav"
    ensures Name(Route) == "route" && Name(RouteAccount) == "ra" && Name(Partner) == "partner"
  {
  }

  lemma ViewReads(surface: Surface, view: string)
    ensures SubviewAllowed(surface, view) <==> ViewOf(surface, view)
    ensures !ViewOf(surface, "")
  {
  }

  lemma ScopeReads(p: Pairs, account: Option<string>)
    ensures ScopeOf(p, account)
         == (if Get(p, "scope") == "facility" && SafeId(Get(p, "facility")).Some? then Some(FacilityScope)
             else if Get(p, "scope") == "account" || account.Some? then Some(AccountScope) else None)
  {
    hide SafeId;
    hide Get;
  }

  lemma RelationshipReads(p: Pairs)
    ensures var r := RelationshipOf(p);
            var path, mode, start :=
              SafeId(Get(p, "path")), SafeId(Get(p, "relationship_mode")), SafeId(Get(p, "relationship_start"));
            && (r.Some? ==> r.value == Relationship(path, mode, start))
            && (r.None? <==> path.None? && mode.None? && start.None?)
  {
    hide SafeId;
    hide Get;
  }

  lemma SubviewReads(surface: Surface, p: Pairs)
    ensures SubviewOf(surface, p) == (if ViewOf(surface, Get(p, "view")) then Some(Get(p, "view")) else None)
  {
    hide Get;
    ViewReads(surface, Get(p, "view"));
    hide SubviewAllowed;
    hide ViewOf;
  }

  /** Every parameter of a query is read under its own name. */
  lemma QueryReads(surface: Surface, p: Pairs, account: Option<string>, nested: Option<Decoded>)
    ensures Reads(surface, p, account, QueryLocation(surface, p, account, nested))
  {
    hide SafeId;
    hide Get;
    hide Id;
    hide ReadsAssessment;
    hide ReadsFederal;
    hide ScopeOf;
    hide RelationshipOf;
    hide SubviewOf;
    hide ViewOf;
    hide AssessmentOf;
    hide FederalOf;
    QueryParts(surface, p, account, nested);
    var loc := QueryLocation(surface, p, account, nested);
    hide QueryLocation;
    IdsByName(p);
    AssessmentReads(p, loc.accountId, loc);
    AssessmentEvent(p, loc.accountId);
    FederalReads(p, loc);
    FederalPartner(p);
    ScopeReads(p, loc.accountId);
    RelationshipReads(p);
    SubviewReads(surface, p);
  }

  lemma AssessmentEvent(p: Pairs, account: Option<string>)
    ensures AssessmentOf(p, account).Some? ==> Some(AssessmentOf(p, account).value.eventId) == SafeId(Get(p, "event"))
  {
    hide SafeId;
    hide Get;
    hide PositiveInteger;
  }

  lemma FederalPartner(p: Pairs)
    ensures FederalOf(p).Some? ==> FederalOf(p).value.partnershipId == SafeId(Get(p, "partner"))
  {
    hide SafeId;
    hide Get;
    hide PositiveInteger;
    hide RouteOf;
  }

  // ---- When a link is flagged ------------------------------------------------------------------------------

  lemma AssessmentFlagged(p: Pairs, account: Option<string>)
    ensures AssessmentInvalid(p, account)
            <==> || (Get(p, "event") != "" && SafeId(Get(p, "event")).None?)
                 || ((Get(p, "assessment") != "" || PositiveInteger(Get(p, "av")).Some?)
                     && AssessmentOf(p, account).None?)
                 || (Get(p, "aa") != "" && SafeId(Get(p, "aa")).None?)
  {
    hide SafeId;
    hide Get;
    hide PositiveInteger;
    NoId();
  }

  lemma FederalFlagged(p: Pairs)
    ensures var f := FederalOf(p);
            FederalInvalid(p)
            <==> || ((Get(p, "opportunity") != "" || Get(p, "fa") != "" || PositiveInteger(Get(p, "fav")).Some?
                      || Get(p, "route") != "") && f.None?)
                 || (f.Some? && Get(p, "ra") != "" && f.value.accountId.None?)
                 || (f.Some? && Get(p, "partner") != "" && f.value.partnershipId.None?)
  {
    FederalNames();
    NoId();
    hide Name;
    hide SafeId;
    hide Get;
    hide PositiveInteger;
    hide RouteOf;
  }

  lemma ScopeFlagged(p: Pairs, account: Option<string>)
    ensures var scope := ScopeOf(p, account);
            ScopeInvalid(p)
            <==> || (Get(p, "facility") != "" && SafeId(Get(p, "facility")).None?)
                 || (Get(p, "scope") != "" && !(Get(p, "scope") == "account" && scope == Some(AccountScope))
                     && !(Get(p, "scope") == "facility" && scope == Some(FacilityScope)))
  {
    hide SafeId;
    hide Get;
  }

  /** The ids that are flagged exactly when they cannot be read. */
  predicate BadText(raw: string) { raw != "" && SafeId(raw).None? }

  lemma OthersFlagged(p: Pairs)
    ensures OtherIdsInvalid(p)
            <==> || BadText(Get(p, "path")) || BadText(Get(p, "relationship_mode"))
                 || BadText(Get(p, "relationship_start")) || BadText(Get(p, "partnership"))
                 || BadText(Get(p, "action")) || BadText(Get(p, "record"))
                 || BadText(Get(p, "sort")) || BadText(Get(p, "anchor"))
  {
    IdNames();
    hide Name;
    hide SafeId;
    hide Get;
  }

  lemma FirstFlagged(surface: Surface, p: Pairs)
    ensures BadId(p, AccountId) <==> BadText(Get(p, "account_id"))
    ensures Raw(p, View) == Get(p, "view")
  {
    hide SafeId;
    hide Get;
  }

  /** The other parameters are dropped exactly when they cannot be read. */
  lemma OthersDropped(surface: Surface, p: Pairs, account: Option<string>, loc: Location)
    requires Reads(surface, p, account, loc)
    ensures BadText(Get(p, "path"))
            <==> Get(p, "path") != "" && (loc.relationship.None? || loc.relationship.value.pathId.None?)
    ensures BadText(Get(p, "relationship_mode"))
            <==> Get(p, "relationship_mode") != "" && (loc.relationship.None? || loc.relationship.value.mode.None?)
    ensures BadText(Get(p, "relationship_start"))
            <==> Get(p, "relationship_start") != ""
                 && (loc.relationship.None? || loc.relationship.value.startAccountId.None?)
    ensures (account.None? && BadText(Get(p, "account_id"))) <==> Get(p, "account_id") != "" && loc.accountId.None?
  {
    hide SafeId;
    hide Get;
    hide ReadsAssessment;
    hide ReadsFederal;
    hide ViewOf;
  }

  lemma {:induction false} QueryFlagged(surface: Surface, p: Pairs, account: Option<string>, nested: Option<Decoded>)
    requires nested.Some? <==> Get(p, "return") != ""
    ensures QueryInvalid(surface, p, account, nested) <==> Drops(p, QueryLocation(surface, p, account, nested))
  {
    hide SafeId;
    hide Get;
    hide PositiveInteger;
    hide Id;
    hide BadId;
    hide Raw;
    hide ReadsAssessment;
    hide ReadsFederal;
    hide ViewOf;
    hide SubviewOf;
    hide AssessmentOf;
    hide FederalOf;
    hide ScopeOf;
    hide RelationshipOf;
    hide FiltersOf;
    hide AssessmentInvalid;
    hide FederalInvalid;
    hide ScopeInvalid;
    hide OtherIdsInvalid;
    hide QueryLocation;
    var loc := QueryLocation(surface, p, account, nested);
    QueryReads(surface, p, account, nested);
    QueryParts(surface, p, account, nested);
    OthersDropped(surface, p, account, loc);
    FirstFlagged(surface, p);
    AssessmentFlagged(p, loc.accountId);
    FederalFlagged(p);
    ScopeFlagged(p, loc.accountId);
    OthersFlagged(p);
  }

  /** What any link leads to, and when it is flagged: its path is not understood, or a parameter it carries (with those
      the path sets) is missing in the location. */
  lemma FlaggedIff(hash: string)
    ensures var loc, parts, p := Decode(hash, true).location, Segments(hash), HashParams(hash);
            && Reads(PathSurface(parts), p, PathAccount(PathSurface(parts), parts), loc)
            && (Decode(hash, true).malformed <==> !Understood(parts) || Drops(p, loc))
  {
    hide Segments;
    hide HashParams;
    hide PathSurface;
    hide PathAccount;
    hide PathInvalid;
    hide Understood;
    hide QueryLocation;
    hide QueryInvalid;
    hide Reads;
    hide Drops;
    hide Encode;
    hide Get;
    var parts, p := Segments(hash), HashParams(hash);
    var surface := PathSurface(parts);
    SegmentsNotEmpty(hash);
    PathInvalidIff(parts);
    QueryReads(surface, p, PathAccount(surface, parts), Nested(hash));
    NestedIff(hash);
    QueryFlagged(surface, p, PathAccount(surface, parts), Nested(hash));
  }

  lemma SegmentsNotEmpty(hash: string)
    ensures "" !in Segments(hash)
  {
    NonEmptyParts(Split(PathText(hash), '/'));
  }

  lemma NestedIff(hash: string)
    ensures Nested(hash).Some? <==> Get(HashParams(hash), "return") != ""
  {
    hide HashParams;
    hide Get;
    hide Decode;
  }

  lemma QueryHashReads(name: string, pairs: Pairs)
    requires name != "" && '/' !in name && '?' !in name
    ensures var hash := "#/" + (name + ("?" + Serialize(pairs)));
            Segments(hash) == [name] && QueryText(hash) == Serialize(pairs)
  {
    hide Serialize;
    hide Split;
    var query := Serialize(pairs);
    var text := name + ("?" + query);
    QueryHasNoQuestionMark(pairs);
    PrefixDropped(text);
    JoinTwo(name, query);
    SplitJoin([name, query], '?');
    SplitJoin([name], '/');
    assert Join([name], "/") == name;
    NonEmptyAll([name]);
  }

  lemma JoinTwo(a: string, b: string)
    ensures Join([a, b], "?") == a + ("?" + b)
  {
    assert [a, b][1..] == [b];
    Reassociate(a, "?", b);
  }

  /** A link written by hand from a surface and any parameters. */
  lemma QueryLink(name: string, surface: Surface, pairs: Pairs)
    requires (name, surface) in {("today", Today), ("opportunities", Opportunities), ("intelligence", Intelligence),
                                 ("map", Map), ("actions", Actions), ("communications", Communications),
                                 ("settings", Settings), ("monitor", Monitor), ("accounts", Accounts)}
    ensures var decoded := Decode("#/" + (name + ("?" + Serialize(pairs))), true);
            && Reads(surface, pairs, None, decoded.location)
            && (decoded.malformed <==> Drops(pairs, decoded.location))
  {
    hide Serialize;
    hide Reads;
    hide Drops;
    hide Segments;
    hide Decode;
    hide QueryText;
    var hash := "#/" + (name + ("?" + Serialize(pairs)));
    SurfaceNamed(name, surface);
    QueryHashReads(name, pairs);
    ParseSerialize(pairs);
    OnePart(name, surface, pairs);
    assert HashParams(hash) == pairs;
    FlaggedIff(hash);
  }

  lemma OnePart(name: string, surface: Surface, pairs: Pairs)
    requires SurfaceOf(name) == Some(surface)
    ensures PathSurface([name]) == surface && PathAccount(surface, [name]) == None && Understood([name])
    ensures PathParams(surface, [name], pairs) == pairs
  {
    NoId();
    SurfaceOfIff(name);
    hide SurfaceOf;
    hide SafeId;
  }

  /** The filters of a link hold, for each allowed key, exactly its safe values; the first is kept alone when there is
      only one. */
  lemma FiltersByName(hash: string, key: string, value: string)
    requires key in FILTER_KEYS
    ensures var filters := Decode(hash, true).location.filters;
            ("f." + key, value) in HashParams(hash) && SafeValue(value)
            <==> filters.Some? && key in filters.value && value in ValuesIn(filters.value[key])
  {
    hide HashParams;
    hide Segments;
    hide SafeValue;
    hide Encode;
    var p := HashParams(hash);
    DecodedFilters(hash);
    ValuesNamed(p, key, value);
    hide Decode;
    hide ValuesOf;
    if ValuesOf(p, key) != [] {
      assert key in FilterMap(p);
      var values := ValuesOf(p, key);
      assert |values| == 1 ==> values == [values[0]];
    }
  }

  lemma DecodedFilters(hash: string)
    ensures Decode(hash, true).location.filters == FiltersOf(HashParams(hash))
  {
    hide HashParams;
    hide Segments;
    hide Encode;
    hide QueryLocation;
    hide QueryInvalid;
    hide PathAccount;
    hide PathSurface;
    hide FiltersOf;
    var parts := Segments(hash);
    QueryParts(PathSurface(parts), HashParams(hash), PathAccount(PathSurface(parts), parts), Nested(hash));
  }

  lemma {:induction false} ValuesNamed(p: Pairs, key: string, value: string)
    ensures value in ValuesOf(p, key) <==> ("f." + key, value) in p && SafeValue(value)
  {
    hide SafeValue;
    if p != [] {
      ValuesNamed(p[1..], key, value);
      assert p == [p[0]] + p[1..];
    }
  }
}
