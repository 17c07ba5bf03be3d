/** The printer and the decoder of links as the browser runs them, each equal to the function it
    implements in LinkCodec. */
module LinkPrograms {
  import opened Text
  import opened Locations
  import opened UrlEncoding
  import opened LinkCodec
  import LinkTheorems
  import Ordering

  class SearchParams {
    var list: Pairs

    constructor (query: string)
      ensures list == Parse(query)
    {
      list := Parse(query);
    }

    constructor Empty()
      ensures list == []
    {
      list := [];
    }

    method SetValue(name: string, value: string)
      modifies this
      ensures list == Set(old(list), name, value)
    {
      list := Set(list, name, value);
    }

    method Append(name: string, value: string)
      modifies this
      ensures list == old(list) + [(name, value)]
    {
      list := list + [(name, value)];
    }
  }

  // ---- Reading filters ---------------------------------------------------------------------------

  ghost predicate Collected(keys: set<string>, result: Filters, pairs: Pairs) {
    forall k :: (k in result <==> k in keys && ValuesOf(pairs, k) != [])
             && (k in result ==> result[k] == Collapse(ValuesOf(pairs, k)))
  }

  lemma ValuesSnoc(pairs: Pairs, pair: (string, string), k: string)
    ensures ValuesOf(pairs + [pair], k)
         == ValuesOf(pairs, k) + if pair.0 == FILTER_PREFIX + k && SafeValue(pair.1) then [pair.1] else []
  {
    LinkTheorems.ValuesConcat(pairs, [pair], k);
    assert [pair][1..] == [];
  }

  lemma CollectSkip(keys: set<string>, result: Filters, pairs: Pairs, pair: (string, string))
    requires Collected(keys, result, pairs)
    requires !(FILTER_PREFIX <= pair.0 && pair.0[2..] in keys && SafeValue(pair.1))
    ensures Collected(keys, result, pairs + [pair])
  {
    forall k | k in keys ensures ValuesOf(pairs + [pair], k) == ValuesOf(pairs, k) {
      ValuesSnoc(pairs, pair, k);
      assert (FILTER_PREFIX + k)[2..] == k;
    }
  }

  lemma CollectAdd(keys: set<string>, result: Filters, pairs: Pairs, key: string, value: string)
    requires Collected(keys, result, pairs)
    requires key in keys && SafeValue(value)
    ensures var entry := if key !in result then One(value)
                         else match result[key] case One(v) => Many([v, value]) case Many(vs) => Many(vs + [value]);
            Collected(keys, result[key := entry], pairs + [(FILTER_PREFIX + key, value)])
  {
    var pair := (FILTER_PREFIX + key, value);
    forall k ensures ValuesOf(pairs + [pair], k) == ValuesOf(pairs, k) + if k == key then [value] else [] {
      ValuesSnoc(pairs, pair, k);
      assert (FILTER_PREFIX + k)[2..] == k && (FILTER_PREFIX + key)[2..] == key;
    }
  }

  lemma CollectedAll(result: Filters, params: Pairs)
    requires Collected(FILTER_KEYS, result, params)
    ensures result == FilterMap(params)
  {
  }

  lemma CollectNothing(keys: set<string>)
    ensures Collected(keys, map[], [])
  {
  }

  /** A filter parameter with the value it adds. */
  predicate AddsFilter(parameter: string, value: string) {
    FILTER_PREFIX <= parameter && parameter[2..] in FILTER_KEYS && SafeValue(value)
  }

  method FilterValues(params: Pairs) returns (result: Option<Filters>)
    ensures result == FiltersOf(params)
  {
    hide Collected;
    hide SafeValue;
    hide FilterMap;
    var found: Filters := map[];
    CollectNothing(FILTER_KEYS);
    var i := 0;
    while i < |params|
      invariant 0 <= i <= |params|
      invariant Collected(FILTER_KEYS, found, params[..i])
    {
      var (parameter, value) := params[i];
      assert params[..i + 1] == params[..i] + [params[i]];
      if AddsFilter(parameter, value) {
        var key := parameter[2..];
        assert parameter == FILTER_PREFIX + key;
        CollectAdd(FILTER_KEYS, found, params[..i], key, value);
        if key !in found {
          found := found[key := One(value)];
        } else {
          match found[key]
          case One(first) => found := found[key := Many([first, value])];
          case Many(values) => found := found[key := Many(values + [value])];
        }
      } else {
        CollectSkip(FILTER_KEYS, found, params[..i], params[i]);
      }
      i := i + 1;
    }
    assert params[..i] == params;
    CollectedAll(found, params);
    result := if found == map[] then None else Some(found);
  }

  // ---- Decoding ----------------------------------------------------------------------------------

  method ReadId(params: Pairs, f: Field, invalid: bool) returns (id: Option<string>, nowInvalid: bool)
    ensures id == Id(params, f)
    ensures nowInvalid == (invalid || BadId(params, f))
  {
    var raw := Raw(params, f);
    id := SafeId(raw);
    nowInvalid := invalid || (raw != "" && id.None?);
  }

  method ReadAssessment(params: Pairs, accountId: Option<string>, invalid: bool)
    returns (assessment: Option<Assessment>, eventId: Option<string>, nowInvalid: bool)
    ensures assessment == AssessmentOf(params, accountId) && eventId == Id(params, Event)
    ensures nowInvalid == (invalid || AssessmentInvalid(params, accountId))
  {
    var id, account;
    id, nowInvalid := ReadId(params, AssessmentId, invalid);
    var version := PositiveInteger(Raw(params, AssessmentVersion));
    eventId, nowInvalid := ReadId(params, Event, nowInvalid);
    account, nowInvalid := ReadId(params, AssessmentAccount, nowInvalid);
    account := OrElse(account, accountId);
    assessment := None;
    if id.Some? && version.Some? && eventId.Some? && account.Some? {
      assessment := Some(Assessment(id.value, version.value, eventId.value, account.value));
    }
    if (id.Some? || version.Some?) && assessment.None? {
      nowInvalid := true;
    }
  }

  method ReadFederal(params: Pairs, invalid: bool) returns (federal: Option<Federal>, nowInvalid: bool)
    ensures federal == FederalOf(params)
    ensures nowInvalid == (invalid || FederalInvalid(params))
  {
    var opportunity, id;
    opportunity, nowInvalid := ReadId(params, Opportunity, invalid);
    id, nowInvalid := ReadId(params, FederalAssessment, nowInvalid);
    var version := PositiveInteger(Raw(params, FederalVersion));
    var raw := Raw(params, Route);
    var route := RouteOf(raw);
    if raw != "" && route.None? {
      nowInvalid := true;
    }
    federal := None;
    if opportunity.Some? && id.Some? && version.Some? && route.Some? {
      var account, partner;
      account, nowInvalid := ReadId(params, RouteAccount, nowInvalid);
      partner, nowInvalid := ReadId(params, Partner, nowInvalid);
      federal := Some(Federal(opportunity.value, id.value, version.value, route.value, account, partner));
    } else if opportunity.Some? || id.Some? || version.Some? || route.Some? {
      nowInvalid := true;
    }
  }

  method ReadScope(params: Pairs, accountId: Option<string>, invalid: bool)
    returns (scope: Option<Scope>, facilityId: Option<string>, nowInvalid: bool)
    ensures scope == ScopeOf(params, accountId) && facilityId == Id(params, Facility)
    ensures nowInvalid == (invalid || ScopeInvalid(params))
  {
    var raw := Raw(params, ScopeField);
    facilityId, nowInvalid := ReadId(params, Facility, invalid);
    scope := if raw == "facility" && facilityId.Some? then Some(FacilityScope)
             else if raw == "account" || accountId.Some? then Some(AccountScope) else None;
    if raw != "" && raw != "facility" && raw != "account" {
      nowInvalid := true;
    }
    if raw == "facility" && facilityId.None? {
      nowInvalid := true;
    }
  }

  method ReadRelationship(params: Pairs, invalid: bool)
    returns (relationship: Option<Relationship>, nowInvalid: bool)
    ensures relationship == RelationshipOf(params)
    ensures nowInvalid == (invalid || BadId(params, Path) || BadId(params, RelationshipMode)
                           || BadId(params, RelationshipStart))
  {
    var path, mode, start;
    path, nowInvalid := ReadId(params, Path, invalid);
    mode, nowInvalid := ReadId(params, RelationshipMode, nowInvalid);
    start, nowInvalid := ReadId(params, RelationshipStart, nowInvalid);
    relationship := if path.Some? || mode.Some? || start.Some? then Some(Relationship(path, mode, start)) else None;
  }

  method ReadSubview(surface: Surface, params: Pairs, invalid: bool) returns (subview: Option<string>, nowInvalid: bool)
    ensures subview == SubviewOf(surface, params)
    ensures nowInvalid == (invalid || (Raw(params, View) != "" && subview.None?))
  {
    var raw := Raw(params, View);
    subview := if raw != "" && SubviewAllowed(surface, raw) then Some(raw) else None;
    nowInvalid := invalid || (raw != "" && subview.None?);
  }

  method ReadAccount(params: Pairs, pathAccount: Option<string>) returns (accountId: Option<string>, invalid: bool)
    ensures accountId == AccountOf(params, pathAccount)
    ensures invalid == (pathAccount.None? && BadId(params, AccountId))
  {
    accountId, invalid := pathAccount, false;
    if accountId.None? {
      accountId, invalid := ReadId(params, AccountId, invalid);
    }
  }

  method ReadReturn(hash: string, invalid: bool) returns (returnTo: Option<Location>, nowInvalid: bool)
    ensures var nested := Nested(hash);
            && returnTo == (if nested.Some? && !nested.value.malformed
                            then Some(nested.value.location.(returnTo := None)) else None)
            && nowInvalid == (invalid || (nested.Some? && nested.value.malformed))
    decreases |hash|, 0
  {
    var returnHash := ReturnText(hash);
    returnTo, nowInvalid := None, invalid;
    if returnHash != "" {
      ReturnTextShorter(hash);
      var decoded := DecodeWorkspaceLocation(returnHash, false);
      if !decoded.malformed {
        returnTo := Some(decoded.location.(returnTo := None));
      } else {
        nowInvalid := true;
      }
    }
  }

  method ReadOtherIds(params: Pairs, invalid: bool)
    returns (partnership: Option<string>, action: Option<string>, record: Option<string>, sort: Option<string>,
             anchor: Option<string>, relationship: Option<Relationship>, nowInvalid: bool)
    ensures partnership == Id(params, Partnership) && action == Id(params, Action) && record == Id(params, Record)
    ensures sort == Id(params, Sort) && anchor == Id(params, Anchor) && relationship == RelationshipOf(params)
    ensures nowInvalid == (invalid || OtherIdsInvalid(params))
  {
    hide Id;
    hide BadId;
    relationship, nowInvalid := ReadRelationship(params, invalid);
    partnership, nowInvalid := ReadId(params, Partnership, nowInvalid);
    action, nowInvalid := ReadId(params, Action, nowInvalid);
    record, nowInvalid := ReadId(params, Record, nowInvalid);
    sort, nowInvalid := ReadId(params, Sort, nowInvalid);
    anchor, nowInvalid := ReadId(params, Anchor, nowInvalid);
  }

  method ReadQuery(hash: string, surface: Surface, params: Pairs, pathAccount: Option<string>)
    returns (location: Location, invalid: bool)
    requires params == HashParams(hash)
    ensures location == QueryLocation(surface, HashParams(hash), pathAccount, Nested(hash))
    ensures invalid == QueryInvalid(surface, HashParams(hash), pathAccount, Nested(hash))
    decreases |hash|, 1
  {
    hide HashParams;
    hide Nested;
    hide AccountOf;
    hide SubviewOf;
    hide AssessmentOf;
    hide AssessmentInvalid;
    hide FederalOf;
    hide FederalInvalid;
    hide ScopeOf;
    hide ScopeInvalid;
    hide OtherIdsInvalid;
    hide RelationshipOf;
    hide FiltersOf;
    hide Id;
    hide BadId;
    hide Raw;
    var accountId, subview, assessment, eventId, federal, scope, facilityId, returnTo;
    accountId, invalid := ReadAccount(params, pathAccount);
    subview, invalid := ReadSubview(surface, params, invalid);
    assessment, eventId, invalid := ReadAssessment(params, accountId, invalid);
    federal, invalid := ReadFederal(params, invalid);
    scope, facilityId, invalid := ReadScope(params, accountId, invalid);
    returnTo, invalid := ReadReturn(hash, invalid);
    var partnership, action, record, sort, anchor, relationship;
    partnership, action, record, sort, anchor, relationship, invalid := ReadOtherIds(params, invalid);
    var filters := FilterValues(params);
    location := Location(
      surface, accountId, assessment, if assessment.Some? then Some(assessment.value.eventId) else eventId, federal,
      OrElse(partnership, if federal.Some? then federal.value.partnershipId else None), facilityId, scope, relationship,
      action, record, subview, filters, sort, returnTo, anchor);
  }

  /** The path of a hash: its surface and account, the parameters it overrides, and whether it is understood. */
  method ReadPath(hash: string) returns (surface: Surface, accountId: Option<string>, params: SearchParams,
                                         invalid: bool)
    ensures fresh(params)
    ensures surface == PathSurface(Segments(hash)) && accountId == PathAccount(surface, Segments(hash))
    ensures params.list == HashParams(hash) && invalid == PathInvalid(surface, Segments(hash))
  {
    hide SurfaceOf;
    hide SafeId;
    hide PathView;
    hide Segments;
    var parts := Segments(hash);
    surface := PathSurface(parts);
    invalid := Segment(parts, 0) != "" && SurfaceOf(Segment(parts, 0)).None?;
    params := new SearchParams(QueryText(hash));
    accountId := PathAccount(surface, parts);
    if surface.Accounts? && Segment(parts, 1) != "" && accountId.None? {
      invalid := true;
    }
    if LongPath(surface, parts) {
      var view := PathView(surface, parts);
      if view.Some? {
        params.SetValue(Name(View), view.value.0);
        if view.value.1 != "" {
          params.SetValue(Name(Record), view.value.1);
        }
      } else {
        invalid := true;
      }
    }
  }

  method DecodeWorkspaceLocation(hash: string, allowReturn: bool) returns (r: Decoded)
    ensures r == Decode(hash, allowReturn)
    decreases |hash|, 2
  {
    hide PathSurface;
    hide PathAccount;
    hide PathInvalid;
    hide QueryInvalid;
    hide QueryLocation;
    hide HashParams;
    hide Segments;
    hide Nested;
    hide Encode;
    var surface, accountId, params, invalid := ReadPath(hash);
    var location, queryInvalid := ReadQuery(hash, surface, params.list, accountId);
    if !allowReturn {
      location := location.(returnTo := None);
    }
    var canonicalHash := WorkspaceHash(location);
    r := Decoded(location, canonicalHash, invalid || queryInvalid);
  }

  // ---- Printing ----------------------------------------------------------------------------------

  lemma FieldsBefore(f: Field)
    ensures FieldIndex(f) < |FIELDS| && f !in FIELDS[..FieldIndex(f)]
    ensures FIELDS[..FieldIndex(f) + 1] == FIELDS[..FieldIndex(f)] + [f]
  {
    FieldListed(f);
    forall i | 0 <= i < FieldIndex(f) ensures FIELDS[i] != f {
      IndexOfField(i);
    }
  }

  lemma IndexOfField(i: nat)
    requires i < |FIELDS|
    ensures FieldIndex(FIELDS[i]) == i
  {
  }

  /** Sets one parameter when the location has a value for it; the parameters before it are set. */
  method SetField(params: SearchParams, loc: Location, f: Field)
    requires FieldIndex(f) <= |FIELDS| && params.list == FieldPairs(FIELDS[..FieldIndex(f)], loc)
    modifies params
    ensures FieldIndex(f) < |FIELDS| && params.list == FieldPairs(FIELDS[..FieldIndex(f) + 1], loc)
  {
    FieldsBefore(f);
    ghost var before := FIELDS[..FieldIndex(f)];
    FieldPairsSnoc(before, f, loc);
    var value := Slot(loc, f);
    if value != "" {
      FieldPairsFresh(before, f, loc);
      SetFresh(params.list, Name(f), value);
      params.SetValue(Name(f), value);
    }
  }

  lemma {:induction false} FieldPairsSnoc(done: seq<Field>, f: Field, loc: Location)
    ensures FieldPairs(done + [f], loc)
         == FieldPairs(done, loc) + if Slot(loc, f) != "" then [(Name(f), Slot(loc, f))] else []
  {
    if done == [] {
      assert ([] + [f])[1..] == [];
    } else {
      assert (done + [f])[1..] == done[1..] + [f];
      FieldPairsSnoc(done[1..], f, loc);
    }
  }

  lemma {:induction false} FieldPairsFresh(done: seq<Field>, f: Field, loc: Location)
    requires f !in done
    ensures forall pair | pair in FieldPairs(done, loc) :: pair.0 != Name(f)
  {
    if done != [] {
      assert done[0] in done;
      if Name(done[0]) == Name(f) {
        NamesDistinct(done[0], f);
      }
      FieldPairsFresh(done[1..], f, loc);
    }
  }

  method SetAssessmentFields(params: SearchParams, loc: Location)
    requires params.list == []
    modifies params
    ensures params.list == FieldPairs(FIELDS[..6], loc)
  {
    hide Slot;
    assert FIELDS[..0] == [];
    SetField(params, loc, View);
    SetField(params, loc, AccountId);
    SetField(params, loc, Event);
    SetField(params, loc, AssessmentId);
    SetField(params, loc, AssessmentVersion);
    SetField(params, loc, AssessmentAccount);
  }

  method SetFederalFields(params: SearchParams, loc: Location)
    requires params.list == FieldPairs(FIELDS[..6], loc)
    modifies params
    ensures params.list == FieldPairs(FIELDS[..12], loc)
  {
    hide FieldPairs;
    hide Slot;
    SetField(params, loc, Opportunity);
    SetField(params, loc, FederalAssessment);
    SetField(params, loc, FederalVersion);
    SetField(params, loc, Route);
    SetField(params, loc, RouteAccount);
    SetField(params, loc, Partner);
  }

  method SetPlaceFields(params: SearchParams, loc: Location)
    requires params.list == FieldPairs(FIELDS[..12], loc)
    modifies params
    ensures params.list == FieldPairs(FIELDS[..18], loc)
  {
    hide FieldPairs;
    hide Slot;
    SetField(params, loc, Partnership);
    SetField(params, loc, Facility);
    SetField(params, loc, ScopeField);
    SetField(params, loc, Path);
    SetField(params, loc, RelationshipMode);
    SetField(params, loc, RelationshipStart);
  }

  method SetRecordFields(params: SearchParams, loc: Location)
    requires params.list == FieldPairs(FIELDS[..18], loc)
    modifies params
    ensures params.list == FieldPairs(FIELDS, loc)
  {
    hide FieldPairs;
    hide Slot;
    SetField(params, loc, Action);
    SetField(params, loc, Record);
    SetField(params, loc, Sort);
    SetField(params, loc, Anchor);
    assert FIELDS[..22] == FIELDS;
  }

  lemma SafeValuesStep(values: seq<string>, i: nat)
    requires i < |values|
    ensures SafeValues(values[i..]) == (if SafeValue(values[i]) then [values[i]] else []) + SafeValues(values[i + 1..])
  {
    assert values[i..][1..] == values[i + 1..];
  }

  lemma ValuePairsStep(list: Pairs, key: string, value: string, rest: seq<string>)
    ensures list + ValuePairs(key, [value] + rest) == list + [(FILTER_PREFIX + key, value)] + ValuePairs(key, rest)
  {
    assert ([value] + rest)[1..] == rest;
  }

  method AppendValues(params: SearchParams, key: string, values: seq<string>)
    modifies params
    ensures params.list == old(params.list) + ValuePairs(key, SafeValues(values))
  {
    var i := 0;
    while i < |values|
      invariant 0 <= i <= |values|
      invariant params.list + ValuePairs(key, SafeValues(values[i..]))
                == old(params.list) + ValuePairs(key, SafeValues(values))
    {
      ghost var before, rest := params.list, SafeValues(values[i + 1..]);
      SafeValuesStep(values, i);
      if SafeValue(values[i]) {
        ValuePairsStep(before, key, values[i], rest);
        params.Append(FILTER_PREFIX + key, values[i]);
      } else {
        assert [] + rest == rest;
      }
      i := i + 1;
    }
  }

  ghost function SortedFilterPairs(keys: set<string>, filters: Filters): Pairs
    requires keys <= filters.Keys
  {
    FilterPairs(Ordering.Sorted(keys), filters)
  }

  lemma FilterStep(keys: set<string>, filters: Filters)
    requires keys <= filters.Keys && keys != {}
    ensures var key := Ordering.Minimum(keys);
            var head := if key in FILTER_KEYS then ValuePairs(key, SafeValues(ValuesIn(filters[key]))) else [];
            SortedFilterPairs(keys, filters) == head + SortedFilterPairs(keys - {key}, filters)
  {
    var key := Ordering.Minimum(keys);
    assert Ordering.Sorted(keys)[1..] == Ordering.Sorted(keys - {key});
  }

  /** Appends the filters in key order. */
  method AppendFilters(params: SearchParams, filters: Filters)
    modifies params
    ensures params.list == old(params.list) + SortedFilterPairs(filters.Keys, filters)
  {
    hide SortedFilterPairs;
    hide ValuePairs;
    hide SafeValues;
    var remaining := filters.Keys;
    while remaining != {}
      invariant remaining <= filters.Keys
      invariant params.list + SortedFilterPairs(remaining, filters)
                == old(params.list) + SortedFilterPairs(filters.Keys, filters)
      decreases |remaining|
    {
      var key := Ordering.Least(remaining);
      FilterStep(remaining, filters);
      if key in FILTER_KEYS {
        AppendValues(params, key, ValuesIn(filters[key]));
      }
      remaining := remaining - {key};
    }
    assert SortedFilterPairs({}, filters) == [] by {
      NoFilterPairs(filters);
    }
  }

  lemma NoFilterPairs(filters: Filters)
    ensures SortedFilterPairs({}, filters) == []
  {
  }

  lemma NothingNamedReturn(loc: Location)
    ensures forall pair | pair in FieldPairs(FIELDS, loc) + AllFilterPairs(loc.filters) :: pair.0 != RETURN
  {
    LinkTheorems.FieldPairNames(FIELDS, loc);
    forall f ensures Name(f) != RETURN {
      NamesAreNoFilters(f);
    }
    LinkTheorems.AllFilterPairNames(loc.filters);
    forall pair | pair in AllFilterPairs(loc.filters) ensures pair.0 != RETURN {
      assert pair.0[1] == '.';
    }
  }

  method SetScalarsAndFilters(params: SearchParams, loc: Location)
    requires params.list == []
    modifies params
    ensures params.list == FieldPairs(FIELDS, loc) + AllFilterPairs(loc.filters)
  {
    SetAssessmentFields(params, loc);
    SetFederalFields(params, loc);
    SetPlaceFields(params, loc);
    SetRecordFields(params, loc);
    if loc.filters.Some? {
      AppendFilters(params, loc.filters.value);
    }
  }

  lemma HashAssembles(loc: Location, returnHash: string, list: Pairs)
    requires returnHash == if loc.returnTo.None? then "" else Encode(loc.returnTo.value.(returnTo := None))
    requires list == FieldPairs(FIELDS, loc) + AllFilterPairs(loc.filters) + ReturnPairs(returnHash)
    ensures HashText(loc, list) == Encode(loc)
  {
    hide HashText;
    hide FieldPairs;
    hide AllFilterPairs;
    assert list == Params(loc, returnHash);
  }

  method WorkspaceHash(loc: Location) returns (hash: string)
    ensures hash == Encode(loc)
    decreases loc.returnTo.Some?
  {
    hide Encode;
    hide FieldPairs;
    hide AllFilterPairs;
    hide HashText;
    var params := new SearchParams.Empty();
    SetScalarsAndFilters(params, loc);
    var returnHash := "";
    if loc.returnTo.Some? {
      returnHash := WorkspaceHash(loc.returnTo.value.(returnTo := None));
      LinkTheorems.EncodeNotEmpty(loc.returnTo.value.(returnTo := None));
      NothingNamedReturn(loc);
      SetFresh(params.list, RETURN, returnHash);
      params.SetValue(RETURN, returnHash);
    }
    hash := HashText(loc, params.list);
    HashAssembles(loc, returnHash, params.list);
  }
}
