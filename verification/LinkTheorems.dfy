/** Canonical hashes are fixed points of decoding; exactly the normal locations survive printing and decoding. */
module LinkTheorems {
  import opened Text
  import opened Locations
  import opened UrlEncoding
  import opened LinkCodec
  import Ordering
  import Utf8

  // ---- Reading back single parameters ------------------------------------------------------------

  lemma {:induction false} GetConcat(a: Pairs, b: Pairs, name: string)
    ensures (forall pair | pair in a :: pair.0 != name) ==> Get(a + b, name) == Get(b, name)
  {
    if a == [] {
      assert a + b == b;
    } else {
      assert (a + b)[1..] == a[1..] + b;
      GetConcat(a[1..], b, name);
    }
  }

  lemma {:induction false} GetAbsent(a: Pairs, name: string)
    requires forall pair | pair in a :: pair.0 != name
    ensures Get(a, name) == ""
  {
    if a != [] {
      GetAbsent(a[1..], name);
    }
  }

  lemma {:induction false} FieldGet(fields: seq<Field>, loc: Location, f: Field, rest: Pairs)
    ensures Get(FieldPairs(fields, loc) + rest, Name(f))
         == if f in fields && Slot(loc, f) != "" then Slot(loc, f) else Get(rest, Name(f))
  {
    hide Slot;
    hide Name;
    if fields == [] {
      assert FieldPairs(fields, loc) + rest == rest;
    } else {
      var tail := FieldPairs(fields[1..], loc) + rest;
      FieldGet(fields[1..], loc, f, rest);
      if Slot(loc, fields[0]) != "" {
        var head := (Name(fields[0]), Slot(loc, fields[0]));
        assert FieldPairs(fields, loc) + rest == [head] + tail;
        assert ([head] + tail)[1..] == tail;
        if Name(fields[0]) == Name(f) {
          NamesDistinct(fields[0], f);
        }
      } else {
        assert FieldPairs(fields, loc) + rest == tail;
      }
    }
  }

  lemma {:induction false} FieldPairNames(fields: seq<Field>, loc: Location)
    ensures forall pair | pair in FieldPairs(fields, loc) :: exists f :: pair.0 == Name(f)
  {
    if fields != [] {
      FieldPairNames(fields[1..], loc);
    }
  }

  lemma {:induction false} ValuePairNames(key: string, values: seq<string>)
    ensures forall pair | pair in ValuePairs(key, values) :: FILTER_PREFIX <= pair.0
  {
    if values != [] {
      ValuePairNames(key, values[1..]);
    }
  }

  lemma {:induction false} FilterPairNames(keys: seq<string>, filters: Filters)
    requires forall k | k in keys :: k in filters
    ensures forall pair | pair in FilterPairs(keys, filters) :: FILTER_PREFIX <= pair.0
  {
    if keys != [] {
      ValuePairNames(keys[0], SafeValues(ValuesIn(filters[keys[0]])));
      FilterPairNames(keys[1..], filters);
    }
  }

  lemma AllFilterPairNames(filters: Option<Filters>)
    ensures forall pair | pair in AllFilterPairs(filters) :: FILTER_PREFIX <= pair.0
  {
    if filters.Some? {
      FilterPairNames(Ordering.Sorted(filters.value.Keys), filters.value);
    }
  }

  /** Every printed scalar parameter is read back as printed. */
  lemma RawPrinted(loc: Location, returnHash: string, f: Field)
    ensures Raw(Params(loc, returnHash), f) == Slot(loc, f)
  {
    var rest := AllFilterPairs(loc.filters) + ReturnPairs(returnHash);
    FieldListed(f);
    FieldGet(FIELDS, loc, f, rest);
    NamesAreNoFilters(f);
    AllFilterPairNames(loc.filters);
    forall pair | pair in rest ensures pair.0 != Name(f) {
      if pair in AllFilterPairs(loc.filters) {
        assert pair.0[1] == '.';
      }
    }
    GetAbsent(rest, Name(f));
  }

  /** The return link is read back as printed. */
  lemma ReturnPrinted(loc: Location, returnHash: string)
    ensures Get(Params(loc, returnHash), RETURN) == returnHash
  {
    FieldPairNames(FIELDS, loc);
    forall f ensures Name(f) != RETURN {
      NamesAreNoFilters(f);
    }
    AllFilterPairNames(loc.filters);
    var filters := AllFilterPairs(loc.filters);
    forall pair | pair in filters ensures pair.0 != RETURN {
      assert pair.0[1] == '.';
    }
    GetConcat(FieldPairs(FIELDS, loc), filters + ReturnPairs(returnHash), RETURN);
    GetConcat(filters, ReturnPairs(returnHash), RETURN);
  }

  // ---- Reading back filters ----------------------------------------------------------------------

  lemma {:induction false} ValuesConcat(a: Pairs, b: Pairs, key: string)
    ensures ValuesOf(a + b, key) == ValuesOf(a, key) + ValuesOf(b, key)
  {
    if a == [] {
      assert a + b == b;
    } else {
      assert (a + b)[1..] == a[1..] + b;
      ValuesConcat(a[1..], b, key);
    }
  }

  lemma {:induction false} ValuesAbsent(a: Pairs, key: string)
    requires forall pair | pair in a :: pair.0 != FILTER_PREFIX + key
    ensures ValuesOf(a, key) == []
  {
    if a != [] {
      assert a[0] in a;
      ValuesAbsent(a[1..], key);
    }
  }

  lemma {:induction false} ValuesPrinted(printed: string, values: seq<string>, key: string)
    requires forall v | v in values :: SafeValue(v)
    ensures ValuesOf(ValuePairs(printed, values), key) == if key == printed then values else []
  {
    if values != [] {
      ValuesPrinted(printed, values[1..], key);
      if key != printed {
        assert (FILTER_PREFIX + key)[2..] == key && (FILTER_PREFIX + printed)[2..] == printed;
      }
    }
  }

  lemma {:induction false} FilterKeyPrinted(keys: seq<string>, filters: Filters, key: string)
    requires forall k | k in keys :: k in filters
    requires Ordering.StrictlyIncreasing(keys)
    ensures ValuesOf(FilterPairs(keys, filters), key)
         == if key in keys && key in FILTER_KEYS then SafeValues(ValuesIn(filters[key])) else []
  {
    if keys != [] {
      Ordering.IncreasingTail(keys);
      FilterKeyPrinted(keys[1..], filters, key);
      var head := if keys[0] in FILTER_KEYS then ValuePairs(keys[0], SafeValues(ValuesIn(filters[keys[0]]))) else [];
      ValuesConcat(head, FilterPairs(keys[1..], filters), key);
      if keys[0] in FILTER_KEYS {
        ValuesPrinted(keys[0], SafeValues(ValuesIn(filters[keys[0]])), key);
      }
    }
  }

  lemma ValuesOutsideFilters(loc: Location, returnHash: string, key: string)
    ensures ValuesOf(FieldPairs(FIELDS, loc), key) == [] && ValuesOf(ReturnPairs(returnHash), key) == []
  {
    FieldPairNames(FIELDS, loc);
    var name := FILTER_PREFIX + key;
    assert name[1] == '.' && RETURN[1] == 'e';
    forall f ensures Name(f) != name {
      NamesAreNoFilters(f);
    }
    ValuesAbsent(FieldPairs(FIELDS, loc), key);
    ValuesAbsent(ReturnPairs(returnHash), key);
  }

  function PrintedValues(filters: Option<Filters>, key: string): seq<string> {
    if filters.Some? && key in filters.value && key in FILTER_KEYS then SafeValues(ValuesIn(filters.value[key])) else []
  }

  /** The values of each filter key are read back as printed. */
  lemma FiltersPrinted(loc: Location, returnHash: string, key: string)
    ensures ValuesOf(Params(loc, returnHash), key) == PrintedValues(loc.filters, key)
  {
    var scalar, filters, tail := FieldPairs(FIELDS, loc), AllFilterPairs(loc.filters), ReturnPairs(returnHash);
    ValuesOutsideFilters(loc, returnHash, key);
    ValuesConcat(scalar, filters + tail, key);
    ValuesConcat(filters, tail, key);
    if loc.filters.Some? {
      FilterKeyPrinted(Ordering.Sorted(loc.filters.value.Keys), loc.filters.value, key);
    }
  }

  lemma {:induction false} SafeValuesKeep(values: seq<string>)
    requires forall v | v in values :: SafeValue(v)
    ensures SafeValues(values) == values
  {
    if values != [] {
      assert values[0] in values;
      SafeValuesKeep(values[1..]);
    }
  }

  lemma CollapseInverse(value: FilterValue)
    requires NormalFilterValue(value)
    ensures SafeValues(ValuesIn(value)) != [] && Collapse(SafeValues(ValuesIn(value))) == value
  {
    SafeValuesKeep(ValuesIn(value));
  }

  lemma FilterMapEqual(m: Filters, filters: Filters)
    requires m.Keys == filters.Keys && forall k | k in filters :: m[k] == filters[k]
    ensures m == filters
  {
  }

  /** Normal filters survive printing and decoding. */
  lemma FiltersRoundTrip(loc: Location, returnHash: string)
    requires loc.filters.Some? ==> NormalFilters(loc.filters.value)
    ensures FiltersOf(Params(loc, returnHash)) == loc.filters
  {
    var params := Params(loc, returnHash);
    var m := FilterMap(params);
    if loc.filters.None? {
      forall k ensures k !in m {
        FiltersPrinted(loc, returnHash, k);
      }
      assert m == map[];
    } else {
      var filters := loc.filters.value;
      forall k ensures k in m <==> k in filters {
        FiltersPrinted(loc, returnHash, k);
        if k in filters {
          CollapseInverse(filters[k]);
        }
      }
      forall k | k in filters ensures m[k] == filters[k] {
        FiltersPrinted(loc, returnHash, k);
        CollapseInverse(filters[k]);
      }
      FilterMapEqual(m, filters);
    }
  }

  // ---- Reading back the path ---------------------------------------------------------------------

  predicate ComponentCharacter(c: char) { ComponentSafe(c) || c == '%' }

  lemma {:induction false} PercentBytesCharacters(bytes: seq<Byte>)
    ensures All(PercentBytes(bytes), ComponentCharacter)
  {
    if bytes != [] {
      PercentBytesCharacters(bytes[1..]);
      assert All(PercentEncode(bytes[0]), ComponentCharacter);
    }
  }

  lemma {:induction false} ComponentCharacters(s: string)
    ensures All(EncodeComponent(s), ComponentCharacter)
  {
    if s != "" {
      ComponentCharacters(s[1..]);
      PercentBytesCharacters(Utf8.EncodeChar(s[0]));
    }
  }

  lemma EncodedIdIsSegment(id: string)
    requires ValidId(id)
    ensures '/' !in EncodeComponent(id) && '?' !in EncodeComponent(id) && EncodeComponent(id) != ""
    ensures SafeId(EncodeComponent(id)) == Some(id)
  {
    ComponentCharacters(id);
    assert !ComponentCharacter('/') && !ComponentCharacter('?');
    ComponentRoundTrip(id);
    assert IsAlphanumeric(id[0]) && id != ".." && id != ".";
  }

  lemma {:induction false} JoinLacks(parts: seq<string>, separator: string, c: char)
    requires c !in separator && forall part | part in parts :: c !in part
    ensures c !in Join(parts, separator)
  {
    if |parts| > 1 {
      JoinLacks(parts[1..], separator, c);
    }
  }

  lemma QueryHasNoQuestionMark(params: Pairs)
    ensures '?' !in Serialize(params)
  {
    PiecesRoundTrip(params);
    JoinLacks(SerializeAll(params), "&", '?');
  }

  function PathOf(loc: Location): string { SurfaceName(loc.surface) + AccountSegment(loc) }

  lemma PathHasNoQuestionMark(loc: Location)
    requires OptionalId(loc.accountId)
    ensures '?' !in PathOf(loc)
  {
    SurfaceRoundTrip(loc.surface);
    if loc.accountId.Some? {
      EncodedIdIsSegment(loc.accountId.value);
    }
  }

  lemma PrefixDropped(text: string)
    ensures DropPrefix(DropPrefix("#/" + text, '#'), '/') == text
  {
    assert ("#/" + text)[1..] == "/" + text;
    assert ("/" + text)[1..] == text;
  }

  function LinkPieces(path: string, query: string): seq<string> { if query == "" then [path] else [path, query] }

  lemma PiecesSplit(path: string, query: string)
    requires '?' !in path && '?' !in query
    ensures Split(path + (if query == "" then "" else "?" + query), '?') == LinkPieces(path, query)
  {
    var pieces := LinkPieces(path, query);
    assert path + (if query == "" then "" else "?" + query) == Join(pieces, "?") by {
      if query != "" {
        assert pieces[1..] == [query];
      }
    }
    SplitJoin(pieces, '?');
  }

  lemma HashAfterPrefix(loc: Location, params: Pairs)
    ensures var query := Serialize(params);
            HashText(loc, params) == "#/" + (PathOf(loc) + (if query == "" then "" else "?" + query))
  {
    hide Serialize;
    hide AccountSegment;
  }

  /** The printed hash splits back into its path and its query. */
  lemma HashSplits(loc: Location, params: Pairs)
    requires OptionalId(loc.accountId)
    ensures PathText(HashText(loc, params)) == PathOf(loc)
    ensures QueryText(HashText(loc, params)) == Serialize(params)
  {
    hide Serialize;
    hide PathOf;
    hide Split;
    hide DropPrefix;
    HashAfterPrefix(loc, params);
    hide HashText;
    PathHasNoQuestionMark(loc);
    QueryHasNoQuestionMark(params);
    PiecesSplit(PathOf(loc), Serialize(params));
    PrefixDropped(PathOf(loc) + if Serialize(params) == "" then "" else "?" + Serialize(params));
  }

  function PathParts(loc: Location): seq<string> {
    [SurfaceName(loc.surface)]
    + if loc.surface.Accounts? && loc.accountId.Some? then [EncodeComponent(loc.accountId.value)] else []
  }

  lemma {:induction false} NonEmptyAll(parts: seq<string>)
    requires "" !in parts
    ensures NonEmpty(parts) == parts
  {
    if parts != [] {
      NonEmptyAll(parts[1..]);
    }
  }

  lemma PathJoins(loc: Location)
    requires OptionalId(loc.accountId)
    ensures PathOf(loc) == Join(PathParts(loc), "/")
    ensures forall part | part in PathParts(loc) :: '/' !in part && part != ""
  {
    var parts := PathParts(loc);
    SurfaceRoundTrip(loc.surface);
    hide SurfaceName;
    hide EncodeComponent;
    if loc.accountId.Some? {
      EncodedIdIsSegment(loc.accountId.value);
    }
    if |parts| == 2 {
      assert parts[1..] == [parts[1]];
      Reassociate(parts[0], "/", parts[1]);
    }
  }

  lemma PathSplits(loc: Location)
    requires OptionalId(loc.accountId)
    ensures NonEmpty(Split(PathOf(loc), '/')) == PathParts(loc)
  {
    hide PathOf;
    PathJoins(loc);
    SplitJoin(PathParts(loc), '/');
    NonEmptyAll(PathParts(loc));
  }

  /** A printed hash leads the decoder to the same surface, account and parameters. */
  lemma PathRoundTrip(loc: Location, params: Pairs)
    requires OptionalId(loc.accountId)
    ensures var hash := HashText(loc, params);
            var parts := Segments(hash);
            && PathSurface(parts) == loc.surface
            && PathAccount(loc.surface, parts) == (if loc.surface.Accounts? then loc.accountId else None)
            && HashParams(hash) == params
            && !PathInvalid(loc.surface, parts)
  {
    HashSplits(loc, params);
    PathSplits(loc);
    ParseSerialize(params);
    SurfaceRoundTrip(loc.surface);
    if loc.accountId.Some? {
      EncodedIdIsSegment(loc.accountId.value);
    }
  }

  // ---- Reading back the query --------------------------------------------------------------------

  lemma {:induction false} IdRoundTrip(id: string)
    requires ValidId(id)
    ensures SafeId(id) == Some(id)
  {
    assert !IdCharacter('%');
    DecodeComponentPlain(id);
    assert IsAlphanumeric(id[0]) && id != ".." && id != ".";
  }

  lemma IdTextRoundTrip(id: Option<string>)
    requires OptionalId(id)
    ensures SafeId(IdText(id)) == id && (IdText(id) == "" <==> id.None?)
  {
    if id.Some? {
      IdRoundTrip(id.value);
    }
  }

  lemma VersionRoundTrip(n: int)
    requires ValidVersion(n)
    ensures PositiveInteger(VersionText(n)) == Some(n)
  {
    NumeralRoundTrip(n);
    assert Power10(9) == MAX_VERSION + 1 by {
      assert Power10(3) == 1000;
      assert Power10(6) == 1000 * Power10(3);
    }
    NumeralLength(n, 9);
  }

  /** An id is read exactly from the percent-encodings of valid ids, among them the id itself and its
      `encodeURIComponent`. */
  lemma SafeIdIff(raw: string, id: string)
    ensures SafeId(raw) == Some(id) <==> ValidId(id) && DecodeComponent(raw) == Some(id)
    ensures ValidId(id) ==> SafeId(id) == Some(id) && SafeId(EncodeComponent(id)) == Some(id)
  {
    if ValidId(id) {
      assert IsAlphanumeric(id[0]) && id != ".." && id != ".";
      IdRoundTrip(id);
      EncodedIdIsSegment(id);
    }
  }

  /** A version is read exactly from its numeral with leading zeros, of at most nine digits in all. */
  lemma PositiveIntegerIff(raw: string, n: nat)
    ensures PositiveInteger(raw) == Some(n) <==>
            n > 0 && |raw| <= 9 && exists k: nat | k <= |raw| :: raw == Zeros(k) + Numeral(n)
  {
    if PositiveInteger(raw) == Some(n) {
      DigitsArePadded(raw);
    }
    if k: nat :| k <= |raw| && raw == Zeros(k) + Numeral(n) {
      PaddedValue(k, Numeral(n));
      NumeralRoundTrip(n);
    }
  }

  lemma AssessmentRoundTrip(loc: Location, returnHash: string)
    requires NormalHere(loc)
    ensures var params := Params(loc, returnHash);
            && AssessmentOf(params, loc.accountId) == loc.assessment
            && Id(params, Event) == loc.eventId
            && !AssessmentInvalid(params, loc.accountId)
  {
    hide Params;
    RawPrinted(loc, returnHash, AssessmentId);
    RawPrinted(loc, returnHash, AssessmentVersion);
    RawPrinted(loc, returnHash, AssessmentAccount);
    RawPrinted(loc, returnHash, Event);
    IdTextRoundTrip(loc.eventId);
    if loc.assessment.Some? {
      var a := loc.assessment.value;
      IdRoundTrip(a.assessmentId);
      IdRoundTrip(a.eventId);
      IdRoundTrip(a.accountId);
      VersionRoundTrip(a.version);
    }
  }

  lemma FederalSlots(loc: Location)
    requires loc.federal.Some? && NormalFederal(loc.federal.value)
    ensures var f := loc.federal.value;
            && Slot(loc, Opportunity) == f.opportunityId && Slot(loc, FederalAssessment) == f.assessmentId
            && Slot(loc, RouteAccount) == IdText(f.accountId) && Slot(loc, Partner) == IdText(f.partnershipId)
  {
  }

  lemma FederalPrinted(loc: Location, returnHash: string)
    requires loc.federal.Some? && NormalFederal(loc.federal.value)
    ensures var params, f := Params(loc, returnHash), loc.federal.value;
            && Id(params, Opportunity) == Some(f.opportunityId) && Id(params, FederalAssessment) == Some(f.assessmentId)
            && Id(params, RouteAccount) == f.accountId && !BadId(params, RouteAccount)
            && Id(params, Partner) == f.partnershipId && !BadId(params, Partner)
  {
    hide Params;
    hide Slot;
    var f := loc.federal.value;
    FederalSlots(loc);
    RawPrinted(loc, returnHash, Opportunity);
    RawPrinted(loc, returnHash, FederalAssessment);
    RawPrinted(loc, returnHash, RouteAccount);
    RawPrinted(loc, returnHash, Partner);
    IdRoundTrip(f.opportunityId);
    IdRoundTrip(f.assessmentId);
    IdTextRoundTrip(f.accountId);
    IdTextRoundTrip(f.partnershipId);
  }

  lemma FederalChoicePrinted(loc: Location, returnHash: string)
    requires loc.federal.Some? && NormalFederal(loc.federal.value)
    ensures var params, f := Params(loc, returnHash), loc.federal.value;
            && PositiveInteger(Raw(params, FederalVersion)) == Some(f.version)
            && RouteOf(Raw(params, Route)) == Some(f.routeType)
  {
    hide Params;
    RawPrinted(loc, returnHash, FederalVersion);
    RawPrinted(loc, returnHash, Route);
    VersionRoundTrip(loc.federal.value.version);
    RouteRoundTrip(loc.federal.value.routeType);
  }

  lemma FederalAbsent(loc: Location, returnHash: string)
    requires loc.federal.None?
    ensures var params := Params(loc, returnHash);
            && Raw(params, Opportunity) == Raw(params, FederalAssessment) == ""
            && Raw(params, FederalVersion) == Raw(params, Route) == ""
  {
    RawPrinted(loc, returnHash, Opportunity);
    RawPrinted(loc, returnHash, FederalAssessment);
    RawPrinted(loc, returnHash, FederalVersion);
    RawPrinted(loc, returnHash, Route);
  }

  lemma NormalFederalOf(loc: Location)
    requires NormalHere(loc)
    ensures loc.federal.Some? ==> NormalFederal(loc.federal.value)
  {
  }

  lemma FederalRoundTrip(loc: Location, returnHash: string)
    requires NormalHere(loc)
    ensures var params := Params(loc, returnHash);
            FederalOf(params) == loc.federal && !FederalInvalid(params)
  {
    hide Params;
    NormalFederalOf(loc);
    hide NormalFederal;
    hide NormalHere;
    hide ValidId;
    hide PositiveInteger;
    hide Raw;
    hide SafeId;
    if loc.federal.Some? {
      FederalPrinted(loc, returnHash);
      FederalChoicePrinted(loc, returnHash);
    } else {
      FederalAbsent(loc, returnHash);
    }
  }

  lemma ScopeRoundTrip(loc: Location, returnHash: string)
    requires NormalHere(loc)
    ensures var params := Params(loc, returnHash);
            && ScopeOf(params, loc.accountId) == loc.scope
            && Id(params, Facility) == loc.facilityId
            && !ScopeInvalid(params)
  {
    RawPrinted(loc, returnHash, Facility);
    RawPrinted(loc, returnHash, ScopeField);
    IdTextRoundTrip(loc.facilityId);
  }

  lemma RelationshipRoundTrip(loc: Location, returnHash: string)
    requires NormalHere(loc)
    ensures var params := Params(loc, returnHash);
            && RelationshipOf(params) == loc.relationship
            && !BadId(params, Path) && !BadId(params, RelationshipMode) && !BadId(params, RelationshipStart)
  {
    hide Params;
    hide SafeId;
    RawPrinted(loc, returnHash, Path);
    RawPrinted(loc, returnHash, RelationshipMode);
    RawPrinted(loc, returnHash, RelationshipStart);
    if loc.relationship.Some? {
      var r := loc.relationship.value;
      IdTextRoundTrip(r.pathId);
      IdTextRoundTrip(r.mode);
      IdTextRoundTrip(r.startAccountId);
    } else {
      IdTextRoundTrip(None);
    }
  }

  lemma OneIdRoundTrip(loc: Location, returnHash: string, f: Field, id: Option<string>)
    requires OptionalId(id) && Slot(loc, f) == IdText(id)
    ensures Id(Params(loc, returnHash), f) == id && !BadId(Params(loc, returnHash), f)
  {
    hide Params;
    hide Slot;
    hide SafeId;
    RawPrinted(loc, returnHash, f);
    IdTextRoundTrip(id);
  }

  lemma SimpleIdsRoundTrip(loc: Location, returnHash: string)
    requires NormalHere(loc)
    ensures var params := Params(loc, returnHash);
            && Id(params, Partnership) == loc.partnershipId && !BadId(params, Partnership)
            && Id(params, Action) == loc.actionId && !BadId(params, Action)
            && Id(params, Record) == loc.recordId && !BadId(params, Record)
            && Id(params, Sort) == loc.sort && !BadId(params, Sort)
            && Id(params, Anchor) == loc.anchor && !BadId(params, Anchor)
  {
    hide Params;
    hide Id;
    hide BadId;
    OneIdRoundTrip(loc, returnHash, Partnership, loc.partnershipId);
    OneIdRoundTrip(loc, returnHash, Action, loc.actionId);
    OneIdRoundTrip(loc, returnHash, Record, loc.recordId);
    OneIdRoundTrip(loc, returnHash, Sort, loc.sort);
    OneIdRoundTrip(loc, returnHash, Anchor, loc.anchor);
  }

  lemma AccountRoundTrip(loc: Location, returnHash: string)
    requires OptionalId(loc.accountId)
    ensures var params := Params(loc, returnHash);
            var pathAccount := if loc.surface.Accounts? then loc.accountId else None;
            AccountOf(params, pathAccount) == loc.accountId && !BadId(params, AccountId)
  {
    RawPrinted(loc, returnHash, AccountId);
    IdTextRoundTrip(loc.accountId);
  }

  lemma SubviewRoundTrip(loc: Location, returnHash: string)
    requires NormalHere(loc)
    ensures var params := Params(loc, returnHash);
            SubviewOf(loc.surface, params) == loc.subview && (Raw(params, View) == "" <==> loc.subview.None?)
  {
    RawPrinted(loc, returnHash, View);
  }

  /** The query of a printed normal location reads back as that location. */
  lemma QueryRoundTrip(loc: Location, returnHash: string, nested: Option<Decoded>)
    requires NormalHere(loc)
    requires nested.Some? ==> !nested.value.malformed
    requires loc.returnTo == if nested.Some? then Some(nested.value.location.(returnTo := None)) else None
    ensures var params := Params(loc, returnHash);
            var pathAccount := if loc.surface.Accounts? then loc.accountId else None;
            && QueryLocation(loc.surface, params, pathAccount, nested) == loc
            && !QueryInvalid(loc.surface, params, pathAccount, nested)
  {
    AccountRoundTrip(loc, returnHash);
    SubviewRoundTrip(loc, returnHash);
    AssessmentRoundTrip(loc, returnHash);
    FederalRoundTrip(loc, returnHash);
    ScopeRoundTrip(loc, returnHash);
    RelationshipRoundTrip(loc, returnHash);
    SimpleIdsRoundTrip(loc, returnHash);
    FiltersRoundTrip(loc, returnHash);
  }

  lemma EncodeNotEmpty(loc: Location)
    ensures Encode(loc) != ""
  {
  }

  /** Decoding the printed hash of a normal location that returns nowhere. */
  lemma RoundTripHere(loc: Location, allowReturn: bool)
    requires NormalHere(loc) && loc.returnTo.None?
    ensures Decode(Encode(loc), allowReturn) == Decoded(loc, Encode(loc), false)
  {
    PathRoundTrip(loc, Params(loc, ""));
    ReturnPrinted(loc, "");
    QueryRoundTrip(loc, "", None);
  }

  /** Printing then decoding a normal location is the identity and raises no recovery flag. */
  lemma RoundTrip(loc: Location)
    requires Normal(loc)
    ensures Decode(Encode(loc), true) == Decoded(loc, Encode(loc), false)
  {
    if loc.returnTo.None? {
      RoundTripHere(loc, true);
    } else {
      var target := loc.returnTo.value.(returnTo := None);
      var returnHash := Encode(target);
      RoundTripHere(target, false);
      EncodeNotEmpty(target);
      PathRoundTrip(loc, Params(loc, returnHash));
      ReturnPrinted(loc, returnHash);
      QueryRoundTrip(loc, returnHash, Some(Decode(returnHash, false)));
    }
  }

  // ---- Every decoded location is normal ----------------------------------------------------------

  lemma {:induction false} ValuesOfSafe(params: Pairs, key: string)
    ensures forall v | v in ValuesOf(params, key) :: SafeValue(v)
  {
    if params != [] {
      ValuesOfSafe(params[1..], key);
    }
  }

  lemma FilterMapNormal(params: Pairs)
    ensures FiltersOf(params).Some? ==> NormalFilters(FiltersOf(params).value)
  {
    forall k | k in FilterMap(params) ensures NormalFilterValue(FilterMap(params)[k]) {
      ValuesOfSafe(params, k);
    }
  }

  lemma QueryNormal(surface: Surface, params: Pairs, pathAccount: Option<string>, nested: Option<Decoded>)
    requires OptionalId(pathAccount)
    ensures NormalHere(QueryLocation(surface, params, pathAccount, nested))
  {
    hide FilterMap;
    hide Raw;
    hide SafeId;
    hide ValidId;
    hide SubviewAllowed;
    FilterMapNormal(params);
  }

  lemma DropReturnNormal(loc: Location)
    requires NormalHere(loc)
    ensures Normal(loc.(returnTo := None))
  {
  }

  lemma QueryReturn(surface: Surface, params: Pairs, pathAccount: Option<string>, nested: Option<Decoded>)
    ensures QueryLocation(surface, params, pathAccount, nested).returnTo
         == if nested.Some? && !nested.value.malformed then Some(nested.value.location.(returnTo := None)) else None
  {
  }

  /** Whatever string is decoded, the location is in normal form. */
  lemma {:induction false} DecodedNormal(hash: string, allowReturn: bool)
    ensures Normal(Decode(hash, allowReturn).location)
    decreases |hash|
  {
    var parts := Segments(hash);
    var surface := PathSurface(parts);
    var account := PathAccount(surface, parts);
    var nested := Nested(hash);
    var read := QueryLocation(surface, HashParams(hash), account, nested);
    QueryNormal(surface, HashParams(hash), account, nested);
    DropReturnNormal(read);
    QueryReturn(surface, HashParams(hash), account, nested);
    if nested.Some? {
      ReturnTextShorter(hash);
      DecodedNormal(ReturnText(hash), false);
      DropReturnNormal(nested.value.location);
    }
  }

  // ---- Main results ------------------------------------------------------------------------------

  /** For every string, the canonical hash decodes to the same location and the same hash, without
      a recovery flag. */
  lemma CanonicalHashIsFixedPoint(hash: string, allowReturn: bool)
    ensures var first := Decode(hash, allowReturn);
            Decode(first.canonicalHash, true) == Decoded(first.location, first.canonicalHash, false)
  {
    DecodedNormal(hash, allowReturn);
    RoundTrip(Decode(hash, allowReturn).location);
  }

  /** Printing and decoding gives a location back exactly when it is in normal form. */
  lemma RoundTripExactlyOnNormalForm(loc: Location)
    ensures Decode(Encode(loc), true) == Decoded(loc, Encode(loc), false) <==> Normal(loc)
  {
    if Normal(loc) {
      RoundTrip(loc);
    } else {
      DecodedNormal(Encode(loc), true);
    }
  }

  /** The normal form is the image of the decoder. */
  lemma NormalFormIsDecoderImage(loc: Location)
    ensures Normal(loc) <==> exists hash :: Decode(hash, true).location == loc
  {
    if Normal(loc) {
      RoundTrip(loc);
    } else {
      forall hash ensures Decode(hash, true).location != loc {
        DecodedNormal(hash, true);
      }
    }
  }

  /** `sameWorkspaceLocation`. */
  ghost predicate SameLocation(a: Location, b: Location) { Encode(a) == Encode(b) }

  /** On the normal form the hash is injective, so comparing hashes compares locations. */
  lemma SameLocationIsEquality(a: Location, b: Location)
    requires Normal(a) && Normal(b)
    ensures SameLocation(a, b) <==> a == b
  {
    RoundTrip(a);
    RoundTrip(b);
  }

  // ---- What is read from any printed hash ------------------------------------------------------------

  ghost function ReturnHashOf(loc: Location): string {
    if loc.returnTo.None? then "" else Encode(loc.returnTo.value.(returnTo := None))
  }

  /** The scalar parameters of any printed hash are the slots of the location. */
  lemma EncodedField(loc: Location, f: Field)
    requires OptionalId(loc.accountId)
    ensures Raw(HashParams(Encode(loc)), f) == Slot(loc, f)
  {
    PathRoundTrip(loc, Params(loc, ReturnHashOf(loc)));
    RawPrinted(loc, ReturnHashOf(loc), f);
  }

  lemma CanonicalHashPrints(hash: string, allowReturn: bool)
    ensures Decode(hash, allowReturn).canonicalHash == Encode(Decode(hash, allowReturn).location)
  {
    hide Encode;
  }

  ghost function ReadAccount(hash: string): Option<string> {
    var parts := Segments(hash);
    AccountOf(HashParams(hash), PathAccount(PathSurface(parts), parts))
  }

  lemma PrintedReads(loc: Location)
    requires OptionalId(loc.accountId)
    ensures HashParams(Encode(loc)) == Params(loc, ReturnHashOf(loc))
    ensures ReadAccount(Encode(loc)) == loc.accountId
  {
    hide HashParams;
    hide Segments;
    hide PathSurface;
    hide PathAccount;
    hide PathInvalid;
    hide AccountOf;
    hide HashText;
    PathRoundTrip(loc, Params(loc, ReturnHashOf(loc)));
    AccountRoundTrip(loc, ReturnHashOf(loc));
  }

  // ---- The browser leaves a printed hash as it is --------------------------------------------------

  /** Characters of a printed hash: none is percent-encoded when a browser parses a URL fragment. */
  predicate FragmentCharacter(c: char) {
    FormCharacter(c) || ComponentCharacter(c) || c in "#/?=&"
  }

  lemma {:induction false} JoinCharacters(parts: seq<string>, separator: string)
    requires All(separator, FragmentCharacter) && forall part | part in parts :: All(part, FragmentCharacter)
    ensures All(Join(parts, separator), FragmentCharacter)
  {
    if parts != [] {
      assert All(parts[0], FragmentCharacter);
      JoinCharacters(parts[1..], separator);
    }
  }

  lemma {:induction false} SerializeCharacters(pairs: Pairs)
    ensures forall piece | piece in SerializeAll(pairs) :: All(piece, FragmentCharacter)
  {
    if pairs != [] {
      FormBytesCharacters(Utf8.Encode(pairs[0].0));
      FormBytesCharacters(Utf8.Encode(pairs[0].1));
      SerializeCharacters(pairs[1..]);
    }
  }

  lemma QueryFragmentSafe(params: Pairs)
    ensures All(Serialize(params), FragmentCharacter)
  {
    SerializeCharacters(params);
    JoinCharacters(SerializeAll(params), "&");
  }

  lemma AccountFragmentSafe(loc: Location)
    ensures All(AccountSegment(loc), FragmentCharacter)
  {
    if loc.accountId.Some? {
      ComponentCharacters(loc.accountId.value);
    }
  }

  lemma SurfaceLetters(surface: Surface)
    ensures forall c | c in SurfaceName(surface) :: 'a' <= c <= 'z'
  {
  }

  lemma MarksFragmentSafe(surface: Surface)
    ensures All(SurfaceName(surface), FragmentCharacter) && All("#/", FragmentCharacter) && All("?", FragmentCharacter)
  {
    hide SurfaceName;
    SurfaceLetters(surface);
  }

  /** Every character of a printed hash is ASCII and stays as it is in the address bar. */
  lemma PrintedHashIsFragmentSafe(loc: Location)
    ensures All(Encode(loc), FragmentCharacter)
  {
    hide Params;
    hide Serialize;
    hide FragmentCharacter;
    var params := Params(loc, ReturnHashOf(loc));
    QueryFragmentSafe(params);
    AccountFragmentSafe(loc);
    MarksFragmentSafe(loc.surface);
  }
}
