/** Exactly when the printed link of a location is canonical. */
module LinkCanonical {
  import opened Text
  import opened Locations
  import opened LinkCodec
  import opened LinkTheorems
  import Ordering

  predicate Usable(id: Option<string>) { id.Some? && ValidId(id.value) }

  /** The condition apart from the return link: an assessment and a federal route are complete, a federal partner comes
      with a partnership, a facility scope with a facility, and an account with a scope. */
  predicate PrintsCanonicallyHere(loc: Location) {
    && (loc.assessment.Some? ==>
          var a := loc.assessment.value;
          && ValidId(a.assessmentId) && ValidVersion(a.version) && ValidId(a.eventId)
          && (ValidId(a.accountId) || Usable(loc.accountId)))
    && (loc.federal.Some? ==>
          var f := loc.federal.value;
          && ValidId(f.opportunityId) && ValidId(f.assessmentId) && ValidVersion(f.version)
          && (Usable(f.partnershipId) ==> Usable(loc.partnershipId)))
    && (loc.scope == Some(FacilityScope) ==> Usable(loc.facilityId))
    && (Usable(loc.accountId) ==> loc.scope.Some?)
  }

  predicate PrintsCanonically(loc: Location) {
    PrintsCanonicallyHere(loc) && (loc.returnTo.Some? ==> PrintsCanonicallyHere(loc.returnTo.value))
  }

  // ---- Leaving out what the printer leaves out ------------------------------------------------------

  function Kept(id: Option<string>): Option<string> { if Usable(id) then id else None }

  function TidyAssessment(loc: Location): Option<Assessment> {
    if loc.assessment.None? || ValidId(loc.assessment.value.accountId) || loc.accountId.None? then loc.assessment
    else Some(loc.assessment.value.(accountId := loc.accountId.value))
  }

  function TidyFederal(federal: Option<Federal>): Option<Federal> {
    if federal.None? then None
    else
      var f := federal.value;
      Some(f.(accountId := Kept(f.accountId), partnershipId := Kept(f.partnershipId)))
  }

  function TidyRelationship(relationship: Option<Relationship>): Option<Relationship> {
    if relationship.None? then None
    else
      var r := relationship.value;
      var kept := Relationship(Kept(r.pathId), Kept(r.mode), Kept(r.startAccountId));
      if kept == Relationship(None, None, None) then None else Some(kept)
  }

  function KeptValues(filters: Filters, key: string): seq<string>
    requires key in filters
  {
    SafeValues(ValuesIn(filters[key]))
  }

  function KeptFilters(filters: Filters): Filters {
    map k | k in filters && k in FILTER_KEYS && KeptValues(filters, k) != [] :: Collapse(KeptValues(filters, k))
  }

  function TidyFilters(filters: Option<Filters>): Option<Filters> {
    if filters.None? || KeptFilters(filters.value) == map[] then None else Some(KeptFilters(filters.value))
  }

  /** The location with everything left out that is not printed, and with what is printed anyway filled in. */
  function TidyHere(loc: Location, returnTo: Option<Location>): Location {
    Location(
      loc.surface, Kept(loc.accountId), TidyAssessment(loc),
      if loc.assessment.Some? then Some(loc.assessment.value.eventId) else Kept(loc.eventId),
      TidyFederal(loc.federal), Kept(loc.partnershipId), Kept(loc.facilityId), loc.scope,
      TidyRelationship(loc.relationship), Kept(loc.actionId), Kept(loc.recordId),
      if loc.subview.Some? && SubviewAllowed(loc.surface, loc.subview.value) then loc.subview else None,
      TidyFilters(loc.filters), Kept(loc.sort), returnTo, Kept(loc.anchor))
  }

  function Tidy(loc: Location): Location {
    TidyHere(loc, if loc.returnTo.None? then None else Some(TidyHere(loc.returnTo.value, None)))
  }

  lemma TidySlot(loc: Location, returnTo: Option<Location>, f: Field)
    ensures Slot(TidyHere(loc, returnTo), f) == Slot(loc, f)
  {
    hide ValidId;
    hide SubviewAllowed;
    hide TidyFilters;
    hide VersionText;
    hide RouteName;
    hide ScopeName;
  }

  lemma {:induction false} FieldPairsAlike(fields: seq<Field>, a: Location, b: Location)
    requires forall f :: Slot(a, f) == Slot(b, f)
    ensures FieldPairs(fields, a) == FieldPairs(fields, b)
  {
    hide Slot;
    if fields != [] {
      FieldPairsAlike(fields[1..], a, b);
    }
  }

  lemma {:induction false} SafeValuesSafe(values: seq<string>)
    ensures SafeValues(SafeValues(values)) == SafeValues(values)
  {
    SafeValuesKeep(SafeValues(values));
  }

  lemma KeptValue(filters: Filters, key: string)
    requires key in KeptFilters(filters)
    ensures key in filters && NormalFilterValue(KeptFilters(filters)[key])
    ensures SafeValues(ValuesIn(KeptFilters(filters)[key])) == KeptValues(filters, key)
  {
    SafeValuesSafe(ValuesIn(filters[key]));
    var values := KeptValues(filters, key);
    if |values| == 1 {
      assert values == [values[0]];
    }
  }

  lemma {:induction false} KeptFilterPairs(keys: set<string>, filters: Filters)
    requires keys <= filters.Keys
    ensures FilterPairs(Ordering.Sorted(keys), filters)
         == FilterPairs(Ordering.Sorted(keys * KeptFilters(filters).Keys), KeptFilters(filters))
    decreases |keys|
  {
    hide KeptFilters;
    var kept := KeptFilters(filters);
    var t := keys * kept.Keys;
    if keys == {} {
      assert t == {};
    } else {
      var m := Ordering.Minimum(keys);
      var rest := keys - {m};
      KeptFilterPairs(rest, filters);
      assert Ordering.Sorted(keys) == [m] + Ordering.Sorted(rest);
      assert Ordering.Sorted(keys)[1..] == Ordering.Sorted(rest);
      assert (m in kept <==> m in FILTER_KEYS && KeptValues(filters, m) != []) by { IsKept(filters, m); }
      if m in kept {
        Ordering.MinimumUnique(m, Ordering.Minimum(t), t);
        assert t - {m} == rest * kept.Keys;
        assert Ordering.Sorted(t) == [m] + Ordering.Sorted(t - {m});
        assert Ordering.Sorted(t)[1..] == Ordering.Sorted(t - {m});
        KeptValue(filters, m);
      } else {
        assert t == rest * kept.Keys;
      }
    }
  }

  lemma IsKept(filters: Filters, key: string)
    requires key in filters
    ensures key in KeptFilters(filters) <==> key in FILTER_KEYS && KeptValues(filters, key) != []
  {
  }

  lemma TidyFilterPairs(filters: Option<Filters>)
    ensures AllFilterPairs(TidyFilters(filters)) == AllFilterPairs(filters)
  {
    if filters.Some? {
      var kept := KeptFilters(filters.value);
      assert filters.value.Keys * kept.Keys == kept.Keys;
      KeptFilterPairs(filters.value.Keys, filters.value);
      if kept == map[] {
        assert Ordering.Sorted(kept.Keys) == [];
      }
    }
  }

  lemma TidyPrintsHere(loc: Location, returnTo: Option<Location>, returnHash: string)
    ensures var tidy := TidyHere(loc, returnTo);
            HashText(tidy, Params(tidy, returnHash)) == HashText(loc, Params(loc, returnHash))
  {
    hide Slot;
    hide FieldPairs;
    hide AllFilterPairs;
    hide TidyFilters;
    var tidy := TidyHere(loc, returnTo);
    forall f ensures Slot(tidy, f) == Slot(loc, f) {
      TidySlot(loc, returnTo, f);
    }
    FieldPairsAlike(FIELDS, tidy, loc);
    TidyFilterPairs(loc.filters);
    assert AccountSegment(tidy) == AccountSegment(loc);
  }

  lemma EncodeIs(loc: Location)
    ensures Encode(loc) == HashText(loc, Params(loc, ReturnHashOf(loc)))
  {
  }

  lemma TidyReturn(loc: Location, returnTo: Option<Location>)
    ensures TidyHere(loc, returnTo).returnTo == returnTo
    ensures TidyHere(loc, None) == TidyHere(loc.(returnTo := None), None) == TidyHere(loc, None).(returnTo := None)
  {
    hide Kept;
    hide TidyFederal;
    hide TidyRelationship;
    hide TidyFilters;
    hide SubviewAllowed;
  }

  /** Every location prints as its tidied form. */
  lemma TidyPrints(loc: Location)
    ensures Encode(Tidy(loc)) == Encode(loc)
    ensures ReturnHashOf(Tidy(loc)) == ReturnHashOf(loc)
  {
    hide Encode;
    hide HashText;
    hide Params;
    hide TidyHere;
    if loc.returnTo.Some? {
      var target := loc.returnTo.value.(returnTo := None);
      TidyReturn(loc.returnTo.value, None);
      TidyPrintsHere(target, None, "");
      EncodeIs(target);
      EncodeIs(TidyHere(target, None));
    }
    TidyReturn(loc, Tidy(loc).returnTo);
    TidyReturn(loc, if loc.returnTo.None? then None else Some(TidyHere(loc.returnTo.value, None)));
    TidyPrintsHere(loc, Tidy(loc).returnTo, ReturnHashOf(loc));
    EncodeIs(loc);
    EncodeIs(Tidy(loc));
  }

  // ---- A canonical condition keeps the tidied form normal --------------------------------------------

  lemma KeptFiltersNormal(filters: Option<Filters>)
    ensures TidyFilters(filters).Some? ==> NormalFilters(TidyFilters(filters).value)
  {
    if TidyFilters(filters).Some? {
      forall k | k in KeptFilters(filters.value) ensures NormalFilterValue(KeptFilters(filters.value)[k]) {
        KeptValue(filters.value, k);
      }
    }
  }

  lemma AssessedEvent(loc: Location)
    requires PrintsCanonicallyHere(loc)
    ensures TidyAssessment(loc).Some? <==> loc.assessment.Some?
    ensures loc.assessment.Some? ==>
              TidyAssessment(loc).value.eventId == loc.assessment.value.eventId && ValidId(loc.assessment.value.eventId)
  {
  }

  lemma TidyPartsNormal(loc: Location)
    requires PrintsCanonicallyHere(loc)
    ensures TidyAssessment(loc).Some? ==> NormalAssessment(TidyAssessment(loc).value)
    ensures TidyFederal(loc.federal).Some? ==>
              && NormalFederal(TidyFederal(loc.federal).value)
              && (TidyFederal(loc.federal).value.partnershipId.Some? ==> Kept(loc.partnershipId).Some?)
    ensures TidyRelationship(loc.relationship).Some? ==> NormalRelationship(TidyRelationship(loc.relationship).value)
  {
    hide ValidId;
  }

  lemma TidyNormal(loc: Location, returnTo: Option<Location>)
    requires PrintsCanonicallyHere(loc)
    ensures NormalHere(TidyHere(loc, returnTo))
  {
    hide ValidId;
    hide SubviewAllowed;
    hide TidyFilters;
    hide NormalFilters;
    KeptFiltersNormal(loc.filters);
    TidyPartsNormal(loc);
    AssessedEvent(loc);
    hide TidyFederal;
    hide TidyRelationship;
    hide NormalAssessment;
    hide NormalFederal;
    hide NormalRelationship;
    hide TidyAssessment;
  }

  // ---- What a canonical print says about the location ------------------------------------------------

  lemma TidyAccount(loc: Location)
    ensures Tidy(loc).accountId == Kept(loc.accountId) && OptionalId(Tidy(loc).accountId)
  {
  }

  /** The scalar parameters of any printed hash are the slots of the location. */
  lemma PrintedSlot(loc: Location, f: Field)
    ensures Raw(HashParams(Encode(loc)), f) == Slot(loc, f)
  {
    hide Encode;
    hide HashParams;
    hide Slot;
    hide Raw;
    hide TidyHere;
    hide OptionalId;
    TidyPrints(loc);
    TidyAccount(loc);
    EncodedField(Tidy(loc), f);
    TidySlot(loc, Tidy(loc).returnTo, f);
    TidyReturn(loc, if loc.returnTo.None? then None else Some(TidyHere(loc.returnTo.value, None)));
  }

  /** The account and the return link of any printed hash. */
  lemma PrintedLinks(loc: Location)
    ensures ReadAccount(Encode(loc)) == Kept(loc.accountId)
    ensures ReturnText(Encode(loc)) == ReturnHashOf(loc)
  {
    hide Encode;
    hide HashParams;
    hide Params;
    hide ReadAccount;
    hide Tidy;
    hide OptionalId;
    hide Kept;
    hide ReturnHashOf;
    TidyPrints(loc);
    TidyAccount(loc);
    PrintedReads(Tidy(loc));
    ReturnPrinted(Tidy(loc), ReturnHashOf(Tidy(loc)));
  }

  lemma VersionAlike(read: int, printed: int)
    requires ValidVersion(read) && VersionText(read) == VersionText(printed)
    ensures read == printed
  {
    NumeralRoundTrip(read);
    assert VersionText(read)[0] in Numeral(read);
    if printed >= 0 {
      NumeralRoundTrip(printed);
    }
  }

  /** Two locations whose printed links agree in all scalar parameters. */
  ghost predicate SlotsAlike(a: Location, b: Location) { forall f :: Slot(a, f) == Slot(b, f) }

  lemma NoneIsBlank()
    ensures !ValidId("")
    ensures forall n :: VersionText(n) != ""
    ensures forall r :: RouteName(r) != ""
  {
  }

  lemma AssessmentAlike(loc: Location, read: Location)
    requires SlotsAlike(read, loc) && NormalHere(read) && read.accountId == Kept(loc.accountId) && loc.assessment.Some?
    ensures var a := loc.assessment.value;
            && ValidId(a.assessmentId) && ValidVersion(a.version) && ValidId(a.eventId)
            && (ValidId(a.accountId) || Usable(loc.accountId))
  {
    NoneIsBlank();
    hide ValidId;
    hide SubviewAllowed;
    hide VersionText;
    assert Slot(read, AssessmentId) == Slot(loc, AssessmentId);
    assert Slot(read, AssessmentVersion) == Slot(loc, AssessmentVersion);
    assert Slot(read, Event) == Slot(loc, Event);
    assert Slot(read, AssessmentAccount) == Slot(loc, AssessmentAccount);
    VersionAlike(read.assessment.value.version, loc.assessment.value.version);
  }

  lemma FederalAlike(loc: Location, read: Location)
    requires SlotsAlike(read, loc) && NormalHere(read) && loc.federal.Some?
    ensures var f := loc.federal.value;
            && ValidId(f.opportunityId) && ValidId(f.assessmentId) && ValidVersion(f.version)
            && (Usable(f.partnershipId) ==> Usable(loc.partnershipId))
  {
    NoneIsBlank();
    hide ValidId;
    hide SubviewAllowed;
    hide VersionText;
    hide RouteName;
    assert Slot(read, Opportunity) == Slot(loc, Opportunity);
    assert Slot(read, FederalAssessment) == Slot(loc, FederalAssessment);
    assert Slot(read, FederalVersion) == Slot(loc, FederalVersion);
    assert Slot(read, Partner) == Slot(loc, Partner);
    assert Slot(read, Partnership) == Slot(loc, Partnership);
    VersionAlike(read.federal.value.version, loc.federal.value.version);
  }

  lemma ScopeAlike(loc: Location, read: Location)
    requires SlotsAlike(read, loc) && NormalHere(read) && read.accountId == Kept(loc.accountId)
    ensures loc.scope == Some(FacilityScope) ==> Usable(loc.facilityId)
    ensures Usable(loc.accountId) ==> loc.scope.Some?
  {
    NoneIsBlank();
    hide ValidId;
    hide SubviewAllowed;
    assert Slot(read, ScopeField) == Slot(loc, ScopeField);
    assert Slot(read, Facility) == Slot(loc, Facility);
  }

  lemma NormalAccount(loc: Location)
    requires NormalHere(loc)
    ensures Kept(loc.accountId) == loc.accountId
  {
  }

  /** A location that prints like a normal one meets the condition, and so do their return links. */
  lemma PrintsAlike(loc: Location, read: Location)
    requires NormalHere(read) && Encode(read) == Encode(loc)
    ensures PrintsCanonicallyHere(loc)
    ensures ReturnHashOf(read) == ReturnHashOf(loc)
  {
    hide Encode;
    hide NormalHere;
    hide ReturnHashOf;
    hide Kept;
    hide ReadAccount;
    hide HashParams;
    forall f ensures Slot(read, f) == Slot(loc, f) {
      PrintedSlot(read, f);
      PrintedSlot(loc, f);
    }
    hide Slot;
    PrintedLinks(read);
    PrintedLinks(loc);
    NormalAccount(read);
    ScopeAlike(loc, read);
    if loc.assessment.Some? {
      AssessmentAlike(loc, read);
    }
    if loc.federal.Some? {
      FederalAlike(loc, read);
    }
  }

  /** A location that returns somewhere and one that prints like it return to places that print alike. */
  lemma ReturnAlike(loc: Location, read: Location)
    requires Normal(read) && ReturnHashOf(read) == ReturnHashOf(loc) && loc.returnTo.Some?
    ensures PrintsCanonicallyHere(loc.returnTo.value)
  {
    hide Encode;
    hide NormalHere;
    EncodeNotEmpty(loc.returnTo.value.(returnTo := None));
    assert read.returnTo.Some?;
    DropReturnNormal(read.returnTo.value);
    var target := loc.returnTo.value.(returnTo := None);
    PrintsAlike(target, read.returnTo.value.(returnTo := None));
    assert PrintsCanonicallyHere(target);
  }

  // ---- The exact condition -----------------------------------------------------------------------------

  lemma TidyIsNormal(loc: Location)
    requires PrintsCanonically(loc)
    ensures Normal(Tidy(loc))
  {
    hide NormalHere;
    hide PrintsCanonicallyHere;
    hide TidyHere;
    TidyNormal(loc, Tidy(loc).returnTo);
    TidyReturn(loc, if loc.returnTo.None? then None else Some(TidyHere(loc.returnTo.value, None)));
    if loc.returnTo.Some? {
      TidyNormal(loc.returnTo.value, None);
      TidyReturn(loc.returnTo.value, None);
    }
  }

  lemma NormalIsHere(loc: Location)
    requires Normal(loc)
    ensures NormalHere(loc)
  {
  }

  /** The printed link of a location is its own canonical link exactly under the stated condition on its parts. */
  lemma CanonicalIff(loc: Location)
    ensures Decode(Encode(loc), true).canonicalHash == Encode(loc) <==> PrintsCanonically(loc)
  {
    hide Decode;
    hide Encode;
    hide Normal;
    hide NormalHere;
    hide PrintsCanonicallyHere;
    hide Tidy;
    hide ReturnHashOf;
    if PrintsCanonically(loc) {
      TidyIsNormal(loc);
      TidyPrints(loc);
      RoundTrip(Tidy(loc));
    }
    if Decode(Encode(loc), true).canonicalHash == Encode(loc) {
      var read := Decode(Encode(loc), true).location;
      CanonicalHashPrints(Encode(loc), true);
      DecodedNormal(Encode(loc), true);
      NormalIsHere(read);
      PrintsAlike(loc, read);
      if loc.returnTo.Some? {
        ReturnAlike(loc, read);
      }
    }
  }

  /** So a printed hash is not canonical when it names an account but no scope: decoding infers one. */
  lemma UnscopedAccountNotCanonical(loc: Location)
    requires Usable(loc.accountId) && loc.scope.None?
    ensures Decode(Encode(loc), true).canonicalHash != Encode(loc)
  {
    hide Decode;
    hide Encode;
    CanonicalIff(loc);
  }

  /** Nor when a federal partner is selected but no partnership: the partner leaks into it. */
  lemma FederalPartnerNotCanonical(loc: Location)
    requires loc.federal.Some? && Usable(loc.federal.value.partnershipId) && !Usable(loc.partnershipId)
    ensures Decode(Encode(loc), true).canonicalHash != Encode(loc)
  {
    hide Decode;
    hide Encode;
    CanonicalIff(loc);
  }
}
