/** Signal briefs, the content key of their generated prose, and the cached synthesis applied on read. */
module Briefs {
  import opened Text

  datatype Status = AVAILABLE | NOT_CONFIGURED | AUTH_FAILED | TIMEOUT | QUOTA | UNAVAILABLE

  /** The signal confidence: its coverage and the rest of the record as text. */
  datatype Confidence = Confidence(coverage: Option<real>, detail: string)

  /** An evidence package: absent, an empty record, or its text with the ids of its public evidence. */
  datatype Package = Absent | Empty | Filled(text: string, evidence: set<string>)

  datatype Brief = Brief(
    id: string,
    headline: string,
    whatHappened: string,
    whyItMayMatter: string,
    accountIds: seq<string>,
    programId: Option<string>,
    markets: seq<string>,
    publishedAt: Option<int>,
    collectedAt: int,
    freshness: string,
    evidenceIds: seq<string>,
    sourceUrl: Option<string>,
    sourceSystem: string,
    dataMode: string,
    resolutionState: string,
    promotionState: string,
    whatToWatch: string,
    recommendedAction: Option<string>,
    missingFields: seq<string>,
    sellerSummary: string,
    languageProvider: Option<string>,
    summaryMode: string,
    eventTiming: string,
    relevantEventAt: Option<int>,
    watchlistEligible: bool,
    priorityReasons: seq<string>,
    facilityId: Option<string>,
    technicalOpportunity: Option<string>,
    signalConfidence: Option<Confidence>,
    riskSeverity: Option<string>,
    eventType: Option<string>,
    analysisStatus: string,
    relevanceState: string,
    priorityEligible: bool,
    actionRationale: Option<string>,
    materialUncertainties: seq<string>,
    references: seq<string>,
    package: Package,
    inputRevision: Option<string>,
    generationStatus: string,
    assessmentId: Option<string>,
    assessmentVersion: Option<int>,
    geographicScope: string,
    contextId: Option<string>,
    seedContext: Option<string>)

  predicate Eligible(b: Brief) {
    && b.promotionState in {"RESOLVED_ELIGIBLE", "RESOLVED_NEEDS_REVIEW", "WITHHELD_STALE"}
    && b.resolutionState == "RESOLVED"
    && b.publishedAt.Some?
    && (b.analysisStatus == "READY" || (b.package == Absent && b.freshness == "CURRENT"))
    && b.relevanceState != "INCOMPLETE"
  }

  // ---- Content key and cache id ------------------------------------------------------------------

  /** What the content hash covers: the brief with every field that is not hashed blanked. */
  function Governed(b: Brief): Brief {
    var hashed :=
      if b.package.Filled? then
        b.(headline := "", whatHappened := "", whyItMayMatter := "", recommendedAction := None, actionRationale := None,
           materialUncertainties := [], evidenceIds := [], references := [], whatToWatch := "")
      else b;
    hashed.(sellerSummary := "", languageProvider := None, summaryMode := "", generationStatus := "",
            assessmentId := None, assessmentVersion := None, collectedAt := 0)
  }

  /** A cache id: the brief's own id, or the text whose hash names an assessment. */
  datatype CacheId = Plain(id: string) | Assessment(text: string)

  function CacheKey(b: Brief): CacheId {
    if !b.package.Filled? then Plain(b.id)
    else Assessment(b.id + "|" + if |b.accountIds| == 1 then b.accountIds[0] else "UNRESOLVED")
  }

  // ---- Provider answers --------------------------------------------------------------------------

  /** What a provider call yields: an error with a status, another failure, a structured briefing or plain prose. */
  datatype Answer =
    | Refused(status: Status)
    | Broken
    | Briefing(headline: string, whatChanged: string, whyItMatters: string, recommendedAction: Option<string>,
               actionRationale: Option<string>, uncertainties: seq<string>, evidenceIds: seq<string>, provider: string)
    | Prose(content: string, proseEvidenceIds: seq<string>, proseProvider: string)

  datatype Outcome = Outcome(brief: Brief, status: Status)

  /** `synthesize_signal_brief_with_status`; an answer of the wrong shape counts as a failure. */
  function Synthesize(b: Brief, configured: bool, structured: bool, answer: Answer): Outcome {
    if !Eligible(b) then Outcome(b, UNAVAILABLE)
    else if !configured then Outcome(b, NOT_CONFIGURED)
    else match answer
      case Refused(status) => Outcome(b, status)
      case Broken => Outcome(b, UNAVAILABLE)
      case Briefing(_, _, _, _, _, _, _, _) =>
        if !(structured && b.package.Filled?) || exists id | id in answer.evidenceIds :: id !in b.package.evidence
        then Outcome(b, UNAVAILABLE)
        else Outcome(WithBriefing(b, answer), AVAILABLE)
      case Prose(content, ids, provider) =>
        if (structured && b.package.Filled?) || ids != b.evidenceIds then Outcome(b, UNAVAILABLE)
        else Outcome(b.(sellerSummary := content, languageProvider := Some(provider),
                        summaryMode := "GEMINI_ASSISTED"), AVAILABLE)
  }

  function WithBriefing(b: Brief, answer: Answer): Brief
    requires answer.Briefing?
  {
    b.(headline := answer.headline, whatHappened := answer.whatChanged, whyItMayMatter := answer.whyItMatters,
       recommendedAction := if b.recommendedAction.Some? then answer.recommendedAction else None,
       actionRationale := answer.actionRationale, materialUncertainties := answer.uncertainties,
       evidenceIds := if answer.evidenceIds != [] then answer.evidenceIds else b.evidenceIds,
       sellerSummary := answer.whyItMatters, languageProvider := Some(answer.provider),
       summaryMode := "GEMINI_ASSISTED", generationStatus := "GEMINI_ASSISTED")
  }

  // ---- Cached rows -------------------------------------------------------------------------------

  /** The stored projection, without the two fields that are never read back. */
  datatype Projection = Projection(
    headline: string, whatHappened: string, whyItMayMatter: string, recommendedAction: Option<string>,
    actionRationale: Option<string>, materialUncertainties: seq<string>, evidenceIds: seq<string>,
    analysisStatus: string)

  function Project(b: Brief): Projection {
    Projection(b.headline, b.whatHappened, b.whyItMayMatter, b.recommendedAction, b.actionRationale,
               b.materialUncertainties, b.evidenceIds, b.analysisStatus)
  }

  datatype Row = Row(hash: Brief, status: Status, attempts: nat, nextRetry: Option<int>,
                     summary: Option<string>, provider: Option<string>, projection: Option<Projection>)

  function Truthy(s: Option<string>): bool { s.Some? && s.value != "" }

  predicate Applies(b: Brief, cached: Option<Row>) {
    && cached.Some? && Eligible(b) && cached.value.hash == Governed(b) && cached.value.status == AVAILABLE
    && (Truthy(cached.value.summary) || cached.value.projection.Some?)
  }

  function WithProjection(b: Brief, p: Projection): Brief {
    b.(headline := p.headline, whatHappened := p.whatHappened, whyItMayMatter := p.whyItMayMatter,
       recommendedAction := p.recommendedAction, actionRationale := p.actionRationale,
       materialUncertainties := p.materialUncertainties, evidenceIds := p.evidenceIds,
       analysisStatus := p.analysisStatus)
  }

  /** `apply_cached_synthesis`. */
  function ApplyCached(b: Brief, cached: Option<Row>): Brief {
    if !Applies(b, cached) then b
    else
      var row := cached.value;
      var safe := if row.projection.Some? then WithProjection(b, row.projection.value) else b;
      var why := if row.projection.Some? then row.projection.value.whyItMayMatter else "";
      safe.(sellerSummary :=
              if Truthy(row.summary) then row.summary.value else if why != "" then why else b.sellerSummary,
            languageProvider := Some(if Truthy(row.provider) then row.provider.value else "gemini"),
            summaryMode := "GEMINI_ASSISTED", generationStatus := "GEMINI_ASSISTED")
  }

  /** The row an attempt writes. */
  function AttemptRow(b: Brief, outcome: Outcome, attempts: nat, nextRetry: Option<int>): Row {
    Row(Governed(b), outcome.status, attempts, nextRetry,
        if outcome.status == AVAILABLE then Some(outcome.brief.sellerSummary) else None,
        outcome.brief.languageProvider, Some(Project(if outcome.status == AVAILABLE then outcome.brief else b)))
  }

  /** The row an unconfigured cycle writes. */
  function PlaceholderRow(b: Brief, attempts: nat): Row {
    Row(Governed(b), NOT_CONFIGURED, attempts, None, None, None, Some(Project(b)))
  }

  /** A row some attempt on some brief wrote. */
  predicate WrittenFrom(row: Row, source: Brief, structured: bool, answer: Answer) {
    && Eligible(source)
    && row == AttemptRow(source, Synthesize(source, true, structured, answer), row.attempts, row.nextRetry)
  }

  // ---- Generated prose never changes its own key -----------------------------------------------------

  /** What synthesis leaves alone: everything the key covers. */
  lemma SynthesisKeepsKey(b: Brief, configured: bool, structured: bool, answer: Answer)
    ensures var after := Synthesize(b, configured, structured, answer).brief;
            && Governed(after) == Governed(b) && after.analysisStatus == b.analysisStatus && after.package == b.package
  {
  }

  /** Briefs with one key agree on the fields a projection may overwrite and the key covers. */
  lemma SameKeySameFacts(a: Brief, b: Brief)
    requires Governed(a) == Governed(b)
    ensures a.package == b.package && a.analysisStatus == b.analysisStatus
    ensures !b.package.Filled? ==> Project(a) == Project(b)
  {
    var ga, gb := Governed(a), Governed(b);
    assert ga.package == a.package && gb.package == b.package;
    assert ga.analysisStatus == a.analysisStatus && gb.analysisStatus == b.analysisStatus;
    if !b.package.Filled? {
      assert Project(ga) == Project(a) && Project(gb) == Project(b);
    }
  }

  lemma UnfilledOutcomeKeepsProjection(b: Brief, structured: bool, answer: Answer)
    requires !b.package.Filled?
    ensures Project(Synthesize(b, true, structured, answer).brief) == Project(b)
  {
  }

  /** The fields that decide routing and ranking. */
  predicate SameGovernance(a: Brief, b: Brief) {
    && Governed(a) == Governed(b) && Eligible(a) == Eligible(b) && CacheKey(a) == CacheKey(b)
    && a.id == b.id && a.accountIds == b.accountIds && a.programId == b.programId && a.package == b.package
    && a.signalConfidence == b.signalConfidence && a.riskSeverity == b.riskSeverity
    && a.priorityEligible == b.priorityEligible && a.relevanceState == b.relevanceState
    && a.analysisStatus == b.analysisStatus
  }

  lemma WithProjectionKeepsGovernance(b: Brief, p: Projection)
    requires p.analysisStatus == b.analysisStatus
    requires b.package.Filled? || p == Project(b)
    ensures SameGovernance(WithProjection(b, p), b)
  {
  }

  lemma LanguageKeepsGovernance(b: Brief, summary: string, provider: Option<string>)
    ensures SameGovernance(
              b.(sellerSummary := summary, languageProvider := provider, summaryMode := "GEMINI_ASSISTED",
                 generationStatus := "GEMINI_ASSISTED"), b)
  {
  }

  /** What a row holds for a brief it applies to: the same analysis status, and without an evidence package the same
      prose as the brief itself. */
  lemma WrittenRowFits(b: Brief, row: Row, source: Brief, structured: bool, answer: Answer)
    requires WrittenFrom(row, source, structured, answer) && Applies(b, Some(row))
    ensures row.projection.Some?
    ensures row.projection.value.analysisStatus == b.analysisStatus
    ensures b.package.Filled? || row.projection.value == Project(b)
  {
    hide Eligible;
    SynthesisKeepsKey(source, true, structured, answer);
    SameKeySameFacts(source, b);
    if !b.package.Filled? {
      UnfilledOutcomeKeepsProjection(source, structured, answer);
    }
  }

  /** Applying a row written by an attempt, on whichever brief, changes nothing that the key, eligibility, scores,
      relevance, priority or account scope depend on. */
  lemma ApplyingKeepsGovernance(b: Brief, row: Row, source: Brief, structured: bool, answer: Answer)
    requires WrittenFrom(row, source, structured, answer)
    ensures SameGovernance(ApplyCached(b, Some(row)), b)
  {
    hide WrittenFrom;
    hide Eligible;
    hide Governed;
    if Applies(b, Some(row)) {
      WrittenRowFits(b, row, source, structured, answer);
      var safe := WithProjection(b, row.projection.value);
      WithProjectionKeepsGovernance(b, row.projection.value);
      var after := ApplyCached(b, Some(row));
      LanguageKeepsGovernance(safe, after.sellerSummary, after.languageProvider);
    }
  }

  /** Applying the row again changes nothing. */
  lemma ApplyingIsIdempotent(b: Brief, row: Row, source: Brief, structured: bool, answer: Answer)
    requires WrittenFrom(row, source, structured, answer)
    ensures ApplyCached(ApplyCached(b, Some(row)), Some(row)) == ApplyCached(b, Some(row))
  {
    hide WrittenFrom;
    hide Eligible;
    hide Governed;
    ApplyingKeepsGovernance(b, row, source, structured, answer);
    if Applies(b, Some(row)) {
      WrittenRowFits(b, row, source, structured, answer);
      var once := ApplyCached(b, Some(row));
      assert Applies(once, Some(row));
      assert once.summaryMode == once.generationStatus == "GEMINI_ASSISTED";
    }
  }

  /** A recommended action appears where the brief has none exactly when the brief carries an evidence package and the
      applied row stores an action. */
  lemma ActionAppearsIff(b: Brief, row: Row, source: Brief, structured: bool, answer: Answer)
    requires WrittenFrom(row, source, structured, answer) && Applies(b, Some(row)) && b.recommendedAction.None?
    ensures ApplyCached(b, Some(row)).recommendedAction.Some?
       <==> b.package.Filled? && row.projection.Some? && row.projection.value.recommendedAction.Some?
  {
    hide WrittenFrom;
    hide Eligible;
    hide Governed;
    WrittenRowFits(b, row, source, structured, answer);
  }

  /** A stored action comes from a brief that had one, so none appears when the row was written from a brief without
      one - in particular from the brief it is applied to. */
  lemma NoActionFromNone(b: Brief, row: Row, source: Brief, structured: bool, answer: Answer)
    requires WrittenFrom(row, source, structured, answer)
    requires source.recommendedAction.None? && b.recommendedAction.None?
    ensures ApplyCached(b, Some(row)).recommendedAction.None?
  {
    hide Eligible;
    hide Governed;
  }

  /** The key of a brief with an evidence package does not cover the action: a row written from a brief that
      recommends one puts it on a brief that recommends none. */
  lemma ActionCanAppear(source: Brief, action: string)
    requires Eligible(source) && source.package.Filled? && source.recommendedAction.Some?
    ensures var b := source.(recommendedAction := None);
            var answer := Briefing("", "", "", Some(action), None, [], [], "gemini");
            var row := AttemptRow(source, Synthesize(source, true, true, answer), 1, None);
            && WrittenFrom(row, source, true, answer) && Governed(b) == row.hash
            && ApplyCached(b, Some(row)).recommendedAction == Some(action)
  {
    var b := source.(recommendedAction := None);
    assert Eligible(b);
    assert Governed(b) == Governed(source);
  }

  // ---- What the key, the cache id and synthesis depend on -----------------------------------------------

  /** The inputs that every content key covers. */
  predicate SameInputs(a: Brief, b: Brief) {
    && a.id == b.id && a.accountIds == b.accountIds && a.programId == b.programId && a.markets == b.markets
    && a.publishedAt == b.publishedAt && a.freshness == b.freshness && a.sourceUrl == b.sourceUrl
    && a.sourceSystem == b.sourceSystem && a.dataMode == b.dataMode && a.resolutionState == b.resolutionState
    && a.promotionState == b.promotionState && a.missingFields == b.missingFields && a.eventTiming == b.eventTiming
    && a.relevantEventAt == b.relevantEventAt && a.watchlistEligible == b.watchlistEligible
    && a.priorityReasons == b.priorityReasons && a.facilityId == b.facilityId
    && a.technicalOpportunity == b.technicalOpportunity && a.signalConfidence == b.signalConfidence
    && a.riskSeverity == b.riskSeverity && a.eventType == b.eventType && a.analysisStatus == b.analysisStatus
    && a.relevanceState == b.relevanceState && a.priorityEligible == b.priorityEligible && a.package == b.package
    && a.inputRevision == b.inputRevision && a.geographicScope == b.geographicScope
    && a.contextId == b.contextId && a.seedContext == b.seedContext
  }

  /** The prose that the key of a brief without an evidence package covers as well. */
  predicate SameProse(a: Brief, b: Brief) {
    && a.headline == b.headline && a.whatHappened == b.whatHappened && a.whyItMayMatter == b.whyItMayMatter
    && a.recommendedAction == b.recommendedAction && a.actionRationale == b.actionRationale
    && a.materialUncertainties == b.materialUncertainties && a.evidenceIds == b.evidenceIds
    && a.references == b.references && a.whatToWatch == b.whatToWatch
  }

  /** Two briefs have one content key exactly when they agree on every input and, without an evidence package, on the
      prose; the summary, its provider and mode, the assessment and the collection time never matter. */
  lemma SameKeyIff(a: Brief, b: Brief)
    ensures Governed(a) == Governed(b) <==> SameInputs(a, b) && (a.package.Filled? || SameProse(a, b))
  {
    var x, y := Governed(a), Governed(b);
    assert SameInputs(x, a) && SameInputs(y, b);
    if !a.package.Filled? && a.package == b.package {
      assert SameProse(x, a) && SameProse(y, b);
    }
  }

  /** The account an assessment is scoped to. */
  predicate ScopedTo(b: Brief, account: string) {
    if |b.accountIds| == 1 then account == b.accountIds[0] else account == "UNRESOLVED"
  }

  /** Briefs with one id, one account scope and both or neither an evidence package share a cache id; as long as ids
      hold no bar, no others do. */
  lemma SameCacheIdIff(a: Brief, b: Brief, x: string, y: string)
    requires ScopedTo(a, x) && ScopedTo(b, y)
    ensures var same := a.id == b.id && (a.package.Filled? <==> b.package.Filled?) && (a.package.Filled? ==> x == y);
            && (same ==> CacheKey(a) == CacheKey(b))
            && ('|' !in a.id && '|' !in b.id ==> (CacheKey(a) == CacheKey(b) ==> same))
  {
    if a.package.Filled? && b.package.Filled? {
      var s, t := a.id + "|" + x, b.id + "|" + y;
      assert CacheKey(a) == Assessment(s) && CacheKey(b) == Assessment(t);
      if '|' !in a.id && '|' !in b.id {
        IndexOfConcat(a.id, '|', x);
        IndexOfConcat(b.id, '|', y);
        assert s[..|a.id|] == a.id && s[|a.id| + 1..] == x;
        assert t[..|b.id|] == b.id && t[|b.id| + 1..] == y;
      }
    }
  }

  /** With bars in ids, briefs of different events and accounts can share one. */
  lemma CacheIdsCanCollide(b: Brief, event: string, more: string, account: string)
    requires b.package.Filled?
    ensures CacheKey(b.(id := event + "|" + more, accountIds := [account]))
         == CacheKey(b.(id := event, accountIds := [more + "|" + account]))
  {
    assert (event + "|" + more) + "|" + account == event + "|" + (more + "|" + account);
  }

  /** An answer of the shape asked for, citing only what the brief lets it cite. */
  predicate Usable(b: Brief, structured: bool, answer: Answer) {
    match answer
    case Briefing(_, _, _, _, _, _, ids, _) =>
      structured && b.package.Filled? && forall id | id in ids :: id in b.package.evidence
    case Prose(_, ids, _) => (!structured || !b.package.Filled?) && ids == b.evidenceIds
    case _ => false
  }

  /** The status of a synthesis, and that a brief changes only through a usable answer. */
  lemma SynthesisStatus(b: Brief, configured: bool, structured: bool, answer: Answer)
    ensures var o := Synthesize(b, configured, structured, answer);
            && (!Eligible(b) ==> o == Outcome(b, UNAVAILABLE))
            && (Eligible(b) && !configured ==> o == Outcome(b, NOT_CONFIGURED))
            && (Eligible(b) && configured && answer.Refused? ==> o == Outcome(b, answer.status))
            && (Eligible(b) && configured && !answer.Refused? ==>
                  && (o.status == AVAILABLE <==> Usable(b, structured, answer))
                  && (o.status != AVAILABLE ==> o == Outcome(b, UNAVAILABLE)))
  {
  }

  /** What a usable answer changes: plain prose the summary; a structured briefing the prose, the summary and what it
      cites, and an action only where the brief has one. Inputs stay. */
  lemma SynthesisWrites(b: Brief, structured: bool, answer: Answer)
    requires Eligible(b) && Usable(b, structured, answer)
    ensures var after := Synthesize(b, true, structured, answer).brief;
            && SameInputs(after, b) && after.references == b.references && after.whatToWatch == b.whatToWatch
            && after.collectedAt == b.collectedAt && after.assessmentId == b.assessmentId
            && after.assessmentVersion == b.assessmentVersion && after.summaryMode == "GEMINI_ASSISTED"
            && (match answer
                case Briefing(headline, changed, why, action, rationale, uncertainties, ids, provider) =>
                  && after.headline == headline && after.whatHappened == changed && after.whyItMayMatter == why
                  && after.sellerSummary == why && after.actionRationale == rationale
                  && after.materialUncertainties == uncertainties && after.languageProvider == Some(provider)
                  && after.generationStatus == "GEMINI_ASSISTED"
                  && after.recommendedAction == (if b.recommendedAction.Some? then action else None)
                  && (ids != [] ==> after.evidenceIds == ids) && (ids == [] ==> after.evidenceIds == b.evidenceIds)
                case Prose(content, _, provider) =>
                  && SameProse(after, b) && after.generationStatus == b.generationStatus
                  && after.sellerSummary == content && after.languageProvider == Some(provider)
                case _ => true)
  {
  }

  /** The row an attempt writes applies to its own brief exactly when it succeeded; a placeholder never does. */
  lemma FreshRowApplies(b: Brief, structured: bool, answer: Answer, attempts: nat, nextRetry: Option<int>)
    requires Eligible(b)
    ensures var o := Synthesize(b, true, structured, answer);
            && (Applies(b, Some(AttemptRow(b, o, attempts, nextRetry))) <==> o.status == AVAILABLE)
            && !Applies(b, Some(PlaceholderRow(b, attempts)))
  {
    hide Governed;
    hide Eligible;
    hide Synthesize;
  }

  /** What is stored is read back: on the brief it was written from, the row of a successful attempt restores the
      synthesized brief; an empty summary falls back to why it matters and then to the brief's own, an empty provider
      to "gemini". The row of any other attempt, and a placeholder, change nothing. */
  lemma StoredIsReadBack(b: Brief, structured: bool, answer: Answer, attempts: nat, nextRetry: Option<int>)
    requires Eligible(b)
    ensures var o := Synthesize(b, true, structured, answer);
            var row, made := AttemptRow(b, o, attempts, nextRetry), o.brief;
            var read := ApplyCached(b, Some(row));
            && row.attempts == attempts && row.nextRetry == nextRetry && row.status == o.status
            && (o.status != AVAILABLE ==> read == b && row.summary == None)
            && (o.status == AVAILABLE ==>
                  && SameInputs(read, made) && SameProse(read, made)
                  && read.summaryMode == "GEMINI_ASSISTED" && read.generationStatus == "GEMINI_ASSISTED"
                  && read.collectedAt == b.collectedAt && read.assessmentId == b.assessmentId
                  && read.assessmentVersion == b.assessmentVersion
                  && (made.sellerSummary != "" ==> read.sellerSummary == made.sellerSummary)
                  && (made.sellerSummary == "" && made.whyItMayMatter != "" ==>
                        read.sellerSummary == made.whyItMayMatter)
                  && (made.sellerSummary == "" && made.whyItMayMatter == "" ==> read.sellerSummary == b.sellerSummary)
                  && (made.languageProvider.Some? && made.languageProvider.value != "" ==>
                        read.languageProvider == made.languageProvider)
                  && (made.languageProvider.None? || made.languageProvider.value == "" ==>
                        read.languageProvider == Some("gemini")))
            && ApplyCached(b, Some(PlaceholderRow(b, attempts))) == b
  {
    hide Governed;
    hide Eligible;
    hide Synthesize;
    hide Applies;
    FreshRowApplies(b, structured, answer, attempts, nextRetry);
    SynthesisStatus(b, true, structured, answer);
    if Usable(b, structured, answer) {
      SynthesisWrites(b, structured, answer);
    }
  }
}
