# Verified models of BTX Omni

Dafny models of the parts of BTX Omni whose correctness spans several functions or whole runs, with proofs of what
those parts promise. `dafny verify dfyconfig.toml` checks everything.

| component | files |
|---|---|
| Strings, UTF-8, code-point order, stable sorting | `Text`, `Utf8`, `Ordering`, `Sorting` |
| Workspace deep links and browser history | `UrlEncoding`, `Locations`, `LinkCodec`, `LinkTheorems`, `LinkCanonical`, `LinkPaths`, `LinkPrograms`, `WorkspaceHistory` |
| Chat stream: server, frames, incremental reader | `Json`, `ChatFrames`, `ChatReader`, `ChatProducer`, `ChatEndToEnd`, `ChatView` |
| Optimistic action list | `ActionList` |
| Identity clustering and import | `WorkbookColumns`, `UnionFind`, `IdentityLinks`, `IdentityRows`, `IdentityBuild`, `IdentityAccounts`, `IdentityImport` |
| Signal brief synthesis, its cache and scheduler | `Briefs`, `BriefScheduler`, `BriefHistory` |
| Triage order of priority items | `PriorityOrdering` |
| Catalog cached by revision | `CatalogCache` |
| Award and opportunity aggregation | `Procurement` |
| Clusters and candidates from record versions | `EventFolds` |

Each component follows one plan. Pure code becomes functions. Code that works by updating things in place becomes a
method or a class, proved equal to a specification function; what the source promises is then proved about that
function, and for protocols about every run of its steps. `hide` statements in proofs only keep them fast.

URL parameters follow sections 5.1 and 5.2 of the WHATWG URL Standard, `encodeURIComponent` section 19.2.6 of ECMA-262,
event frames sections 9.2.5 and 9.2.6 of the HTML Living Standard, and JSON RFC 8259.

## What the proofs found

* **A location survives printing and decoding exactly on an explicit normal form**, which is also exactly the image of
  the decoder. The printed link of a location is its own canonical link exactly when its assessment and its federal
  route are complete, a federal partner comes with a partnership, a facility scope with a facility and an account with a
  scope, and the same holds for the location it returns to. The link printed after creating an action for a strategic
  partner is not canonical: coming back to it and pushing it again leaves two entries that lead to one place.
* **Committing without touching the address bar can trap the user.** After such a commit the address bar still prints the
  old location, so committing that old location again is ignored. A pushed entry whose location prints
  canonically never leads where the entry before it leads, unless that one was replaced; replacing can leave two equal
  adjacent entries.
* **A created action can vanish from the list.** Insertions do not count as edits, so a read served before the creation
  drops it, unless the action was edited after that read began.
* **The list falls below an acknowledged edit exactly when the client is handed an older version**: an acknowledgement
  that arrives late, or a single refresh answered before the edit, is shown although a newer version was acknowledged.
  List reads never cause it, however they interleave.
* **Two parent groups that are fine alone can together reject an import**, when they connect domains of two existing
  customers. The import is rejected for two customers exactly when such a connection exists.
* **A synthesis cooldown does not survive other writes to the row.** There is one row per cache id, so content that
  alternates forgets both cooldown and attempt count, and a cycle without a configured provider replaces a failed row
  and so ends its cooldown. A cooldown of zero seconds means the opposite of none: the brief is never attempted again
  until its row is overwritten.
* **A cached recommended action can appear on a brief that has none**, exactly when that brief carries an evidence
  package and the applied row stores an action: the content key does not cover the action.
* **A collision during a catalog refresh is reported once.** The revision has advanced by then, so the next read succeeds
  and shows the new catalog without any durable record, while the monitor keeps the old one.
* **The award report raises** when awards with an amount mix dated and undated ones, or when a named recipient ties with
  the awards that name none, because the keys it then sorts cannot be compared.

## Model

| member | source | states |
|---|---|---|
| `LinkTheorems.CanonicalHashIsFixedPoint` | apps/web/src/app/navigation.ts:61-123 | for every string, with or without a return link, its canonical hash decodes to the same location and hash without recovery |
| `LinkTheorems.RoundTrip` | apps/web/src/app/navigation.ts:88-123 | decoding the printed link of a normal location gives back that location |
| `LinkTheorems.RoundTripExactlyOnNormalForm` | apps/web/src/app/navigation.ts:88-123 | a location survives printing and decoding if and only if it is in the normal form |
| `LinkTheorems.DecodedNormal` | apps/web/src/app/navigation.ts:61-106 | every decoded location is in the normal form, nested return link included |
| `LinkTheorems.NormalFormIsDecoderImage` | apps/web/src/app/navigation.ts:61-106 | a location is normal if and only if some hash decodes to it |
| `LinkTheorems.SameLocationIsEquality` | apps/web/src/app/navigation.ts:124 | on normal locations `sameWorkspaceLocation` is exactly equality |
| `LinkCanonical.CanonicalIff` | apps/web/src/app/navigation.ts:61-123 | for every location, its printed link is its own canonical link if and only if assessment and federal route are complete, a partner comes with a partnership, a facility scope with a facility and an account with a scope, here and in the return link |
| `LinkCanonical.TidyPrints` | apps/web/src/app/navigation.ts:107-123 | every location prints exactly as the location without its invalid ids, unsafe filters, disallowed subview and repeated parts |
| `LinkCanonical.UnscopedAccountNotCanonical` | apps/web/src/app/navigation.ts:78 | an account without a scope prints a link that decodes to another canonical hash |
| `LinkCanonical.FederalPartnerNotCanonical` | apps/web/src/app/navigation.ts:85 | so does a federal partner that is not the selected partnership |
| `LinkTheorems.FiltersRoundTrip` | apps/web/src/app/navigation.ts:52-60 | multi-valued filters come back as they were, a single value as a string |
| `LinkTheorems.PrintedHashIsFragmentSafe` | apps/web/src/app/navigation.ts:109-123 | every printed link, of any location, consists of characters that need no escaping in a fragment |
| `LinkCodec.ReturnTextShorter` | apps/web/src/app/navigation.ts:83-84 | a return link is strictly shorter than the link that carries it, so decoding ends |
| `Locations.ValidIdIff` | apps/web/src/app/navigation.ts:39 | an id is valid if and only if it is a letter or digit followed by fewer than 200 letters, digits and `_ . : @ -` |
| `Locations.SafeValueIff` | apps/web/src/app/navigation.ts:42 | a filter value is safe if and only if its characters, wide ones counted twice, are at most 200 and none is a control character |
| `LinkTheorems.SafeIdIff` | apps/web/src/app/navigation.ts:44-47 | an id is read from a text if and only if it is valid and the text decodes to it; every valid id is read from itself and from its percent-encoding |
| `LinkTheorems.PositiveIntegerIff` | apps/web/src/app/navigation.ts:48-51 | a version is read from a text if and only if it is positive and the text is its numeral behind zeros, of at most nine digits |
| `LinkPaths.SurfacePath` | apps/web/src/app/navigation.ts:88-106 | the path of each surface, written out, leads to that surface and nothing else |
| `LinkPaths.IntelligencePath` | apps/web/src/app/navigation.ts:97 | the federal and the markets path lead to that view of intelligence |
| `LinkPaths.SettingsPath` | apps/web/src/app/navigation.ts:99 | each settings path leads to that view |
| `LinkPaths.BriefPaths` | apps/web/src/app/navigation.ts:96-98 | for every valid id its brief path leads to that record, recovered on one surface and as a brief on the other |
| `LinkPaths.AccountPath` | apps/web/src/app/navigation.ts:92-94 | for every valid id its account path leads to that account, scoped to it |
| `LinkPaths.UnknownPathFlagged` | apps/web/src/app/navigation.ts:90-101 | any other path, whatever its query, is flagged malformed |
| `LinkPaths.FlaggedIff` | apps/web/src/app/navigation.ts:61-106 | for every string, each parameter is read under its own name, and the link is flagged if and only if its path is not understood or a parameter it carries is missing in the location |
| `LinkPaths.QueryLink` | apps/web/src/app/navigation.ts:61-106 | the same for links written by hand from a surface and any list of parameters |
| `LinkPaths.FiltersByName` | apps/web/src/app/navigation.ts:52-60 | a filter holds exactly the safe values that the link carries under its prefixed name |
| `LinkPrograms.FilterValues` | apps/web/src/app/navigation.ts:52-60 | the loop collects exactly the safe values of the allowed keys in order |
| `LinkPrograms.ReadQuery` | apps/web/src/app/navigation.ts:61-86 | reading a query step by step gives the specified location and recovery flag |
| `LinkPrograms.DecodeWorkspaceLocation` | apps/web/src/app/navigation.ts:88-106 | the recursive decoder ends and computes the specified result |
| `LinkPrograms.WorkspaceHash` | apps/web/src/app/navigation.ts:109-123 | the printer that sets and appends parameters computes the specified link |
| `UrlEncoding.ParseSerialize` | apps/web/src/app/navigation.ts:109-123 | parsing serialized parameters gives back every pair in order |
| `UrlEncoding.ComponentRoundTrip` | apps/web/src/app/navigation.ts:44-47 | `decodeURIComponent` inverts `encodeURIComponent` |
| `UrlEncoding.GetSet` | apps/web/src/app/navigation.ts:108-123 | setting a parameter changes what is read under its name and nothing else |
| `WorkspaceHistory.RunKeepsSynced` | apps/web/src/app/App.tsx:121-131 | in every run of pushes, replacements, history moves and typed addresses, the address bar decodes to the current location |
| `WorkspaceHistory.RunRemembers` | apps/web/src/app/App.tsx:122 | after any run a surface is remembered with filters, sort and view of the last location without an account committed on it, ignored or not |
| `WorkspaceHistory.CommitIsIdempotent` | apps/web/src/app/App.tsx:121-131 | repeating a commit does nothing, from any state and in any mode |
| `WorkspaceHistory.EnteredLeads` | apps/web/src/app/App.tsx:290-308 | a typed address leads to its location and shows its canonical link; entries before it stay |
| `WorkspaceHistory.BackReturns` | apps/web/src/app/App.tsx:290-308 | going back from a step that added an entry restores location and address, and forward again leads to where the step led |
| `WorkspaceHistory.CommitReachesTarget` | apps/web/src/app/App.tsx:123-129 | a commit reaches its target if and only if it is current already or not yet printed in the address bar |
| `WorkspaceHistory.ReturnAfterStayIsIgnored` | apps/web/src/app/App.tsx:124-125 | after a commit that leaves the address alone, returning to the location it left is ignored |
| `WorkspaceHistory.PushedEntriesDiffer` | apps/web/src/app/App.tsx:121-131 | in every run of all steps whose pushed locations print canonically, a pushed entry leads elsewhere than the entry before it, unless that one was replaced; so no two adjacent pushed entries share a canonical link |
| `WorkspaceHistory.AlwaysDistinctIff` | apps/web/src/app/App.tsx:121-131 | adjacent entries stay apart throughout a run of all steps, to any locations, if and only if every link pushed, put in place or newly typed leads elsewhere than its neighbours |
| `WorkspaceHistory.PushKeepsDistinct` | apps/web/src/app/navigation.ts:125-127 | a push of any location keeps adjacent entries apart if and only if its link leads elsewhere than the shown one |
| `WorkspaceHistory.ReplaceKeepsDistinct` | apps/web/src/app/navigation.ts:125-127 | a replacement by any location keeps adjacent entries apart if and only if its link leads elsewhere than those of its neighbours |
| `WorkspaceHistory.PushAgainRepeatsIff` | apps/web/src/app/App.tsx:121-131 | pushing a location again after coming back to its link is ignored if and only if it prints canonically, and otherwise leaves two entries with one canonical link |
| `WorkspaceHistory.PartnerPushedAgainRepeats` | apps/web/src/app/App.tsx:285 | so it does for the link of an action created for a strategic partner |
| `WorkspaceHistory.PushThenReplaceRepeats` | apps/web/src/app/App.tsx:126-127 | pushing a location and replacing it by the previous one leaves two equal entries |
| `WorkspaceHistory.Workspace.CommitLocation` | apps/web/src/app/App.tsx:121-131 | the in-place commit has exactly the specified effect on location, history and filter memory |
| `Json.RoundTrip` | backend/src/btx_omni/api/omni_chat.py:131-139 | parsing dumped JSON gives back the value |
| `Json.NumberIff` | apps/web/src/components/omniText.ts:21 | the parser accepts a text as a number if and only if it is a sign, a whole part without leading zero, a fraction and an exponent as in section 6 of RFC 8259 |
| `Json.NumberParses` | apps/web/src/components/omniText.ts:21 | a text of number characters is parsed if and only if it is such a number, and to that number |
| `Utf8.StreamConcat` | apps/web/src/components/omniText.ts:15 | streaming decoding does not depend on where the bytes are cut |
| `ChatFrames.BlocksConcat` | apps/web/src/components/omniText.ts:15-18 | splitting a text anywhere, also inside a separator, and carrying the leftover yields the same blocks |
| `ChatFrames.Blocks` | apps/web/src/components/omniText.ts:16-18 | the leftover buffer never contains a separator |
| `ChatFrames.FramesRoundTrip` | backend/src/btx_omni/api/omni_chat.py:131-139 | the frames of any printable events are read back as exactly those events |
| `ChatFrames.DispatchReads` | apps/web/src/components/omniText.ts:19-21 | what any block delivers: nothing without a name in its first event line or without data, else its data lines joined and parsed, or a parse error |
| `ChatReader.ReadChatStream` | apps/web/src/components/omniText.ts:7-25 | for every chunking the callback gets exactly the events of parsing the text read in one go, also when stopped or malformed |
| `ChatReader.EndToEnd` | apps/web/src/components/omniText.ts:11-23 | any chunking of printed events is recovered completely and nothing is kept back |
| `ChatProducer.ParagraphsRejoin` | backend/src/btx_omni/api/omni_chat.py:120-121 | the delta texts are the answer's content and one blank line |
| `ChatProducer.SentInOrder` | backend/src/btx_omni/api/omni_chat.py:108-141 | in every reachable state: conversation first, progress before deltas, at most one of answer and error, done last |
| `ChatProducer.SentIsPrefix` | backend/src/btx_omni/api/omni_chat.py:108-141 | in every reachable state what was sent is a prefix of the one stream that the reports, the result and the append determine |
| `ChatProducer.DeltasOnlyWhenStored` | backend/src/btx_omni/api/omni_chat.py:112-122 | a delta or answer is sent only when the turn in storage is the worker's answer, and is one of that answer's |
| `ChatProducer.CompletedRun` | backend/src/btx_omni/api/omni_chat.py:108-141 | every completed stream exactly, from the worker's reports and result; deltas and answer are the worker's, which is then the stored one |
| `ChatProducer.StreamTurn` | backend/src/btx_omni/api/omni_chat.py:101-145 | the task, the callbacks and the generator run in place under any schedule: an ordered prefix of that stream, all of it once done is sent, and storage holds the worker's answer or nothing |
| `ChatEndToEnd.SentReachesReader` | backend/src/btx_omni/api/omni_chat.py:131-141 | whatever was sent in any state of any run, ended or not, with any cut into chunks, the browser recovers exactly those events |
| `ChatEndToEnd.PartOfSentReachesReader` | apps/web/src/components/omniText.ts:11-23 | with only part of the bytes, cut anywhere, the browser has a prefix of the events sent and no failure |
| `ChatEndToEnd.AnswerReachesReader` | backend/src/btx_omni/api/omni_chat.py:108-141 | once an answer event is sent, exactly one is received; looked up by key it holds the worker's encoded answer, which is the one in storage, and the conversation; the delta texts are its content |
| `ChatEndToEnd.ReportsReachReader` | backend/src/btx_omni/api/omni_chat.py:105-135 | in any state the stream opens with the conversation's id and the progress texts sent are the worker's first reports in order, all of them once done is sent |
| `ChatEndToEnd.DoneIff` | backend/src/btx_omni/api/omni_chat.py:125-141 | in any state the last event sent is an empty "done" if and only if the task has ended and nothing is queued |
| `ChatEndToEnd.ErrorSent` | backend/src/btx_omni/api/omni_chat.py:123-124 | an error event holds the fixed message and is sent only when the worker raised or the answer was not stored |
| `ChatView.DrawerShows` | apps/web/src/components/OmniDrawer.tsx:107-116 | after a completed turn the drawer shows the conversation, the last report and either the worker's encoded answer with no partial text, or an error, or neither |
| `ActionList.ReadYourWritesIff` | apps/web/src/app/App.tsx:81-92 | over every interleaving of edits, refreshes, creations, read starts, snapshots, completions and aborts no acknowledged action is ever missing or older than its newest acknowledged version, if and only if no acknowledgement or refresh shows an older version than that |
| `ActionList.IdsStayUnique` | apps/web/src/app/App.tsx:81-92 | in every interleaving the list holds no id twice |
| `ActionList.UpdateShows` | apps/web/src/app/App.tsx:83-86 | an update shows the item and leaves the others alone |
| `ActionList.ReceiveShows` | apps/web/src/app/App.tsx:87-92 | a read shows the local version exactly for items edited after it started |
| `ActionList.ReceiveKeepsUnique` | apps/web/src/app/App.tsx:87-92 | merging a snapshot keeps ids unique |
| `ActionList.CreatedActionSurvivesRead` | apps/web/src/app/App.tsx:249 | a created action survives a read if and only if it was edited after the read started or is in its snapshot |
| `ActionList.CreatedActionCanBeLost` | apps/web/src/app/App.tsx:282 | a run in which a created action is lost |
| `ActionList.OlderVersionCanReturn` | apps/web/src/features/actions/ActionDetail.tsx:111-116 | two runs in which the list falls back to an older version: a late acknowledgement and a stale refresh |
| `ActionList.ActionBoard.UpdateAction` | apps/web/src/app/App.tsx:83-86 | the in-place update has exactly the specified effect and shows the item |
| `ActionList.ActionBoard.ReceiveActions` | apps/web/src/app/App.tsx:87-92 | the in-place merge shows, for every id, the local version if it was edited after the read started and the snapshot's otherwise; ids stay unique |
| `WorkbookColumns.ColumnIndex` | backend/tools/import_sanitized_reference_data.py:87-91 | the index of a reference is the one column whose name its letters are |
| `WorkbookColumns.NumberOfName` | backend/tools/import_sanitized_reference_data.py:87-91 | every column has letters, which are read back as that column |
| `WorkbookColumns.NameOfNumber` | backend/tools/import_sanitized_reference_data.py:87-91 | different letters denote different columns |
| `UnionFind.HalvingKeepsRoot` | backend/tools/import_sanitized_reference_data.py:173-177 | path halving changes no root |
| `UnionFind.DomainParents.Find` | backend/tools/import_sanitized_reference_data.py:173-177 | the loop ends at the root and changes no root |
| `UnionFind.DomainParents.Union` | backend/tools/import_sanitized_reference_data.py:179-182 | joins exactly the two components under the lesser root |
| `IdentityLinks.UniteGroups` | backend/tools/import_sanitized_reference_data.py:184-192 | after all unions two domains have one root if and only if groups that are not ambiguous connect them |
| `IdentityLinks.RootIsLeast` | backend/tools/import_sanitized_reference_data.py:179-182 | every root is the least domain of its component |
| `IdentityLinks.RootsDependOnLinksOnly` | backend/tools/import_sanitized_reference_data.py:184-192 | the roots do not depend on the order in which groups are visited |
| `IdentityLinks.AmbiguousIff` | backend/tools/import_sanitized_reference_data.py:186-189 | a group is left out if and only if two of its domains belong to different existing customers |
| `IdentityBuild.ParentLinksIff` | backend/tools/import_sanitized_reference_data.py:184-192 | a parent company links its domains if and only if those of existing customers belong to one |
| `IdentityBuild.LinkedIff` | backend/tools/import_sanitized_reference_data.py:166-192 | two domains are linked if and only if rows on them name one parent company whose rows agree on the customer |
| `IdentityImport.OneParentNoConflict` | backend/tools/import_sanitized_reference_data.py:184-202 | rows that name at most one parent company are never rejected for two customers |
| `IdentityBuild.GroupByDomain` | backend/tools/import_sanitized_reference_data.py:163-165 | each domain holds exactly its rows in order |
| `IdentityBuild.ClusterRows` | backend/tools/import_sanitized_reference_data.py:193-195 | each cluster holds exactly the rows of its component |
| `IdentityAccounts.RejectedIffConflict` | backend/tools/import_sanitized_reference_data.py:199-202 | some cluster matches two customers if and only if connected domains belong to two customers |
| `IdentityAccounts.NewIdsFreshIffSuffixesFresh` | backend/tools/import_sanitized_reference_data.py:215-218 | new ids are distinct and unused if and only if every needed hash suffix is fresh |
| `IdentityAccounts.NewIdIff` | backend/tools/import_sanitized_reference_data.py:215-218 | a new account is named by its slug, with a hyphen and hash suffix if and only if the slug is used by a customer or an earlier new account |
| `IdentityAccounts.MergeFacilities` | backend/tools/import_sanitized_reference_data.py:240-258 | facilities hold exactly the references of their account and place; bad coordinates are rejected |
| `IdentityAccounts.RowInOneFacility` | backend/tools/import_sanitized_reference_data.py:242-258 | a row is excluded or referenced by exactly one facility, that of its own account |
| `IdentityImport.Build` | backend/tools/import_sanitized_reference_data.py:144-262 | the three rejections if and only if their causes; with one parent company never two customers; an accepted build is complete |
| `IdentityImport.AuditConserves` | backend/tools/import_sanitized_reference_data.py:198-238 | the audit has exactly one entry for each source row |
| `IdentityImport.IdsRespectLinks` | backend/tools/import_sanitized_reference_data.py:206-220 | connected domains get one id and existing customers keep theirs |
| `IdentityImport.BuiltIdsDistinct` | backend/tools/import_sanitized_reference_data.py:196-218 | with distinct existing ids and fresh suffixes account ids are pairwise distinct |
| `IdentityImport.SameIdIffConnected` | backend/tools/import_sanitized_reference_data.py:184-220 | then two domains get one id if and only if they are connected |
| `Briefs.ApplyingKeepsGovernance` | backend/src/btx_omni/monitor/briefs.py:455-503 | applying a row written by an attempt keeps key, eligibility, scores, relevance, priority and account scope |
| `Briefs.ApplyingIsIdempotent` | backend/src/btx_omni/monitor/briefs.py:455-503 | applying the row again changes nothing |
| `Briefs.SynthesisKeepsKey` | backend/src/btx_omni/monitor/briefs.py:280-385 | generated prose never changes its own content key |
| `Briefs.SameKeySameFacts` | backend/src/btx_omni/monitor/briefs.py:406-439 | briefs with one key agree on what a projection may overwrite and the key covers |
| `Briefs.ActionAppearsIff` | backend/src/btx_omni/monitor/briefs.py:413-424 | a recommended action appears where there was none if and only if there is an evidence package and the row stores one |
| `Briefs.NoActionFromNone` | backend/src/btx_omni/monitor/briefs.py:325-343 | none appears when the row was written from a brief without one |
| `Briefs.ActionCanAppear` | backend/src/btx_omni/monitor/briefs.py:406-424 | a row and a brief for which one appears |
| `Briefs.SameKeyIff` | backend/src/btx_omni/monitor/briefs.py:406-439 | two briefs have one content key if and only if they agree on every input and, without an evidence package, on the prose |
| `Briefs.SameCacheIdIff` | backend/src/btx_omni/monitor/briefs.py:442-452 | one id and account scope give one cache id, and as long as ids hold no bar nothing else does; an evidence package keeps cache ids apart |
| `Briefs.CacheIdsCanCollide` | backend/src/btx_omni/monitor/briefs.py:450-452 | with bars in ids, different events and accounts share a cache id |
| `Briefs.SynthesisStatus` | backend/src/btx_omni/monitor/briefs.py:283-384 | the status for every brief, configuration and answer; a brief changes only through an answer of the right shape that cites only what it may |
| `Briefs.SynthesisWrites` | backend/src/btx_omni/monitor/briefs.py:325-384 | exactly which fields a usable answer writes, and that no input and no missing action is touched |
| `Briefs.StoredIsReadBack` | backend/src/btx_omni/monitor/briefs.py:455-503 | on its own brief the row of a success restores the synthesized brief, with the fallbacks for an empty summary or provider; the row of a failure and a placeholder change nothing |
| `BriefScheduler.ProcessSignalBriefSynthesis` | backend/src/btx_omni/monitor/briefs.py:733-846 | the loop leaves exactly the specified cache and returns the specified batch |
| `BriefScheduler.CycleAccounts` | backend/src/btx_omni/monitor/briefs.py:759-846 | attempts stay within the cap, one status each, and every eligible brief is accounted for if and only if the cycle was not cut short |
| `BriefScheduler.CapBounds` | backend/src/btx_omni/monitor/briefs.py:801-810 | a cycle attempts at most the cap, none for one that is not positive; only a configured cycle is cut short, and without a deadline only once the cap is used up |
| `BriefScheduler.QueueOrder` | backend/src/btx_omni/monitor/briefs.py:749-758 | exactly the eligible briefs are visited, in the order of their keys, equal ones in input order |
| `BriefScheduler.QueueByPriority` | backend/src/btx_omni/monitor/briefs.py:752-756 | no priority brief follows another; among equals coverage does not rise, a missing one counting as none; among those ids do not fall |
| `BriefScheduler.QueueVisits` | backend/src/btx_omni/monitor/briefs.py:388-403 | a brief is in the queue once if it is promoted, resolved, published, analysed and relevant as required, and otherwise not |
| `BriefHistory.RunKeeps` | backend/src/btx_omni/monitor/briefs.py:760-843 | in every run each stored row is the last write of its cache id with the attempts since its content changed, and consecutive writes obey the rules |
| `BriefHistory.SuccessIsFinal` | backend/src/btx_omni/monitor/briefs.py:769-771 | after a success nothing is written for that content until it changes |
| `BriefHistory.NextAttemptWaits` | backend/src/btx_omni/monitor/briefs.py:794-801 | a directly following attempt on the same content waits for the cooldown, which was positive |
| `BriefHistory.ConfiguredAttemptsAreSpaced` | backend/src/btx_omni/monitor/briefs.py:126-140 | over any configured cycles and briefs of stable content, any two writes on an id are attempts, the earlier one failed, and the later one comes at least the earlier one's cooldown later |
| `BriefHistory.AttemptsCool` | backend/src/btx_omni/monitor/briefs.py:133-140 | every attempt of a run happens at the time of a cycle and records the cooldown that cycle's policy gives its status |
| `BriefHistory.AttemptedIff` | backend/src/btx_omni/monitor/briefs.py:763-811 | exactly when a brief is attempted, in terms of the history alone |
| `BriefHistory.AttemptCountExact` | backend/src/btx_omni/monitor/briefs.py:831 | over any cycles, configured or not, and briefs of stable content, the stored count is the number of attempts made |
| `BriefHistory.AlternatingContentForgetsCooldown` | backend/src/btx_omni/monitor/repository.py:1760-1800 | a run in which alternating content forgets cooldown and count |
| `BriefHistory.UnconfiguredCycleEndsCooldown` | backend/src/btx_omni/monitor/briefs.py:772-793 | a run in which an unconfigured cycle ends a cooldown and keeps the count |
| `BriefHistory.ZeroCooldownNeverRetried` | backend/src/btx_omni/monitor/briefs.py:794-832 | a failure with a zero cooldown is the only write, however many configured cycles on that content follow at whatever times |
| `BriefHistory.ReadingKeepsGovernance` | backend/src/btx_omni/monitor/briefs.py:455-503 | whatever the worker stored, reading through the cache keeps governance and is idempotent |
| `Sorting.SortRanks` | backend/src/btx_omni/modules/priority_ordering.py:359 | sorting puts rows before greater keys and keeps the input order of equal keys |
| `PriorityOrdering.OrderMeetsSpecification` | backend/src/btx_omni/modules/priority_ordering.py:349-364 | the order lists, by key, exactly the least-key member of each identity without an excluded member |
| `PriorityOrdering.ChosenIdentitiesDistinct` | backend/src/btx_omni/modules/priority_ordering.py:357-362 | no identity is listed twice |
| `PriorityOrdering.ListingIgnoresInputOrder` | backend/src/btx_omni/modules/priority_ordering.py:349-364 | with distinct item ids the listing does not depend on the order of the input |
| `PriorityOrdering.TriageIff` | backend/src/btx_omni/modules/priority_ordering.py:280-299 | the triage classes, on scores and labels: hard stops, high risks of high confidence, those of lower known confidence, the rest |
| `PriorityOrdering.CompleteIff` | backend/src/btx_omni/modules/priority_ordering.py:272-279 | an assessment is complete if and only if nature, confidence and decision are known, nothing is missing and its status settles it |
| `PriorityOrdering.DescribeMeans` | backend/src/btx_omni/modules/priority_ordering.py:309-333 | the score shown, its kind and high importance, on scores and labels |
| `PriorityOrdering.ReasonIff` | backend/src/btx_omni/modules/priority_ordering.py:285-308 | the reason given is that of the class, or what is unknown |
| `PriorityOrdering.ListingFollowsTriage` | backend/src/btx_omni/modules/priority_ordering.py:334-345 | at any two positions of the listing: triage class, then completeness, then score or label, then due time, creation time and id |
| `PriorityOrdering.OpenAssessmentNeverEscalates` | backend/src/btx_omni/modules/priority_ordering.py:119-138 | an open assessment without a score is never escalated by a label or a range ceiling |
| `PriorityOrdering.OrderPriorities` | backend/src/btx_omni/modules/priority_ordering.py:349-364 | the loop with its seen set computes the specified listing |
| `CatalogCache.ComposeLists` | backend/src/btx_omni/api/runtime.py:218-248 | a composition lists the curated accounts, programs and watch profiles and then the promoted ones, each promoted account with its own profile |
| `CatalogCache.ComposeIdentity` | backend/src/btx_omni/api/runtime.py:240-246 | a public identity resolves to the last promoted account of that name, every other identity as before |
| `CatalogCache.RefreshFailsIff` | backend/src/btx_omni/api/runtime.py:196-217 | with durable storage a refresh fails if and only if a promoted account has the id of a curated one or a promoted program the id or name of a curated one; without it, never |
| `CatalogCache.ShownNamesApart` | backend/src/btx_omni/api/runtime.py:212-217 | in every run no environment shown holds a promoted program under the name of a curated one |
| `CatalogCache.ReadEqualsRecomputationIff` | backend/src/btx_omni/api/runtime.py:256-292 | in every run a read equals recomputation if and only if, going by the steps alone, the commit in force is not the one projected last or the durable records composed last are those promoted last |
| `CatalogCache.ChangedReadRecomposes` | backend/src/btx_omni/api/runtime.py:268-292 | after a change the read is exactly the recomposition, in success and failure, also when an import lands during the read |
| `CatalogCache.CleanReadEqualsRecomputation` | backend/src/btx_omni/api/runtime.py:194-292 | without collisions, in any interleaving, the monitor has the catalog shown, and a read equals recomputation unless a promotion still waits for its refresh |
| `CatalogCache.ShownIdsUnique` | backend/src/btx_omni/api/runtime.py:202-217 | in every run account and program ids stay unique |
| `CatalogCache.CollisionAdvancesRevision` | backend/src/btx_omni/api/runtime.py:279-282 | a collision during a read fails once and leaves a catalog without durable records |
| `CatalogCache.PocRuntime.RefreshDurableCatalog` | backend/src/btx_omni/api/runtime.py:194-254 | recomposes in place, or changes nothing on a collision |
| `CatalogCache.PocRuntime.RefreshCommercialCatalog` | backend/src/btx_omni/api/runtime.py:268-292 | refreshes in place exactly as specified, failures included |
| `CatalogCache.PocRuntime.Initialize` | backend/src/btx_omni/api/runtime.py:111-132 | construction succeeds if and only if both refreshes do |
| `Procurement.GroupConserves` | backend/src/btx_omni/modules/federal_procurement.py:526-537 | grouping conserves money under any choice of keys |
| `Procurement.GroupExact` | backend/src/btx_omni/modules/federal_procurement.py:526-537 | each group's total is exactly the amounts of its own awards |
| `Procurement.ReportYear` | backend/src/btx_omni/modules/federal_procurement.py:519-521 | the report is of the year asked for, else of the latest fiscal year there is |
| `Procurement.ReportExact` | backend/src/btx_omni/modules/federal_procurement.py:522-537 | the total and the totals of every sector, recipient and fiscal quarter, as sums over the awards themselves |
| `Procurement.ReportOrder` | backend/src/btx_omni/modules/federal_procurement.py:616-639 | each sector once, by name, with its share to the nearest hundredth; each recipient once; each quarter once, by year, quarter and sector |
| `Procurement.ReportConserves` | backend/src/btx_omni/modules/federal_procurement.py:519-537 | sector, recipient and selected-year quarterly totals each sum to the reported total |
| `Procurement.SharesSumNearHundred` | backend/src/btx_omni/modules/federal_procurement.py:617-626 | rounded shares of n sectors sum to within 0.005 n of 100 |
| `Sorting.TrySortIff` | backend/src/btx_omni/modules/federal_procurement.py:627-639 | a sort that compares while it inserts raises if and only if some two keys cannot be compared, and sorts otherwise |
| `Procurement.RaisedIff` | backend/src/btx_omni/modules/federal_procurement.py:627-639 | the comparisons of the two sorts fail if and only if awards with an amount mix dated and undated ones or a named recipient ties with those naming none |
| `Procurement.MixedDatesRaise` | backend/src/btx_omni/modules/federal_procurement.py:627-635 | an undated award beside a dated one raises |
| `Procurement.EqualAmountsRaise` | backend/src/btx_omni/modules/federal_procurement.py:636-639 | so do two awards of one amount of which one names no recipient |
| `Procurement.RecipientsFall` | backend/src/btx_omni/modules/federal_procurement.py:636-639 | recipients are listed by falling amount |
| `Procurement.SectorCountsSumToOpen` | backend/src/btx_omni/modules/federal_procurement.py:588-591 | every open opportunity is counted in exactly one sector |
| `Procurement.FiscalQuarterIndex` | backend/src/btx_omni/modules/federal_procurement.py:88-92 | fiscal quarters are the calendar's quarters counted from October |
| `Procurement.ProjectAwards` | backend/src/btx_omni/modules/federal_procurement.py:519-537 | the accumulating loops compute the specified report |
| `EventFolds.DistinctFirstSeen` | backend/src/btx_omni/monitor/clustering.py:41-43 | removing repeats keeps exactly the elements, each once, in the order of their first index |
| `EventFolds.FoldRecordsIff` | backend/src/btx_omni/monitor/clustering.py:25-44 | folding versions succeeds if and only if they are of one record; it keeps the id, each observation and each evidence id once and in the order first seen, and exactly the events seen |
| `EventFolds.DecidedFlags` | backend/src/btx_omni/monitor/clustering.py:35-44 | the first version creates the cluster; a later one changes it if and only if it is of another event than the one before |
| `EventFolds.RelatedIff` | backend/src/btx_omni/monitor/clustering.py:43 | an event is related if and only if some version of it is directly followed by one of another event |
| `EventFolds.CurrentAlsoRelated` | backend/src/btx_omni/monitor/clustering.py:43 | the current event is also related if and only if it occurs earlier with another event in between |
| `EventFolds.MergedKeepsIff` | backend/src/btx_omni/monitor/candidates.py:83-158 | merging keeps the first id and creation time, the latest observation, each event (and observation) once in the order first seen and the last review state, and yields a candidate if and only if some sighting is usable |

## Left out

- Strings are sequences of Unicode scalar values: lone UTF-16 surrogates, in links, JSON escapes or decoded text, and the
  byte-order mark that `TextDecoder` drops are not modelled.
- Filter keys are printed in code-point order; locale collation of the allowed keys is not modelled.
- JSON numbers are kept as text; duplicate keys, the reordering of integer-like keys by JavaScript objects and
  non-finite numbers are not modelled.
- Versions above 999999999 print as plain digits; JavaScript's exponent notation from 1e21 on is not modelled.
- React batching and effects: every state updater is one atomic step. Popping the history and typed addresses are steps;
  keyboard, focus and the recovery notice are not modelled.
- The chat server's storage, model call and task cancellation by the host are nondeterministic results; conversations,
  prompts and the polling timeout are not modelled.
- The action list's server is a map of saved items whose versions grow; authentication and request failures other than
  aborted reads are not modelled.
- Workbook reading, header checks, text normalization, the choice of a display name, aliases, industries and facility
  ids: rows arrive normalized, the slug and the hash suffix are parameters.
- SHA-256 is injective where it keys a cache (the content key and ids are the hashed content itself) and a parameter
  where freshness matters; a plain brief id never looks like a hashed assessment id.
- Cached rows hold what applying them reads back; model name, revisions and synthesis time are not modelled. The cap and
  the deadline are inputs of each cycle, the provider's answers nondeterministic. Malformed evidence packages, which
  raise and end the cycle, are not modelled.
- Source adapters of priority items, number and date parsing: candidates arrive with parsed figures and times.
- The projection of commercial records is a parameter that yields unique ids and is determined by the revision and the
  CRM mappings. Storage failures, concurrent requests and the technical decomposition service are not modelled.
- Award amounts and shares are exact rationals; Python's 28-digit decimal context and non-finite amounts are not
  modelled. Opportunity filters, relevance scores, assessments and the pipeline are left out.
- Labels, single-branch classifications, geography and the ambiguity reason of clusters would only add easy members.
- WorkspaceHistory.RunKeepsSynced: runs contain no commit that leaves the address alone, because such a commit puts the
  address bar and the location apart by design.
