# Governance controllers, modelled and proved in Dafny

This project models the controllers that decide whether a change may be written, reviewed, admitted and
merged, and proves what they are for. `dafny verify dfyconfig.toml` checks all of it. Each module mirrors one part of the
repository; where the code loops or updates state there is a method with its invariants, tied to a specification
function, and the theorems are stated about that function, over every input or every run.

- **Audit validation** (`hunter_artifact_preflight.py`): the checklist matcher (`ChecklistMatching`), the rendered
  Markdown boundary (`RenderedMarkdown`, `MarkdownLayout`, `RenderedSections`, `SectionLayout`; CommonMark 0.31 sections 4.2, 4.5 and 4.6
  as far as the code goes), the table tokenizer (`MarkdownTable`), and the Findings Matrix against the finding records
  and the verdict (`FindingsMatrix`, `MatrixPrinting`, `FindingRecords`, `FindingAgreement`, `AuditVerdict`).
- **Connector writes** (`hunter_connector_write_ingress.py`, `hunter_governance_review_v2.py`, `task_scope.py`): scope
  entries with the whole `fnmatch` language (`ScopeEntries`, `GlobLaws`, `ScopeCoverage`,
  `ScopeMeeting`), the grant, its reader and
  its widening comparison (`ConnectorGrant`, `GrantDocument`), exact change sets (`ChangeSet`, on `Ordering`), minting
  and the receipt (`WriteReceipt`), what the comparison says about the mint (`MintWidening`), the branch's Issue
  (`BranchBinding`), and hosted admission (`ConnectorAdmission`), with the conditions of both spelled out
  (`AdmissionConditions`). `GrantExamples` and `AdmissionExamples` hold concrete
  grants, requests and evidence at which expectations fail.
- **Admission protocol** (`hunter_candidate_admission.py`, `hunter_governance_review_v2.py`): one run against a pull
  request that may change between any two requests (`CandidateAdmission`), provenance of the whole commit range
  (`IngressProvenance`), Issue acceptance (`IssueAcceptance`).
- **Issuer concurrency** (`hunter_issue_agent_issuer.py`): handlers, workers, lease renewer and other instances as an
  interleaving transition system over semaphore, registry and ledger (`ExecutionSlots`).
- **Authority closure** (`hunter_defect_prevention_preflight.py`): the worklist fixpoint and the floor derived from it
  (`AuthorityClosure`).
- **Smaller exact pieces**: finding capture (`FindingCapture`), the revision marker, line endings and the status path
  (`RevisionMarker`, on `Numerals`), the retry boundary (`RetryBoundary`).

`Text` holds the string operations. Digests, the grant fingerprint, the type 7 HTML pattern, the trusted base tip, the
pushes, the listings and the clock are parameters; page servers are functions from page numbers to answers, and the
pull request and its evidence readers are functions from instants to states and answers.

## What turned out not to hold as it stands

Each of these comes with the exact condition under which the code does meet the property, and with a lemma that gives
an input on which it does not.

- The widening comparison documents an empty result as "no additional authority". It reads the new entry's text as a
  path, and that is sound against literal and trailing-star entries; for a question mark, and for stars elsewhere, it
  is not (`PatternOpens`, `PatternFrees`, `PatternsNotTransitive`). For lists of entries without an opening bracket the
  exact condition is `ListComparesExactly`, which `ListComparesDecided` turns into a finite check and `ComparesExactly`
  into a form for single entries. Lists that compare soundly are enough for whole grants (`NoExtraAuthority`), and at
  every list of a grant soundness is needed (`UnsoundListOpens`).
- Only dropping the Issue requirement of a capability is compared, not turning it on, which may open paths
  (`RequirementOpens`); `NoExtraAuthority` gives the exact consequence.
- The comparison never looks at the base branch, the forbidden target branches, the branch namespace and the branch
  template, on which the write decision depends (`BranchRulesUnseen`, `ProtectionUnseen`, `ProtectedNotMinted`).
  `MintNotWider` gives the exact condition for the whole decision.
- Entries written with surrounding white space are stripped when they are matched against but not when they are
  compared. A grant may therefore be reported as wider than itself (`UntidyNotReflexive`). `NoWideningReflexive` gives
  the exact condition under which it is not, which `SelfMatchExactly` spells out for one plain entry.
- For the same reason the floor test of the scope check is not redundant (`FloorDecides`, `UntidyRootOverlooked`); the
  exact conditions are `FloorUnblockedExactly` and `FloorRedundantExactly`.
- Masking twice may differ from masking once, in whitespace-only lines that start with a tab (`SecondMaskDiffers`,
  `IdempotentExactly`).
- Hosted admission does not repeat two refusals of the mint, protected target branches and governed ingress paths
  (`AdmittedNotMinted`); `AdmittedAsMinted` shows these are the only differences. Protecting a branch does make earlier
  receipts stale, since the fingerprint covers it (`ProtectionStale`), but not those written for the new grant
  (`ProtectionRestamps`).
- A branch may fit two Issues under a template whose literal behind the number is made of digits in the wrong way
  (`Ambiguous`, `AgreeExactly`); the repository's template is not of that kind.
- A handler torn down by something other than an ordinary exception while it alone holds a slot keeps it
  (`CrashKeepsSlot`); `SlotsAtRest` counts the slots lost in this way.
- With fewer than one attempt the retry boundary makes no call and ends in its assertion (`BoundedRetry`).

## Model

| member | source | states |
|---|---|---|
| ChecklistMatching.UnmatchedTopics | scripts/hunter_artifact_preflight.py:875-909 | for every candidate relation the topics come back in order; a topic is reported exactly when no matching serves it together with all earlier unreported topics; the number reported is the number of topics less the largest matching, certified by a crowded set of topics sharing too few entries; empty exactly when all topics can be served at once |
| ChecklistMatching.Matcher.Assign | scripts/hunter_artifact_preflight.py:891-903 | one augmenting search: success keeps the owner map a matching that serves the topics served before and this one; failure leaves the map alone and returns a set of entries no augmenting path leaves; it terminates because the visited entries grow |
| ChecklistMatching.Matcher.Report | scripts/hunter_artifact_preflight.py:905-909 | the pass over the topics keeps a matching in which exactly the unreported topics are served, with a tight set behind the reported ones |
| ChecklistMatching.NoLarger | scripts/hunter_artifact_preflight.py:875-909 | a matching with a tight set behind its unserved topics is a largest one |
| ChecklistMatching.Blocked | scripts/hunter_artifact_preflight.py:889-909 | a topic whose entries lie in a tight set is in no matching together with the owners of that set and the other served topics |
| ChecklistMatching.EmptyReport | scripts/hunter_artifact_preflight.py:875-909 | nothing is reported exactly when one matching serves every topic |
| ScopeEntries.GlobStem | src/hunter/task_scope.py:103-117 | a literal stem followed by stars matches exactly the paths that extend it |
| ScopeEntries.StarredScope | src/hunter/task_scope.py:103-117 | the scope of a literal stem with stars is the set of paths with that prefix |
| ScopeEntries.LiteralScope | src/hunter/task_scope.py:103-117 | the scope of a literal entry is the path itself and what lies in the directory it names |
| GlobLaws.GlobCut | src/hunter/task_scope.py:103-117 | a path matches two patterns in a row, the first without an opening bracket, exactly when it can be cut so that each part matches its own |
| GlobLaws.SingleParts | src/hunter/task_scope.py:103-117 | a star matches anything, a question mark one character, any other character itself, and the empty pattern the empty path |
| GlobLaws.ClassMeans | src/hunter/task_scope.py:103-117 | a class of listed characters matches one of these, with an exclamation mark in front any other, and the rest of the pattern goes on behind it |
| GlobLaws.RangeMeans | src/hunter/task_scope.py:103-117 | a range in a class matches the characters from its first to its last, and negated all others |
| GlobLaws.OpenBracket | src/hunter/task_scope.py:103-117 | an opening bracket that nothing closes stands for itself |
| ScopeEntries.CoverageSound | src/hunter/task_scope.py:103-117 | when an entry's text, read as a path, matches a plain entry, its whole scope lies in that entry's scope, whatever patterns it uses |
| ScopeEntries.TreeLaw | scripts/hunter_connector_write_ingress.py:570-580 | two plain entries with a common path match each other in one direction at least, which is what comparing them both ways detects |
| ScopeMeeting.CommonPath | scripts/hunter_connector_write_ingress.py:570-580 | two plain entries have a path in common exactly when their stripped texts pass the overlap test |
| ScopeMeeting.MeetExactly | scripts/hunter_connector_write_ingress.py:570-580 | three plain entries have a path in common that a request may name exactly when the text of one of them is such a path |
| ScopeMeeting.SelfMatchExactly | src/hunter/task_scope.py:103-117 | the exact condition under which a plain entry as written matches itself: no white space in front and, for a literal that does not end with a slash, none behind; an entry of stars alone always does |
| ScopeEntries.PlainCompares | src/hunter/task_scope.py:103-117 | a list of plain entries opens every path of whatever entry one of them matches as text |
| ScopeCoverage.ListComparesExactly | src/hunter/task_scope.py:103-117 | for every list of entries without an opening bracket: comparing texts with the list is sound exactly when, for each entry with a star or question mark, the list opens every path that starts with the literal text before it and whatever that text opens as an entry |
| ScopeCoverage.ListComparesDecided | src/hunter/task_scope.py:103-117 | the same condition as a finite check of texts: for each such entry the list matches its stem followed by up to so many copies of one character no entry is written with, the stripped stem, and the directory it names likewise |
| ScopeCoverage.RunsExactly | src/hunter/task_scope.py:103-117 | a list without opening brackets opens every path with a given beginning exactly when it opens that beginning followed by runs of one fresh character, up to one more than its longest entry |
| ScopeCoverage.ComparesExactly | src/hunter/task_scope.py:103-117 | for one entry without an opening bracket the condition is that the entry is blank or plain: literal, or a literal stem followed by stars alone that does not end in white space or two slashes |
| ScopeCoverage.ListsDiffer | src/hunter/task_scope.py:103-117 | a list that compares soundly although one of its entries alone does not: `docs?*` next to `docs` |
| ScopeCoverage.QuestionUnsound | src/hunter/task_scope.py:103-117 | every entry with a question mark and no opening bracket is matched as a text by some entry that has a path outside its scope |
| ScopeCoverage.ClassesDiffer | src/hunter/task_scope.py:103-117 | with character classes plainness is not the condition: `[ab]*` compares soundly without being plain, `[ab]` does not |
| ConnectorGrant.GrantWidening | scripts/hunter_connector_write_ingress.py:1077-1149 | the reported reasons are exactly those that hold of the two grants, and none is reported exactly when the candidate does not widen |
| ConnectorGrant.CompareCapability | scripts/hunter_connector_write_ingress.py:1113-1125 | for one capability: exactly the reasons about its allowed paths, prohibitions and Issue requirement that hold |
| ConnectorGrant.CompareScopes | scripts/hunter_connector_write_ingress.py:1131-1138 | exactly the reasons about governance scopes that hold |
| ConnectorGrant.CompareIssues | scripts/hunter_connector_write_ingress.py:1140-1147 | exactly the reasons about Issue authorizations that hold |
| ConnectorGrant.NoExtraAuthority | scripts/hunter_connector_write_ingress.py:1077-1149 | without widening, and with lists that compare soundly, a writer, capability, Issue and path set the candidate grant accepts is accepted by the trusted grant exactly when the capability does not newly require an Issue authorization or no path is on the trusted prohibited list |
| MintWidening.MintNotWider | scripts/hunter_connector_write_ingress.py:947-1149 | the same for the whole write decision: what the mint authorizes under the candidate grant it authorizes under the trusted one exactly when, besides, the base branch is the trusted one, the target branch is not forbidden there, lies in the trusted namespace and fits the trusted template for its Issue |
| MintWidening.MintedUnder | scripts/hunter_connector_write_ingress.py:947-1074 | a request authorized under one grant is authorized under any other exactly when that one grants its paths and admits its branches, and then the two authorizations differ in scope names and fingerprint alone |
| MintWidening.BranchRulesUnseen | scripts/hunter_connector_write_ingress.py:1077-1149 | changing base branch, forbidden target branches, branch namespace or branch template of either grant never changes whether widening is reported |
| MintWidening.ProtectionUnseen | scripts/hunter_connector_write_ingress.py:1077-1149 | for every authorization under a grant that covers itself: with its branch protected in the trusted grant alone nothing is reported, both grants grant the paths, and the trusted one refuses the write |
| AdmissionExamples.ProtectedNotMinted | scripts/hunter_connector_write_ingress.py:983-994 | for every fingerprint function: one write and two grants the reader accepts, neither wider than the other, minted under the one, refused as protected under the other |
| GrantExamples.RequirementOpens | scripts/hunter_connector_write_ingress.py:1113-1125 | two grants the reader accepts, the newer one no wider and with sound lists, that begins to require an Issue and thereby opens a path the older one prohibits |
| GrantExamples.UnsoundListOpens | scripts/hunter_connector_write_ingress.py:1091-1129 | sound comparison is needed at all six lists of a grant that open or close paths, the floor included: any tidy entry and proper path at which comparing with a tidy list fails make two grants the reader accepts, the newer one no wider, of which only the newer grants the path |
| GrantExamples.PatternOpens | scripts/hunter_connector_write_ingress.py:1091-1101 | such a pair of grants, with a question mark and a star |
| GrantExamples.PatternFrees | scripts/hunter_connector_write_ingress.py:1091-1129 | a prohibition or floor entry `docs/x` replaced by `docs/?` goes unreported and frees `docs/x/y`, in grants the reader accepts |
| ConnectorGrant.PathNotWider | scripts/hunter_connector_write_ingress.py:908-937 | the same for a single path in scope |
| ConnectorGrant.PlainRootNotWider | scripts/hunter_connector_write_ingress.py:1127-1129 | without widening, and with plain closing entries, every path on the trusted root-of-trust floor is on the candidate's floor |
| ConnectorGrant.NoWideningTransitive | scripts/hunter_connector_write_ingress.py:1077-1149 | no widening from a to b and from b to c means none from a to c, where the lists that a opens with and c closes with compare soundly |
| GrantExamples.PatternsNotTransitive | scripts/hunter_connector_write_ingress.py:1091-1101 | three grants the reader accepts, each no wider than the one before, the last reported as wider than the first |
| ConnectorGrant.NoWideningReflexive | scripts/hunter_connector_write_ingress.py:1077-1149 | a grant is no wider than itself exactly when every allowed, prohibited and root-of-trust entry is matched by some entry of its own list and every scope and authorization adds nothing to the first one of its name |
| ConnectorGrant.TidyReflexive | scripts/hunter_connector_write_ingress.py:1077-1149 | in particular when its entries carry no surrounding white space and its names are distinct, whatever patterns it uses |
| ConnectorGrant.PatternCoverageUnsound | scripts/hunter_connector_write_ingress.py:1091-1101 | a star entry against the same stem with a question mark: nothing is reported although the star entry has more paths |
| ConnectorGrant.UntidyNotReflexive | scripts/hunter_connector_write_ingress.py:1091-1101 | a literal entry with a leading space is reported as widening itself |
| GrantDocument.ParsePolicy | scripts/hunter_connector_write_ingress.py:656-879 | accepts exactly the readable grants, and returns the built grant, which is well formed |
| GrantDocument.ReadWriters | scripts/hunter_connector_write_ingress.py:692-712 | the writer table is read exactly when every entry is well formed, skipping unbound ones |
| GrantDocument.ReadCapabilityTable | scripts/hunter_connector_write_ingress.py:761-805 | additional capabilities are read exactly when each is named, distinct, bounded and prohibits the floor |
| GrantDocument.ReadScopeTable | scripts/hunter_connector_write_ingress.py:807-834 | governance scopes are read exactly when each unblocks only paths apart from the floor and inside some capability |
| GrantDocument.ReadAuthorizationTable | scripts/hunter_connector_write_ingress.py:836-858 | Issue authorizations are read exactly when each names known scopes and no Issue occurs twice |
| GrantDocument.ClearMeans | scripts/hunter_connector_write_ingress.py:882-944 | the scope check clears a request exactly when every path is relative, off the floor and in the capability's scope for the Issue |
| ConnectorGrant.RelativeExactly | scripts/hunter_connector_write_ingress.py:903-907 | the paths a request may name are those that do not start with a slash and have no component of two dots |
| GrantDocument.FloorUnblockedExactly | scripts/hunter_connector_write_ingress.py:824-833 | with plain floor and unblocked entries no floor path is ever unblocked exactly when every unblocked entry of a found scope is apart from every stripped floor entry |
| GrantDocument.FloorRedundantExactly | scripts/hunter_connector_write_ingress.py:749-759 | for a parsed grant of plain entries the explicit floor test never changes a decision exactly when no scope of an authorized Issue meets a floor entry inside what a capability that requires an Issue allows, told from the texts of the entries |
| GrantDocument.FloorRedundant | scripts/hunter_connector_write_ingress.py:749-759 | whatever the allowed lists hold, the floor test changes no decision when unblocked entries are apart from the stripped floor entries: without it no capability and no Issue authorization puts a floor path in scope |
| GrantDocument.ReadFloorRedundant | scripts/hunter_connector_write_ingress.py:656-879 | from the document on: a grant the reader accepts, with plain entries and no white space around those of its floor, refuses no request on account of the floor test alone |
| GrantDocument.ReadFloorApart | scripts/hunter_connector_write_ingress.py:824-833 | the reader's own test keeps unblocked entries apart from the floor whenever no floor entry carries surrounding white space, whatever patterns are used |
| GrantExamples.FloorDecides | scripts/hunter_connector_write_ingress.py:824-833 | a concrete grant the reader accepts at which the floor test alone refuses a request: its floor entry has a leading space |
| GrantDocument.RootNeverUnblocked | scripts/hunter_connector_write_ingress.py:824-833 | under that condition no set of scope names unblocks a path under a floor entry |
| GrantDocument.UntidyRootOverlooked | scripts/hunter_connector_write_ingress.py:824-828 | with a leading space in the floor entry the overlap test finds the directory above a protected file apart from the floor |
| GrantDocument.PlainRootProhibited | scripts/hunter_connector_write_ingress.py:788-797 | each path under the floor is under some prohibition of a plain list that guards the floor |
| AuthorityClosure.Closure | scripts/hunter_defect_prevention_preflight.py:1534-1572 | on every finite repository the worklist ends with exactly the files that chains of references, imports and package membership reach from the entrypoints, the least set holding these and closed under them, and names exactly the members that could not be analysed |
| AuthorityClosure.ClosureReached | scripts/hunter_defect_prevention_preflight.py:1534-1572 | a file is in the closure exactly when a chain leads to it from an entrypoint in which each analysed file refers to the next by its path, imports it by the first component of a module name as a script or, without one, as a package, or makes the package it lies in |
| AuthorityClosure.DependsExactly | scripts/hunter_defect_prevention_preflight.py:1525-1572 | the files queued for a member are exactly those three kinds, spelled out on the contents of the repository |
| AuthorityClosure.EverythingInScripts | scripts/hunter_defect_prevention_preflight.py:1525-1572 | every member of the closure is a file under the script directory |
| AuthorityClosure.FloorCovers | scripts/hunter_defect_prevention_preflight.py:1574-1579 | each member of the closure lies in the scope of its floor entry |
| AuthorityClosure.FloorExtent | scripts/hunter_defect_prevention_preflight.py:1574-1579 | a script directly in the script directory is protected by itself alone, and with one deeper down every path of its whole directory is |
| AuthorityClosure.ClosureProtected | scripts/hunter_defect_prevention_preflight.py:1610-1619 | when root-of-trust entries that compare soundly cover the required floor the scope check accepts no request that touches a member of the closure |
| AuthorityClosure.ClosureStable | scripts/hunter_defect_prevention_preflight.py:1546-1572 | rewriting the contents of files outside the closure does not change it |
| AuthorityClosure.ClosureUnique | scripts/hunter_defect_prevention_preflight.py:1546-1572 | there is only one such set, so the order of the worklist does not matter |
| ExecutionSlots.ExecutionWorkerRegistry.Register | scripts/hunter_issue_agent_issuer.py:429-432 | the worker is listed last |
| ExecutionSlots.ExecutionWorkerRegistry.Unregister | scripts/hunter_issue_agent_issuer.py:434-437 | exactly this worker is delisted; an absent one stays absent |
| ExecutionSlots.InvariantKept | scripts/hunter_issue_agent_issuer.py:570-661 | every step of a handler, worker, lease renewer, shutdown or foreign instance keeps the invariant tying slots, registry, workers and ledger rows together |
| ExecutionSlots.RunInvariant | scripts/hunter_issue_agent_issuer.py:570-661 | the invariant holds in every state of every interleaving |
| ExecutionSlots.SlotsConserved | scripts/hunter_issue_agent_issuer.py:105-106 | in every interleaving free slots plus holders make 2, and every registered or running worker is a holder, so at most 2 are registered or running |
| ExecutionSlots.SlotsReleasedOnce | scripts/hunter_issue_agent_issuer.py:582-661 | no slot is released twice, an acquired one is released exactly when neither its handler nor its worker holds it any more, and no release exceeds the capacity |
| ExecutionSlots.AcknowledgedAfterDispatch | scripts/hunter_issue_agent_issuer.py:317-345 | a 200 reply is sent only when the ledger holds this handler's own claim with its dispatch |
| ExecutionSlots.OneExecutionPerAuthorization | scripts/hunter_issue_agent_issuer.py:288-357 | no authorization is executed by two workers, however many requests carry it, and whoever was sent a 200 has a worker |
| ExecutionSlots.CompletedBySuccess | scripts/hunter_issue_agent_issuer.py:360-400 | in every run a completed row was completed by a step of its claimant's own worker that brought the provider's receipt, on a row that was dispatched |
| ExecutionSlots.FinishSettles | scripts/hunter_issue_agent_issuer.py:360-400 | every end of a worker settles its row: completed on success and failed otherwise, unless another instance has failed it in the meantime |
| ExecutionSlots.CompletedExactly | scripts/hunter_issue_agent_issuer.py:360-400 | a row becomes completed exactly by its own worker's success while it is dispatched |
| ExecutionSlots.FailedExactly | scripts/hunter_issue_agent_issuer.py:317-400 | an active row becomes failed exactly by its own worker's or start's failure, by its own handler's failure on the bare claim, or by another instance that recovers it |
| ExecutionSlots.DispatchedExactly | src/hunter/automation/issue_agent_execution.py:1004-1253 | a row becomes dispatched exactly when its claimant records it on the bare claim, and the mark of the hand-off comes with it |
| ExecutionSlots.ClaimedExactly | src/hunter/automation/issue_agent_execution.py:1004-1253 | a row comes into being claimed by the first handler that asks or by another instance; a handler that asks later is answered 409 |
| ExecutionSlots.RowsDurable | src/hunter/automation/issue_agent_execution.py:1004-1253 | a ledger row is never removed, keeps its claimant and its dispatch, and is final once completed or failed |
| ExecutionSlots.RenewalDrops | scripts/hunter_issue_agent_issuer.py:466-490 | the lease renewer delists a worker exactly when this instance no longer owns its row as dispatched, and no other |
| ExecutionSlots.SlotGiven | scripts/hunter_issue_agent_issuer.py:582-600 | a request gets a slot whenever one is free and is answered 503 otherwise |
| ExecutionSlots.SlotsAtRest | scripts/hunter_issue_agent_issuer.py:582-661 | once everything has come to rest the missing slots are exactly those of handlers that something other than an ordinary exception tore down while they alone held one |
| ExecutionSlots.CrashKeepsSlot | scripts/hunter_issue_agent_issuer.py:582-661 | a run of two requests torn down while they prepare: at rest no slot is left, although no worker ever ran |
| CandidateAdmission.Enforce | scripts/hunter_candidate_admission.py:118-232 | for every world a run reports it truthfully and is made up as prescribed: its reads, its admission with the answers it got, its mutation if any, and the exit that follows from them |
| CandidateAdmission.SteadyRun | scripts/hunter_candidate_admission.py:118-232 | in a world that stands still a run marks the pull request ready exactly when it is an eligible safe draft whose readers' answers deserve success, and converts it to draft exactly when it is no draft and they deserve failure, or success with failing ready checks |
| CandidateAdmission.ReadyRun | scripts/hunter_candidate_admission.py:158-188 | a run marks ready only an eligible safe draft that it admitted and then read again unchanged, and exits zero exactly when GitHub then shows it open and ready at that head and base |
| CandidateAdmission.DraftRun | scripts/hunter_candidate_admission.py:201-232 | a run converts to draft only what was refused outright, or admitted with failing ready checks, directly after a read of the evaluated head that shows no draft |
| CandidateAdmission.Admit | scripts/hunter_governance_review_v2.py:2641-2790 | one admission leaves either the full trace of a success or that of a refusal with the verdict of the answer that decided it |
| CandidateAdmission.AdmittedOn | scripts/hunter_governance_review_v2.py:2641-2790 | a success has in its trace: the head shown before, midway and after; success by changed paths, preflight mode and ingress provenance; threads read with none unresolved; a review that neither raised nor blocks; and a green trusted proof or branch preflight, as the changed paths ask |
| CandidateAdmission.RefusedOn | scripts/hunter_governance_review_v2.py:2641-2790 | a refusal ends with the answer that decided it, and its verdict is that answer's own |
| CandidateAdmission.PromoteDraft | scripts/hunter_candidate_admission.py:158-188 | an admitted draft is marked ready exactly if it is read again unchanged, and the exit tells whether GitHub then shows it ready |
| CandidateAdmission.ReturnToDraft | scripts/hunter_candidate_admission.py:201-232 | a refused candidate is converted exactly if it is read again at the evaluated head, no draft and with an identifier; a moved head ends the run untouched |
| CandidateAdmission.ReadMergeability | scripts/hunter_governance_review_v2.py:176-187 | of up to three reads the first that tells mergeability or the third is used, the others tell none, and a read that raises ends it |
| CandidateAdmission.AtMostOneMutation | scripts/hunter_candidate_admission.py:118-232 | no run issues two mutations |
| CandidateAdmission.HeadStoodStill | scripts/hunter_candidate_admission.py:133-188 | in a run that marks ready every head checked before is the admitted one, and if pushes never restore an old head it was the head throughout the window in which the evidence was gathered |
| RenderedMarkdown.MaskNonsemantic | scripts/hunter_artifact_preflight.py:397-480 | the line loop computes the masking function |
| MarkdownLayout.MaskedByLayout | scripts/hunter_artifact_preflight.py:397-480 | every text without its comments has exactly one layout into ordinary lines, indented code, fenced blocks and HTML blocks, and masking emits the ordinary lines as they are and blanks every character of the others but CR and LF |
| MarkdownLayout.LayoutMasked | scripts/hunter_artifact_preflight.py:397-480 | a fenced block runs from an opening fence to the first line that closes it with as many of the same marks, an HTML block from a line that opens it to its terminator or next blank line, and both to the end otherwise; exactly what such blocks and indented code hold is blanked |
| MarkdownLayout.CommentMasked | scripts/hunter_artifact_preflight.py:405-408 | a text is kept up to its first comment, the comment is blanked to its first close behind its opening, and the rest is treated likewise |
| MarkdownLayout.OpenCommentMasked | scripts/hunter_artifact_preflight.py:405-408 | a comment that is never closed is blanked to the end |
| MarkdownLayout.FenceOpensExactly | scripts/hunter_artifact_preflight.py:106-107 | a line opens a fence exactly when at most three blanks are followed by three or more equal backticks or tildes, all of them counted |
| MarkdownLayout.FenceEndsExactly | scripts/hunter_artifact_preflight.py:106-107 | a line closes a fence exactly when it has such a run of the same mark, at least as long, with only blanks behind it |
| MarkdownLayout.HtmlBeginsExactly | scripts/hunter_artifact_preflight.py:116-140 | the HTML block type of a line is the first of the types 1 to 7 whose start condition holds behind at most three spaces, type 7 not inside a paragraph |
| MarkdownLayout.IndentedExactly | scripts/hunter_artifact_preflight.py:467-470 | a line is indented code exactly when it starts with a tab or with four spaces or more before something visible |
| MarkdownLayout.HeadingExactly | scripts/hunter_artifact_preflight.py:483-499 | a line is a heading of a level exactly when at most three spaces are followed by that many hashes, one to six, and the end or a blank |
| MarkdownLayout.HeadingReads | scripts/hunter_artifact_preflight.py:483-499 | a heading as it is written is read back: its level and its content, without a closing sequence set off by a space and with one that belongs to its last word |
| RenderedMarkdown.MaskThins | scripts/hunter_artifact_preflight.py:371-480 | masking keeps the length and every CR and LF; each other character is kept or becomes a space |
| RenderedMarkdown.CommentsGone | scripts/hunter_artifact_preflight.py:405-408 | no comment opening is left after the comments are masked |
| RenderedMarkdown.StepTwice | scripts/hunter_artifact_preflight.py:418-480 | one line of a second pass: it is never inside a block and in a paragraph exactly where the first pass is |
| RenderedMarkdown.MaskTwice | scripts/hunter_artifact_preflight.py:397-480 | masking masked text again blanks exactly its whitespace-only lines that start with a tab |
| RenderedMarkdown.IdempotentExactly | scripts/hunter_artifact_preflight.py:397-480 | masking is idempotent on a text exactly when its masked form has no whitespace-only line starting with a tab |
| RenderedMarkdown.SecondMaskDiffers | scripts/hunter_artifact_preflight.py:423-429 | a concrete text, an HTML block closed by a tab line, on which a second pass changes something |
| RenderedSections.HeadingSpans | scripts/hunter_artifact_preflight.py:510-525 | the loop with its running offset computes the spans |
| RenderedSections.SpansSound | scripts/hunter_artifact_preflight.py:510-525 | the text at each span parses as the heading with that level and content |
| RenderedSections.SpansInOrder | scripts/hunter_artifact_preflight.py:510-525 | the spans lie within the text, one after the other |
| RenderedSections.Section | scripts/hunter_artifact_preflight.py:566-577 | the loop with its break computes the section of the masked text |
| RenderedSections.SectionExtent | scripts/hunter_artifact_preflight.py:566-577 | a section starts where the named heading's line ends, stops at a heading of level one or two or at the end, and holds no such heading |
| SectionLayout.LinesJoin | scripts/hunter_artifact_preflight.py:510-525 | the lines make up the text, and each ends at its first boundary |
| SectionLayout.SpansExactly | scripts/hunter_artifact_preflight.py:510-525 | the spans are exactly the lines that parse as headings, each with its level, its content and its place in the text |
| SectionLayout.SectionExactly | scripts/hunter_artifact_preflight.py:566-577 | a section is there exactly when its heading is, belongs to the first such heading, and its text runs from the end of that line to the next heading of level one or two or to the end |
| RenderedSections.StructureStable | scripts/hunter_artifact_preflight.py:510-577 | on masked and re-masked text the heading spans and section bounds are the same, and section texts differ only in kinds of white space |
| MarkdownTable.MarkdownCells | scripts/hunter_artifact_preflight.py:599-626 | the tokenizer loops compute the cell function |
| MarkdownTable.CountBackslashes | scripts/hunter_artifact_preflight.py:612-616 | counts the run of backslashes before a pipe |
| MarkdownTable.CellsDivide | scripts/hunter_artifact_preflight.py:599-626 | the cells are the stripped pieces of the one way to cut the line at its unescaped pipes |
| MarkdownTable.SplitsUnique | scripts/hunter_artifact_preflight.py:599-626 | there is only one such way |
| MarkdownTable.CellCount | scripts/hunter_artifact_preflight.py:599-626 | a table line has one cell more than it has unescaped pipes between its ends |
| MarkdownTable.RoundTripExactly | scripts/hunter_artifact_preflight.py:599-626 | parsing the printed row gives the cells back exactly when every cell is trimmed and its every pipe follows an odd run of backslashes |
| FindingsMatrix.MatrixRows | scripts/hunter_artifact_preflight.py:658-735 | the scan, the body loop and the row loop compute the rows and errors |
| FindingsMatrix.NoRowDropped | scripts/hunter_artifact_preflight.py:698-733 | rows read plus errors are exactly the data rows of the body; no error exactly when all are well formed, and then the rows are theirs in order |
| MatrixPrinting.ColumnsExactly | scripts/hunter_artifact_preflight.py:658-680 | a row is a header exactly when it has cells that read finding, class and blocks adr, and its columns are where they are first read |
| MatrixPrinting.DataExactly | scripts/hunter_artifact_preflight.py:652-715 | a row makes a claim exactly when some cell of it is neither blank nor three dashes or more between optional colons, and a delimiter row has dashes in every cell |
| MatrixPrinting.MatrixRoundTrip | scripts/hunter_artifact_preflight.py:658-735 | reading a printed matrix gives back its rows and no error, wherever it stands behind lines that are no header and before one that is no table line |
| FindingsMatrix.MatrixSound | scripts/hunter_artifact_preflight.py:658-735 | an error-free matrix is the rendered table under the first header line, with its delimiter row, and its rows are all data rows of that table |
| FindingsMatrix.MatrixClassed | scripts/hunter_artifact_preflight.py:719-731 | every parsed row has a class from A to D |
| FindingRecords.ValidateRecords | scripts/hunter_artifact_preflight.py:772-855 | with an error-free matrix exactly the complaints that are due are made, and none otherwise |
| FindingRecords.FieldIssues | scripts/hunter_artifact_preflight.py:786-792 | exactly the fields that occur twice in one record |
| FindingRecords.ContentIssues | scripts/hunter_artifact_preflight.py:807-823 | exactly the unique records that are incomplete or badly valued, and exactly the comparable ones are marked valid |
| FindingRecords.RowIssues | scripts/hunter_artifact_preflight.py:833-853 | exactly the rows without record or at odds with it |
| FindingAgreement.SilentExactly | scripts/hunter_artifact_preflight.py:772-855 | no complaint is due exactly when records and rows are consistent |
| FindingAgreement.Bijection | scripts/hunter_artifact_preflight.py:772-855 | consistent records and rows pair off one to one with equal class and blocking flag |
| FindingAgreement.RecordsBindVerdict | scripts/hunter_artifact_preflight.py:772-1017 | when both validators are silent the class of each rendered record bounds the verdict |
| AuditVerdict.VerdictIssues | scripts/hunter_artifact_preflight.py:955-1017 | silent exactly when blocking flags follow the classes and the verdict is one the highest class leaves open; matrix errors are passed on; no verdict means no complaint |
| AuditVerdict.FindingsNeverHelp | scripts/hunter_artifact_preflight.py:955-1017 | adding findings never makes a more ready verdict acceptable than before |
| AuditVerdict.RowBindsVerdict | scripts/hunter_artifact_preflight.py:981-1017 | each single row bounds the verdict by its class |
| AuditVerdict.OnlyHighestCounts | scripts/hunter_artifact_preflight.py:987-1017 | the open verdicts depend on the highest class alone |
| Ordering.SortCanonical | scripts/hunter_connector_write_ingress.py:169-169 | sorting depends on the elements alone and leaves sorted lists as they are |
| ChangeSet.NormalizeChanges | scripts/hunter_connector_write_ingress.py:130-169 | the loop with its set of affected paths computes the normal form or refuses |
| ChangeSet.NormalizeExactly | scripts/hunter_connector_write_ingress.py:130-169 | a list has a normal form exactly when each transition is exact on its cleaned fields and no two touch a path in common, the previous path of a rename included |
| ChangeSet.NormalizeIdempotent | scripts/hunter_connector_write_ingress.py:130-169 | a normal form is unambiguous, in order, and its own normal form |
| ChangeSet.NormalizeUnordered | scripts/hunter_connector_write_ingress.py:130-169 | the result does not depend on the order of the input |
| ChangeSet.OnePathOneChange | scripts/hunter_connector_write_ingress.py:164-168 | each affected path of a normal form is bound by one transition |
| ChangeSet.NormalFormsCompareSets | scripts/hunter_governance_review_v2.py:1737-1758 | comparing normal forms compares the sets of clean transitions |
| WriteReceipt.RoundTripExactly | scripts/hunter_connector_write_ingress.py:209-299 | reading a written receipt gives the authorization back exactly when its lists are canonical |
| WriteReceipt.ReadThenWrite | scripts/hunter_connector_write_ingress.py:209-299 | writing a usable receipt gives the same document back |
| WriteReceipt.CanonicalExactly | scripts/hunter_connector_write_ingress.py:266-283 | a list equals its canonical form exactly when it is trimmed, non-empty, ordered and without repetition |
| WriteReceipt.MintedSound | scripts/hunter_connector_write_ingress.py:947-1074 | a minted authorization is granted for its writer, capability, Issue and paths, on the Issue's branch, at the trusted tip, with each path bound by one exact transition and no governed ingress path |
| AdmissionConditions.MintedExactly | scripts/hunter_connector_write_ingress.py:947-1074 | the mint authorizes a request exactly under the conditions spelled out on its fields, the grant and the trusted tip |
| AdmissionConditions.BranchExactly | scripts/hunter_connector_write_ingress.py:592-604 | a reference names a branch with or without its prefix, and as no other kind of reference; the name is not empty, neither starts nor ends with a slash and has no two dots in a row |
| AdmissionConditions.AffectedExactly | scripts/hunter_connector_write_ingress.py:150-168 | the paths of a set of transitions are where they end and, for renames, where they start |
| WriteReceipt.MintedReceiptSurvives | scripts/hunter_connector_write_ingress.py:228-299 | every authorization minted under a parsed grant survives being written and read |
| BranchBinding.MintMeans | scripts/hunter_connector_write_ingress.py:995-1002 | the mint accepts a branch for an Issue exactly when it starts with prefix, number and literal |
| BranchBinding.OneIssue | scripts/hunter_connector_write_ingress.py:552-567 | with a separating literal a branch fits at most one Issue |
| BranchBinding.AgreeExactly | scripts/hunter_connector_write_ingress.py:552-567 | mint and derivation agree on every newline-free branch exactly when no shift by one to nine digits maps the literal behind the number onto itself |
| BranchBinding.NonDigitSeparates | scripts/hunter_connector_write_ingress.py:552-567 | a literal with a character that is not a digit is of that kind |
| BranchBinding.Ambiguous | scripts/hunter_connector_write_ingress.py:552-567 | where such a shift exists there is a branch that fits two Issues |
| BranchBinding.RepositoryTemplateAgrees | scripts/hunter_connector_write_ingress.py:552-567 | the repository's own template is of the agreeing kind |
| ConnectorAdmission.VerifyRangePush | scripts/hunter_governance_review_v2.py:1460-1524 | the range is proven exactly when the writer pushed the head and nobody else pushed another commit of it |
| ConnectorAdmission.ReadGrantTidyWriters | scripts/hunter_connector_write_ingress.py:692-712 | the writer table of a grant read from a document has non-empty logins and trimmed capabilities |
| AdmissionConditions.AdmittedExactly | scripts/hunter_governance_review_v2.py:1543-1768 | a candidate is admitted as a connector write exactly when its receipt is usable and, spelled out on the evidence: its branch, base, Issue, fork point and fingerprint are right, its writer pushed the head and every pushed commit and committed them all, the head's grant reads and is no wider, the scope names are the Issue's, the evidence files are in place, the others are the authorized transitions, and the scope check accepts their paths |
| AdmissionConditions.OrdinaryExactly | scripts/hunter_governance_review_v2.py:1543-1620 | admission stays out of the way exactly of a candidate off the connector's branches that does not itself write a receipt |
| AdmissionConditions.TrustedExactly | scripts/hunter_governance_review_v2.py:1725-1740 | the files that count are those at neither evidence path, each as often as it is listed |
| ConnectorAdmission.AdmittedAsMinted | scripts/hunter_governance_review_v2.py:1543-1768 | what admission lets through is what the mint would write for the same branch, fork point and files, exactly when the branch is not protected and no path is governed ingress state |
| AdmissionExamples.AdmittedNotMinted | scripts/hunter_governance_review_v2.py:1543-1768 | for every fingerprint and digest function: a concrete candidate whose receipt carries the trusted grant's own fingerprint is admitted although the mint refuses it as protected under that grant, which the reader accepts |
| AdmissionExamples.ProtectionRestamps | scripts/hunter_governance_review_v2.py:1543-1768 | with one more protected branch in the trusted grant: a candidate was admitted before exactly when its receipt carries the former fingerprint and the same candidate with the new fingerprint in its receipt is admitted now |
| AdmissionExamples.ProtectionStale | scripts/hunter_governance_review_v2.py:1666-1673 | the receipt as it was is refused as stale whenever the fingerprints of the two grants differ |
| ConnectorAdmission.MintedIsAdmitted | scripts/hunter_governance_review_v2.py:1543-1768 | a minted authorization is admitted once its receipt and exactly its files are at the head, its writer pushed and committed the range, and the head does not widen the grant |
| IngressProvenance.ReadPages | scripts/hunter_governance_review_v2.py:369-388 | the page loop computes the listing |
| IngressProvenance.WholeOrNothing | scripts/hunter_governance_review_v2.py:369-388 | a reader returns the whole listing or nothing, and with every page answered succeeds exactly under 3000 entries |
| IngressProvenance.ReadCommits | scripts/hunter_governance_review_v2.py:369-388 | the commits are the whole listing without what is not an object |
| IngressProvenance.ReadBeyondFloor | scripts/hunter_governance_review_v2.py:1035-1075 | the SHAs are those of the whole comparison listing |
| IngressProvenance.CheckSignatures | scripts/hunter_governance_review_v2.py:1233-1251 | the loop succeeds exactly when every required commit has a valid signature by an authorized committer |
| IngressProvenance.VerifyIngress | scripts/hunter_governance_review_v2.py:1091-1272 | the sequence of refusals computes the verdict on the evidence read |
| IngressProvenance.SparedBelowFloor | scripts/hunter_governance_review_v2.py:1041-1048 | what a three-dot comparison leaves out of the head's history is an ancestor of the floor |
| IngressProvenance.SuccessExactly | scripts/hunter_governance_review_v2.py:1170-1272 | success needs, on the connector's channel, an active grant that lists the writer and a successful hosted proof, and on the ordinary one a valid signature by an authorized committer for every commit that needs one and, under an active grant, the hosted proof as well |
| IngressProvenance.PendingExactly | scripts/hunter_governance_review_v2.py:1170-1272 | waiting is for evidence that is temporarily unavailable, or for a hosted proof still running where all else is in place |
| IngressProvenance.OrdinarySuccessCovers | scripts/hunter_governance_review_v2.py:1231-1272 | success on the ordinary path: every commit of the range, wherever it lies, is an ancestor of the floor or validly signed by an authorized committer |
| IngressProvenance.PagesToProof | scripts/hunter_governance_review_v2.py:1147-1272 | the same from the server's pages on, whichever pages fail |
| IssueAcceptance.NewestDecides | scripts/hunter_governance_review_v2.py:2482-2501 | the newest run at the head alone decides; an older success never masks it |
| IssueAcceptance.OrderIndependentExactly | scripts/hunter_governance_review_v2.py:2482-2501 | the status is independent of the order of the runs exactly when the newest runs at the head agree |
| IssueAcceptance.DistinctIdsDecide | scripts/hunter_governance_review_v2.py:2600-2620 | runs with distinct ids always agree in that sense |
| IssueAcceptance.ProvenExactly | scripts/hunter_governance_review_v2.py:2503-2560 | acceptance is proven exactly when one registered Issue is bound, its producers are untouched, every producer has proof at the head and no unverifiable criterion remains |
| IssueAcceptance.ProductionOnlyExactly | scripts/hunter_governance_review_v2.py:2531-2578 | the exception admits exactly when bound to this head and trust root, unexpired, everything not deferred proven, and something deferred outstanding |
| IssueAcceptance.WaitingExactly | scripts/hunter_governance_review_v2.py:2531-2560 | unavailable, stale, missing and outstanding are answered exactly in this order of precedence, each under its own condition on the producers that are not deferred |
| IssueAcceptance.ExceptionRefused | scripts/hunter_governance_review_v2.py:2562-2576 | an exception that would apply is refused exactly for another head, an unreadable or changed trust root, or a missing or past date |
| IssueAcceptance.GovernedExactly | scripts/hunter_governance_review_v2.py:2503-2525 | a change is not governed exactly when no registered entry matches any of its paths, and ambiguous exactly when two do |
| IssueAcceptance.StatusExactly | scripts/hunter_governance_review_v2.py:2482-2501 | evidence is stale exactly when no run is at the head and one elsewhere succeeded; proof comes from a newest run at the head |
| IssueAcceptance.DistinctIdsUnordered | scripts/hunter_governance_review_v2.py:2503-2620 | with distinct run ids the whole decision does not depend on the order in which runs are listed |
| IssueAcceptance.AcceptanceUnordered | scripts/hunter_governance_review_v2.py:2503-2579 | the same whenever the newest runs of each producer at the head agree |
| IssueAcceptance.ProofMeans | scripts/hunter_governance_review_v2.py:2485-2501 | a producer has proof exactly when its runs are available, some are at the head, and the first of the newest of them completed and succeeded |
| FindingCapture.CaptureFindings | scripts/hunter_canonicalization_candidate_pr.py:213-287 | the loop with its set of known identifiers computes the registry and lists what was added |
| FindingCapture.TakeAll | scripts/hunter_canonicalization_candidate_pr.py:233-287 | the old registry is a prefix of the new one |
| FindingCapture.CaptureComposes | scripts/hunter_canonicalization_candidate_pr.py:233-287 | capturing two batches in turn is capturing them as one, failures included |
| FindingCapture.CaptureIdempotent | scripts/hunter_canonicalization_candidate_pr.py:233-287 | capturing again what was captured changes nothing |
| FindingCapture.NothingLost | scripts/hunter_canonicalization_candidate_pr.py:241-286 | every inline finding of an accepted capture is on record |
| FindingCapture.SubstanceKept | scripts/hunter_canonicalization_candidate_pr.py:261-284 | the first observation under a new identifier is recorded with its own reviewer, pull request, event, message, head, path and line |
| FindingCapture.NothingInvented | scripts/hunter_canonicalization_candidate_pr.py:233-287 | every new record is that of a complete inline observation, field by field |
| FindingCapture.MalformedExactly | scripts/hunter_canonicalization_candidate_pr.py:241-260 | a capture is refused exactly when some inline observation is incomplete |
| FindingCapture.IdInjective | scripts/hunter_canonicalization_candidate_pr.py:261-262 | the identifier determines pull request and event |
| RevisionMarker.MarkerSurvivesExactly | scripts/hunter_governance_revision.py:188-206 | a description that starts with a marker, whatever follows, cut to 140 characters, parses to the same pull request and revision exactly when the marker fits |
| RevisionMarker.LineEndingsCollapse | scripts/hunter_governance_revision.py:119-130 | any mixture of LF and CR LF endings of the same lines normalises to the LF text |
| RevisionMarker.StatusPathIdentity | scripts/hunter_issue_agent_ingress.py:75-91 | the rebuilt status path is the requested path, and exactly the prefix with 64 lower-case hexadecimal digits has one |
| Numerals.HexOfValue | scripts/hunter_issue_agent_ingress.py:81-91 | printing the value of hexadecimal digits at their own width gives them back |
| Numerals.PrintIntInjective | scripts/hunter_canonicalization_candidate_pr.py:261-262 | different numbers print differently |
| RetryBoundary.Service.Execute | scripts/hunter_github_transport.py:198-237 | the loop computes the bounded execution: its outcome, its calls and its sleeps |
| RetryBoundary.BoundedRetry | scripts/hunter_github_transport.py:198-237 | at most as many calls as attempts, total sleep at most one attempt fewer times the cap; no attempts, no call |
| RetryBoundary.SleepsExactly | scripts/hunter_github_transport.py:114-237 | each sleep is the server's wish or, without one, the delay of that attempt, the base delay doubled from attempt to attempt, and never more than the cap |
| RetryBoundary.LastDecides | scripts/hunter_github_transport.py:198-237 | every answer before the last one made is a failure worth another try, and the last one decides the outcome by what it is |
| RetryBoundary.SleepsDouble | scripts/hunter_github_transport.py:114-115 | without a server wish the sleeps are the capped doubling delays in order |
| RetryBoundary.UnavailableExactly | scripts/hunter_github_transport.py:214-237 | unavailability is reported exactly when every attempt failed in a retryable way and no pause in between was negative |
| RetryBoundary.NestingAddsNothing | scripts/hunter_github_transport.py:84-101 | a boundary around a boundary makes the same calls and sleeps and passes on what the inner one raises |

## Left out

- CoverageSound: one direction only, for plain wider entries; ListComparesExactly gives both for every list of entries without an opening bracket.
- ListComparesExactly: excludes entries with an opening bracket. ClassesDiffer shows that with character classes plainness is not the condition; which entries with classes compare soundly is not characterised.
- NoExtraAuthority: assumes that the trusted lists that open and the candidate lists that close compare soundly; UnsoundListOpens shows what happens otherwise.
- MintNotWider: the same assumption.
- PathNotWider: the same assumption.
- PlainRootNotWider: assumes plain closing entries of the candidate; its lemma RootNotWider asks for lists that compare soundly.
- NoWideningTransitive: the same assumption on the outer grants, for the same reason.
- UnsoundListOpens: for lists and entries without surrounding white space, and for relative paths without parent components, which are the only ones a grant can grant.
- FloorRedundantExactly: assumes plain floor, unblocked and allowed entries and prohibitions that compare soundly, as the repository's own grant has; pattern entries are outside the exact condition.
- FloorUnblockedExactly: assumes plain floor and unblocked entries, as do FloorRedundant, RootNeverUnblocked and ReadFloorRedundant.
- PlainRootProhibited: assumes plain prohibitions; its lemma RootProhibited asks for lists that compare soundly.
- ClosureProtected: assumes a root of trust that compares soundly, since coverage is compared as text.
- MaskTwice: assumes that CR and LF are the only line separators in the text; the other separators of `str.splitlines` are masked like ordinary characters.
- MintedSound: the shape checks on request fields are not modelled, only the decision on well-typed requests.
- AdmittedAsMinted: assumes branch names as GitHub reports them (already branch names, on one line) and a template of the form prefix, placeholder, literal, star.
- AcceptanceUnordered: assumes that the newest runs of each producer agree, which is what it takes (OrderIndependentExactly) and what distinct ids give (DistinctIdsUnordered).
- OrdinarySuccessCovers: assumes that the pull request's listing covers its range, every commit of the head that the base does not have; the server's listing is not modelled further.
- PagesToProof: the same assumption.
- ProvenExactly: assumes what the registry reader guarantees, distinct evidence ids with the deferred ones among them.
- WholeOrNothing: assumes a server whose listing does not change between the page requests of one reader.
- NestingAddsNothing: the outer boundary's message about exhausted attempts is not modelled, only what it raises.
- JSON shapes and type checks, base64, HTTP, subprocesses and the texts of messages.
- The order of widening reasons and of sorted complaints: both are modelled as sets.
- Letter case beyond ASCII: `lower` and `upper` act on the ASCII letters only, and `\d` stands for the ASCII digits.
- The type 7 HTML block pattern, which is a parameter, and the patterns that recognise finding fields and checklist items; records and checklist relations come in as values.
- `read_pr_changed_files` beyond its paging: the conversion of each entry is not modelled.
- A file named in two ways, such as `scripts/./a.py`: paths are compared as texts.
- Retries inside the transport of one logical mutation: the draft conversion counts as one mutation however often it is sent.
- Interrupts in a request handler: a crash step while it alone holds its slot, and a step for one that comes once the worker has been started; interrupts between the single statements of a clean-up are not told apart.
- The pre-ready review document, reviewer pools and review comments: admission consults them as one piece of evidence.
- `validate_code_write_policy` and the other field-by-field policy checks: long but flat.
- The canonicalization run beyond capture, the controller admission script, probes, collectors and launch scripts.
