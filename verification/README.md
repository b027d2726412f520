# HydraFlow: a verified model of its algorithms and state machines

HydraFlow drives coding agents over GitHub issues. Most of it is input and output; nine parts of it hold algorithms
and automata whose correctness the rest relies on. This project models those parts in Dafny and proves what they are
for: over all inputs, all runs and all interleavings. `dafny verify dfyconfig.toml` checks everything.

| part of HydraFlow | modules |
|---|---|
| edit distance of the prompt audit's canary check | `EditDistance` |
| god-class splitter and its verifier | `PythonText`, `Banners`, `Spans`, `CoreRewrite`, `ClassSplit`, `SplitFilesFacts`, `SplitLines`, `Seams`, `MixinLookup`, `SplitVerify`, `SplitReport`, `VerbatimLookup`, `SplitExamples` |
| calibration of the adequacy gate | `Wilson`, `CorpusWalks`, `Identifiability` |
| host-wide slot lock for test suites | `HostLock`, `SlotQueue`, `LockQueue` |
| liveness watchdog | `Watchdog` |
| merging shipped assets into a user's tree | `HookChain`, `HookCycle`, `SettingsMerge` |
| the demand a failing verdict makes of a retry | `Findings`, `Demand` |
| telemetry rollup after phantom-cost cleanup | `Rollup` |
| activity parser for agent streams | `ActivityParser` |

`Wrappers`, `Text`, `Sequences` and `StableSort` hold shared definitions. Code that updates objects, lists or arrays in
the repository is a class or a method with a loop here, proved against a function; the theorems are about that
function.

## How the code is read

- Money, probabilities, clocks and ratios are exact reals. The square root of the Wilson interval is any nonnegative
  number whose square is the radicand.
- Text is a sequence of characters; `round` is to the nearest integer with ties to even; a Python dictionary is a map,
  with a separate sequence of its keys where the order shows.
- The splitter's source is a sequence of lines that know whether they are a comment, blank or code, and which statement
  a code line belongs to, with the methods of any classes inside that statement. Lookup on a class is its own body, then
  its bases in order, where a base that is defined in the files contributes its own body. Two statements are the same
  tree when their code lines are.
- The slot lock is a step system: any sequence of atomic steps of any number of wrappers with any slot counts, which may
  time out, bypass the lock, be killed or lose their parent.
- What cannot be seen from the code is a parameter: the anchoring patterns, what a tick of the watchdog finds, what a
  pass over the lock files observes.

## Where the code differs from what it promises

Each of these is proved, with the exact condition under which the promise holds.

- `chain_hooks` raises on a start marker without an end marker, and is not idempotent on a hook that already holds an end
  marker with no start marker before it, or whose file name holds one (`HookChain.ChainIdempotentExactly`,
  `HookChain.EndMarkerAloneGrows`).
- Cleaning does not remove a hook that chaining created, and does not look at shipped hooks other than `pre-commit` and
  `pre-push` (`HookChain.DispatcherLeavesItsFirstLine`, `HookCycle.CycleOfHook`).
- Removing tagged settings changes entries in place before it compares them, so a file whose tagged hooks all share an
  entry with the user's hooks is not rewritten (`SettingsMerge.CleanedExactly`, `SettingsMerge.RemovalRestoresExactly`).
- Waiting can turn an escape into a clean outcome when an issue has two rows (`Identifiability.SettledExactly`). The
  shipped caller builds one row for each issue (`build_issue_outcomes` in scripts/calibrate_adequacy_gate.py), so it is
  safe by `Identifiability.DistinctIssuesSettle`.
- A retry that repeats a demand of more than ten findings may have some of it waived: when the pin has any token,
  exactly the findings beyond the pin that are not anchored and share no token with it
  (`Demand.RepeatIsNotWaivedExactly`).
- With a workspace the watchdog may announce a recovery without an incident (`Watchdog.RecoveryNoticeExactly`), and an
  incident that starts while a reboot stands or a pause is counted is said to have started at "None"
  (`Watchdog.IncidentStartExactly`).
- Splitting a class whose every statement moves leaves a class without a body (`MixinLookup.CoreIsEmptiedExactly`,
  `SplitExamples.EmptiedClass`). A class attribute with the name of a moved method stays behind and wins
  (`MixinLookup.LookupAfterSplit`).
- The splitter takes a moved statement's comments along, but its last pass also deletes comments inside a moved method
  that another comment follows past blank lines (`SplitLines.MovedBlockIsVerbatimExactly`), and the header rewrite drops
  comments between the class line and its first statement's block (`SplitLines.CoreIsTheRest`).
- The splitter's verifier reports a mismatch for a property with a setter and for any method of another class whose
  name ends in "Mixin", and can report VERBATIM when such a class holds a copy of a method that was lost
  (`SplitReport.VerifierAcceptsExactly`, `SplitExamples.SetterIsMismatch`, `SplitExamples.OtherMixinIsMismatch`,
  `SplitExamples.CopyHidesLoss`). It does not compare class attributes (`VerbatimLookup.AttributesAreNotCompared`).
- A snapshot with several new tool calls reports one of them per line, and a tool call without an id blocks the text
  behind it (`ActivityParser.RepeatsDrainTools`, `ActivityParser.UnnamedToolBlocksText`).

## Model

| member | source | states |
|---|---|---|
| `EditDistance.DistIsMinimum` | scripts/audit_prompts.py:1661-1674 | a script of the computed cost turns one string into the other, and no script is cheaper |
| `EditDistance.NoCheaperScript` | scripts/audit_prompts.py:1661-1674 | every edit script that fits costs at least the recurrence |
| `EditDistance.BestScript` | scripts/audit_prompts.py:1661-1674 | a script with exactly the recurrence's cost |
| `EditDistance.DistSymmetric` | scripts/audit_prompts.py:1661-1674 | the distance is the same both ways |
| `EditDistance.TriangleInequality` | scripts/audit_prompts.py:1661-1674 | a detour through a third string is never cheaper |
| `EditDistance.ZeroOnlyWhenEqual` | scripts/audit_prompts.py:1661-1674 | distance zero means equal strings |
| `EditDistance.AtMostLongerLength` | scripts/audit_prompts.py:1661-1674 | no distance exceeds the longer string |
| `EditDistance.FillTable` | scripts/audit_prompts.py:1661-1674 | the loop with two swapped rows returns the edit distance |
| `EditDistance.LevenshteinRatio` | scripts/audit_prompts.py:1661-1674 | the ratio is distance over longer length, lies in [0,1] and is 0 exactly for equal strings |
| `Wilson.IntervalIsScoreTest` | src/adequacy_calibration.py:738-759 | before clamping, a number x lies in the interval exactly when (k - nx)^2 <= z^2 n x (1 - x): the count is within z of the deviations that x itself predicts |
| `Wilson.EndpointsAreShares` | src/adequacy_calibration.py:738-759 | for a possible count the endpoints lie in [0,1] already, so clamping changes nothing |
| `Wilson.WilsonCovers` | src/adequacy_calibration.py:738-759 | the interval returned holds exactly the numbers with (k - nx)^2 <= z^2 n x (1 - x), its point times n is k, and it surrounds the point |
| `Wilson.WilsonMirror` | src/adequacy_calibration.py:738-759 | swapping successes and failures reflects the interval about one half |
| `Wilson.DefaultInterval` | src/adequacy_calibration.py:738-759 | at the default confidence there is no interval without trials, and otherwise the same holds of the counts |
| `CorpusWalks.JaccardFacts` | src/adequacy_calibration.py:762-767 | overlap times the size of the union is the size of the intersection; it is in [0,1], zero exactly for disjoint sets that are not both empty, one exactly for equal sets |
| `CorpusWalks.SamePairs` | src/adequacy_calibration.py:770-795 | the group-by-issue walk and the one-pass walk compare the same multiset of pairs, with any timestamp ties |
| `CorpusWalks.SamePairsForAnyStableSort` | src/adequacy_calibration.py:770-795 | the same for every stable arrangement of the timeline and of each group, however it is computed |
| `CorpusWalks.PairsAreRepeats` | src/adequacy_calibration.py:872-913 | along a timeline exactly each rejection and the next one of its issue are compared |
| `CorpusWalks.GroupedPairsAreRepeats` | src/adequacy_calibration.py:770-795 | the grouped walk compares exactly those pairs of the timeline too |
| `CorpusWalks.TimelineExactly` | src/adequacy_calibration.py:884-890 | the timeline holds exactly the rejected runs, by time and then by issue |
| `StableSort.AnyStableSort` | src/adequacy_calibration.py:784-787 | two stable arrangements of one sequence are equal, so every stable sort gives the modelled result |
| `CorpusWalks.RepeatPairs` | src/adequacy_calibration.py:770-795 | repeat pairs are the rejections less the rejected issues |
| `CorpusWalks.MovedPairs` | src/adequacy_calibration.py:872-913 | moved pairs of the one-pass walk are the disjoint pairs of the grouped walk plus those with two empty token sets |
| `CorpusWalks.GroupByIssue` | src/adequacy_calibration.py:780-783 | issues in first-seen order, each with its rejections in order |
| `CorpusWalks.DemandStationarity` | src/adequacy_calibration.py:770-795 | counts and mean are those of the grouped pairs, and the disjoint rate is the Wilson interval of the two counts |
| `CorpusWalks.SumSplits` | src/adequacy_calibration.py:788-795 | the sum behind the mean counts every score once |
| `CorpusWalks.SuspectRejections` | src/adequacy_calibration.py:872-913 | the loop with its dictionary of previous tokens lists every rejection with its reasons, in time order |
| `CorpusWalks.SuspectsExactly` | src/adequacy_calibration.py:872-913 | the report lists exactly the rejections that something speaks against, in time order, each with exactly the reasons that hold: no anchored finding, no token shared with the issue's previous rejection, a self-declared core, a finding out of remit |
| `CorpusWalks.NotStationaryCount` | src/adequacy_calibration.py:872-913 | rejections flagged as not stationary equal the disjoint repeat pairs plus the pairs with nothing to compare |
| `Identifiability.ResolvedEscapes` | src/adequacy_calibration.py:968-1003 | the loop resolves escapes at once and clean readings past the grace window |
| `Identifiability.ResolvedByLast` | src/adequacy_calibration.py:968-1003 | an issue resolves to what its last row says that has a reading and a pull request and is an escape or older than the grace window |
| `Identifiability.LastCounted` | src/adequacy_calibration.py:968-1003 | and only an issue with such a row resolves |
| `Identifiability.SettledExactly` | src/adequacy_calibration.py:968-1003 | advancing the clock never un-resolves or flips an outcome exactly when no issue's last escape is followed by a dated clean reading |
| `Identifiability.DistinctIssuesSettle` | src/adequacy_calibration.py:968-1003 | with distinct issues waiting is always safe |
| `Identifiability.RepeatedIssueCanFlip` | src/adequacy_calibration.py:968-1003 | two rows for one issue flip from escaped to clean |
| `Identifiability.ResolvedPlusCensored` | src/adequacy_calibration.py:1146-1176 | with distinct issues, resolved plus grace-censored equals the outcomes with a ledger reading and a closing pull request |
| `Identifiability.RenderInjective` | src/judge_calibration.py:119-135 | subject texts of pull requests and issues never collide |
| `Identifiability.ToJudgeVerdicts` | src/adequacy_calibration.py:919-965 | every gate decision becomes one verdict, keyed to the pull request only if accepted |
| `Identifiability.PrOfLast` | src/adequacy_calibration.py:919-965 | an issue is keyed to the first pull request of its last row that has one |
| `Identifiability.LastClosed` | src/adequacy_calibration.py:919-965 | and only an issue with such a row has a key |
| `Identifiability.Resolve` | src/judge_calibration.py:293-317 | verdicts join outcomes on the subject, the last outcome of a subject winning |
| `Identifiability.ForecastFacts` | src/judge_calibration.py:277-290 | a pass predicts its confidence, a fail the opposite, clamped to [0,1] |
| `Identifiability.SubjectsArePrs` | src/adequacy_calibration.py:1006-1017 | the outcome side of the join has exactly the pull requests of resolved outcomes |
| `Identifiability.GoodExactly` | src/adequacy_calibration.py:1006-1017 | a pull request counts as good exactly when the issue of its last resolved row did not escape |
| `Identifiability.RejectArmIsCensored` | src/adequacy_calibration.py:919-965 | no rejection ever resolves, whatever the outcomes and the clock |
| `Identifiability.AcceptanceResolves` | src/adequacy_calibration.py:919-965 | an acceptance resolves exactly when its issue's pull request is that of a resolved outcome |
| `Identifiability.AcceptArmForecasts` | src/adequacy_calibration.py:1071-1176 | every forecast of the accept arm is certain, is that of one acceptance, and carries what became of its pull request |
| `Identifiability.Calibrate` | src/adequacy_calibration.py:1071-1176 | both arms' counts; the report is under-determined exactly when there is a rejection, an outcome held back by the grace window, or fewer than ten resolved acceptances; every reason is given exactly when it applies, with its count |
| `HostLock.SlotPathInjective` | scripts/quality_host_lock.py:134-144 | distinct slots have distinct lock files |
| `HostLock.SlotPathsNest` | scripts/quality_host_lock.py:134-144 | builds with different slot counts contend on the files of the smaller one |
| `HostLock.NextKeepsInv` | scripts/quality_host_lock.py:147-234 | every step keeps locks and holders in agreement |
| `HostLock.RunKeepsInv` | scripts/quality_host_lock.py:147-234 | so does every run |
| `HostLock.EveryInterleavingIsSafe` | scripts/quality_host_lock.py:179-234 | one holder per slot, at most k holders among wrappers with at most k slots, and running suites within the slot count plus those without a slot |
| `HostLock.FinishedHoldsNothing` | scripts/quality_host_lock.py:211-234 | every lock is owned by a live wrapper that holds it, never by a finished or killed one |
| `HostLock.AbandonedNeverStarts` | scripts/quality_host_lock.py:157-160 | a wrapper that starts a pass with its parent gone never starts a suite or takes a slot |
| `HostLock.SpawnUsesItsFiles` | scripts/quality_host_lock.py:200-206 | a new wrapper contends for exactly its lock files, at least one |
| `HostLock.SuiteStartsExactly` | scripts/quality_host_lock.py:189-228 | a suite starts exactly by a bypass, on a free slot that is tried, or on a timeout after every slot was |
| `HostLock.SuiteEndsExactly` | scripts/quality_host_lock.py:226-234 | a suite ends on its own, or its orphan does; killing the wrapper does not end it |
| `HostLock.LockIsFreedExactly` | scripts/quality_host_lock.py:226-234 | a lock is freed exactly when its holder releases it after its suite or is killed |
| `HostLock.DoneExactly` | scripts/quality_host_lock.py:211-234 | a wrapper exits with its suite's code, or with 75 when its parent is gone before a pass |
| `HostLock.TimeoutRunsBeside` | scripts/quality_host_lock.py:211-234 | a timed-out wrapper runs beside a holder, so the allowance in the bound is needed |
| `SlotQueue.AcquireAnySlot` | scripts/quality_host_lock.py:147-176 | the loop stops in the first pass that settles anything, with that pass's outcome, within ceil(max(timeout,0)/poll)+1 passes |
| `SlotQueue.ClockAdvances` | scripts/quality_host_lock.py:147-176 | after p full sleeps the clock is p poll intervals on |
| `SlotQueue.BoundIsReached` | scripts/quality_host_lock.py:147-176 | on a busy host with exact sleeps no earlier pass stops the loop |
| `SlotQueue.OutcomeUnique` | scripts/quality_host_lock.py:147-176 | what a pass observes determines its outcome: abandoned, a first free slot, or timed out with every slot busy |
| `LockQueue.EveryWrapperFollowsItsLog` | scripts/quality_host_lock.py:147-234 | in every interleaving each wrapper is where the log of what it observed puts it |
| `LockQueue.EveryLogIsAWait` | scripts/quality_host_lock.py:147-176 | every log is a wait: full passes that found every slot taken, then a pass that stops at a gone parent or the first free slot |
| `LockQueue.EveryPassDecides` | scripts/quality_host_lock.py:147-176 | so along every run a wrapper on slot k found every smaller slot locked when it tried it and k free, a timed-out one found all of its slots locked and the deadline passed, and in every earlier pass all were locked |
| `Watchdog.MarkerFile.Run` | scripts/factory_liveness_watchdog.py:822-885 | a tick replaces the marker file by the merged marker and leaves it alone on a dry run |
| `Watchdog.RestartLatch` | scripts/factory_liveness_watchdog.py:158-220 | the persisted flag says exactly that a restart stands with no up tick since |
| `Watchdog.RebootLatch` | scripts/factory_liveness_watchdog.py:554-616 | the persisted time says exactly that a stale-boot reboot stands |
| `Watchdog.RestartExactly` | scripts/factory_liveness_watchdog.py:158-220 | a restart happens exactly on an enabled real tick with no health or with stale events, and none standing |
| `Watchdog.RebootExactly` | scripts/factory_liveness_watchdog.py:554-616 | a reboot happens exactly on a real tick that finds a stale boot with none standing |
| `Watchdog.RebootTime` | scripts/factory_liveness_watchdog.py:554-616 | the persisted time is that of the reboot, until it is cleared |
| `Watchdog.StartExactly` | scripts/factory_liveness_watchdog.py:600-616 | the factory is started exactly on the real ticks with a workspace whose boot check says so |
| `Watchdog.RestartsAreSeparated` | scripts/factory_liveness_watchdog.py:822-885 | over every run, two restarts are separated by an up tick |
| `Watchdog.RebootsAreSeparated` | scripts/factory_liveness_watchdog.py:822-885 | over every run, two reboots are separated by a tick that does not decide to resync and reboot |
| `Watchdog.MergeIsNeeded` | scripts/factory_liveness_watchdog.py:822-885 | without the merge either sub-machine would act twice in one incident |
| `Watchdog.PauseCounter` | scripts/liveness/credit_probe.py:65-85 | the persisted counter is the streak of paused ticks modulo seven |
| `Watchdog.RefreshEverySeventh` | scripts/liveness/credit_probe.py:65-85 | a refresh is requested exactly on every seventh consecutive paused tick |
| `Watchdog.MarkerIsIncident` | scripts/factory_liveness_watchdog.py:158-220 | without a workspace the marker exists exactly during an incident and carries its start |
| `Watchdog.RecoveryExactly` | scripts/factory_liveness_watchdog.py:158-220 | without a workspace a recovery is announced exactly on the first up tick after an incident |
| `Watchdog.RecoveryWithoutIncident` | scripts/factory_liveness_watchdog.py:822-885 | with a workspace a factory that was never down is announced as recovered |
| `Watchdog.RecoveryNoticeExactly` | scripts/factory_liveness_watchdog.py:822-885 | in general a recovery is announced exactly when the factory was down, a reboot stands or a pause is counted |
| `Watchdog.DownNoticeExactly` | scripts/factory_liveness_watchdog.py:158-220 | the factory is announced as down exactly on the real ticks that find it so, with the word whether this tick restarts it, and the marker is stamped |
| `Watchdog.DownSinceExactly` | scripts/factory_liveness_watchdog.py:158-220 | without a workspace that notice names the start of the incident |
| `Watchdog.IncidentStartExactly` | scripts/factory_liveness_watchdog.py:158-220 | with one, an incident is said to start at its first down tick exactly when no reboot stands and no pause is counted, and at "None" otherwise |
| `Watchdog.IncidentStartStays` | scripts/factory_liveness_watchdog.py:158-220 | later ticks of the incident repeat what its first one named |
| `HookChain.BlockShape` | scripts/merge_assets.py:96-104 | the block starts with one marker, ends with the other, and holds no earlier end marker exactly when the hook's name does not |
| `HookChain.NoStraddle` | scripts/merge_assets.py:135-161 | no marker straddles the end of a line and the block after it |
| `HookChain.FreshChainIsUndone` | scripts/merge_assets.py:360-375 | on a hook without marker text, cleaning after chaining gives it back up to one newline, or removes it if blank, and chaining again changes nothing |
| `HookChain.FreshChainLeaves` | scripts/merge_assets.py:360-375 | so such a hook comes back unchanged if it ended with a newline, with one added if not, and is removed if it was whitespace |
| `HookChain.RechainReplacesBlock` | scripts/merge_assets.py:135-161 | re-chaining replaces the block only: it is stable and cleaning it is cleaning the original |
| `HookChain.ChainIdempotentExactly` | scripts/merge_assets.py:135-161 | chaining fails exactly on a start marker without an end marker, and is otherwise idempotent exactly when no end marker comes before the start marker and the hook's name holds none |
| `HookChain.EndMarkerAloneGrows` | scripts/merge_assets.py:135-161 | a hook that is the end marker alone chains to two different texts |
| `HookChain.CleanUndoesChainExactly` | scripts/merge_assets.py:360-375 | cleaning undoes a first chaining exactly when neither the hook nor its name held an end marker |
| `HookChain.HookDir.ChainHooks` | scripts/merge_assets.py:113-163 | the loop over hook files installs and chains each, stopping at the first failure |
| `HookChain.HookDir.CleanHooks` | scripts/merge_assets.py:360-375 | the loop takes every block out and removes hooks left blank |
| `HookChain.DispatcherLeavesItsFirstLine` | scripts/merge_assets.py:360-375 | a hook that chaining created is not removed by cleaning |
| `HookCycle.HookIsChained` | scripts/merge_assets.py:113-163 | in a whole directory every shipped hook is installed and chained onto what its user file held, whatever the others do |
| `HookCycle.CycleOfHook` | scripts/merge_assets.py:360-375 | after one merge and one clean a user's hook is back up to a newline, gone if blank; a new one keeps its first line; a shipped hook outside the two listed names stays chained |
| `HookCycle.CycleOfOthers` | scripts/merge_assets.py:360-375 | every other file in the directory is as it was |
| `SettingsMerge.GroupSource` | scripts/merge_assets.py:202-209 | tagged source hooks grouped by matcher in first-seen order, failing on a missing key |
| `SettingsMerge.FirstSeenOrder` | scripts/merge_assets.py:202-209 | the groups come in the order in which the source first names their matchers |
| `SettingsMerge.MergeCategory` | scripts/merge_assets.py:211-227 | the loop over groups is the fold of single-group merges |
| `SettingsMerge.MergeGroupsIsMerged` | scripts/merge_assets.py:202-227 | that fold is every old entry in place with its group's hooks, then one entry for each new matcher |
| `SettingsMerge.UserHooksKept` | scripts/merge_assets.py:202-227 | no untagged hook or matcher is changed, moved or dropped |
| `SettingsMerge.MergedHooksExactly` | scripts/merge_assets.py:202-227 | the first entry of a matcher holds the user's hooks and then all that the source has for it, in order; every other entry is as it was |
| `SettingsMerge.NewEntriesInOrder` | scripts/merge_assets.py:218-227 | one entry for each matcher that was missing, in the groups' order |
| `SettingsMerge.MergeIdempotent` | scripts/merge_assets.py:202-227 | merging a category twice is merging it once |
| `SettingsMerge.MergePermissions` | scripts/merge_assets.py:239-250 | the user's patterns followed by exactly the missing ones |
| `SettingsMerge.PermissionsIdempotent` | scripts/merge_assets.py:239-250 | adding patterns twice is adding them once |
| `SettingsMerge.MergeHooks` | scripts/merge_assets.py:195-227 | the loop over categories is the fold of category merges |
| `SettingsMerge.MergeFileByCategory` | scripts/merge_assets.py:195-227 | categories do not interfere |
| `SettingsMerge.MergeFileIdempotent` | scripts/merge_assets.py:195-227 | merging hooks into an existing file twice is merging them once |
| `SettingsMerge.MergeSettingsFile` | scripts/merge_assets.py:193-252 | the whole merge of hooks and permissions into an existing file, failing on a missing key |
| `SettingsMerge.MergeKeysAt` | scripts/merge_assets.py:239-250 | only the two permission keys that the source has are touched, each by its own merge |
| `SettingsMerge.MergeSettingsIdempotent` | scripts/merge_assets.py:193-252 | merging hooks and permissions twice is merging them once |
| `SettingsMerge.StripUndoesMergeExactly` | scripts/merge_assets.py:255-283 | stripping a merged category is stripping the original exactly when no empty hook list was filled |
| `SettingsMerge.RemoveTagged` | scripts/merge_assets.py:255-283 | the kept list is the stripped one, and the modified flag is set only when a whole entry is dropped, since the others changed in place |
| `SettingsMerge.SettingsFile.RemoveHfEntries` | scripts/merge_assets.py:255-283 | one dropped entry in any category has the whole stripped file written, and without one nothing is written |
| `SettingsMerge.CleanedExactly` | scripts/merge_assets.py:255-283 | removal clears the file exactly when nothing was tagged or some entry held tagged hooks only |
| `SettingsMerge.RemovalRestoresExactly` | scripts/merge_assets.py:255-283 | merge then removal restores every category's own entries, new ones empty, exactly when no empty hook list is filled and the merge adds an entry, or the file had an entry with tagged hooks only, or nothing is tagged at all |
| `SettingsMerge.SharedMatcherIsNotCleaned` | scripts/merge_assets.py:255-283 | a user and HydraFlow sharing a matcher: the tagged hook stays |
| `Findings.SplitFindings` | src/adequacy_demand.py:158-189 | the scanning loop computes the tidy top-level pieces |
| `Findings.CutExactly` | src/adequacy_demand.py:158-189 | the summary is cut exactly at the commas and semicolons that follow an even number of backticks and leave no bracket open outside code |
| `Findings.PiecesWeave` | src/adequacy_demand.py:158-189 | putting the dropped separators back between the pieces gives the summary: nothing else is lost |
| `Findings.FindingsAreStable` | src/adequacy_demand.py:158-189 | every finding is trimmed, non-empty, and splits to itself |
| `Findings.JoinSplitRoundTrip` | src/adequacy_demand.py:158-189 | joining with ", " and splitting gives the findings back exactly when all are complete and all but the last balanced |
| `Demand.WordsAreMaximalRuns` | src/adequacy_demand.py:195-208 | the words of a text are its maximal runs of lower-case letters and digits |
| `Demand.TokensExactly` | src/adequacy_demand.py:195-208 | a finding's tokens are its lower-cased words of at least four characters outside the two stop lists |
| `Demand.TokensIgnorePadding` | src/adequacy_demand.py:195-208 | surrounding whitespace does not change a finding's tokens |
| `Demand.PinFacts` | src/adequacy_demand.py:222-238 | a pin has at most ten findings, each a trimmed non-blank finding of the demand, all distinct, and misses one only when it has ten |
| `Demand.PinIdempotent` | src/adequacy_demand.py:222-238 | pinning a pin changes nothing |
| `Demand.PinFindings` | src/adequacy_demand.py:222-238 | the loop with its early exit computes the pin |
| `Demand.EvaluateDemand` | src/adequacy_demand.py:274-340 | blocking plus advisory is a permutation of the findings; a finding is advisory exactly when it is not anchored, the pin is in force and has a token, and the finding has tokens of which no pinned finding has one; restated likewise |
| `Demand.WaivedExactly` | src/adequacy_demand.py:274-340 | an anchored finding is never waived and a pin without tokens, or not in force, waives nothing |
| `Demand.RepeatIsNotWaivedExactly` | src/adequacy_demand.py:211-340 | a retry that repeats any demand has nothing waived exactly when the pin has no token or every finding left out of the pin is anchored or shares a token with it |
| `Demand.RepeatedDemandIsNotWaived` | src/adequacy_demand.py:211-340 | a retry that repeats a demand of at most ten distinct findings has nothing waived |
| `Demand.BeyondTenIsWaived` | src/adequacy_demand.py:211-340 | repeating a demand of distinct plain words has something waived exactly when one beyond the tenth is not anchored |
| `Demand.EleventhFindingIsWaived` | src/adequacy_demand.py:211-340 | a concrete demand of eleven findings that does so |
| `Rollup.CleanRecords` | scripts/cleanup_phantom_cost.py:197-214 | the loop reclassifies exactly the anomalies and sums their cost |
| `Rollup.ReclassifiedExactly` | scripts/cleanup_phantom_cost.py:34-52 | exactly the unclassified successes with no usage, no tokens and a prompt of more than 500 characters become failures that cost nothing; no other field changes |
| `Rollup.AsIntTruncates` | scripts/cleanup_phantom_cost.py:55-62 | a number with a fraction counts as the integer next to it towards zero |
| `Rollup.SecondPassIsIdle` | scripts/cleanup_phantom_cost.py:34-52 | a second pass finds and changes nothing |
| `Rollup.RollupFile.AddRecord` | scripts/cleanup_phantom_cost.py:140-167 | adding a record keeps the lifetime counter and all four indexes equal to folds |
| `Rollup.RollupFile.Rebuild` | scripts/cleanup_phantom_cost.py:131-170 | every bucket is the fold of the records with its key, and buckets exist exactly for the keys that occur |
| `Rollup.KeysExactly` | scripts/cleanup_phantom_cost.py:142-167 | a record is in the bucket of its own pull-request number, issue number, trimmed session and trimmed source, each read from its own field |
| `Rollup.NoKeyExactly` | scripts/cleanup_phantom_cost.py:142-167 | a number that is not positive, a blank text and an absent field give no bucket |
| `Rollup.SumsAreTotals` | scripts/cleanup_phantom_cost.py:93-109 | each running total of a counter is the sum of its own field over the records |
| `Rollup.CountersAreCounts` | scripts/cleanup_phantom_cost.py:93-128 | the other fields count calls, add up rounded costs and keep the last timestamp; cost fields exist exactly after a positive cost |
| `Rollup.MicroIsNearest` | scripts/cleanup_phantom_cost.py:114-127 | a positive cost counts as the nearest micro-dollars, any other as nothing |
| `Rollup.RoundIsNearest` | scripts/cleanup_phantom_cost.py:114-127 | rounding is to the nearest integer with ties to even |
| `Rollup.CleaningRemovesPhantomCost` | scripts/cleanup_phantom_cost.py:93-128 | cleaning lowers micro-dollars by exactly the anomalies' rounded costs and changes nothing but money |
| `Rollup.CleaningKeepsBuckets` | scripts/cleanup_phantom_cost.py:47-52 | cleaning leaves every record in its buckets |
| `Rollup.EveryBucketLosesItsPhantoms` | scripts/cleanup_phantom_cost.py:131-170 | every bucket loses exactly its own anomalies' cost |
| `Rollup.DriftBound` | scripts/cleanup_phantom_cost.py:114-127 | the dollar counter is whole micro-dollars and differs from the micro-dollar counter by at most one for each exact half-micro tie |
| `Rollup.DriftIsReached` | scripts/cleanup_phantom_cost.py:114-127 | n pairs of records of one and of half a micro-dollar reach the bound for n ties |
| `ActivityParser.Truncate` | src/activity_parser.py:57-61 | the result fits, is the text exactly when that fits, and otherwise is its prefix and an ellipsis |
| `ActivityParser.ClaudeParser.Parse` | src/activity_parser.py:72-92 | one line reports and changes the parser as the step function says |
| `ActivityParser.ClaudeParser.ParseAssistant` | src/activity_parser.py:94-139 | the first unreported tool call wins over text; otherwise the new text is consumed |
| `ActivityParser.Preview` | src/activity_parser.py:141-158 | a tool result's preview is its first eighty characters on one line |
| `ActivityParser.NoToolReportedTwice` | src/activity_parser.py:94-120 | over any stream no two tool calls that are returned share an id that is not empty |
| `ActivityParser.CallsFirstPending` | src/activity_parser.py:94-120 | over any stream a line returns a tool call exactly when its message holds one not returned before, and it is the first such block's id, name, summary and detail |
| `ActivityParser.OtherLinesCallNothing` | src/activity_parser.py:72-92 | no other line returns a tool call |
| `ActivityParser.RemembersReturned` | src/activity_parser.py:102-120 | the ids remembered are exactly those of the calls returned |
| `ActivityParser.FirstResultExactly` | src/activity_parser.py:141-158 | a user line reports its first tool result and no other |
| `ActivityParser.RepeatsDrainTools` | src/activity_parser.py:102-120 | a message with n unreported tool calls needs exactly n lines to report them |
| `ActivityParser.UnnamedToolBlocksText` | src/activity_parser.py:102-120 | a tool call without an id is reported by every line that holds it and keeps the text unread |
| `ActivityParser.DeltasJoinToPrefix` | src/activity_parser.py:94-139 | while one message grows, consumed texts join to exactly the prefix that has been read, whatever tool calls pre-empt them |
| `ActivityParser.CaughtUp` | src/activity_parser.py:122-139 | a line without a new tool call reads the message to its end |
| `ActivityParser.TextReportedExactly` | src/activity_parser.py:122-137 | over any stream a line returns text exactly when no tool call is pending and at least twenty trimmed characters are new, and returns their start |
| `ActivityParser.TextsJoin` | src/activity_parser.py:122-127 | the text of a message is that of its text blocks in order |
| `ActivityParser.ReturningMessageIsReadAgain` | src/activity_parser.py:99-101 | a message that returns after another is consumed from its start again |
| `Banners.CodeLinesKept` | scripts/god_class_split.py:168-191 | all code lines stay, in order |
| `Banners.NoOrphansLeft` | scripts/god_class_split.py:168-191 | no comment run is left that is followed past blanks by another run or the end |
| `Banners.OrphanExactly` | scripts/god_class_split.py:168-191 | a comment is orphaned exactly when past its run and blank lines comes another comment or the end of the file |
| `Banners.BanneredExactly` | scripts/god_class_split.py:168-191 | a blank line goes with the comment above it exactly when only blank lines are between |
| `Banners.DropIdempotent` | scripts/god_class_split.py:168-191 | dropping changes nothing exactly when there is no orphan, so twice is once |
| `Banners.MarkOrphans` | scripts/god_class_split.py:176-190 | the nested loops unmark exactly the orphaned banner lines in the array |
| `Banners.DropOrphanBanners` | scripts/god_class_split.py:168-191 | the whole pass computes the specified lines |
| `Spans.BlockStart` | scripts/god_class_split.py:77-88 | everything from the block start to the statement is comment, and the line above is not |
| `Spans.SpanHoldsStatement` | scripts/god_class_split.py:77-100 | a code line is in a statement's span exactly when it belongs to the statement |
| `Spans.ChunkIsStatement` | scripts/god_class_split.py:91-100 | the text of a span parses to that one statement |
| `CoreRewrite.HeaderHoldsHead` | scripts/god_class_split.py:409-424 | the replaced header range holds the class statement's code lines and no others |
| `CoreRewrite.DropHoldsMoved` | scripts/god_class_split.py:512-515 | a code line is dropped exactly when its statement moves |
| `CoreRewrite.KeepLines` | scripts/god_class_split.py:517-526 | the loop keeps the specified lines |
| `CoreRewrite.KeptStatements` | scripts/god_class_split.py:512-526 | the core file's statements are the source's without the moved ones and with the class statement replaced |
| `ClassSplit.CollectDrop` | scripts/god_class_split.py:447-462 | the spans of all moved names, or the first name that is missing |
| `ClassSplit.Split` | scripts/god_class_split.py:427-534 | the files written, or the error for a missing class or name; what the files hold is the subject of the rows below |
| `SplitLines.MovedBlockIsWritten` | scripts/god_class_split.py:91-100 | the lines of a moved statement with the comments directly above it stand in a row in its module's file, up to the banner pass |
| `SplitLines.MovedBlockIsVerbatimExactly` | scripts/god_class_split.py:466-510 | they stand there unchanged exactly when no comment among them is orphaned |
| `SplitLines.BlocksAreDisjoint` | scripts/god_class_split.py:77-100 | no line is in two blocks |
| `SplitLines.CoreIsTheRest` | scripts/god_class_split.py:512-530 | the core is the source line for line, without exactly the moved blocks and with the class header replaced, up to the banner pass |
| `SplitLines.CommentsMove` | scripts/god_class_split.py:77-100 | a comment run directly above a line of a moved statement stands above it in the module's file |
| `SplitLines.CommentsStay` | scripts/god_class_split.py:512-530 | a comment run directly above a line that stays stands above it in the core file |
| `SplitLines.CommentsHaveOneFile` | scripts/god_class_split.py:427-534 | so the comments above any line outside the class header go to one file: the core, or that of the one module that the statement is listed for |
| `SplitLines.CommentsAboveClass` | scripts/god_class_split.py:409-424 | comments directly above the class stand above its new header |
| `Seams.SeamsExactly` | scripts/god_class_split.py:362-401 | a name that a module's methods use and the module does not provide is declared as a method exactly when the class has such a method, as an attribute otherwise, in name order without repetition |
| `Seams.ForeignIsDeclared` | scripts/god_class_split.py:362-401 | and its declaration stands in the module's file, methods under the TYPE_CHECKING guard |
| `Seams.NewBasesInOrder` | scripts/god_class_split.py:409-424 | the new bases are the mixins in name order and then the old bases |
| `Seams.BeforeExactly` | scripts/god_class_split.py:375-388 | name order is by the first character that differs, a prefix first |
| `SplitFilesFacts.GuardedSeam` | scripts/god_class_split.py:362-401 | seams under the TYPE_CHECKING guard bind nothing and define no class |
| `SplitFilesFacts.ModuleStatements` | scripts/god_class_split.py:466-510 | a module file says its prologue, its members and its mixin with the moved methods |
| `MixinLookup.HostBody` | scripts/god_class_split.py:512-530 | the class keeps exactly the statements that do not move, in order |
| `MixinLookup.MixinDefined` | scripts/god_class_split.py:466-510 | each mixin is defined once, with its seams and moved methods |
| `MixinLookup.LookupAfterSplit` | scripts/god_class_split.py:362-526 | any name gives what it gave before, except that of a moved name a class attribute left behind wins, an unguarded stub in an earlier mixin would win, and a method in a module without a mixin is lost |
| `MixinLookup.LookupPreserved` | scripts/god_class_split.py:427-534 | lookup is preserved for all names exactly when every moved name goes to a mixin and has no class attribute beside it, or has one below it that it was bound to anyway |
| `MixinLookup.EveryMoveIsSafe` | scripts/god_class_split.py:427-534 | without such attributes that means that every method-bearing module has a mixin |
| `MixinLookup.CoreIsEmptiedExactly` | scripts/god_class_split.py:512-526 | the class is left without a body exactly when every statement of it moves |
| `SplitVerify.CollectMethods` | scripts/god_class_split.py:549-567 | all definitions of each method in the class, in mixins and in classes of those names inside any statement |
| `SplitVerify.ScannedExactly` | scripts/god_class_split.py:549-567 | scanned are the class itself and every class whose name ends in "Mixin" |
| `SplitVerify.TopLevelDumps` | scripts/god_class_split.py:570-586 | the last top-level definition of each name |
| `SplitVerify.Verify` | scripts/god_class_split.py:598-644 | reports VERBATIM exactly when each method is defined once and as it was and every other top-level member is unchanged |
| `SplitVerify.TopsSurvive` | scripts/god_class_split.py:570-644 | VERBATIM means that the last top-level definition of every other name stands in a file that is not the package's __init__.py |
| `SplitReport.OthersAreWritten` | scripts/god_class_split.py:549-567 | the methods of other scanned classes in the files are those in the statements that stay, move and are copied |
| `SplitReport.VerifierAcceptsExactly` | scripts/god_class_split.py:427-644 | a well-formed split is reported VERBATIM exactly when for every name no other scanned class defines it and its own definition is seen once, or it is not seen and one other class holds a copy |
| `SplitReport.AcceptableInPlainCases` | scripts/god_class_split.py:427-644 | when every mixin name ends in "Mixin" or no other class is scanned that means: both, no module lists a method twice and the class defines no method twice |
| `SplitExamples.EmptiedClass` | scripts/god_class_split.py:512-526 | a three-method class whose methods all move is left without a body |
| `SplitExamples.SetterIsMismatch` | scripts/god_class_split.py:601-625 | a property with a setter is reported as a mismatch although it stays |
| `SplitExamples.OtherMixinIsMismatch` | scripts/god_class_split.py:559-566 | a top-level class named LogMixin is reported as a mismatch although it stays |
| `SplitExamples.CopyHidesLoss` | scripts/god_class_split.py:559-566 | a lost method goes unreported when LogMixin holds a copy of it |
| `VerbatimLookup.VerbatimPreservesLookup` | scripts/god_class_split.py:598-644 | for any files, VERBATIM with every scanned class that defines the name among the bases means that lookup of the name is preserved |
| `VerbatimLookup.AttributesAreNotCompared` | scripts/god_class_split.py:549-567 | the report does not depend on class attributes other than nested classes |

## Left out

- Regex rubric scoring, prompt rendering and reports of `scripts/audit_prompts.py`.
- Tokenising and parsing Python; statements that span a shared line, such as a one-line class body, whose statement the header rewrite drops.
- Decorated classes and class keywords, which the header rewrite does not re-emit.
- A specification that names the class itself as a member, two modules that write the same file, and assignments to several targets at once.
- How the import prologue, the logger line and the names reached through `self` are found; they are inputs of the split.
- Class bodies that use a moved name while the class is being created; C3 linearisation beyond bases that have no bases of their own.
- ClassSplit.Split: seam and docstring texts stand for the generated ones, and trailing spaces inside a line, which trimming the end of a file can remove, are not modelled.
- Anchoring, remit and self-coverage patterns of findings: any predicates will do.
- Run manifests, timestamps and JSON; a malformed message or a content list that is not one raises in the parser.
- The activity parsers for the other backends; tool arguments that are not text.
- Floating-point rounding of ratios, intervals and dollar sums.
- Process groups, signals, HTTP, launchd, git and GitHub calls; failures to write a marker, hook or settings file.
- The stale-boot and credit classifications themselves, beyond the counter that the watchdog persists.
- Repeated merges of the whole tree, whose manifest lists chained user hooks and so unlinks them; the fresh-install path that copies the settings file.
- HookCycle.CycleOfHook: excludes hook names that contain the end marker, for which `HookChain.ChainIdempotentExactly` shows that chaining is not stable.
- The installed `hf-` copies, which cleaning removes by way of the manifest.
- Identifiability.Calibrate: covers the identifiability part of the report; demand anchoring, pinned-demand overlap, scores, windows and per-source summaries are sums over the corpus that other parts do not depend on.
- Judge scores, installers, probes, migrations, sharding and the remaining scripts.
