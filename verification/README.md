# A verified model of the policy verifier

This project models, in Dafny, the parts of `auth.policy-verifier` whose correctness is
hardest to see by reading them, and proves what the code and its documentation promise of
them. `dafny verify dfyconfig.toml` checks all of it.

| files | what they model |
|---|---|
| `Shutdown.dfy`, `ShutdownTimes.dfy` | graceful shutdown: signals, drain deadline, close callback, cleanup and its timer; when the timers fire, and what is logged |
| `Evaluate.dfy`, `EvaluateLaws.dfy`, `EvaluateFailures.dfy`, `Arrangements.dfy`, `EvaluateOrder.dfy` | the decision engine: grouping, early exit, restricting rules, explanations; budgets and failures; order |
| `Collectors.dfy` | the bounded collector runner, as a scheduler of lanes over a shared cursor |
| `Merge.dfy` | the merge of attribute maps |
| `ReadBack.dfy`, `ReadBackRuns.dfy`, `ReadBackHistories.dfy` | the read-back of cedar-agent's policy set, its runs against an agent and an environment, and what its timers and counters stand for over them |
| `Utf8.dfy`, `Revision.dfy` | what a policy set's revision digests, from UTF-16 code units to bytes |
| `Segments.dfy`, `ResourceParser.dfy`, `DelegationRange.dfy` | the two dotted grammars, and containment of delegation ranges |
| `DelegatedToken.dfy` | the delegation-range collectors and rule, composed with the decision engine |
| `HasPermission.dfy` | wildcard permissions, directly or through roles |
| `PosixPath.dfy`, `ConfigPath.dfy` | POSIX path resolution, and the guard on the environment's overlay |
| `Args.dfy`, `Names.dfy` | the scaffolder's arguments, names and target directory |
| `Template.dfy`, `Manifest.dfy` | the pruned template copies, and the rewrite of `package.json` |
| `Text.dfy`, `JsonValues.dfy` | shared: splitting and joining, values of unknown shape |

## How it is modelled

- A protocol is a pure `Step` over a `State`. Beside it stands the class the source has, whose
  methods change fields one callback at a time and are proved to take its `View()` through
  exactly that `Step`; the results are then proved of every run of `Step`. A loop is a method
  proved equal to a function of its inputs, or to the property itself, and the results are
  proved of that function.
- **Shutdown.** The clock is discrete. Assumed of the environment: `server.close` calls back at
  most once, and not from inside `closeAllConnections()`; the event loop stays alive until the
  (unref'd) timers fire; signals after the handlers are removed belong to the runtime. A cleanup
  that throws and one that rejects are one event. "In time" means before the timer fired.
- **Evaluation.** The attribute map is fixed for one decision, so a rule is what it replies and
  how long that takes. Answering exactly when a budget ends counts as overrunning it.
- **Collectors.** Events are a collector's settling, a lane going on after its `await`, the
  timers, the caller's signal, and the `await` of all lanes settling. Between a rejection and
  its handling a lane that stores a result may still start the next collector: the code allows
  it and `StartsExactlyWhen` says when.
- **Read-back.** The environment changes the agent's set at any moment. An accepted push leaves
  the agent holding its own copy, under the ids pushed. A read reaches the agent's set as it is
  at that moment, or is unverifiable, or reaches nothing. Random draws are arguments.
- **Revision.** A string is a sequence of UTF-16 code units; SHA-256 is left opaque, and what is
  hashed is proved to tell policy sets apart, under the source's header and any other.
- Everywhere else a string is a sequence of Unicode scalar values.
- Lemmas carry `{:induction false}`: what a proof rests on is in its body.

Where the code and its documentation disagree, the code is modelled:

- `packages/builtins/README.md:164` says a grant with more than one `*` never matches. The code
  compares for equality first (`HasPermission.mts:77`), so it matches its own text and nothing
  else: `HasPermission.TwoStarsMatchOnlyTheirText`.
- The revision is documented as injective over names and texts. An unpaired surrogate is hashed as
  U+FFFD, so two lists given to `computePolicyRevision`, or two inline sets, that differ only there
  share a revision; `Revision.PreimageIdentifiesExactly` gives the exact condition, and
  `Revision.ALoneSurrogateIsNotTold` two such sets. Files read from a directory are decoded, hence
  well-formed, and are told apart: `Revision.WellFormedListsAreTold`.

One property that could be expected of the engine does not hold: that permuting the collected
rules never changes what is allowed. Two orders that both decide, decide alike, but whether a
list is decided can depend on its order: a rule that throws behind one that passes is never asked
(`EvaluateLaws.ARaisingRuleDependsOnOrder`), and an alternative asked too early can carry an
asynchronous rule past the deadline (`EvaluateOrder.TheDeadlineDependsOnOrder`).
`EvaluateOrder.OrderNeverMattersExactlyWhen` gives the exact condition, for every list: no order
can be allowed, or every one can.

## Model

| member | source | states |
|---|---|---|
| `Shutdown.RunRefinesSequential` | templates/standalone/src/shutdown.ts:100-184 | in every interleaving of signals, deadline, close, cleanup and its timer, the exit code, the completion line, the number of exits and of cleanups, and whether connections were cut are those of the sequential specification, which depends only on which drain outcome came first and how the cleanup first ended |
| `Shutdown.CleanExit` | templates/standalone/src/shutdown.ts:119-184 | the process exits 0 exactly when close succeeded before the deadline and the cleanup, if any, ended without error before its timer; then and only then the reason logged is "drained"; it exits and completes at most once |
| `Shutdown.LateEventsChangeNothing` | templates/standalone/src/shutdown.ts:120-122 | after the exit no event of any kind exits, logs a completion or cleans up again |
| `Shutdown.NoDeadlineAfterClose` | templates/standalone/src/shutdown.ts:154-167 | in no run does the deadline act after the close callback |
| `Shutdown.ShutdownIsBounded` | templates/standalone/src/shutdown.ts:42-48 | with timers served when due, a shutdown that has not exited is within the drain budget plus the cleanup budget of the first signal |
| `Shutdown.DefaultedBoundIsTwiceTheDrain` | templates/standalone/src/shutdown.ts:87 | with the cleanup budget defaulted, it has exited once twice the drain budget is past |
| `Shutdown.EveryCallbackSpendsOne` | templates/standalone/src/shutdown.ts:89-184 | every callback but a repeated signal lowers a measure, so no run calls back forever |
| `Shutdown.ClockAloneExits` | templates/standalone/src/shutdown.ts:100-117 | from any point after the first signal, at most four clock and timer events, each possible and punctual, bring exactly one exit within the two budgets, though close and cleanup hang |
| `ShutdownTimes.DeadlineKeepsItsBudget` | templates/standalone/src/shutdown.ts:154-161 | in every run the drain deadline can fire exactly while the drain is undecided and the clock is the drain budget, the one given or ten seconds, past the first signal: no sooner, and at once then |
| `ShutdownTimes.CleanupKeepsItsBudget` | templates/standalone/src/shutdown.ts:87-117 | in every run the cleanup timer can fire exactly while a cleanup is awaited and the clock is the cleanup budget, the one given or the drain's, past the moment the drain was decided |
| `ShutdownTimes.CleanupInTimeExitsClean` | templates/standalone/src/shutdown.ts:100-184 | a server that closes without error within the drain budget of the first signal, and a cleanup that settles without error within its own of that, exit 0, whatever else happens |
| `ShutdownTimes.CallbacksComeExactlyWhen` | templates/standalone/src/shutdown.ts:100-184 | signals and the clock can always come; close calls back exactly once after the first signal, and the cleanup settles exactly once after the decision that began it |
| `ShutdownTimes.EveryEventLogs` | templates/standalone/src/shutdown.ts:119-184 | the lines every callback of every run logs, and no others: draining once, the deadline, a failed close however late, a cleanup that failed or timed out while awaited, and the completion with its reason, drain and code |
| `Shutdown.GracefulShutdown.Handler` | templates/standalone/src/shutdown.ts:148-184 | the first signal begins draining and arms the deadline; a later one changes nothing |
| `Shutdown.GracefulShutdown.OnDeadline` | templates/standalone/src/shutdown.ts:154-161 | the deadline callback takes the state through its step: cut the connections, then finish with 1 |
| `Shutdown.GracefulShutdown.OnClosed` | templates/standalone/src/shutdown.ts:166-179 | the close callback clears the deadline, then finishes with 0 or, on an error, 1 |
| `Shutdown.GracefulShutdown.FinishWith` | templates/standalone/src/shutdown.ts:120-146 | the first caller decides code and reason and begins the cleanup, its timer set to its budget (`ShutdownTimes.CleanupKeepsItsBudget`); later callers change nothing |
| `Shutdown.GracefulShutdown.OnCleanupSettled` | templates/standalone/src/shutdown.ts:100-146 | a cleanup that settles while awaited completes the shutdown, as failed if it failed; a late one is ignored |
| `Shutdown.GracefulShutdown.OnCleanupTimer` | templates/standalone/src/shutdown.ts:109-134 | the cleanup timer, while awaited, completes the shutdown with 1 as timed out |
| `Evaluate.Evaluate` | packages/core/src/evaluate.mts:123-170 | the loops return exactly the decision's loop-free meaning: which budget is unusable, which group mixes, the default deny, the first rule in trouble in asking order, or the verdict with its explanation; when it is each, and under which bounds, is stated over the rules and options themselves by `EvaluateLaws` and `EvaluateFailures` |
| `Evaluate.EvaluateGroup` | packages/core/src/evaluate.mts:233-262 | one group is asked up to its first pass, each rule at the time the ones before it left, and reports exactly those |
| `Evaluate.AskRule` | packages/core/src/evaluate.mts:274-371 | one rule answers, or fails by raising, by answering no boolean, or by overrunning its own budget or the phase's, started or not |
| `Evaluate.GroupBy` | packages/core/src/evaluate.mts:138-139 | the loop over rules and groups computes the grouping whose properties the next two rows state |
| `Evaluate.GroupsAreGrouped` | packages/core/src/evaluate.mts:77-81 | no type has two groups, every rule's type has one, and each group holds exactly that type's rules, in collection order |
| `EvaluateLaws.GroupsStandInOrder` | packages/core/src/evaluate.mts:95-97 | groups stand in the order their types were first collected |
| `Evaluate.RestrictingGroups` | packages/core/src/evaluate.mts:180-200 | finds the restricting groups and the first group that mixes the kinds, if any |
| `Evaluate.Conclude` | packages/core/src/evaluate.mts:203-216 | allows when every outcome passed, otherwise denies in the name of the first that did not, with its first alternative's code and message |
| `EvaluateLaws.AllowsIff` | packages/core/src/evaluate.mts:77-91 | allowed exactly when the bounds are usable, no type mixes kinds, a granting rule applied or an empty set is allowed, every type holds a passing rule, and no rule that is asked gets into trouble |
| `EvaluateLaws.VerdictIff` | packages/core/README.md:46-48 | of a decision: allow exactly when a grant applied (or the opt-out is set) and every type passes |
| `EvaluateLaws.ExplanationIsExact` | packages/core/README.md:50 | every group reported lists exactly the rules it ran, in order: all of them, or a shortest prefix ending at the first pass, which alone is `satisfiedBy` |
| `EvaluateLaws.EveryTypeIsExplainedOnce` | packages/core/README.md:50 | every collected type is reported, and once |
| `EvaluateLaws.DenyNamesFirstFailingGroup` | packages/core/src/evaluate.mts:202-216 | a deny is `no_applicable_rule` with nothing asked exactly when no grant applied under the deny setting; any other carries the code and message of the first alternative of the first failing group |
| `EvaluateLaws.AllowedAnswersAreInTime` | packages/core/src/evaluate.mts:301-371 | no allow rests on an asynchronous answer past its own budget, as configured or 2000 ms, or past the deadline of the phase, as configured or 5000 ms |
| `EvaluateFailures.ConfiguredBudgetsApply` | packages/core/src/evaluate.mts:128-135 | one granting asynchronous rule that answers `true` is allowed exactly when both bounds, as configured or 2000 and 5000 ms, are positive timer delays and its answer comes within both |
| `EvaluateFailures.UnusableBoundsAreRefused` | packages/core/src/evaluate.mts:119-129 | a bound that is no positive timer delay fails the decision, before anything else; the rule's own is looked at first |
| `EvaluateFailures.MixesAreRefused` | packages/core/src/evaluate.mts:172-200 | a list fails as mixed exactly when some type has rules of both kinds, and names the first such type collected, with the code of its first rule |
| `EvaluateFailures.FailsExactlyWhen` | packages/core/src/evaluate.mts:264-371 | past those checks a decision fails, and so, exactly when a rule it asks is not started in time, overruns the shorter of its budget and what is left of the deadline, raises, or answers no boolean, and every rule asked before it answered in time |
| `EvaluateFailures.WhatIsAskedIsReported` | packages/core/README.md:50 | the rules asked, in their order, are those the explanation reports, each with its code, message and answer |
| `EvaluateLaws.RestrictingGroupOnlyNarrows` | docs/extending.md:45 | wherever in the list a whole restricting group was collected, taking it away keeps every allow: adding it never makes one |
| `EvaluateLaws.FailingRestrictionDenies` | docs/extending.md:45 | a type none of whose rules passes denies, whatever the rest would say |
| `EvaluateLaws.RestrictionIsAConjunct` | docs/extending.md:45 | a restricting group of synchronous rules, whatever time they take, is a conjunct but for that time: allowed means allowed without it, passed by it, and no asynchronous rule that is asked carried past the phase's deadline |
| `EvaluateLaws.InstantRestrictionIsAConjunct` | docs/extending.md:45 | when its rules take no time it is a conjunct outright |
| `EvaluateLaws.OrderDoesNotChangeTheVerdict` | packages/core/src/evaluate.mts:77-81 | two orders of one list that both decide, decide the same way |
| `EvaluateLaws.DependableRulesDecideInAnyOrder` | packages/core/src/evaluate.mts:99-101 | synchronous rules that answer booleans, kinds apart, are decided in every order, with one verdict |
| `EvaluateLaws.ARaisingRuleDependsOnOrder` | packages/core/src/evaluate.mts:97-98 | two orders of two rules, one of which throws: one allows, the other fails |
| `EvaluateOrder.SomeOrderAllowsExactlyWhen` | packages/core/src/evaluate.mts:93-101 | for every list and options: some order is allowed exactly when the bounds are usable, kinds are apart, there is a reason to allow, every type has a rule that passes in time by itself, and over the types no synchronous rule can satisfy, the quickest such rules together take less than the phase's deadline |
| `EvaluateOrder.EveryOrderAllowsExactlyWhen` | packages/core/src/evaluate.mts:93-101 | every order is allowed exactly when, besides, no rule throws, answers no boolean or overruns its budget, and no asynchronous rule can end at the deadline or later, asked after every other type's failing rules and slowest pass and its own type's failing rules |
| `EvaluateOrder.OrderNeverMattersExactlyWhen` | packages/core/src/evaluate.mts:93-101 | for every list and options: all orders are allowed alike exactly when none can be allowed or every one can, in those terms |
| `EvaluateOrder.TheDeadlineDependsOnOrder` | packages/core/src/evaluate.mts:301-335 | under the default budgets, an asynchronous rule that passes in 1000 ms is allowed before three that fail in 1900 ms each, and not after them |
| `EvaluateOrder.AllowedMeetsIt` | packages/core/src/evaluate.mts:93-101 | whatever is allowed has, in every type, a rule that passes in time by itself, and spent less than the deadline on the types that need asynchronous ones |
| `EvaluateOrder.BestOrderAllows` | packages/core/src/evaluate.mts:93-101 | under the condition an order that is allowed is given: the best rule of each type first, asynchronous types before the others |
| `Collectors.NeverMoreThanTheLimit` | packages/core/src/collectorLimits.mts:259-289 | in every run at most `concurrency` collectors are in flight, and they start in collector order, each at most once; that no fewer are, while there is work, is `Collectors.TheLimitIsUsed` |
| `Collectors.TheLimitIsUsed` | packages/core/src/collectorLimits.mts:285-289 | while no lane has failed the collectors in flight are exactly as many as the limit, or all that have no result yet where they are fewer |
| `Collectors.TheFirstStartAtOnce` | packages/core/src/collectorLimits.mts:285-289 | with the caller still there, the first collectors, as many as the limit or all of them, are started at once, and no other |
| `Collectors.EndedByTheFirst` | packages/core/src/collectorLimits.mts:232-302 | a fan-out is ended by the first of the caller having left, the deadline, and a failure being handled, and by nothing else, and what was running then is lost for that reason |
| `Collectors.NoneStartedOnceLost` | packages/core/src/collectorLimits.mts:330-338 | once the fan-out is aborted no collector starts, and none is left running |
| `Collectors.StartsExactlyWhen` | packages/core/src/collectorLimits.mts:270-283 | a turn starts a collector exactly when a lane stores a result, the fan-out is not aborted and the cursor is not at the end |
| `Collectors.AThirdStartsAfterAFailure` | packages/core/src/collectorLimits.mts:285-297 | a run, legal to the end: of three collectors under a limit of two the first has failed, the await has not handled it, and the second's lane starts the third |
| `Collectors.NeverPartial` | packages/core/src/collectorLimits.mts:224-303 | an answer is every collector's own result in collector order, with no hole in the array, or the failure of the first lane that failed, which an event of the run caused |
| `Collectors.LanesDoneMeansStored` | packages/core/src/collectorLimits.mts:259-290 | once every lane has run out of collectors and none failed, every result has been stored |
| `Collectors.LostForOneOfTwoReasons` | packages/core/src/collectorLimits.mts:340-376 | in every run a collector's race is lost for its own throw or timeout, or for the reason the fan-out was aborted with |
| `Collectors.UndisturbedReturns` | packages/core/src/collectorLimits.mts:285-290 | when nothing fails, the lanes' settling returns the results |
| `Collectors.AnswerStands` | packages/core/src/collectorLimits.mts:291-302 | however a run goes on after its answer, the answer is the same |
| `Collectors.NeverStuck` | packages/core/src/collectorLimits.mts:285-303 | while there is no answer a collector can time out, a lane can go on, or the lanes can settle, and settling answers |
| `Collectors.EveryTurnIsProgress` | packages/core/src/collectorLimits.mts:270-283 | every settling, timeout and resumed lane lowers the work left |
| `Collectors.CollectorRunner.LaneContinues` | packages/core/src/collectorLimits.mts:270-283 | a lane that goes on stores its result and pulls the next collector, or rejects, as the step says |
| `Collectors.CollectorRunner.AbortFanOut` | packages/core/src/collectorLimits.mts:240-257 | an abort cancels every collector running and keeps its first reason |
| `Collectors.CollectorRunner.AwaitSettles` | packages/core/src/collectorLimits.mts:285-303 | settling returns all results or fails with the first rejection, aborting the rest |
| `Merge.MergeMap` | packages/core/src/AttributePipeline.mts:86-100 | one map written over the others: every key holds the last scalar and the arrays since, or the first scalar that disagrees is named |
| `Merge.MergeMaps` | packages/core/src/AttributePipeline.mts:82-106 | the merge fails exactly when some key was written two different scalars, naming such a key; otherwise every key holds its final value and no other key does |
| `Merge.ArraysUnite` | packages/core/README.md:58 | a key only arrays were written to holds them all, concatenated in collector order |
| `Merge.ScalarsStand` | packages/core/README.md:58 | a key only equal scalars were written to holds that scalar |
| `ReadBack.AgentPolicySetOf` | packages/cedar/src/agentReadBack.mts:85-97 | a list of policies, no id twice, becomes the set that holds exactly them; a body that is no list, or any other list, is no set |
| `ReadBack.SameAgentSet` | packages/cedar/src/agentReadBack.mts:100-104 | comparing sizes, then each entry one way, decides equality of the sets |
| `ReadBack.NoDifferenceIsTheSameSet` | packages/cedar/src/agentReadBack.mts:328-338 | the counts changed, missing and added are all zero exactly for the set that was pushed |
| `ReadBack.OneTamperingIsCounted` | packages/cedar/src/agentReadBack.mts:328-338 | one policy rewritten, taken out or put in counts as changed, missing or added, and as nothing else |
| `ReadBack.DifferenceAccountsForBoth` | packages/cedar/src/agentReadBack.mts:328-338 | the policies of the one set that are not missing, and those of the other that are not added, are the same ones |
| `ReadBack.ConcludeKeepsValid` | packages/cedar/src/agentReadBack.mts:201-277 | every way a check can end keeps the bookkeeping: waits within bounds, counted calls no more than answered, pushing only while refusing as altered |
| `ReadBack.AgentReadBack.RefuseAs` | packages/cedar/src/agentReadBack.mts:182-189 | a refusal of a new kind begins a generation; the same kind again changes nothing |
| `ReadBack.AgentReadBack.StartDueCheck` | packages/cedar/src/agentReadBack.mts:292-298 | a check starts exactly when none is out and the wait has passed |
| `ReadBack.AgentReadBack.ReadIsIn` | packages/cedar/src/agentReadBack.mts:201-259 | the check ends as its read says: refuse, lift, or push again |
| `ReadBack.AgentReadBack.PushIsIn` | packages/cedar/src/agentReadBack.mts:264-277 | a push that lands replaces the baseline and lifts the refusal; one that fails leaves both |
| `ReadBack.AgentReadBack.FinishCheck` | packages/cedar/src/agentReadBack.mts:311-321 | the back-off goes on while refusing and starts over otherwise, and a wait is drawn; how long either lasts is `ReadBackHistories.RechecksBackOff` and `WaitsAreDrawnAnew` |
| `ReadBackRuns.UsedIffNeverRefusing` | packages/cedar/src/httpEngine.mts:286-326 | in every run, the answer to a call is used exactly when no refusal was in force from its asking to its arrival |
| `ReadBackRuns.LateAnswersAreRefused` | packages/cedar/README.md:427-429 | an answer out while a check found a difference is not used, though the set was restored before it came |
| `ReadBackRuns.TurnsExactlyWhen` | packages/cedar/src/agentReadBack.mts:201-277 | in every run a refusal begins exactly at a check that found another set, one that cannot be compared, or none from an agent that answered calls, and is of that kind; a push exactly at one that read an empty set; answers resume exactly at one that read this load's set or a push that landed; and what is compared with changes to the copy of such a push, and never otherwise |
| `ReadBackRuns.RefusedSinceADifference` | packages/cedar/README.md:419-439 | whenever answers are refused, a check of the run found a difference, and they have been refused ever since |
| `ReadBackRuns.PushesOnlyIntoAnAgentReadAsEmpty` | packages/cedar/README.md:430-439 | whenever a push is under way, the check that began it had itself read the agent as empty, and nothing but that push has gone on since |
| `ReadBackRuns.ResumesOnlyOnThePushedCopy` | packages/cedar/README.md:430-439 | when answers resume, the agent was seen, with answers refused from then until now, to hold exactly the copy that is compared with from then on: by the read of the very check that lifts the refusal, or by landing the push that does |
| `ReadBackRuns.ChangedSetIsCheckedWithinAnInterval` | packages/cedar/README.md:399-409 | with the agent's set changed and reads of it getting through, no answer asked an interval or more later goes ahead without a refusal in force or a check out |
| `ReadBackRuns.BlockedReadIsWatchedAfterAnAnswer` | packages/cedar/README.md:399-409 | with reads blocked or not, the same holds an interval after the first of the agent's answers that is used |
| `ReadBackRuns.BlockedReadIsWatchedWithinTwoIntervals` | packages/cedar/README.md:405-408 | and so two intervals after the change, when an answer was used in the first |
| `ReadBackRuns.BlockedReadRefuses` | packages/cedar/README.md:453-457 | a check begun after that answer refuses when it concludes, blocked or not, and answers stay refused for as long as the change does |
| `ReadBackRuns.ChangedSetStaysRefused` | packages/cedar/README.md:419-439 | a check begun after the change refuses when it concludes, and answers stay refused for as long as the change does |
| `ReadBackRuns.ChecksAreSpaced` | packages/cedar/README.md:399-418 | checks begin only behind a call, half an interval apart or more, while refusing a second or more; and a call that comes an interval or more after the last check began, with none out, begins one |
| `ReadBackHistories.RechecksBackOff` | packages/cedar/README.md:414-417 | in one unbroken refusal a call that finds no check out begins one exactly when a second, doubled once for each re-check begun since the refusal, or the interval if that is less, has passed since the last check began; so a new refusal starts at a second |
| `ReadBackHistories.WaitsAreDrawnAnew` | packages/cedar/src/agentReadBack.mts:151-166 | while answers are not refused, a call that finds no check out begins one exactly when the share of the interval drawn at the end of the last check, from half to all of it, has passed since that began |
| `ReadBackHistories.CreatedBeginsARun` | packages/cedar/src/agentReadBack.mts:148-179 | a read-back just created begins a run: nothing refused, nothing counted, and the first check due a drawn share of the interval later |
| `ReadBackHistories.UnreachableRefusesExactlyWhen` | packages/cedar/README.md:405-409 | a check that reached nothing refuses exactly when the agent answered a call since the last answer accounted for: up to the beginning of the last check that got through, the end of the last that did not, or the lifting of a refusal |
| `ReadBackHistories.GenerationCountsRefusals` | packages/cedar/src/agentReadBack.mts:182-189 | the generation is the number of refusals begun, a change of kind being a new one |
| `ReadBackHistories.CallsAreOutExactlyWhile` | packages/cedar/src/httpEngine.mts:286-326 | a call is made exactly when nothing is refused as it is asked, is out until its answer or failure, and an answer once used stays used |
| `ReadBackHistories.EmptiedAgentIsRestored` | packages/cedar/README.md:430-439 | from any state with no check out: when the agent loses its set, the call an interval later begins a check that reads it, refuses and pushes, and with the push landed the next call is answered from it |
| `ReadBackHistories.AFailedPushKeepsRefusing` | packages/cedar/src/agentReadBack.mts:264-275 | when that push fails, answers stay refused and what is compared with stays the same |
| `ReadBackHistories.LateAnswersAreRefusedForTheLast` | packages/cedar/src/agentReadBack.mts:286-288 | an answer is refused for the refusal in force, or the last that was while its call was out, and not at all if there was none |
| `Utf8.ToThenFrom` | packages/cedar/src/policySource.mts:83-85 | a string comes back from the scalars it is encoded as exactly when its surrogates are paired |
| `Utf8.IdentifiedExactlyWhen` | packages/cedar/src/policySource.mts:75-85 | a string is told from every other by its encoding exactly when its surrogates are paired and it holds no U+FFFD |
| `Utf8.DecodeEncode` | packages/cedar/src/policySource.mts:53-60 | UTF-8 bytes of any scalars decode to those scalars |
| `Utf8.EncodesShortest` | packages/cedar/src/policySource.mts:53-60 | a scalar takes the fewest bytes that hold it, a lead byte and continuation bytes |
| `Utf8.BytesConcat` | packages/cedar/src/policySource.mts:76-79 | strings joined where no surrogate pair is made have their bytes joined |
| `Revision.ComputePreimage` | packages/cedar/src/policySource.mts:75-81 | the loop of updates hashes the header, then each file's two netstrings, in load order |
| `Revision.NetstringBytes` | packages/cedar/src/policySource.mts:83-85 | the frame, encoded as one string, is the decimal byte length, a colon, the value's own bytes and a comma |
| `Revision.DecimalIsTheNumber` | packages/cedar/src/policySource.mts:83-85 | a length is written as the number it is, with no zero before it |
| `Revision.ReadsPreimage` | packages/cedar/README.md:286-295 | a decoder recovers from a preimage every name and text, in order, whatever digits, colons and commas they hold |
| `Revision.SamePreimageIffSameContents` | packages/cedar/README.md:302-313 | two lists have one preimage exactly when they have the same names and texts, as scalars, in the same order |
| `Revision.PreimageIdentifiesExactly` | packages/cedar/src/policySource.mts:62-69 | the preimage tells a list from every other exactly when no name or text holds a lone surrogate or U+FFFD |
| `Revision.WellFormedListsAreTold` | packages/cedar/src/policySource.mts:62-69 | two lists of well-formed names and texts, as decoding files gives, have one preimage exactly when they are one list, U+FFFD in them or not |
| `Revision.ALoneSurrogateIsNotTold` | packages/cedar/src/policySource.mts:66-69 | two different inline sets, one with a lone surrogate where the other has U+FFFD, share a preimage |
| `Revision.ConcatenationIsNotInjective` | packages/cedar/src/policySource.mts:64-66 | "X\n" with "Y", and "X" with "\nY", are one concatenation and two preimages |
| `ResourceParser.AcceptsExactlyTheGrammar` | packages/builtins/src/resource/DotNotationResourceParser.mts:74-87 | a string parses to a list of segments exactly when the list is in the grammar and the string is its printing |
| `ResourceParser.TokenCharactersAre` | packages/builtins/src/resource/DotNotationResourceParser.mts:14-21 | types and ids are of printable ASCII except the space, the quotation mark, the full stop, the colon and the backslash |
| `ResourceParser.PrintingIsInjective` | packages/builtins/README.md:325-342 | no two segment lists of the grammar print alike |
| `ResourceParser.RefusalNamesTheFirst` | packages/builtins/src/resource/DotNotationResourceParser.mts:76 | a refusal names the first part that is no segment, counted from 1, with its own reason |
| `ResourceParser.ReasonByShape` | packages/builtins/src/resource/DotNotationResourceParser.mts:90-120 | which of the reasons a part without a second colon is refused for, and when it is accepted |
| `ResourceParser.SecondColonIsRefused` | packages/builtins/src/resource/DotNotationResourceParser.mts:91-97 | a part with two colons or more is refused as such, whatever stands around them |
| `ResourceParser.TypesAreInjective` | packages/builtins/src/resource/DotNotationResourceParser.mts:56-58 | accepted strings share a `resourceType` exactly when their types are the same, in order |
| `ResourceParser.ResourceOf` | packages/builtins/src/resource/DotNotationResourceParser.mts:78-85 | every printed list of segments parses to the string as written, its types joined, and the last id |
| `DelegationRange.ParseRangePath` | packages/builtins/src/delegation/range.mts:39-56 | the loop computes the parse, part by part, or refuses |
| `DelegationRange.ParsesExactlyTheGrammar` | packages/builtins/src/delegation/range.mts:30-38 | a string parses to elements exactly when they form `(type(:id)?.)*action` and it is their printing |
| `DelegationRange.NamesAndIds` | packages/builtins/src/delegation/range.mts:25-28 | a name is a lower-case letter, then those, digits and underscores; an id is a run of unreserved characters and percent signs with two upper-case hex digits |
| `DelegationRange.RangeContains` | packages/builtins/src/delegation/range.mts:77-86 | the loop decides containment: both parse, and the entry is a segment-wise prefix, an id-less element containing any id |
| `DelegationRange.ContainsOnTheText` | packages/builtins/README.md:124 | on the text: both are in the grammar, and each part of the entry between dots is the path's part there, or that part's type without its id |
| `DelegationRange.ContainsAntisymmetric` | packages/builtins/README.md:124 | two entries that contain each other are the same string |
| `DelegationRange.ContainsTransitive` | packages/builtins/README.md:124 | containment is transitive, through elements without ids too |
| `DelegationRange.ContainsIsInclusion` | packages/builtins/README.md:124 | an entry contains another exactly when it contains everything the other does |
| `DelegationRange.RequestedPathIsResourceThenAction` | packages/builtins/src/delegation/range.mts:58-67 | with an action of one element the requested path parses to the resource's elements then exactly the action; with any other there is no path |
| `DelegationRange.RequestsAreTold` | packages/builtins/src/delegation/range.mts:58-67 | no two requests are one path |
| `DelegationRange.UncheckedActionsAreConfused` | packages/builtins/src/delegation/range.mts:58-64 | joined unchecked, an action of several elements on a parent is an action on its child, and such an action is refused |
| `DelegationRange.RangeGrammarIsDotNotation` | packages/builtins/README.md:143-145 | a resource a range can allow is parsed by the dot notation into the very elements the range was compared with |
| `DelegatedToken.HasRangeExactlyWhen` | packages/builtins/src/delegation/range.mts:88-101 | a token has a range unless the claim is absent or a list of entry objects none of which is of the type |
| `DelegatedToken.VerifyRange` | packages/builtins/src/rules/WithinDelegationRange.mts:37-43 | the rule decides whether some string under the attribute contains the path, whatever else is there |
| `DelegatedToken.RangeIsEnforcedExactly` | packages/builtins/README.md:142-143 | with the pair configured alike, the rule passes exactly when the claim is a list of entry objects, the action is one action, and an entry of the type contains the request: leaving out unreadable paths loses nothing |
| `DelegatedToken.ConfiguredApart` | packages/builtins/README.md:144 | configured for two types, the pair denies where only the rule collector finds entries, and emits no rule where only the other does |
| `DelegatedToken.TakenInOrder` | packages/builtins/src/delegation/range.mts:96-101 | entries of the type, and the paths read from them, are taken in the claim's order |
| `DelegatedToken.OutsideTheRangeIsSaid` | packages/builtins/src/rules/WithinDelegationRange.mts:21-43 | where the rule alone was collected and fails, the deny is `outside_delegation_range`, with its message |
| `DelegatedToken.DelegatedRequestIsAllowedByBoth` | packages/builtins/README.md:143 | wherever the rule is collected, a delegated request is allowed exactly when the policies alone allow it, an entry of the token contains it, and the time the rule takes carries no asynchronous rule past the deadline — the last only if it takes any |
| `HasPermission.OneStarMatchesItsLanguage` | packages/builtins/src/rules/HasPermission.mts:75-97 | a grant with one `*` matches exactly its prefix, then anything or nothing, then its suffix |
| `HasPermission.OtherGrantsMatchThemselves` | packages/builtins/src/rules/HasPermission.mts:75-84 | a grant with no `*`, or more than one, matches its own text and nothing else |
| `HasPermission.EveryGrantIsDecided` | packages/builtins/src/rules/HasPermission.mts:86 | a grant has one `*` exactly when it has two halves, and then one pair of them |
| `HasPermission.OverlappingHalvesDoNotMatch` | packages/builtins/src/rules/HasPermission.mts:40-44 | halves that would share characters of the required permission do not match it, though it starts and ends with them |
| `HasPermission.TwoStarsMatchOnlyTheirText` | packages/builtins/src/rules/HasPermission.mts:77-84 | a grant with a second `*` matches exactly its own text |
| `HasPermission.PassesExactlyWhenAHeldGrantMatches` | packages/builtins/src/rules/HasPermission.mts:55-73 | over attributes of any shape, the rule passes exactly when a string listed directly or by a listed role matches |
| `PosixPath.ResolveIsIdempotent` | templates/standalone/src/configPath.ts:12 | a resolved path is absolute and resolves to itself from anywhere |
| `PosixPath.InAndOutAgain` | templates/standalone/src/configPath.ts:12-14 | a relative path that goes into a directory and out of it again resolves as the rest of it |
| `PosixPath.RelativeLeadsThere` | create-app/src/index.mts:37 | going the relative path from one directory leads to the other |
| `PosixPath.DirnameDropsLast` | templates/standalone/src/configPath.ts:15 | the directory of a normalized path is the path without its last segment |
| `PosixPath.SlashesOfDirname` | templates/standalone/src/configPath.ts:15 | a trailing slash is no part of a path, and two leading slashes alone are a root of their own |
| `ConfigPath.AcceptsExactlyWhatStaysInside` | templates/standalone/src/configPath.ts:11-21 | every name is refused, or gives the normalized config directory plus exactly one segment ending in `.conf`; accepted exactly when the segments before the last lead back to that directory |
| `ConfigPath.PlainNamesAreAccepted` | templates/standalone/src/configPath.ts:14-20 | a name without a slash is accepted, dots and all, as the file of that name |
| `ConfigPath.SteppingUpIsRefused` | templates/standalone/src/configPath.ts:15-19 | a name that steps up and then names a file is refused, except from the root |
| `Args.ParseArgs` | create-app/src/index.mts:180-212 | the index-skipping loop computes the fold over the items of the argument list |
| `Args.ItemsAreWritten` | create-app/src/index.mts:186-206 | every argument list decomposes into items that write it back |
| `Args.WrittenAreItems` | create-app/src/index.mts:186-206 | and into no others: `--dir` takes the next argument, whatever it is |
| `Args.FlagsAreRead` | create-app/src/index.mts:187-203 | `--dir` with and without its value, `--dir=` and `--no-lockfile`, as they are written |
| `Args.AcceptsExactly` | create-app/src/index.mts:180-212 | accepted, as this record, exactly with one name, one directory at most, no `--dir` without its value and no unknown flag |
| `Args.ErrorsAreExplained` | create-app/src/index.mts:188-209 | every error is that of the first item that cannot follow those before it, or of the number of names |
| `Args.OrderDoesNotMatter` | create-app/src/index.mts:180-212 | items in another order are accepted as the same record, or refused too |
| `Args.WrittenRecordIsReadBack` | create-app/src/index.mts:200-211 | a record written as arguments is read back as itself exactly when its name does not begin with a dash |
| `Names.DerivedNameIsValid` | create-app/src/index.mts:214-227 | for a valid name and a valid or absent directory, the directory name is the one given, or the package part, or the name, and always valid |
| `Names.ValidExactlyWhen` | create-app/src/index.mts:42-56 | a project name is valid exactly when it has at most 214 characters and is a package name, with or without one scope; a directory name when it is one without |
| `Names.DeriveThrowsExactlyWhen` | create-app/src/index.mts:216-223 | unvalidated, it throws exactly for a name that begins with `@` and has no slash, or nothing between its first slash and the next |
| `Names.RunMain` | create-app/src/index.mts:234-273 | every outcome has its reason: a usage error is that of the arguments, an invalid name or directory is one, what is reported as existing exists and is the child asked for, and what is scaffolded is that child, not existing, with the record's own name and lockfile; the invariant is never reached |
| `Names.ScaffoldsOnlyADirectChild` | create-app/src/index.mts:250-273 | arguments accepted with valid names scaffold into the working directory's direct child named by `--dir`, or else by the name, or by what follows its scope — one name, a plain segment — unless that exists |
| `Template.IncludedIffNoneExcluded` | create-app/src/index.mts:36-40 | an entry is judged by the segments below the template root alone |
| `Template.LocationDoesNotMatter` | create-app/src/index.mts:28-35 | the copy is the same wherever the root is, under `node_modules` too |
| `Template.CopyKeepsExactly` | create-app/src/index.mts:73-77 | the copy holds exactly the entries, with their contents, whose path below the root names no excluded directory |
| `Template.TwoCopiesAreOne` | create-app/scripts/copy-templates.mjs:14-26 | the build's copy followed by the scaffolder's equals one |
| `Template.AbsolutePathsWouldRefuseAll` | create-app/scripts/copy-templates.mjs:17-20 | judged on absolute paths, a template under an excluded name would lose every entry; judged as it is, none |
| `Manifest.PackageFile.ResolveSection` | create-app/src/index.mts:89-103 | one section is rewritten in place, or stops at its first workspace dependency without a pin |
| `Manifest.PackageFile.Rewrite` | create-app/src/index.mts:79-105 | fails exactly when some workspace dependency has no non-empty pin, naming the first and leaving the file as it was; otherwise the file holds the rewritten manifest |
| `Manifest.RewriteReplacesExactly` | create-app/src/index.mts:87-103 | no workspace reference remains, each became a caret and its pin, and nothing else changed |
| `Manifest.RewritingAgainChangesNothing` | create-app/src/index.mts:79-105 | a rewritten manifest can be rewritten with any versions, and does not change |

## Left out

- Evaluate.Evaluate: the caller's signal, the reports a rule gives of its evaluation, and the record that attributes failures to rules are not modelled; they do not change a verdict.
- DelegatedToken.DelegatedRequestIsAllowedByBoth: the attribute under the range's key is what the range collector left there; the key is reserved, and other writers to it are not modelled.
- Collectors.NeverPartial: the failure record's attribution is not modelled; the order in which the runtime serves ready callbacks is any order.
- Merge.MergeMaps: array elements and scalars are opaque identities; `flat()` of nested arrays concatenates one level, as the model does.
- ReadBackRuns.PushesOnlyIntoAnAgentReadAsEmpty: says the agent was empty when it was read, not when the push arrived. Reading and pushing are two calls, and a set placed between them is overwritten, as the source documents.
- ReadBack.AgentReadBack.ReadIsIn: log lines, the read's one retry and the bound on its size are not modelled; a read is one of its three results.
- Template.TwoCopiesAreOne: the rewriting of `tsconfig.json` between the copies is not modelled; it changes no path.
- Manifest.PackageFile.Rewrite: the file is its parsed value, not its text; a section that is `null` or otherwise falsy counts among the other fields; `versions` maps whatever names indexing it gives a value for, so inherited properties are not told apart.
- The marks and ids by which an answer from another load is recognised, the policy-set upload itself, and the wasm engine.
- SHA-256, JWTs and JWKS, HTTP, Express, metrics and logging.
- Windows path rules in `resolveConfigPaths` and in the template filter.
- `generateLockfile`: a process launched and its result reported.
- Clamping of timers above 2^31 - 1 ms, and promise scheduling inside `Promise.race`: one event settles a race and later ones are ignored.
- HOCON loading and the validation of configuration.
