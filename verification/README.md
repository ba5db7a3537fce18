# Verified models of OpenXT manager components

A Dafny model of the parts of these daemons and tools whose correctness is not visible
from any single function, with proofs of what they guarantee.

* **The xcpmd policy engine** (`xcpmd/src/modules.c`, `rules.c`, `db-helper.c`, `parser.c`).
  Rules are conjunctions of conditions; each condition listens to one event; events are
  stateful or stateless. Rules name typed variables that live in a write-through cache over
  a DB and carry reference counts. `PolicyRules` and `PolicyVars` define what every
  operation does to the rule list, the per-event listener index, the cache, the DB and the
  counts; `PolicyInvariant` proves the invariant that ties them together over every run and
  `PolicyTyping` what matching a prototype means, in terms of the kinds of the values;
  `PolicyStore` is the same state updated in place by loops, each method proved equal to its
  operation. `PolicyEvents` defines incremental and from-scratch evaluation, `PolicyTraces`
  proves what one step of it does, `PolicyEngine` holds the loops of `handle_events` and
  `evaluate_policy`. `PolicySystem` puts both halves together: rule changes, variable
  changes and events in any order. `PolicyExamples` has concrete runs on which the engine
  does what its callers might not expect.
* **The policy parser and its printers** (`parser.c`, `arg_to_string`, the JSON conversion).
  `PolicyParser` is the 13-state machine over up to three chained strings, `PolicyGrammar` the
  language of policy text as a simple recursive reader and the proof that the machine agrees
  with it on every input, `PolicyPrinter`
  the way from a rule to JSON and back to text, `PolicyRoundTrip` and `PolicyReparse` the
  proofs that they invert each other, `PolicyReload` what that means for a whole policy.
* **Shutting down a VM's dependencies** (`xcpmd/src/vm-actions-module.c`), in `VmShutdown`: a
  depth-first search and a worklist that grows while it is walked, on an arbitrary graph.
* **compleat** (`compleat/Completer.hs`, `compleat/Usage.hs`): `Completer` has the
  combinators and their algebra, `Usage` the evaluator against an independent language.
* **The shared-memory ring** (`audio-daemon/src/ring.c`): `ByteRing` has the two calls as they
  run alone, `RingProtocol` the reader interleaved step by step with a producer.
* **The intrusive circular list** (`xcpmd/src/list.h`), in `IntrusiveList`.

Where code and comments disagree, or the code does less than one might expect, the code is
modelled; each case has an input that shows it and the exact condition for it:

* The comment of `shutdown_dependencies_of_vm` says that stopped VMs are not shut down; they
  stay in the jeopardy list (`VmShutdown.StoppedVmIsShutDown`, `VmShutdown.NoHaltedVmShutDownIff`).
* The comment of `xcpmd_clear_vars` says that referenced variables are left alone; the code
  drops all of them (`PolicyExamples.ClearVarsBreaksRun`, `PolicyInvariant.ClearVarsKeepsInvIff`).
* `evaluate_rule` never looks at a condition's inverter
  (`PolicyExamples.InverterIgnored`, `PolicyTraces.EvaluateAsWrittenIff`).
* `evaluate_policy` runs the actions of an active rule that holds once more
  (`PolicyExamples.PolicyRepeatsActions`, `PolicyTraces.PolicyInStepIff`); xcpmd calls it only at
  start-up, where that cannot happen (`PolicySystem.StartUpRepeatsNothing`).
* A rule is put on the checklist once per changed condition, so its actions can run several
  times for one event (`PolicyExamples.EventRepeatsActions`, `PolicyTraces.HandleInStepIff`).
* Overwriting a variable does not recheck the rules that name it
  (`PolicyExamples.OverwriteGoesStale`, `PolicySystem.ActiveIffHeld`, `PolicySystem.AgreesIff`).
* Reloading the policy, and every D-Bus request to add a rule, first redefines all variables
  as their DB entries spell them, which rounds cached floats
  (`PolicyExamples.ReloadChangesFloat`, `PolicyReload.ReloadRestoresPolicy`). Such a request is
  modelled as those definitions followed by `ApplyRule` (`PolicyReload.RequestReadsVars`), so
  it can leave a loaded rule stale like any other overwrite.
* Storing keeps six decimals of a float, drops an empty string argument and loses an inverter
  in front of an action (`PolicyExamples.FloatDigitsLost`, `PolicyExamples.InverterLost`,
  `PolicyRoundTrip.StringSurvivesIff`, `PolicyReparse.ParseStoreParse`).
* The verdict on a text of several variable definitions is that of the last one, so a refused
  definition can go unreported (`PolicyExamples.RefusalUnreported`,
  `PolicyGrammar.DefinitionsReadLanguage`).
* The list of dependencies that the worklist reads is not reset when a VM is not listed; this
  is modelled and shown to be harmless, so unlisted dependencies are allowed.

## Model

| member | source | states |
|---|---|---|
| `VmShutdown.NeededIsLeastClosed` | xcpmd/src/vm-actions-module.c:499-544 | The VMs a root transitively needs, defined as the intersection of all closed sets, form a closed set themselves and hence the least one |
| `VmShutdown.Gatherer.Gather` | xcpmd/src/vm-actions-module.c:499-544 | The recursive search halts on every graph (measure: dependency names not yet listed), only appends, lists nothing twice, leaves the recursion counter as it was, explores all it appends, and stays inside every closed set that covers its start |
| `VmShutdown.Gatherer.Visit` | xcpmd/src/vm-actions-module.c:523-540 | One dependency is listed unless it is there already, and everything reached from it is explored |
| `VmShutdown.GatherDependencies` | xcpmd/src/vm-actions-module.c:594-595 | From an empty list the search returns, without duplicates, exactly the least closed set |
| `VmShutdown.FilterJeopardy` | xcpmd/src/vm-actions-module.c:616-660 | The lists split exactly into the candidates of the requested type and the running VMs that must stay up |
| `VmShutdown.FilterRow` | xcpmd/src/vm-actions-module.c:619-659 | One row of the master list moves the split one row on |
| `VmShutdown.CandidatesIff` | xcpmd/src/vm-actions-module.c:632-651 | Who may go down, row by row: what the root transitively needs, except running VMs of another type than the one asked for, if one is; the root is never excepted |
| `VmShutdown.SafeIff` | xcpmd/src/vm-actions-module.c:619-659 | Who must stay up from the start: exactly the running VMs other than the root that may not go down |
| `VmShutdown.Rescue` | xcpmd/src/vm-actions-module.c:680-691 | Moving one safe entry's dependencies out of jeopardy loses no VM that nobody needs, conserves the number of entries, and does no harm with a stale dependency list |
| `VmShutdown.MoveKeepsRescued` | xcpmd/src/vm-actions-module.c:684-688 | Every unneeded set still lies within the jeopardy list after a dependency of a safe entry has left it |
| `VmShutdown.ShutdownDependencies` | xcpmd/src/vm-actions-module.c:551-721 | What is shut down, each VM once, is exactly the greatest set of candidates on which neither a safe VM nor a surviving candidate depends, on every graph, although the safe list grows while it is walked |
| `VmShutdown.ShutdownSetIsUnique` | xcpmd/src/vm-actions-module.c:654-703 | That description fits exactly one set |
| `VmShutdown.ShutdownSafety` | xcpmd/src/vm-actions-module.c:547-551 | A running non-root VM that survives keeps all its direct dependencies; one that goes down is needed by the root and has the requested type |
| `VmShutdown.ShutDownIffUnreached` | xcpmd/src/vm-actions-module.c:662-692 | A candidate is shut down if and only if no chain of dependencies leads to it from a VM that must stay up |
| `VmShutdown.RunningDependencyIsShutDown` | xcpmd/src/vm-actions-module.c:639-647 | A running dependency that nothing else needs goes down exactly when no type is asked for or its own is |
| `VmShutdown.StoppedVmIsShutDown` | xcpmd/src/vm-actions-module.c:549-550 | A two-VM graph on which a stopped VM is shut down, against the comment |
| `VmShutdown.StoppingVmIsNotExpanded` | xcpmd/src/vm-actions-module.c:516-520 | A stopping dependency is listed but its own dependencies are not, and they survive |
| `VmShutdown.NoHaltedVmShutDownIff` | xcpmd/src/vm-actions-module.c:617-703 | No stopping or stopped VM is shut down exactly when every such candidate is reached by a dependency chain from a VM that must stay up |
| `PolicyVars.CacheAgreesWithDb` | xcpmd/src/db-helper.c:144-181 | In a coherent store a name is found exactly when the DB has it, and a look-up through the cache gives what reading and parsing the DB entry gives; only of a cached float the entry has six decimals |
| `PolicyVars.LookedCoherent` | xcpmd/src/db-helper.c:876-905 | A look-up keeps cached names distinct and the cache coherent, changes no value and not the DB, and caches the name exactly when it resolves |
| `PolicyVars.AddCoherent` | xcpmd/src/db-helper.c:836-871 | Defining or overwriting a variable keeps cache and DB coherent |
| `PolicyVars.AddVarEffect` | xcpmd/src/db-helper.c:836-871 | A definition of another type changes neither the DB nor any value; any other changes exactly that name |
| `PolicyVars.AddVarIff` | xcpmd/src/db-helper.c:836-871 | A definition is accepted if and only if the variable is undefined or holds a value of the same constructor; then exactly that name changes, in the DB too; a refused one changes nothing |
| `PolicyVars.DeleteCoherent` | xcpmd/src/db-helper.c:923-1001 | Deleting a variable keeps cache and DB coherent |
| `PolicyVars.DeleteVarEffect` | xcpmd/src/db-helper.c:923-1001 | Deleting takes away exactly that name, and only if it is cached and unreferenced |
| `PolicyInvariant.RemoveVarIff` | xcpmd/src/db-helper.c:923-1001 | Deleting a variable succeeds if and only if it is cached and no loaded rule names it; then it is gone from the DB and no longer resolves; nothing else changes |
| `PolicyInvariant.BumpCounts` | xcpmd/src/rules.c:389-465 | Counting up or down moves every cached count by exactly the number of arguments that name the variable, and nothing else |
| `PolicyInvariant.RegisterAdds` | xcpmd/src/rules.c:214-239 | Creating conditions appends exactly their ids, in order, to the listeners of each event |
| `PolicyInvariant.UnregisterRemoves` | xcpmd/src/rules.c:585-599 | Removing conditions takes out exactly their ids and keeps the order of the others |
| `PolicyInvariant.AppliedIndex` | xcpmd/src/parser.c:895-986 | After applying a rule, accepted, accepted with omissions or rejected, each event's listeners are exactly the conditions of loaded rules that use it, once each and in order |
| `PolicyInvariant.DeletedIndex` | xcpmd/src/rules.c:484-509 | The same after deleting a rule |
| `PolicyInvariant.ApplyInv` | xcpmd/src/parser.c:895-986 | Applying any rule keeps cache coherence, exact counts, the exact index, fresh ids and type soundness together |
| `PolicyInvariant.DeleteAtInv` | xcpmd/src/rules.c:470-571 | So does deleting a rule |
| `PolicyInvariant.DeleteRuleEffect` | xcpmd/src/rules.c:470-571 | Deleting a rule takes out exactly the one of that name, keeps the others in order and changes no variable |
| `PolicyInvariant.DeleteUnknownRule` | xcpmd/src/xcpmd-dbus-server.c:61-65 | A name that no loaded rule has changes nothing |
| `PolicyInvariant.DefineVarInv` | xcpmd/src/db-helper.c:836-871 | So does defining or overwriting a variable, because a change of type is refused |
| `PolicyInvariant.RemoveVarInv` | xcpmd/src/db-helper.c:923-932 | So does deleting a variable, because one in use is refused |
| `PolicyInvariant.PerformInv` | xcpmd/src/xcpmd-dbus-server.c:57-130 | So does every operation xcpmd offers on its policy |
| `PolicyInvariant.ClearPolicyEmpties` | xcpmd/src/xcpmd-dbus-server.c:110-119 | Clearing the policy leaves no rule, no listener, no cached variable and no DB entry |
| `PolicyInvariant.ClearRulesEmpties` | xcpmd/src/xcpmd-dbus-server.c:122-130 | Clearing the rules leaves no rule and no listener, and every variable as it was |
| `PolicyInvariant.RunInv` | xcpmd/src/rules.c:374-571 | The invariant holds in every state that any sequence of operations reaches |
| `PolicyTyping.TypeSoundOverRuns` | xcpmd/src/rules.c:605-666 | In every reachable state every condition, action and undo of every loaded rule is of a registered type and each of its arguments resolves to an int, bool, string or float as the letter of that type's prototype asks |
| `PolicyTyping.MatchesIff` | xcpmd/src/rules.c:605-666 | Arguments match a prototype if and only if there are none and it is "n", or it has one letter per argument, separated by blanks, and each resolves to a value of the constructor that the letter stands for |
| `PolicyTyping.ValidIff` | xcpmd/src/rules.c:763-808 | A rule is valid if and only if it has a name no loaded rule has, a condition, an action or an undo, and arguments that fit throughout |
| `PolicyTyping.RejectionNamesFirstFault` | xcpmd/src/rules.c:763-808 | The code of a rejected rule names the first thing wrong with it |
| `PolicyTyping.AppliedIff` | xcpmd/src/parser.c:974-986 | Applying a rule loads it, at the end of the list, if and only if its known parts make a valid rule; otherwise the rules stay as they are |
| `PolicyTyping.KnownConditionsAppend` | xcpmd/src/parser.c:896-924 | The conditions of registered types are kept, all of them and in order |
| `PolicyTyping.KnownActionsAppend` | xcpmd/src/parser.c:925-972 | So are the actions and undos |
| `PolicyTyping.KnownOne` | xcpmd/src/parser.c:896-972 | A condition keeps its inverter and arguments, an action its arguments; one of an unregistered type is omitted |
| `PolicyInvariant.UsedVarIsKept` | xcpmd/src/db-helper.c:973-1001 | A variable named by a loaded rule cannot be deleted |
| `PolicyInvariant.ClearVarsKeepsInvIff` | xcpmd/src/xcpmd-dbus-server.c:133-141 | Clearing all variables keeps the invariant exactly when no loaded rule names one |
| `PolicyExamples.ClearVarsBreaksRun` | xcpmd/src/xcpmd-dbus-server.c:133-141 | A run from start-up, defining x and loading a rule that names it, after which clearing the variables leaves that rule with an undefined one |
| `PolicyStore.Store.FindCached` | xcpmd/src/db-helper.c:881-887 | The search loop finds the first cached variable of that name, or none |
| `PolicyStore.Store.LookupVar` | xcpmd/src/db-helper.c:876-905 | The in-place look-up fills the cache as specified and returns the entry that resolves the name |
| `PolicyStore.Store.AddVar` | xcpmd/src/db-helper.c:836-871 | The in-place definition gives the specified store and outcome, type mismatch and unchanged value included |
| `PolicyStore.Store.DeleteVar` | xcpmd/src/db-helper.c:923-932 | The in-place deletion gives the specified store and says whether it happened |
| `PolicyStore.Store.BumpArgs` | xcpmd/src/rules.c:398-404 | The loop over one argument list moves the counts as specified |
| `PolicyStore.Store.BumpCalls` | xcpmd/src/rules.c:397-405 | The loop over a list of conditions or actions does |
| `PolicyStore.Store.BumpRule` | xcpmd/src/rules.c:389-465 | Conditions, actions and undos together are counted up or down as specified |
| `PolicyStore.Store.CheckPrototype` | xcpmd/src/rules.c:605-666 | The check succeeds exactly when every argument resolves and the types spell the prototype; its look-ups have the specified effect on the cache |
| `PolicyStore.Store.ValidateRule` | xcpmd/src/rules.c:763-808 | Validation returns the specified code in the order of its checks |
| `PolicyStore.Store.NewCondition` | xcpmd/src/rules.c:214-239 | A new condition has a new id and joins its event's listeners |
| `PolicyStore.Store.RemoveListeners` | xcpmd/src/rules.c:484-488 | Every condition of a rule leaves its event's listeners |
| `PolicyStore.Store.KeepKnownConditions` | xcpmd/src/parser.c:896-924 | Unknown condition types are omitted; the others become new, registered conditions in order |
| `PolicyStore.Store.KeepKnownActions` | xcpmd/src/parser.c:925-972 | Unknown action types are omitted; the others keep their order and arguments |
| `PolicyStore.Store.ApplyRule` | xcpmd/src/parser.c:895-986 | Applying a rule in place gives the specified state and validation code, whether it succeeds, recovers or is rejected |
| `PolicyStore.Store.DeleteRule` | xcpmd/src/rules.c:470-571 | Deleting the rule of that name in place gives the specified state |
| `PolicyStore.Store.DeleteRules` | xcpmd/src/rules.c:574-581 | The loop empties the rule list and gives the specified state |
| `PolicyTraces.ListeningIds` | xcpmd/src/rules.c:214-239 | The listeners that evaluation walks are, in order, the ones the index holds |
| `PolicyTraces.RecheckFlags` | xcpmd/src/modules.c:159-186 | After an event its conditions say what their checks say and no other condition changed |
| `PolicyTraces.ChecklistCounts` | xcpmd/src/modules.c:165-183 | A rule is on the checklist once for each of its conditions that changed, and no rule that is not loaded is on it |
| `PolicyTraces.UnlistedSame` | xcpmd/src/modules.c:159-186 | A rule that is not on the checklist evaluates as it did before, so skipping it is right |
| `PolicyTraces.HandleResting` | xcpmd/src/modules.c:140-233 | Handling an event leaves stateless conditions false and every rule active exactly when its flags are all true |
| `PolicyTraces.PolicyResting` | xcpmd/src/modules.c:275-320 | So does evaluating from scratch |
| `PolicyTraces.DoResting` | xcpmd/src/modules.c:140-320 | So does every occurrence, loading and unloading rules included |
| `PolicyTraces.RecheckAllFlags` | xcpmd/src/modules.c:284-300 | Evaluating from scratch sets the flags of all stateful conditions to their checks and touches no stateless one |
| `PolicyTraces.HandleRuns` | xcpmd/src/modules.c:188-216 | What one event runs for a rule: if it flips, its actions or undos once per changed condition, otherwise nothing |
| `PolicyTraces.StatefulEventFlags` | xcpmd/src/modules.c:159-186 | When a stateful event takes the value v, its conditions are flagged as their checks say of v and no other flag changes |
| `PolicyTraces.StatefulEventRuns` | xcpmd/src/modules.c:159-218 | It makes a rule active exactly when its conditions hold of v and of the other flags, and runs its actions or undos, once per changed condition, when that flips it |
| `PolicyTraces.EventValues` | xcpmd/src/modules.c:220-223 | Afterwards a stateful event has the value it took, a stateless one its reset value, and every other event its own |
| `PolicyTraces.UndosPrecedeActions` | xcpmd/src/modules.c:197-216 | In one handled event no undo comes after an action |
| `PolicyTraces.HandleInStepIff` | xcpmd/src/modules.c:165-216 | A stateful event keeps a rule's runs alternating if and only if the rule does not flip or at most one of its conditions changes, both read off the state before the call |
| `PolicyExamples.EventRepeatsActions` | xcpmd/src/modules.c:165-216 | One event that changes two conditions of a rule runs its actions twice |
| `PolicyTraces.HandleInStep` | xcpmd/src/modules.c:188-216 | One event keeps the alternation of a stateful rule with at most one condition per event |
| `PolicyTraces.PolicyRuns` | xcpmd/src/modules.c:302-319 | What evaluating from scratch runs for a rule: its actions if true, its undos if it stops being true, nothing otherwise |
| `PolicyTraces.PolicyFlags` | xcpmd/src/modules.c:283-300 | Evaluating from scratch flags the conditions of listed stateful events as their checks say of the events' values and leaves the others |
| `PolicyTraces.PolicyUndosPrecedeActions` | xcpmd/src/modules.c:302-319 | It runs all undos before all actions |
| `PolicyTraces.DoneAllAppend` | xcpmd/src/modules.c:313-319 | It runs actions in the order of the rules |
| `PolicyTraces.UndoneAppend` | xcpmd/src/modules.c:197-205 | Undos run in the order of the list they are taken from |
| `PolicyTraces.DoneAppend` | xcpmd/src/modules.c:207-211 | So do the actions of one event |
| `PolicyTraces.PolicyInStepIff` | xcpmd/src/modules.c:313-319 | Evaluating from scratch keeps the alternation of a stateful rule if and only if it was not active or its checks do not all hold on the current event values |
| `PolicyTraces.PolicyInStepStateless` | xcpmd/src/modules.c:302-319 | It always keeps that of a rule with a stateless condition |
| `PolicyExamples.PolicyRepeatsActions` | xcpmd/src/modules.c:313-319 | Evaluating from scratch twice in a row runs the actions of a rule twice |
| `PolicyTraces.StepInStepIff` | xcpmd/src/modules.c:140-320 | Every occurrence, loading and unloading included, keeps a stateful rule's alternation if and only if it repeats nothing, judged by the state before it |
| `PolicyTraces.StatelessInactive` | xcpmd/src/modules.c:211-227 | Between events a rule with a stateless condition is inactive |
| `PolicyTraces.StatelessFires` | xcpmd/src/modules.c:205-227 | At every occurrence of a stateless event a rule listening to it fires, once per condition on it, if and only if it qualifies, however often it fired before |
| `PolicyTraces.StatelessEventFires` | xcpmd/src/modules.c:159-216 | When a stateless event takes the value v, a rule listening to it fires, once per condition on it, if and only if those conditions hold of v and its others are true |
| `PolicyTraces.TwoNeverQualify` | xcpmd/src/rules.c:903-913 | A rule with conditions on two different stateless events never qualifies |
| `PolicyEngine.Runner.constructor` | xcpmd/src/modules.c:140-154 | Taking over loaded rules and an exact index gives a valid engine in that state |
| `PolicyEngine.Runner.IndexLeads` | xcpmd/src/modules.c:159-161 | Following the index reaches each listening condition of a loaded rule once, with its rule |
| `PolicyEngine.Runner.EvaluateRule` | xcpmd/src/rules.c:903-913 | True exactly when every condition of the rule is flagged true |
| `PolicyTraces.EvaluateAsWrittenIff` | xcpmd/src/rules.c:903-913 | Evaluation agrees with the rule as written, inverted conditions being false, on all flags if and only if no condition of the rule is inverted |
| `PolicyExamples.InverterIgnored` | xcpmd/src/rules.c:903-913 | A rule whose only condition is `!c()` becomes active and runs its actions when c holds |
| `PolicyEngine.Runner.RecheckListeners` | xcpmd/src/modules.c:159-186 | The first loop, which reads flags it is itself changing, gives the specified flags and checklist |
| `PolicyEngine.Runner.RunUndos` | xcpmd/src/modules.c:197-205 | The second loop records both states of each listed rule and runs the specified undos |
| `PolicyEngine.Runner.RunActions` | xcpmd/src/modules.c:207-218 | The third loop runs the specified actions and updates activity for stateful events only |
| `PolicyEngine.Runner.ResetListeners` | xcpmd/src/modules.c:221-229 | A stateless event's conditions are false afterwards |
| `PolicyEngine.Runner.HandleEvents` | xcpmd/src/modules.c:140-233 | The whole method equals the specification of handling an event and keeps the engine valid |
| `PolicyEngine.Runner.RecheckStateful` | xcpmd/src/modules.c:283-300 | The nested loops give the specified flags |
| `PolicyEngine.Runner.PolicyUndos` | xcpmd/src/modules.c:302-311 | The undo pass changes the activity of exactly the false rules and runs the undos of those that were active |
| `PolicyEngine.Runner.PolicyActions` | xcpmd/src/modules.c:313-319 | The action pass changes the activity of exactly the true rules and runs their actions |
| `PolicyEngine.PassesActivate` | xcpmd/src/modules.c:302-319 | The two passes together give every rule the value of its conditions |
| `PolicyEngine.Runner.EvaluateAll` | xcpmd/src/modules.c:275-320 | The whole method equals the specification of evaluating from scratch |
| `PolicySystem.ValidatedCanLoad` | xcpmd/src/rules.c:763-808 | A rule that passes validation is new to the evaluator in name and conditions |
| `PolicySystem.StepLinked` | xcpmd/src/modules.c:140-320 | Every command, on rules, on variables or an event, keeps the store's and the evaluator's invariants together |
| `PolicySystem.RunLinked` | xcpmd/src/modules.c:140-320 | They hold together in every state of every run |
| `PolicySystem.UsedValueKept` | xcpmd/src/db-helper.c:836-1001 | While a variable stays in use, only a definition that overwrites it changes what it stands for; a refused or equal one does not |
| `PolicySystem.ArgsKeepValues` | xcpmd/src/rules.c:1220-1232 | The arguments of a condition that stays loaded keep their values unless one of its variables is overwritten |
| `PolicySystem.ChecksOnlyRead` | xcpmd/src/rules.c:1220-1232 | The look-ups a check makes find every variable in the cache and change nothing |
| `PolicySystem.RecheckSyncs` | xcpmd/src/modules.c:159-186 | Handling its event, or evaluating from scratch, brings a condition in step with its check whatever its flag was |
| `PolicySystem.FlagOverRun` | xcpmd/src/modules.c:159-186 | In every state of every run the flag of a loaded, stateful condition is whether its check held, on the variables of its last recheck and the current event value |
| `PolicySystem.ActiveIffHeld` | xcpmd/src/modules.c:140-320 | In every state of every run, with no premise on overwritten variables, a loaded rule with only stateful conditions is active if and only if each of them held when it was last rechecked |
| `PolicySystem.ActiveFromStart` | xcpmd/src/modules.c:140-320 | From start-up: if and only if each condition was rechecked while the rule was loaded and, the last time, its check held on the variables of that time and the value its event still has |
| `PolicySystem.AgreesIff` | xcpmd/src/modules.c:140-320 | Incremental evaluation agrees with evaluation from scratch if and only if the checks on the variables as of the last rechecks come to the same as on the current ones |
| `PolicySystem.IncrementalEqualsFromScratch` | xcpmd/src/modules.c:140-320 | So a loaded rule with only stateful conditions is active exactly when all its checks hold on the current event and variable values, as long as each condition was rechecked, by its event or by a from-scratch evaluation, after a variable it names was last overwritten |
| `PolicyExamples.OverwriteGoesStale` | xcpmd/src/db-helper.c:836-871 | A run from start-up after which a rule is still active although its check fails, because its variable was overwritten and nothing rechecked it |
| `PolicySystem.RunAlternatesIff` | xcpmd/src/modules.c:140-320 | Over every run a stateful rule alternates actions and undos, actions first, and is active exactly when its actions ran last, if and only if no command repeats its runs, each judged by the state before it |
| `PolicySystem.RunAlternates` | xcpmd/src/modules.c:159-216 | So a stateful rule with at most one condition per event alternates over every run in which no from-scratch evaluation comes while it is active and its checks hold |
| `PolicySystem.StartUpRepeatsNothing` | xcpmd/src/xcpmd.c:131 | When evaluation from scratch comes only at start-up, no rule is active before it, so it repeats nobody's actions |
| `PolicySystem.RunStateless` | xcpmd/src/modules.c:183-227 | Over every run a rule with a stateless condition is inactive between events and never undone; with conditions on two stateless events it never fires |
| `PolicyParser.StepProgress` | xcpmd/src/parser.c:1480-1537 | Every edge keeps the cursor within the string and decreases: going on, strings left, characters left, rank of the state |
| `PolicyParser.Run` | xcpmd/src/parser.c:1480-1537 | Parsing halts on every input, unterminated quotes and embedded newlines included, with the cursor never past the end |
| `PolicyParser.Parser.Parse` | xcpmd/src/parser.c:1480-1537 | The loop halts and reaches the verdict and the state that the machine's transitions define |
| `PolicyParser.AcceptCalls` | xcpmd/src/parser.c:1276-1337 | At the end of a string parsing finishes or goes on with fewer strings left |
| `PolicyGrammar.ParserReadsLanguage` | xcpmd/src/parser.c:1390-1537 | On every text of a rule the state machine and the language agree: on what is accepted and on every call, inverter and argument |
| `PolicyGrammar.ArgReadsLanguage` | xcpmd/src/parser.c:1739-1785 | On every text of a value `parse_arg` gives the first argument of the last call on the line, or says why not |
| `PolicyGrammar.DefinitionsReadLanguage` | xcpmd/src/parser.c:1231-1261 | On every text of definitions the machine defines exactly the variables the language says, refusing repetitions and changes of type, with the verdict of the last one |
| `PolicyGrammar.LineMeans` | xcpmd/src/parser.c:1390-1476 | A line of calls is read as the language has it, from any position |
| `PolicyGrammar.ArgListMeans` | xcpmd/src/parser.c:1432-1462 | So is an argument list |
| `PolicyGrammar.LiteralMeans` | xcpmd/src/parser.c:1432-1469 | So is a literal: variable, integer, float, quoted string or boolean |
| `PolicyGrammar.NameCharacters` | xcpmd/src/parser.c:995-1021 | Digits and name characters, by their ASCII codes |
| `PolicyGrammar.IntegerWraps` | xcpmd/src/parser.c:265-268 | An integer literal beyond 32 bits keeps its low 32 bits |
| `PolicyExamples.RefusalUnreported` | xcpmd/src/parser.c:1260 | `x(t) x(f) y(t)` refuses the second definition and is reported as good |
| `PolicyPrinter.WriteArgs` | xcpmd/src/db-helper.c:668-825 | The loop numbers and prints the arguments of a call |
| `PolicyPrinter.WriteCalls` | xcpmd/src/db-helper.c:668-825 | The loop numbers and prints a list of calls |
| `PolicyPrinter.RuleToJson` | xcpmd/src/db-helper.c:668-825 | A rule becomes the JSON tree of its conditions, actions and undos |
| `PolicyPrinter.StoredTree` | xcpmd/src/db-helper.c:668-825 | The stored tree of one rule, spelled out |
| `PolicyPrinter.AppendCalls` | xcpmd/src/db-helper.c:365-660 | The loop joins the calls of one list and gives up on a malformed one |
| `PolicyPrinter.JsonRuleToParseable` | xcpmd/src/db-helper.c:365-660 | A tree becomes the three strings, or nothing if a part is missing or malformed |
| `PolicyPrinter.ReadableIff` | xcpmd/src/db-helper.c:365-660 | Exactly the trees of the shape of a rule can be read: objects of conditions and actions, undos or an empty string, and in each call a type, an inverter for a condition, and string arguments |
| `PolicyPrinter.JsonRoundTrip` | xcpmd/src/db-helper.c:365-825 | The tree of a rule turns back into the text of that rule |
| `PolicyRoundTrip.IntInverts` | xcpmd/src/rules.c:1039-1075 | A printed integer, negative ones included, reads back as itself |
| `PolicyRoundTrip.FloatInverts` | xcpmd/src/rules.c:1039-1075 | A float printed with six decimals reads back as the number of millionths it shows |
| `PolicyRoundTrip.DecimalValue` | xcpmd/src/parser.c:1143-1145 | A decimal literal with any number of decimals denotes its digits divided by that power of ten |
| `PolicyRoundTrip.FloatLiteral` | xcpmd/src/parser.c:1143-1145 | The same for printed digits, with or without a sign |
| `PolicyRoundTrip.LiteralsRead` | xcpmd/src/parser.c:1139-1145 | Some integers and floats, spelled out |
| `PolicyTypes.MicrosNearest` | xcpmd/src/rules.c:1053-1055 | The printed float is the nearest number with six decimals; a tie goes to the even one |
| `PolicyRoundTrip.ReadArg` | xcpmd/src/parser.c:1390-1476 | The machine reads the printed form of any argument into its accumulator and nothing more |
| `PolicyRoundTrip.CallRun` | xcpmd/src/parser.c:1196-1272 | The machine reads the printed form of a call as exactly that call |
| `PolicyRoundTrip.CallsRun` | xcpmd/src/parser.c:1390-1476 | The machine reads a printed list of calls as exactly those calls, in order |
| `PolicyRoundTrip.TextRoundTrip` | xcpmd/src/parser.c:1276-1337 | The three strings of a rule parse to its conditions, inverters, actions, undos and arguments, in order |
| `PolicyRoundTrip.RuleRoundTrip` | xcpmd/src/db-helper.c:365-825 | Printing to JSON, converting to text and parsing gives the rule back, with six decimals of its floats |
| `PolicyRoundTrip.ValueRoundTrip` | xcpmd/src/db-helper.c:127-181 | The DB text of a variable parses back to its value, with six decimals of a float |
| `PolicyRoundTrip.EntryDefines` | xcpmd/src/db-helper.c:218-231 | Parsed as a definition, the DB text of a variable defines exactly that name, with the value that parsing it alone gives |
| `PolicyRoundTrip.StringSurvivesIff` | xcpmd/src/parser.c:1134-1137 | The DB text of a string parses back to it if it is not empty, and otherwise makes `parse_arg` follow a null argument list |
| `PolicyReparse.StepBuilds` | xcpmd/src/parser.c:1076-1337 | Whatever it reads, every edge keeps names made of name characters, quoted text free of quotes, integers in range and variables known |
| `PolicyReparse.ParsedIsStorable` | xcpmd/src/parser.c:1127-1272 | Whatever text parses, floats included, the outcome can be stored and names only known variables |
| `PolicyReparse.DefinitionsAreLiteral` | xcpmd/src/parser.c:1231-1261 | Whatever text of variable definitions is parsed, every variable it defines has an identifier for a name and a literal for a value |
| `PolicyReparse.ParseStoreParse` | xcpmd/src/db-helper.c:365-825 | For every text that parses, storing and parsing again gives the same calls, with six decimals of each float; it gives the same result if and only if no float has more decimals and no action was written with an inverter. For floats this is about exact numbers: as 32-bit floats, 0.10000000001 and its stored form 0.100000 are the same, so the rule can come back equal although more decimals were written |
| `PolicyExamples.InverterLost` | xcpmd/src/parser.c:1196-1272 | The action text `!a()` parses and comes back from the DB as `a()` |
| `PolicyExamples.FloatDigitsLost` | xcpmd/src/rules.c:1053-1055 | A tenth of a millionth comes back from the DB as zero |
| `PolicyReload.BuiltAgain` | xcpmd/src/parser.c:895-972 | A rule rebuilt from its stored calls equals the original but for the addresses of its conditions and the rounding of floats |
| `PolicyReload.ReloadOne` | xcpmd/src/db-helper.c:318-351 | Loading one stored rule passes validation, appends the same rule and changes no variable |
| `PolicyReload.LoadVarsReads` | xcpmd/src/db-helper.c:202-241 | Reading the variables from the DB leaves the DB as it is and the cache coherent, gives each listed variable the value its entry spells, and leaves the others alone |
| `PolicyReload.LoadVarsKeepsIff` | xcpmd/src/db-helper.c:202-241 | It changes no variable if and only if no cached float has more than six decimals |
| `PolicyReload.RequestReadsVars` | xcpmd/src/parser.c:1673-1675 | A request to add a rule keeps the invariant and leaves every variable with the value its DB entry spells, with the same exact condition for changing none |
| `PolicyReload.ReloadRestoresPolicy` | xcpmd/src/xcpmd-dbus-server.c:93-107 | Reloading brings back the stored rules, the same and in the same order, with six decimals of each float; every variable has the value its DB entry spells, and none changes if and only if no cached float has more than six decimals; the invariant is kept |
| `PolicyReload.RunStorable` | xcpmd/src/parser.c:895-986 | In every state that operations on parsed rules reach, every loaded rule can be stored |
| `PolicyReload.ReloadOverRuns` | xcpmd/src/xcpmd-dbus-server.c:93-107 | All of this holds in every reachable state |
| `PolicyExamples.ReloadChangesFloat` | xcpmd/src/parser.c:1554-1556 | x, defined as 0.0000001, is 0 after reloading the policy |
| `Completer.BindMember` | compleat/Completer.hs:92-97 | A result of a sequence comes from a result of its first part: handed on if it left words, kept if it is a suggestion |
| `Completer.ThenAssociative` | compleat/Completer.hs:92-97 | Sequencing is associative |
| `Completer.ContinueIsUnit` | compleat/Completer.hs:73-75 | `continue` is a unit of sequencing on both sides |
| `Completer.ChoiceDistributesLeft` | compleat/Completer.hs:88-97 | Choice distributes out of the left argument of a sequence |
| `Completer.ManyFrom` | compleat/Completer.hs:99-104 | Repetition of a consuming completer is total and never leaves more words than it got |
| `Completer.ManyUnfolds` | compleat/Completer.hs:99-104 | It satisfies the source's recursive equation |
| `Completer.ManyIsAllIterations` | compleat/Completer.hs:99-104 | Its results are exactly those of all finite iterations |
| `Completer.ConsumingTerminates` | compleat/Completer.hs:99-104 | Unfolding that equation ends for every consuming completer |
| `Completer.StationaryNeverTerminates` | compleat/Completer.hs:99-104 | It never ends on words that the body can leave untouched |
| `Completer.MatchesFrom` | compleat/Completer.hs:67-69 | The offered words are exactly the escaped candidates that extend the partial word |
| `Completer.UnescapeInverts` | compleat/Completer.hs:62-65 | Escaping loses nothing |
| `Completer.ShownShape` | compleat/Completer.hs:62-69 | A shown word is the word with a backslash before each colon and nothing else added but one blank at the end |
| `Completer.MatchesFromAppend` | compleat/Completer.hs:67-69 | Candidates are offered in their order |
| `Completer.ChoiceOffers` | compleat/Completer.hs:88-90 | A choice offers what its first part offers, then what its second does |
| `Usage.Eval` | compleat/Usage.hs:34-44 | A pattern's completer never leaves more words than it got and consumes one if every sentence of the pattern has a token |
| `Usage.ManyDenotes` | compleat/Completer.hs:99-104 | If a completer gives the results of a language, its repetition gives those of the language's star |
| `Usage.EvalDenotes` | compleat/Usage.hs:34-44 | The results of a pattern's completer are exactly those of the sentences of its language |
| `Usage.OneOfResults` | compleat/Usage.hs:36 | Alternatives give their results one after the other, in order |
| `Usage.OptionalResults` | compleat/Usage.hs:40 | An optional pattern gives its own results, then goes on without it |
| `Usage.OfferedIffAllowed` | compleat/Usage.hs:34-44 | After words ts and a partial word t, s is offered if and only if t is a prefix of s and some sentence of the pattern matches ts and has s next |
| `Usage.ProductiveIff` | compleat/Usage.hs:34-44 | The syntactic test for consuming a token is exact: it holds if and only if the language has no empty sentence |
| `Usage.RepetitionTerminatesIff` | compleat/Usage.hs:38-39 | Repeating a pattern terminates on all words if and only if the pattern consumes a token |
| `Usage.CommandOffersIff` | compleat/Usage.hs:30-32 | After a command's name, s is offered if and only if one of the command's definitions allows it |
| `Usage.DefinitionsAppend` | compleat/Usage.hs:30-32 | A command's definitions are taken in their order |
| `ByteRing.ReadChunk` | audio-daemon/src/ring.c:36-44 | A readable chunk is a prefix of the queue, and advancing past it leaves the rest, across buffer and index wrap |
| `ByteRing.WriteChunk` | audio-daemon/src/ring.c:26-34 | Filling a writable chunk appends to the queue and disturbs no queued byte |
| `ByteRing.Ring.Read` | audio-daemon/src/ring.c:88-125 | With indexes at most 1024 apart, modulo 2^32, delivers exactly the first len bytes of the queue; if there are fewer it returns 0 and they are lost; indexes further apart are reset |
| `ByteRing.Ring.Write` | audio-daemon/src/ring.c:50-86 | Appends all data or nothing: with indexes at most 1024 apart it succeeds exactly when the ring is not full and the data fits both the free space and the rest of the buffer; indexes further apart are reset |
| `ByteRing.WriteThenRead` | audio-daemon/src/ring.c:50-125 | What was written comes out after everything older |
| `RingProtocol.NoResetNoRetry` | audio-daemon/src/ring.c:102-109 | With a well-behaved producer the indexes are never reset and the empty-chunk retry is unreachable |
| `RingProtocol.EmptyMeansDrained` | audio-daemon/src/ring.c:97-98 | A read that finds no data drops no partial command and has delivered everything published |
| `RingProtocol.NextInv` | audio-daemon/src/ring.c:88-125 | Every producer and reader step keeps: received bytes, bytes in hand and queued bytes are together what was published |
| `RingProtocol.FlatPrefix` | audio-daemon/src/audio-daemon.c:210-212 | Commands of equal size are recovered from the byte stream in order |
| `RingProtocol.FifoDelivery` | audio-daemon/src/ring.c:88-125 | In every interleaving the received commands are a prefix of the published ones, and all of them once the ring is drained |
| `RingProtocol.CommandsArriveInOrder` | audio-daemon/src/audio-daemon.c:204-241 | The daemon's 16-byte commands arrive in order, none repeated, and none missing once the ring is drained |
| `IntrusiveList.Rotate` | xcpmd/src/list.h:20-28 | Any node of a ring can serve as its head |
| `IntrusiveList.CircularUnique` | xcpmd/src/list.h:20-28 | The links determine the sequence |
| `IntrusiveList.Link` | xcpmd/src/list.h:36-44 | A node is linked between its neighbours and nothing else changes |
| `IntrusiveList.Add` | xcpmd/src/list.h:54-57 | Inserts at the front |
| `IntrusiveList.AddTail` | xcpmd/src/list.h:67-70 | Appends |
| `IntrusiveList.Unlink` | xcpmd/src/list.h:79-83 | Closes the ring over a removed node |
| `IntrusiveList.Delete` | xcpmd/src/list.h:90-95 | Removes one entry and clears its links |
| `IntrusiveList.DeleteInit` | xcpmd/src/list.h:101-105 | Removes one entry and leaves it a ring of its own |
| `IntrusiveList.Move` | xcpmd/src/list.h:112-116 | Takes an entry from one list to the front of another |
| `IntrusiveList.MoveToFront` | xcpmd/src/list.h:112-116 | Within one list, makes an entry the first |
| `IntrusiveList.MoveTail` | xcpmd/src/list.h:123-128 | Takes an entry from one list to the end of another |
| `IntrusiveList.MoveToBack` | xcpmd/src/list.h:123-128 | Within one list, makes an entry the last |
| `IntrusiveList.IsEmpty` | xcpmd/src/list.h:134-137 | True exactly when there are no entries |
| `IntrusiveList.SpliceEntries` | xcpmd/src/list.h:139-151 | Puts the entries of one list in front of those of another |
| `IntrusiveList.Splice` | xcpmd/src/list.h:158-162 | The same, and nothing happens for an empty list |
| `IntrusiveList.SpliceInit` | xcpmd/src/list.h:171-178 | The same, and the emptied list is a ring of its own |
| `IntrusiveList.DeleteWhere` | xcpmd/src/list.h:212-214 | Safe iteration that deletes current entries visits each original entry once, in order, and leaves the others in order |

## Left out

- Floats are exact numbers: the rounding of a literal to a 32-bit float, infinity and the sign of zero are not modelled; printing with six decimals is.
- Integer literals: a lone `-` (undefined in C, zero here) and literals beyond the range of a C long are not modelled faithfully; storing a parsed long in an int keeps its low 32 bits.
- Memory: allocation failure, freeing and the 256-byte accumulators; accumulators are sequences of any length.
- D-Bus, xenstore, sysfs, Argo, ALSA, libevent: VM data, event values and the outcome of checks are inputs, and running a rule's actions or undos is an entry in a trace.
- The DB and JSON libraries: the DB is a map, JSON trees are lossless, and a dump lists rules in the order they were written; changes to the DB from outside xcpmd are not modelled.
- What happens after `parse_arg` has followed a null pointer is not modelled; a look-up of such an entry finds nothing. xcpmd never writes one.
- Look-ups during parsing: the parser's own look-ups can fill the cache; parsing sees a fixed map of known variables instead, and filling the cache is the separate operation `LookUp`.
- Policy files: splitting a file into rules at `|`, comments, and the human-readable `rule_to_string`.
- `xcpmd_clear_vars` is not an operation of the runs, since it breaks the invariant exactly when a loaded rule names a variable (`PolicyInvariant.ClearVarsKeepsInvIff`).
- Event handlers that trigger further events from within an action: an event is handled completely before the next.
- PolicyParser.Parser.Parse: the parser's data is one value that the loop reassigns; the sharing of list tails in the source is not modelled.
- VmShutdown.ShutdownDependencies: VM paths are taken to be distinct, as object paths are, and the root path to be given; a missing root path makes the source return at once.
- PolicyStore.Store.ApplyRule, PolicyStore.Store.ValidateRule and PolicyStore.Store.CheckPrototype take the store to be coherent, which `PolicyInvariant.RunInv` shows of every reachable store.
- IntrusiveList.Splice: the head of a spliced, non-empty list keeps dangling links, about which nothing is said.
- compleat: the Parsec grammar and recursive variable definitions; variables are taken as expanded, an undefined one as a skip, and what a shell command prints for a partial word is an input.
- Command patterns are taken as non-empty choices and sequences, which the usage grammar guarantees and `foldl1` demands.
- rpc-broker: matching a call against its policy is a fold in which the last matching rule decides, and its list of signals reuses slots without an invariant to keep.
- The platform and battery code of xcpmd (hardware reads with clamps) and the audio, QMP, carrier and ATAPI helpers (calls into drivers and sockets): what they do is decided outside the program.
