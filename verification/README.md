# dbdeploy.net script reconciliation, modelled in Dafny

This project models the script repository of dbdeploy.net (`RepositorioScripts`). It is
the part that decides which change scripts a deployment run must apply. It walks the
available change scripts in the order the script provider lists them. For each script
it looks up the first applied change entry that compares equal to it:

- with no entry, the script is new and must be applied;
- with an entry that did not execute successfully, the script is rerun: it takes the
  entry's `ChangeId`, so that the change-log row is updated rather than a new row
  inserted;
- with an entry that executed successfully, the script is skipped.

A script to apply is appended to the pending list. With a cap (`lastChangeToApply`), it
is appended only while it compares at or below the cap, and the first one above the cap
ends the walk. Two queries read the same change log: the failed entries, and the entry
for a given script.

Files:

- `wrappers.dfy`: `Option`, for a lookup that may find no entry and for the optional cap.
- `change_order.dfy`: the change identity `ChangeKey(folder, scriptNumber)`, its
  comparison `Compare` (sign of `CompareTo`), and proofs that it is a total order.
- `sequences.dfy`: subsequences, and the fact that a pairwise relation survives in any
  subsequence.
- `changes.dfy`: `ChangeScript`, `ChangeEntry` and `ScriptStatus`.
- `script_repository.dfy`: the reconciliation (the recursive walk `Reconcile` and the loop
  `IdentifyPending`),
  the composition `PendingExecution`, the queries `FindApplied` and `FailedEntries`,
  and the reference definitions the results are proved equal to.
- `reconciliation_proofs.dfy`: `ChangeId` assignment, order preservation, and the cap
  acting as a filter on ascending input.
- `scenarios.dfy`: the reconciliation on small concrete inputs.

Modelling decisions:

- **Identity.** The `CompareTo` between change entries, change scripts and the cap is
  not part of this model. It is taken to be a total order on `(folder, scriptNumber)`:
  folders compare first, ordinally character by character, then numbers compare.
  `CompareZeroIffEqual` shows that "compares equal" means "same identity".
- **Success.** `ExecutedSuccessfully` is a boolean field of the entry, independent of its
  `status`, because how it is derived is not part of this model. `ScriptStatus` has
  `Failure` and `OtherStatus(code)`, since `Failure` is the only status the code
  inspects. `ConsistentStatus` (a failed entry never claims success) is a hypothesis
  only where the failure filter is related to reruns.
- **The `ChangeId` side effect.** The source assigns `script.ChangeId` on the script
  object. Here `Reconcile` returns a `Reconciliation`: the pending list together with
  the whole script sequence as the walk leaves it. The source assigns the id *before*
  the cap check. So the rerun script that ends the walk also carries its entry's id,
  although it is not pending. The model keeps this; `ChangeIdAssignment` states it.
- **Ordering precondition.** The source never checks that the scripts are ascending.
  Neither does the model. Ascending order is a hypothesis only of the lemmas that need
  it (`PendingKeepsOrder`, `SortedTakeIsFilter`, `SortedCapIsFilter`). `UnsortedInputStopsEarly` shows what
  happens without it.
- **Rerun test.** An entry is rerun when `!ExecutedSuccessfully`
  (`RepositorioScripts.cs:87`); its status is not inspected. The id is assigned at line
  90, before the cap check at line 102, so the script that ends the walk is annotated
  too.

## Model

| member | source | states |
|---|---|---|
| `ScriptRepository.ReconcileShape` | src/Net.Sf.Dbdeploy/Scripts/RepositorioScripts.cs:69-115 | The walk returns one script per script given and keeps each script's identity and name, so only `ChangeId` can change. The pending list is a subsequence of the resulting scripts: nothing is reordered or duplicated. |
| `ScriptRepository.ReconcilePending` | src/Net.Sf.Dbdeploy/Scripts/RepositorioScripts.cs:77-111 | The pending identities are a subsequence of the input identities, in the same order. Every pending script must be applied: its first entry is missing or unsuccessful, so a succeeded script is never pending, for any cap. Every pending script lies within the cap. A pending script with an entry carries that entry's `ChangeId`. |
| `ScriptRepository.IdentifyPending` | src/Net.Sf.Dbdeploy/Scripts/RepositorioScripts.cs:71-114 | The imperative `foreach` with `applyScript` and `break` computes exactly the pending list and updated scripts of the recursive walk `Reconcile`. |
| `ScriptRepository.PendingExecution` | src/Net.Sf.Dbdeploy/Scripts/RepositorioScripts.cs:23-28 | With no cap, the pending list is exactly the scripts that must be applied, each with its entry's id, in input order. With a cap, it is the longest prefix of that list whose identities are all at or below the cap. |
| `ScriptRepository.UncappedIsCandidates` | src/Net.Sf.Dbdeploy/Scripts/RepositorioScripts.cs:95-101 | With no cap, the walk's pending list equals the filter-by-"must be applied" reference definition. |
| `ScriptRepository.CappedIsPrefixOfCandidates` | src/Net.Sf.Dbdeploy/Scripts/RepositorioScripts.cs:102-111 | With a cap, the walk's pending list equals the longest within-cap prefix of the uncapped candidates. Candidates after the first one above the cap are dropped, even those within the cap. |
| `ScriptRepository.TakeWithinCap` | src/Net.Sf.Dbdeploy/Scripts/RepositorioScripts.cs:102-111 | The result is a prefix of its input, and every element lies at or below the cap. When it stops short, the next element lies above the cap, so the prefix is the longest such prefix. |
| `ScriptRepository.BreakIndex` | src/Net.Sf.Dbdeploy/Scripts/RepositorioScripts.cs:107-111 | The position where the walk breaks is the first script that must be applied and lies above the cap. No earlier script is such a script, and with no break position no script is one. |
| `ScriptRepository.FindAppliedFirstMatch` | src/Net.Sf.Dbdeploy/Scripts/RepositorioScripts.cs:63-67 | The result is None exactly when no entry compares equal to the script. Otherwise it is the entry at the first position comparing equal, and every earlier entry compares unequal. |
| `ScriptRepository.FailedEntries` | src/Net.Sf.Dbdeploy/Scripts/RepositorioScripts.cs:52-56 | The result is a subsequence of the log (log order kept). It contains every entry with status `Failure` and nothing with another status, and each failed entry occurs in it as often as in the log. |
| `ReconciliationProofs.FailedEntriesAppend` | src/Net.Sf.Dbdeploy/Scripts/RepositorioScripts.cs:52-56 | The failure filter distributes over concatenation of the log: filtering a log split in two gives the two filtered halves, one after the other. |
| `ReconciliationProofs.ChangeIdAssignment` | src/Net.Sf.Dbdeploy/Scripts/RepositorioScripts.cs:86-91 | A script at or before the break point whose first entry exists but did not succeed ends with exactly that entry's `ChangeId`, with nothing else changed. Every other script is returned unchanged: new scripts, skipped scripts, and scripts after the one that ended the walk. |
| `ReconciliationProofs.CandidatesMembers` | src/Net.Sf.Dbdeploy/Scripts/RepositorioScripts.cs:77-101 | A script is in the uncapped result if and only if it is some input script that must be applied, with its entry's id assigned. |
| `ReconciliationProofs.PendingKeepsOrder` | src/Net.Sf.Dbdeploy/Scripts/RepositorioScripts.cs:71-114 | Ascending input identities give ascending pending identities. Strictly ascending input gives strictly ascending pending identities, so no identity is pending twice. This holds for every cap. |
| `ReconciliationProofs.SortedTakeIsFilter` | src/Net.Sf.Dbdeploy/Scripts/RepositorioScripts.cs:102-111 | On an ascending sequence, taking scripts until the first one above the cap gives the same result as filtering by the cap. |
| `ReconciliationProofs.SortedCapIsFilter` | src/Net.Sf.Dbdeploy/Scripts/RepositorioScripts.cs:102-111 | When the provider lists scripts in ascending order, the capped pending list is exactly the scripts that must be applied and lie at or below the cap. |
| `ReconciliationProofs.FailedEntryIsRetried` | src/Net.Sf.Dbdeploy/Scripts/RepositorioScripts.cs:79-91 | Take a script whose first entry has status `Failure` and does not claim success. That entry is among the failed entries, and with no cap the script is pending under that entry's `ChangeId`. |
| `ChangeOrder.CompareZeroIffEqual` | src/Net.Sf.Dbdeploy/Scripts/RepositorioScripts.cs:79 | Two identities compare equal exactly when they are the same identity. |
| `ChangeOrder.CompareFlip` | src/Net.Sf.Dbdeploy/Scripts/RepositorioScripts.cs:102 | Swapping the operands of the comparison negates its answer (antisymmetry). |
| `ChangeOrder.AtMostTotal` | src/Net.Sf.Dbdeploy/Scripts/RepositorioScripts.cs:102 | Any two identities are ordered one way or the other. |
| `ChangeOrder.AtMostTransitive` | src/Net.Sf.Dbdeploy/Scripts/RepositorioScripts.cs:102 | "At or below" is transitive. |
| `ChangeOrder.AboveCapStaysAbove` | src/Net.Sf.Dbdeploy/Scripts/RepositorioScripts.cs:107-110 | An identity that follows one above the cap is itself above the cap. This is why the `break` loses nothing on ascending input. |
| `Scenarios.EmptyLogAppliesBothStubs` | src/Test.Net.Sf.Dbdeploy/Database/ScriptGenerationTest.cs:66-81 | With the test's two stub scripts and an empty change log, both scripts are pending, in order. |
| `Scenarios.CapStopsAtSecondOfFour` | src/Net.Sf.Dbdeploy/Scripts/RepositorioScripts.cs:102-111 | Scripts 1 to 4, all new, with cap 2: exactly scripts 1 and 2 are pending. |
| `Scenarios.SucceededScriptIsSkipped` | src/Net.Sf.Dbdeploy/Scripts/RepositorioScripts.cs:79-93 | Script 1 succeeded before and scripts 1 to 3 are offered: exactly 2 and 3 are pending. |
| `Scenarios.FailedScriptIsRerunWithItsRow` | src/Net.Sf.Dbdeploy/Scripts/RepositorioScripts.cs:86-91 | A script whose entry failed under row 9 is pending again, carrying row 9. |
| `Scenarios.UnsortedInputStopsEarly` | src/Net.Sf.Dbdeploy/Scripts/RepositorioScripts.cs:107-111 | Out-of-order input ends the walk before a later script that lies within the cap, whereas a filter by the cap would keep that script. |

## Left out

- Fetching the inputs (`ObterTodosOsScripts`, `ObterScriptsAplicados`,
  `RepositorioScripts.cs:34-46`): these only pass on what the script provider and the
  schema version manager return, through file system and database I/O. The model takes
  their results as the `available` and `applied` parameters. `FindApplied` and
  `FailedEntries` likewise take the log as a parameter instead of fetching it.
- The concrete `CompareTo` of change scripts, change entries and unique changes is not
  part of this model. The folder-then-number order with ordinal text comparison is an
  assumption, and culture-sensitive string comparison is not modelled.
- How `ExecutedSuccessfully` derives from the status is not part of this model. It is
  an independent field.
- In-place mutation of the script objects: the effect is modelled as a returned updated
  script sequence. Aliasing between script objects (one object listed twice) is not
  modelled.
- PendingExecution: returns only the pending list, as `ObterScriptsPendenteExecucao` does.
  The `ChangeId`s the walk leaves on the provider's scripts, including the one on the
  rerun script that ends a capped walk without becoming pending, are stated through
  `Reconcile` and `IdentifyPending` (see `ChangeIdAssignment`), not through it.
- Null scripts or entries inside the input collections, and a null collection, are not
  modelled. Only a missing entry (`FirstOrDefault` returning null) and a missing cap are.
- Rendering of the pending scripts (template-based applier, dialect selection,
  delimiter modes, placeholder substitution) and the controller that drives it are not
  part of this model. The test's comparison of rendered text against expected files
  (`ScriptGenerationTest.cs:52-106`) and its file and console handling are left out
  with them.
