# WScript feature reconciliation, modelled in Dafny

WScript is a set of Windows tweaking scripts. Each "feature manager" drives one
subsystem (telemetry, Cortana, the classic context menu, Copilot) toward a
disabled or activated state. It does so through a fixed sequence of registry
writes, service-control commands (`sc stop`, `sc config ... start=disabled`) and
scheduled-task commands (`schtasks /change /tn ... /disable`). It then combines
the verdicts into one boolean, behind an administrator check.

The model replaces the operating system with an abstract store (`Store.State`):
- a registry: (hive, key path) to a table of value names and typed values;
- a service database: name to (running, start disabled);
- a task scheduler: task path to an enabled flag;
- a log of every primitive operation attempted, in order.

Besides the failures the state itself decides, which primitives fail is the
injected set `failing`. It stands for `WindowsError` and non-zero
`sc`/`schtasks` exit codes that the modelled state does not explain. The failures
the state decides are these:
- deleting an absent value;
- `sc` on an unknown service, and `schtasks` on an unknown task;
- `sc stop` on a service that is not running, which exits with error 1062.

The class `Store.Machine` holds the live store. Its one method `Perform` issues a primitive, and the pure function
`Store.Step` specifies what that does.

Every manager method in the source becomes a method on that machine. The method
is proved equal to a pure outcome function of the old state. The promises of the
source are proved as lemmas about those functions:
- ordering and early abort;
- "not attempted";
- AND aggregation;
- no change without administrator rights;
- nothing outside the named keys, services and tasks changes;
- what a repeated run does. For telemetry the registry and task phases repeat cleanly. The service phase reports failure, because DiagTrack is no longer running.

Modules, one per source file, plus shared ones:
- `Store` is the abstract OS and the machine.
- `Attempts` is the generic "attempt operations in order" loop, under two policies: leave at the first failure (`break`) or go on (`continue`).
- `RegistryManager`, `ServiceManager` and `AdminCheck` are the three adapters in `src/core`.
- `Reconcile` is the common shape of a feature manager. A `Plan` holds key paths, one value dict, an optional service and a task list. The module has the registry loop, the task loop and the admin-gated aggregate.
- `Telemetry`, `Cortana`, `LegacyTelemetry` (the standalone `src/telemetry_manager.py`), `ContextMenu` and `Copilot` are the feature managers themselves.

Behaviour of the program worth knowing:
- **Missing services and tasks.** `sc` and `schtasks` are run even for a service or task that does not exist. They then exit non-zero, and the manager reports failure. `Store.Succeeds` fails such a command.
- **Stopped services.** `sc stop` on a service that is already stopped exits non-zero (1062). `stop_service` then reports False. So a second `disable_all_telemetry` reports False even though nothing is left to change (`Telemetry.DisableAllTelemetryIdempotent`).
- **No probing or verification.** No source file probes whether a service exists before acting on it, or reads back the final state.
- **The telemetry adapter.** `src/features/telemetry.py` stops and disables DiagTrack via `stop_and_disable_service`, so both commands are always attempted. The legacy script skips the disable when the stop fails. Both behaviours are modelled and compared (`LegacyTelemetry.LegacyServiceComparedToAdapter`).

A Python dict display with a repeated key keeps the first position and takes the
last value. `RegistryManager.DictDisplay` models this, and `DictDisplayFirstPosition` and
`DictDisplayLastValue` prove both halves of the rule. The telemetry dict names
`AllowTelemetry` twice, so four names are written.

## Model

| member | source | states |
|---|---|---|
| RegistryManager.SetRegistryValue | src/core/registry_manager.py:24-31 | The verdict and the new machine state are those of `SetRegistryValueOutcome`: CreateKeyEx on HKLM, then one SetValueEx with the given type (default REG_DWORD). |
| RegistryManager.SetRegistryValueFacts | src/core/registry_manager.py:24-31 | True exactly when neither the key creation nor the write fails. On success the key exists and `value_name` maps to the typed value, while every other name and key is unchanged. An absent key is created, not an error. On failure the key's table is as it was. Only that key is touched. |
| RegistryManager.SetRegistryValueIsBatchOfOne | src/core/registry_manager.py:24-31 | Setting one value is the batch write of the one-entry dict. |
| RegistryManager.SetMultipleValues | src/core/registry_manager.py:50-58 | The verdict and the new state are those of `SetMultipleOutcome`: create the key, then write the names in dict order, leaving at the first failing write. |
| RegistryManager.AsMap | src/core/registry_manager.py:52-53 | The table a dict's writes produce: its keys are the dict's names, and with unique names each maps to its own typed value. |
| RegistryManager.RunWritesEffect | src/core/registry_manager.py:52-53 | When no write fails, the writes succeed and overlay the dict on the key's table, and the log grows by exactly those writes. |
| RegistryManager.SetMultipleOkIff | src/core/registry_manager.py:50-58 | True exactly when neither the key creation nor any value write fails. |
| RegistryManager.SetMultipleEffect | src/core/registry_manager.py:51-55 | On success the key's table is the old table overlaid with the dict. The log is the creation followed by the writes in dict order. |
| RegistryManager.SetMultipleSuccess | src/core/registry_manager.py:50-55 | After success every name of the dict maps to its typed value. Names outside the dict, other keys, services and tasks are unchanged. |
| RegistryManager.FirstFailedWrite | src/core/registry_manager.py:52-53 | For a batch that does not fully succeed: the index of a failing write before which no write fails. |
| RegistryManager.SetMultipleNoRollback | src/core/registry_manager.py:52-58 | When write j is the first to fail, the result is False and writes 0..j-1 stay in place (no rollback). The log ends at the failing write: later names are not attempted. |
| RegistryManager.SetMultipleOpenFails | src/core/registry_manager.py:50-58 | When the key creation fails, the result is False, nothing is written and only the creation is logged. |
| RegistryManager.SetMultipleOpensFirst | src/core/registry_manager.py:51-53 | The first operation a batch write attempts is the creation of its key. |
| RegistryManager.SetMultipleConfined | src/core/registry_manager.py:50-58 | A batch write, successful or not, touches only its own key and only appends to the log. |
| RegistryManager.SetMultipleKeepsValues | src/core/registry_manager.py:50-58 | Any batch write of a dict keeps every key that already holds that dict's values holding them, whether the write succeeds or fails part-way. |
| RegistryManager.SetMultipleIdempotent | src/core/registry_manager.py:50-55 | A second batch write after a successful one succeeds and changes nothing but the log. |
| RegistryManager.SetMultipleNoChange | src/core/registry_manager.py:50-55 | On a key already holding the values, with nothing failing, a batch write succeeds and changes nothing but the log. |
| RegistryManager.DeleteValue | src/core/registry_manager.py:72-79 | The verdict and the new state are those of `DeleteValueOutcome`: CreateKeyEx (which creates an absent key), then DeleteValue. |
| RegistryManager.DeleteValueFacts | src/core/registry_manager.py:72-79 | True exactly when neither call fails and the name is present. On success only that name is removed from the key. On failure the key's table is unchanged. Only that key is touched, and services and tasks are untouched. |
| RegistryManager.DeleteUndoesSet | src/core/registry_manager.py:72-76 | Deleting a name just set leaves the key's table as it was before the set, without that name. |
| RegistryManager.CreateAndSetFacts | src/core/registry_manager.py:25-26 | CreateKey followed by one SetValueEx on any key: true exactly when neither fails. On success the table is the old one with that name set. The key exists whenever its creation succeeded. On failure the table is unchanged. Only that key is touched. |
| RegistryManager.CreateAndSetIdempotent | src/core/registry_manager.py:25-26 | Repeating a successful create-and-set succeeds and changes nothing but the log. |
| RegistryManager.CreateAndSetRepeat | src/core/registry_manager.py:25-26 | Repeating a create-and-set, whatever the first attempt returned, gives the same verdict and changes nothing but the log. A failed creation fails again, and a failed write finds the key already created. |
| RegistryManager.DictDisplay | src/features/telemetry.py:25-31 | A dict display yields unique names, and exactly the names of its entries. |
| RegistryManager.Insert | src/features/telemetry.py:25-31 | Storing a name adds it to the names and keeps them unique. A name already present leaves the length unchanged. A new name is appended at the end with its value. |
| RegistryManager.InsertKeepsPosition | src/features/telemetry.py:25-31 | In a dict with unique names, storing a name already present puts the new value at that name's position and leaves every other entry where it was. |
| RegistryManager.DictDisplayLastValue | src/features/telemetry.py:25-31 | Each name of a dict display holds the value of the last entry with that name. |
| RegistryManager.DictDisplayFirstPosition | src/features/telemetry.py:25-31 | The names of a dict display come in the order of their first entries, so a repeated key stays at its first position. |
| Attempts.RunOkIff | src/features/telemetry.py:61-70 | Under either loop policy the verdict is true exactly when every operation succeeds. |
| Attempts.RunStopsAtFirstFailure | src/features/telemetry.py:61-68 | Under `break`: when operation j is the first to fail, the result is False and the state is the first j operations' plus the logged failure. Later operations are not attempted. |
| Attempts.RunContinueAttemptsAll | src/telemetry_manager.py:85-90 | Under `continue`: every operation is attempted, in order. |
| Attempts.RunPoliciesAgree | src/telemetry_manager.py:85-90 | When nothing fails, the two policies give the same verdict and state, and both attempt every operation. |
| Attempts.RunConfined | src/features/telemetry.py:61-68 | A loop touches only the targets of its operations and only appends to the log. |
| ServiceManager.StopService | src/core/service_manager.py:16-21 | The verdict and the new state are one `sc stop` step. |
| ServiceManager.StopServiceFacts | src/core/service_manager.py:16-21 | True exactly when the service exists, is running, and the command does not fail otherwise. A stopped service gives 1062 and False. On success the service is not running, and its start mode and all else are unchanged. |
| ServiceManager.DisableService | src/core/service_manager.py:34-39 | The verdict and the new state are one `sc config ... start=disabled` step. |
| ServiceManager.DisableServiceFacts | src/core/service_manager.py:34-39 | True exactly when the service exists and the command does not fail. Then the start mode is disabled and the running flag is unchanged. |
| ServiceManager.StopAndDisableOutcome | src/core/service_manager.py:52-54 | Stop then disable, both always attempted in that order. The verdict is the AND of each command's own verdict: true exactly when the service exists, is running, and neither command fails. Each command that succeeded has its effect independently of the other. The registry and tasks are unchanged. |
| ServiceManager.StopAndDisableService | src/core/service_manager.py:52-54 | The method, keeping `stopSuccess` and `disableSuccess`, has exactly the verdict and state of `StopAndDisableOutcome`. |
| ServiceManager.StopAndDisableConfined | src/core/service_manager.py:52-54 | Only the named service changes. |
| ServiceManager.StopAndDisableIdempotent | src/core/service_manager.py:52-54 | After a successful run a second run changes nothing, and reports False: the stop of the now-stopped service exits with 1062. |
| AdminCheck.IsAdmin | src/core/admin_check.py:13-16 | Fails closed: false when the query raises, otherwise true exactly when the returned BOOL is non-zero. |
| AdminCheck.RequireAdmin | src/core/admin_check.py:32-35 | Without rights the wrapper yields PermissionError and leaves the state alone. With rights it returns exactly the wrapped function's result and state, for the same arguments. |
| AdminCheck.RequireAdminNeverCallsWithoutRights | src/core/admin_check.py:32-34 | Without rights the wrapper's behaviour does not depend on the wrapped function at all: it is never invoked. |
| AdminCheck.RequireAdminAsksEachCall | src/core/admin_check.py:33-35 | One wrapped function refuses under a denying query and calls through under a granting one: the status is asked per call, not captured. |
| Reconcile.ApplyChangeSets | src/features/telemetry.py:33-39 | The `success`-flag loop over the key paths has exactly the verdict and state of `ChangeSets` under the given policy. |
| Reconcile.ChangeSetsOkIff | src/features/telemetry.py:33-39 | The registry phase returns True exactly when every path's batch write succeeds. |
| Reconcile.ChangeSetsStopsAtFirstFailure | src/features/telemetry.py:33-37 | Under `break`, when path j is the first to fail, the result is False and equals running only paths 0..j: later paths are not touched. |
| Reconcile.ChangeSetsContinueAttemptsAll | src/telemetry_manager.py:41-49 | Under `continue`, every path's key is opened. |
| Reconcile.ChangeSetsContinueWritesLaterPaths | src/telemetry_manager.py:41-49 | Under `continue`, a path whose own batch and all later batches succeed ends up holding the values, whatever failed before it. |
| Reconcile.ChangeSetsKeepsValues | src/features/telemetry.py:33-37 | A key already holding the values keeps them through the whole phase. |
| Reconcile.ChangeSetsSuccess | src/features/telemetry.py:33-39 | After a successful phase every path's key holds every value as REG_DWORD. |
| Reconcile.ChangeSetsNoChange | src/features/telemetry.py:33-39 | With every key already written and nothing failing, the phase succeeds and changes nothing. |
| Reconcile.ChangeSetsConfined | src/features/telemetry.py:33-37 | The phase touches only the listed keys. |
| Reconcile.ChangeSetsAllSucceedTrace | src/features/telemetry.py:33-39 | When no path's batch fails, the phase succeeds under either policy. Its log is, path after path in listed order, the key's creation followed by its writes in dict order. |
| Reconcile.ChangeSetsKeepsServices | src/features/telemetry.py:33-37 | The registry phase leaves services and tasks exactly as they were. |
| Reconcile.ChangeSetsOpensFirst | src/features/telemetry.py:34-35 | The phase's first operation opens the first listed path. |
| Reconcile.DisableTasks | src/features/telemetry.py:61-70 | The `success`-flag loop over the tasks has exactly the verdict and state of `TaskPhase`. |
| Reconcile.TaskPhaseOkIff | src/features/telemetry.py:61-70 | True exactly when every task exists and no `schtasks` call fails. |
| Reconcile.TaskPhaseStopsAtFirstFailure | src/features/telemetry.py:61-68 | Under `break`, when task j is the first to fail, the result is False. The state is that after tasks 0..j-1, plus the logged attempt on j. |
| Reconcile.TaskPhaseAttemptsFirst | src/features/telemetry.py:62-64 | The first task is attempted first. |
| Reconcile.TaskPhaseKeepsDisabled | src/features/telemetry.py:61-68 | A task already disabled stays disabled. |
| Reconcile.TaskPhaseSuccess | src/features/telemetry.py:61-70 | After a successful phase every listed task is disabled. |
| Reconcile.TaskPhaseNoChange | src/features/telemetry.py:61-70 | With every task already disabled and nothing failing, the phase succeeds and changes nothing. |
| Reconcile.TaskPhaseConfined | src/features/telemetry.py:61-68 | Only the listed tasks change, and the registry and services are untouched. |
| Reconcile.ServicePhaseFacts | src/features/telemetry.py:46 | The service phase succeeds exactly when the service exists, is running, and both commands succeed. It then leaves the service stopped and disabled, touching only that service. |
| Reconcile.ServicePhaseNoChange | src/features/telemetry.py:46 | On a service already stopped and disabled the phase changes nothing, whatever fails. It reports False, since `sc stop` exits with 1062; a plan without a service reports True. |
| Reconcile.DisableAllWithoutRights | src/features/telemetry.py:77-79 | Without rights the aggregate returns False and the machine, log included, is unchanged. |
| Reconcile.DisableAllOkIff | src/features/telemetry.py:81-87 | The aggregate is true exactly when there are rights and all three phases' own success conditions hold. |
| Reconcile.DisableAllAttemptsEveryPhase | src/features/telemetry.py:81-85 | With rights all phases run whatever the earlier ones returned, in the order registry, service, tasks. The log is the registry phase's log, then stop and disable, then the first task's disable. |
| Reconcile.ServiceFollowsRegistry | src/features/telemetry.py:81-85 | With rights and with a service and a task, whatever the registry phase returned, its log is directly followed by the service's stop and disable and then the first task's disable. |
| Reconcile.DisableAllLogWhenRegistrySucceeds | src/features/telemetry.py:33-46 | When no registry batch fails, the log with rights starts with every path's creation and writes in listed order. Directly after come the service's stop and disable, then the first task's disable. |
| Reconcile.DisableAllConfined | src/features/telemetry.py:72-93 | Only the plan's keys, service and tasks change. |
| Reconcile.DisableAllLeavesRestAlone | src/features/telemetry.py:72-93 | The log only grows. Every key, service and task not named by the plan is unchanged. |
| Reconcile.DisableAllSuccess | src/features/telemetry.py:81-87 | After a successful run everything the plan asks for is in place. |
| Reconcile.DisableAllNoChange | src/features/telemetry.py:81-87 | On a reconciled machine where no registry or task operation fails, the aggregate changes nothing but the log. It reports True exactly when the plan has no service, since a stopped service's `sc stop` exits with 1062. |
| Reconcile.DisableAllIdempotent | src/features/telemetry.py:72-93 | A second run after a successful one changes nothing but the log. It reports True exactly when the plan has no service. |
| Reconcile.DisableAllOkIffOnePathOneTask | src/features/cortana.py:78-83 | For a one-path, one-task plan without a service: true exactly when there are rights, the batch write succeeds, and the task exists and is disabled without failure. |
| Reconcile.DisableAllSuccessOnePathOneTask | src/features/cortana.py:78-83 | After success of such a plan its key holds the values and its task is disabled. |
| Telemetry.TelemetryManager.constructor | src/features/telemetry.py:7-10 | The admin status is asked once, fail-closed, and kept. |
| Telemetry.TelemetryManager.DisableTelemetryRegistry | src/features/telemetry.py:12-39 | The same dict is written to the three HKLM paths in order, leaving at the first failing path. |
| Telemetry.TelemetryManager.DisableTelemetryService | src/features/telemetry.py:41-46 | Exactly `stop_and_disable_service("DiagTrack")`. |
| Telemetry.TelemetryManager.DisableTelemetryTasks | src/features/telemetry.py:48-70 | The five tasks in order, leaving at the first failure. |
| Telemetry.TelemetryManager.DisableAllTelemetry | src/features/telemetry.py:72-93 | The admin gate, then the three phases, with the AND as verdict. |
| Telemetry.TelemetryValuesCollapse | src/features/telemetry.py:25-31 | The dict written has four distinct names in first-appearance order. The repeated `AllowTelemetry` is 0, and all are 0 but `DiagTrackAuthorization`. |
| Telemetry.DisableAllTelemetryWithoutRights | src/features/telemetry.py:77-79 | Without rights: False, and nothing changes or is attempted. |
| Telemetry.DisableAllTelemetryOkIff | src/features/telemetry.py:81-87 | True exactly when there are rights, all three keys' writes succeed, DiagTrack exists and is running and both `sc` commands succeed, and all five tasks exist and are disabled without failure. |
| Telemetry.DisableAllTelemetryRunsEveryPhase | src/features/telemetry.py:81-85 | With rights the log holds the first key's opening first. Later comes `sc stop DiagTrack`, directly followed by `sc config`, and then the first task's disable. |
| Telemetry.DisableAllTelemetryLogInOrder | src/features/telemetry.py:33-46 | When no registry batch fails, the log opens with the three policy keys, each key's creation and then its writes, in listed order. Right after come `sc stop DiagTrack`, `sc config DiagTrack start=disabled` and the first task's disable. |
| Telemetry.DisableAllTelemetrySuccess | src/features/telemetry.py:81-87 | After success each key holds every value, DiagTrack is stopped and disabled, and every task is disabled. |
| Telemetry.DisableAllTelemetryIdempotent | src/features/telemetry.py:72-93 | A second run after success changes nothing but the log, and reports False: DiagTrack is stopped, so its `sc stop` exits with 1062. |
| Telemetry.DisableAllTelemetryConfined | src/features/telemetry.py:72-93 | Nothing but the three keys, DiagTrack and the five tasks changes, and the log only grows. |
| Cortana.CortanaManager.constructor | src/features/cortana.py:7-10 | The admin status is asked once, fail-closed, and kept. |
| Cortana.CortanaManager.DisableCortanaRegistry | src/features/cortana.py:12-35 | The three values are written under SearchSettings, with the `break` policy. |
| Cortana.CortanaManager.DisableCortanaService | src/features/cortana.py:37-42 | Exactly `stop_and_disable_service("Cortana")`. |
| Cortana.CortanaManager.DisableCortanaTasks | src/features/cortana.py:44-64 | The CortanaConsent task, with the `break` policy. |
| Cortana.CortanaManager.DisableAllCortana | src/features/cortana.py:66-90 | The admin gate, then the registry and task phases only, with the AND as verdict. |
| Cortana.CortanaValuesAsWritten | src/features/cortana.py:23-27 | The dict is the three entries as written: CortanaConsent, CortanaEnabled and AllowCortana, all 0. |
| Cortana.CortanaRegistryIsOneBatch | src/features/cortana.py:29-35 | The registry phase is one batch write under the SearchSettings key, and is true exactly when that write succeeds. |
| Cortana.CortanaTasksIsOneStep | src/features/cortana.py:54-64 | The task phase is one `schtasks` call on CortanaConsent, so it is False when that call fails. |
| Cortana.DisableAllCortanaWithoutRights | src/features/cortana.py:71-73 | Without rights: False, and no mutation. |
| Cortana.DisableAllCortanaOkIff | src/features/cortana.py:78-83 | True exactly when there are rights, the SearchSettings write succeeds, and the task exists and is disabled without failure. |
| Cortana.DisableAllCortanaLeavesServices | src/features/cortana.py:78-81 | The service phase is never run: services, the Cortana service included, are unchanged. Nothing outside the key and the task changes. |
| Cortana.DisableAllCortanaRunsBothPhases | src/features/cortana.py:78-81 | With rights the key's opening is logged first, and the task's disable later, even when the registry phase fails. |
| Cortana.DisableAllCortanaSuccess | src/features/cortana.py:78-83 | After success the key holds the dict's values as REG_DWORD and the task is disabled. |
| Cortana.DisableAllCortanaIdempotent | src/features/cortana.py:66-90 | A second run after success succeeds and changes nothing but the log. |
| LegacyTelemetry.TelemetryManager.constructor | src/telemetry_manager.py:9-17 | The admin status is asked once, in the constructor, fail-closed. |
| LegacyTelemetry.TelemetryManager.DisableTelemetryRegistry | src/telemetry_manager.py:24-54 | Each path is tried with `continue`, and the verdict is true. |
| LegacyTelemetry.TelemetryManager.DisableTelemetryService | src/telemetry_manager.py:61-69 | `sc stop`, and only if that succeeded, `sc config`. |
| LegacyTelemetry.TelemetryManager.DisableTelemetryTasks | src/telemetry_manager.py:76-95 | Every task is tried with `continue`, and the verdict is true. |
| LegacyTelemetry.TelemetryManager.DisableAllTelemetry | src/telemetry_manager.py:102-118 | The admin gate, then the three phases, with the AND as verdict. |
| LegacyTelemetry.RunScript | src/telemetry_manager.py:120-127 | Without rights the machine is left exactly as it was. With rights it runs the aggregate. |
| LegacyTelemetry.LegacyRegistryAttemptsEveryPath | src/telemetry_manager.py:41-51 | The phase returns True whatever fails, yet every path's key is opened. |
| LegacyTelemetry.LegacyRegistryWritesLaterPaths | src/telemetry_manager.py:41-49 | A path whose own block and all later blocks succeed holds the values, even after an earlier path failed. |
| LegacyTelemetry.LegacyServiceFacts | src/telemetry_manager.py:61-69 | True exactly when DiagTrack exists and is running and both commands succeed. When the stop fails the disable is not attempted and the service is untouched. |
| LegacyTelemetry.LegacyServiceComparedToAdapter | src/telemetry_manager.py:61-69 | Same verdict as `stop_and_disable_service`. But when the stop fails and the disable would not, the adapter disables the service and the legacy step does not. This covers an injected error and a DiagTrack already stopped (1062). |
| LegacyTelemetry.LegacyTasksAttemptAll | src/telemetry_manager.py:85-92 | All five tasks are attempted in order, and the verdict is true. |
| LegacyTelemetry.LegacyDisableAllWithoutRights | src/telemetry_manager.py:102-104 | Without rights: False, and no phase runs. |
| LegacyTelemetry.LegacyDisableAllIsServiceVerdict | src/telemetry_manager.py:106-112 | The aggregate is true exactly when there are rights, DiagTrack exists and is running, and both `sc` commands succeed: the service step's verdict. |
| ContextMenu.ContextMenuManager.CreateOldContextMenuKey | src/features/context_menu.py:11-18 | CreateKey on the HKCU CLSID path, then the default value "" as REG_SZ. Failures are caught and nothing is returned. |
| ContextMenu.ContextMenuManager.CheckKeyExists | src/features/context_menu.py:24-29 | True exactly when the HKCU key exists. The query changes nothing. |
| ContextMenu.CreateOldContextMenuKeyFacts | src/features/context_menu.py:13-15 | Once the creation succeeds the key exists, so a later check finds it. After a full success the default value is "" as REG_SZ and the key's other names are unchanged. Nothing else changes. |
| ContextMenu.CreateOldContextMenuKeyIdempotent | src/features/context_menu.py:13-14 | Creating twice, whether or not the first call succeeded, gives the same verdict twice and leaves the machine as one call did, apart from the log. |
| Copilot.CopilotManager.DisableCopilot | src/features/copilot.py:7-14 | CreateKeyEx on the HKCU path, then `DisableCopilot` = 1 as REG_DWORD. Failures are caught, and there is no admin check. |
| Copilot.DisableCopilotFacts | src/features/copilot.py:9-10 | True exactly when neither call fails. The key is created if absent. After success `DisableCopilot` is 1 and other names under the key are unchanged. Nothing else changes. |
| Copilot.DisableCopilotSharesContextMenuKey | src/features/copilot.py:5 | The path is the context-menu path: a successful creation makes the context-menu check succeed, and an existing default value survives. |
| Copilot.DisableCopilotIdempotent | src/features/copilot.py:9-10 | Disabling twice, whether or not the first call succeeded, gives the same verdict twice and leaves the machine as one call did, apart from the log. |

## Left out

- Real `winreg`, `ctypes.windll` and `subprocess` calls are replaced by the abstract store and the failure set. Key handles and `CloseKey` are not modelled.
- All `print` output and message wording.
- `src/core/log_manager.py` (logging set-up, a side channel), `src/features/intscan.py` (launches `sfc`/DISM and echoes their output) and `main.py` (a thin dispatcher) are not part of this model.
- Failures that the modelled state does not explain form one fixed set per machine, the same for every call. Examples are access denied, or a service that cannot be stopped. A command that fails that way once fails every time. The exception is a failure the state decides, such as 1062 for a stopped service.
- Registry key paths and value names are compared exactly as written. Windows compares them without regard to case, so two spellings of one key are two keys here.
- SetMultipleConfined, SetMultipleSuccess, SetRegistryValueFacts, CreateAndSetFacts, DeleteValueFacts, DisableAllLeavesRestAlone, DisableAllTelemetryConfined, CreateOldContextMenuKeyFacts, DisableCopilotFacts: "every other key is unchanged" is stated under the exact comparison above. It does not account for the missing parent keys that `CreateKey`/`CreateKeyEx` also create. On the fixed paths the managers use, nothing else in the model reads such a parent key.
- `FileNotFoundError`, raised when `sc` or `schtasks` itself is missing, escapes the `CalledProcessError` handlers. Launching processes is not modelled.
- DWORD range checks and `TypeError`s from SetValueEx on a mistyped value are not modelled: every write either succeeds or is in the failure set.
- `ContextMenu.ContextMenuManager.CheckKeyExists`: an OpenKey that fails for a reason other than absence (for example, access denied) is not modelled. The check is true exactly when the key exists.
- The legacy registry and task phases have an outer `except Exception` that returns False. No modelled operation raises past the inner handlers, so that branch is unreachable here.
- In `src/telemetry_manager.py` the task names are non-raw strings. The one containing `\UsbCeip` is an invalid escape that stops Python 3 from compiling the file. The model takes the intended task names and does not reproduce this defect.
- `LegacyTelemetry.TelemetryManager.DisableTelemetryRegistry`: the legacy script writes inline with `winreg`, not through `RegistryManager`. The model reuses `SetMultipleOutcome`, which issues the same calls in the same order on the same HKLM keys.
