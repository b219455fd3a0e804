/** The telemetry feature: three HKLM policy keys that receive one value dict,
    the DiagTrack service, and five scheduled tasks. Both loops leave at the
    first failure; the three phases all run, and their verdicts are ANDed. */
module Telemetry {
  import opened Store
  import opened Attempts
  import opened RegistryManager
  import opened ServiceManager
  import opened AdminCheck
  import opened Reconcile

  const TelemetryPaths: seq<string> := [
    @"SOFTWARE\Microsoft\Windows\CurrentVersion\Diagnostics\DiagTrack",
    @"SOFTWARE\Policies\Microsoft\Windows\DataCollection",
    @"SOFTWARE\Microsoft\Windows\CurrentVersion\Policies\DataCollection"
  ]

  /** The dict display as written, `AllowTelemetry` twice. */
  const ValueEntries: seq<(string, Data)> := [
    ("DiagTrackAuthorization", Int(1)),
    ("AllowTelemetry", Int(0)),
    ("AllowDeviceNameInTelemetry", Int(0)),
    ("AllowTelemetry", Int(0)),
    ("MaxTelemetryAllowed", Int(0))
  ]

  const TelemetryValues: Dict := DictDisplay(ValueEntries)

  const TelemetryService: string := "DiagTrack"

  const TelemetryTasks: seq<string> := [
    @"Microsoft\Windows\Application Experience\Microsoft Compatibility Appraiser",
    @"Microsoft\Windows\Application Experience\ProgramDataUpdater",
    @"Microsoft\Windows\Customer Experience Improvement Program\Consolidator",
    @"Microsoft\Windows\Customer Experience Improvement Program\UsbCeip",
    @"Microsoft\Windows\Customer Experience Improvement Program\KernelCeipTask"
  ]

  const TelemetryPlan: Plan := Plan(TelemetryPaths, TelemetryValues, Some(TelemetryService), TelemetryTasks)

  class TelemetryManager {
    /** Asked once, when the manager is built. */
    const isAdmin: bool
    const machine: Machine

    constructor (machine: Machine, query: AdminQuery)
      ensures this.machine == machine && isAdmin == IsAdmin(query)
    {
      this.machine := machine;
      isAdmin := IsAdmin(query);
    }

    method DisableTelemetryRegistry() returns (success: bool)
      modifies machine
      ensures Outcome(success, machine.Snapshot())
           == ChangeSets(StopAtFirstFailure, old(machine.Snapshot()), machine.failing, TelemetryPaths, TelemetryValues)
    {
      success := ApplyChangeSets(machine, StopAtFirstFailure, TelemetryPaths, TelemetryValues);
    }

    method DisableTelemetryService() returns (success: bool)
      modifies machine
      ensures Outcome(success, machine.Snapshot())
           == StopAndDisableOutcome(old(machine.Snapshot()), machine.failing, TelemetryService)
    {
      success := StopAndDisableService(machine, TelemetryService);
    }

    method DisableTelemetryTasks() returns (success: bool)
      modifies machine
      ensures Outcome(success, machine.Snapshot())
           == TaskPhase(StopAtFirstFailure, old(machine.Snapshot()), machine.failing, TelemetryTasks)
    {
      success := DisableTasks(machine, StopAtFirstFailure, TelemetryTasks);
    }

    method DisableAllTelemetry() returns (success: bool)
      modifies machine
      ensures Outcome(success, machine.Snapshot())
           == DisableAllOutcome(isAdmin, old(machine.Snapshot()), machine.failing, TelemetryPlan)
    {
      if !isAdmin {
        return false;
      }
      var registry := DisableTelemetryRegistry();
      var service := DisableTelemetryService();
      var tasks := DisableTelemetryTasks();
      success := registry && service && tasks;
    }
  }

  // ---------------------------------------------------------------------
  // Properties

  /** The duplicate `AllowTelemetry` entry collapses: the dict written to each
      key has four names, in first-appearance order, all 0 except
      `DiagTrackAuthorization`. */
  lemma TelemetryValuesCollapse()
    ensures TelemetryValues == [("DiagTrackAuthorization", Int(1)),
                                ("AllowTelemetry", Int(0)),
                                ("AllowDeviceNameInTelemetry", Int(0)),
                                ("MaxTelemetryAllowed", Int(0))]
  {
    var e := ValueEntries;
    DisplayFiveRepeatingSecond(e[0], e[1], e[2], e[3], e[4]);
  }

  /** Without rights the aggregate reports failure and the machine, log
      included, is as it was. */
  lemma DisableAllTelemetryWithoutRights(st: State, failing: set<Op>)
    ensures DisableAllOutcome(false, st, failing, TelemetryPlan) == Outcome(false, st)
  {
    DisableAllWithoutRights(st, failing, TelemetryPlan);
  }

  /** The aggregate succeeds exactly when it has rights, no key creation or
      value write under the three paths fails, DiagTrack exists and is running
      and both `sc` commands succeed, and all five tasks exist and can be disabled. */
  lemma DisableAllTelemetryOkIff(isAdmin: bool, st: State, failing: set<Op>)
    ensures DisableAllOutcome(isAdmin, st, failing, TelemetryPlan).ok
        <==> && isAdmin
             && (forall i :: 0 <= i < |TelemetryPaths| ==>
                   ChangeSetSucceeds(failing, Key(LocalMachine, TelemetryPaths[i]), RegDword, TelemetryValues))
             && "DiagTrack" in st.services && st.services["DiagTrack"].running
             && ScStop("DiagTrack") !in failing && ScDisable("DiagTrack") !in failing
             && (forall i :: 0 <= i < |TelemetryTasks| ==>
                   TelemetryTasks[i] in st.tasks && SchtasksDisable(TelemetryTasks[i]) !in failing)
  {
    DisableAllOkIff(isAdmin, st, failing, TelemetryPlan);
  }

  /** With rights all three phases run, Registry, Service, Tasks, whatever
      the earlier ones returned: the log holds the opening of the first
      DiagTrack policy key, later `sc stop DiagTrack` directly followed by
      `sc config DiagTrack start=disabled`, and after those the disabling of
      the Compatibility Appraiser task. */
  lemma DisableAllTelemetryRunsEveryPhase(st: State, failing: set<Op>)
    ensures var tr := DisableAllOutcome(true, st, failing, TelemetryPlan).post.trace;
            exists a :: |st.trace| < a && a + 2 < |tr|
                     && tr[|st.trace|] == RegCreate(Key(LocalMachine, TelemetryPaths[0]))
                     && tr[a] == ScStop("DiagTrack") && tr[a + 1] == ScDisable("DiagTrack")
                     && tr[a + 2] == SchtasksDisable(TelemetryTasks[0])
  {
    var registry := ChangeSets(StopAtFirstFailure, st, failing, TelemetryPaths, TelemetryValues);
    DisableAllAttemptsEveryPhase(st, failing, TelemetryPlan);
    var a := |registry.post.trace|;
    assert |st.trace| < a;
  }

  /** When no registry batch fails, the log of a run with rights opens with
      the creation and the writes of the three policy keys, one key after the
      other in listed order; right after them come `sc stop DiagTrack`,
      `sc config DiagTrack start=disabled` and the first task's disable. */
  lemma DisableAllTelemetryLogInOrder(st: State, failing: set<Op>)
    requires AllChangeSetsSucceed(failing, TelemetryPaths, TelemetryValues)
    ensures LogContinues(DisableAllOutcome(true, st, failing, TelemetryPlan).post.trace,
                         st.trace + PhaseOps(TelemetryPaths, TelemetryValues),
                         ScStop("DiagTrack"), ScDisable("DiagTrack"), SchtasksDisable(TelemetryTasks[0]))
  {
    DisableAllLogWhenRegistrySucceeds(st, failing, TelemetryPlan);
  }

  /** After a successful run every policy key holds the four values as
      REG_DWORD, DiagTrack is stopped with start mode disabled, and every
      listed task is disabled. */
  lemma DisableAllTelemetrySuccess(isAdmin: bool, st: State, failing: set<Op>)
    requires DisableAllOutcome(isAdmin, st, failing, TelemetryPlan).ok
    ensures var post := DisableAllOutcome(isAdmin, st, failing, TelemetryPlan).post;
            && (forall i, j :: 0 <= i < |TelemetryPaths| && 0 <= j < |TelemetryValues| ==>
                  var k := Key(LocalMachine, TelemetryPaths[i]);
                  k in post.registry && TelemetryValues[j].0 in post.registry[k]
                  && post.registry[k][TelemetryValues[j].0] == RegValue(RegDword, TelemetryValues[j].1))
            && "DiagTrack" in post.services && post.services["DiagTrack"] == ServiceState(false, true)
            && (forall i :: 0 <= i < |TelemetryTasks| ==> TelemetryTasks[i] in post.tasks && !post.tasks[TelemetryTasks[i]])
  {
    DisableAllSuccess(isAdmin, st, failing, TelemetryPlan);
    var post := DisableAllOutcome(isAdmin, st, failing, TelemetryPlan).post;
    forall i, j | 0 <= i < |TelemetryPaths| && 0 <= j < |TelemetryValues|
      ensures var k := Key(LocalMachine, TelemetryPaths[i]);
              k in post.registry && TelemetryValues[j].0 in post.registry[k]
              && post.registry[k][TelemetryValues[j].0] == RegValue(RegDword, TelemetryValues[j].1)
    {
      assert HasValues(post.registry, Key(LocalMachine, TelemetryPaths[i]), RegDword, TelemetryValues);
    }
  }

  /** Running the aggregate again after a successful run changes nothing but
      the log, and reports failure: DiagTrack is stopped by then, so the second
      `sc stop DiagTrack` exits with 1062. */
  lemma DisableAllTelemetryIdempotent(isAdmin: bool, st: State, failing: set<Op>)
    requires DisableAllOutcome(isAdmin, st, failing, TelemetryPlan).ok
    ensures var once := DisableAllOutcome(isAdmin, st, failing, TelemetryPlan).post;
            var twice := DisableAllOutcome(isAdmin, once, failing, TelemetryPlan);
            !twice.ok && SameContents(twice.post, once)
  {
    DisableAllIdempotent(isAdmin, st, failing, TelemetryPlan);
  }

  /** Nothing but the three keys, DiagTrack and the five tasks changes, and
      the log only grows. */
  lemma DisableAllTelemetryConfined(isAdmin: bool, st: State, failing: set<Op>)
    ensures var post := DisableAllOutcome(isAdmin, st, failing, TelemetryPlan).post;
            && |st.trace| <= |post.trace| && post.trace[..|st.trace|] == st.trace
            && (forall k :: RegKey(k) !in PathTargets(TelemetryPaths) ==> Get(post.registry, k) == Get(st.registry, k))
            && (forall s :: s != "DiagTrack" ==> Get(post.services, s) == Get(st.services, s))
            && (forall t :: t !in TelemetryTasks ==> Get(post.tasks, t) == Get(st.tasks, t))
  {
    DisableAllLeavesRestAlone(isAdmin, st, failing, TelemetryPlan);
  }
}
