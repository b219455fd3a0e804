/** The standalone telemetry script that predates the managers. It uses the
    same paths, value dict and task names as the telemetry feature, but both
    of its loops go on after a failure and report success anyway, and its
    service step skips the disable when the stop fails. */
module LegacyTelemetry {
  import opened Store
  import opened Attempts
  import opened RegistryManager
  import opened ServiceManager
  import opened AdminCheck
  import opened Reconcile
  import opened Telemetry

  /** Each path's own open-and-write block; a failing path is skipped. The
      phase always reports success. */
  function LegacyRegistryOutcome(st: State, failing: set<Op>): Outcome {
    Outcome(true, ChangeSets(ContinueAfterFailure, st, failing, TelemetryPaths, TelemetryValues).post)
  }

  /** `sc stop DiagTrack`, and only if that succeeded, `sc config`. */
  function LegacyServiceOutcome(st: State, failing: set<Op>): Outcome {
    var stop := Step(st, failing, ScStop(TelemetryService));
    if !stop.ok then stop else Step(stop.post, failing, ScDisable(TelemetryService))
  }

  /** Every task attempted; the phase always reports success. */
  function LegacyTasksOutcome(st: State, failing: set<Op>): Outcome {
    Outcome(true, TaskPhase(ContinueAfterFailure, st, failing, TelemetryTasks).post)
  }

  function LegacyDisableAllOutcome(isAdmin: bool, st: State, failing: set<Op>): Outcome {
    if !isAdmin then Outcome(false, st)
    else
      var registry := LegacyRegistryOutcome(st, failing);
      var service := LegacyServiceOutcome(registry.post, failing);
      var tasks := LegacyTasksOutcome(service.post, failing);
      Outcome(registry.ok && service.ok && tasks.ok, tasks.post)
  }

  class TelemetryManager {
    /** Asked once, when the manager is built; a raising query counts as no rights. */
    const isAdmin: bool
    const machine: Machine

    constructor (machine: Machine, query: AdminQuery)
      ensures this.machine == machine && isAdmin == IsAdmin(query)
    {
      this.machine := machine;
      isAdmin := IsAdmin(query);
    }

    method DisableTelemetryRegistry() returns (success: bool)
      modifies machine
      ensures Outcome(success, machine.Snapshot()) == LegacyRegistryOutcome(old(machine.Snapshot()), machine.failing)
    {
      var written := ApplyChangeSets(machine, ContinueAfterFailure, TelemetryPaths, TelemetryValues);
      success := true;
    }

    method DisableTelemetryService() returns (success: bool)
      modifies machine
      ensures Outcome(success, machine.Snapshot()) == LegacyServiceOutcome(old(machine.Snapshot()), machine.failing)
    {
      success := machine.Perform(ScStop(TelemetryService));
      if !success {
        return;
      }
      success := machine.Perform(ScDisable(TelemetryService));
    }

    method DisableTelemetryTasks() returns (success: bool)
      modifies machine
      ensures Outcome(success, machine.Snapshot()) == LegacyTasksOutcome(old(machine.Snapshot()), machine.failing)
    {
      var disabled := DisableTasks(machine, ContinueAfterFailure, TelemetryTasks);
      success := true;
    }

    method DisableAllTelemetry() returns (success: bool)
      modifies machine
      ensures Outcome(success, machine.Snapshot()) == LegacyDisableAllOutcome(isAdmin, old(machine.Snapshot()), machine.failing)
    {
      if !isAdmin {
        return false;
      }
      var registry := DisableTelemetryRegistry();
      var service := DisableTelemetryService();
      var tasks := DisableTelemetryTasks();
      success := registry && service && tasks;
    }
  }

  /** The script's entry point: build the manager, leave without rights,
      otherwise run the aggregate. */
  method RunScript(m: Machine, query: AdminQuery)
    modifies m
    ensures !IsAdmin(query) ==> m.Snapshot() == old(m.Snapshot())
    ensures IsAdmin(query) ==> m.Snapshot() == LegacyDisableAllOutcome(true, old(m.Snapshot()), m.failing).post
  {
    var manager := new TelemetryManager(m, query);
    if !manager.isAdmin {
      return;
    }
    var done := manager.DisableAllTelemetry();
  }

  // ---------------------------------------------------------------------
  // Properties

  /** The registry phase reports success whatever fails, yet opens every
      path's key: a failing path does not keep later paths from being tried. */
  lemma LegacyRegistryAttemptsEveryPath(st: State, failing: set<Op>)
    ensures var r := LegacyRegistryOutcome(st, failing);
            && r.ok
            && forall i :: 0 <= i < |TelemetryPaths| ==> RegCreate(Key(LocalMachine, TelemetryPaths[i])) in r.post.trace
  {
    ChangeSetsContinueAttemptsAll(st, failing, TelemetryPaths, TelemetryValues);
  }

  /** Every path whose own block succeeds holds the values afterwards, even
      when an earlier path failed: the later paths still get written. */
  lemma LegacyRegistryWritesLaterPaths(st: State, failing: set<Op>, i: nat)
    requires i < |TelemetryPaths|
    requires forall j :: i <= j < |TelemetryPaths| ==>
               ChangeSetSucceeds(failing, Key(LocalMachine, TelemetryPaths[j]), RegDword, TelemetryValues)
    ensures HasValues(LegacyRegistryOutcome(st, failing).post.registry, Key(LocalMachine, TelemetryPaths[i]),
                      RegDword, TelemetryValues)
  {
    ChangeSetsContinueWritesLaterPaths(st, failing, TelemetryPaths, TelemetryValues, i);
  }

  /** The service step succeeds exactly when DiagTrack exists and is running
      and neither command fails. When the stop fails the disable is not attempted and the
      service is left as it was; otherwise both are attempted in order. */
  lemma LegacyServiceFacts(st: State, failing: set<Op>)
    ensures var r := LegacyServiceOutcome(st, failing);
            var stopOk := TelemetryService in st.services && st.services[TelemetryService].running
                          && ScStop(TelemetryService) !in failing;
            && (r.ok <==> stopOk && ScDisable(TelemetryService) !in failing)
            && (!stopOk ==> r.post == st.(trace := st.trace + [ScStop(TelemetryService)]))
            && (stopOk ==> r.post.trace == st.trace + [ScStop(TelemetryService), ScDisable(TelemetryService)])
            && r.post.registry == st.registry && r.post.tasks == st.tasks
  {
  }

  /** The legacy service step and `stop_and_disable_service` give the same
      verdict, but differ in what they leave once the stop fails: the
      adapter still disables the service and the legacy step does not,
      whether the stop fails by an injected error or because DiagTrack is
      already stopped (1062). */
  lemma LegacyServiceComparedToAdapter(st: State, failing: set<Op>)
    ensures LegacyServiceOutcome(st, failing).ok == StopAndDisableOutcome(st, failing, TelemetryService).ok
    ensures && TelemetryService in st.services && !Succeeds(st, failing, ScStop(TelemetryService))
            && ScDisable(TelemetryService) !in failing ==>
              && StopAndDisableOutcome(st, failing, TelemetryService).post.services[TelemetryService].startDisabled
              && LegacyServiceOutcome(st, failing).post.services == st.services
  {
  }

  /** The task phase attempts all five tasks, in order, and reports success
      whatever fails. */
  lemma LegacyTasksAttemptAll(st: State, failing: set<Op>)
    ensures var r := LegacyTasksOutcome(st, failing);
            r.ok && r.post.trace == st.trace + TaskOps(TelemetryTasks)
  {
    RunContinueAttemptsAll(st, failing, TaskOps(TelemetryTasks));
  }

  /** Without rights the aggregate reports failure and no phase runs. */
  lemma LegacyDisableAllWithoutRights(st: State, failing: set<Op>)
    ensures LegacyDisableAllOutcome(false, st, failing) == Outcome(false, st)
  {
  }

  /** With rights the aggregate's verdict is the service step's: it succeeds
      exactly when DiagTrack exists and is running and both `sc` commands succeed, whatever
      happens to the registry writes and the tasks. */
  lemma LegacyDisableAllIsServiceVerdict(isAdmin: bool, st: State, failing: set<Op>)
    ensures LegacyDisableAllOutcome(isAdmin, st, failing).ok
        <==> isAdmin && TelemetryService in st.services && st.services[TelemetryService].running
             && ScStop(TelemetryService) !in failing && ScDisable(TelemetryService) !in failing
  {
    if isAdmin {
      var registry := LegacyRegistryOutcome(st, failing);
      var service := LegacyServiceOutcome(registry.post, failing);
      var tasks := LegacyTasksOutcome(service.post, failing);
      assert LegacyDisableAllOutcome(true, st, failing) == Outcome(service.ok, tasks.post);
      ChangeSetsKeepsServices(ContinueAfterFailure, st, failing, TelemetryPaths, TelemetryValues);
      LegacyServiceFacts(registry.post, failing);
    }
  }
}
