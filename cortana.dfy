/** The Cortana feature: one HKLM key with three values and one scheduled
    task. The aggregate runs only the registry and task phases; the service
    phase exists but is not part of it. */
module Cortana {
  import opened Store
  import opened Attempts
  import opened RegistryManager
  import opened ServiceManager
  import opened AdminCheck
  import opened Reconcile

  const SearchSettingsPath: string := @"SOFTWARE\Microsoft\Windows\CurrentVersion\SearchSettings"

  const CortanaPaths: seq<string> := [SearchSettingsPath]

  const ValueEntries: seq<(string, Data)> := [
    ("CortanaConsent", Int(0)),
    ("CortanaEnabled", Int(0)),
    ("AllowCortana", Int(0))
  ]

  const CortanaValues: Dict := DictDisplay(ValueEntries)

  const CortanaService: string := "Cortana"

  const CortanaConsentTask: string := @"Microsoft\Windows\Windows Search\CortanaConsent"

  const CortanaTasks: seq<string> := [CortanaConsentTask]

  /** No service in the aggregate. */
  const CortanaPlan: Plan := Plan(CortanaPaths, CortanaValues, None, CortanaTasks)

  class CortanaManager {
    /** Asked once, when the manager is built. */
    const isAdmin: bool
    const machine: Machine

    constructor (machine: Machine, query: AdminQuery)
      ensures this.machine == machine && isAdmin == IsAdmin(query)
    {
      this.machine := machine;
      isAdmin := IsAdmin(query);
    }

    method DisableCortanaRegistry() returns (success: bool)
      modifies machine
      ensures Outcome(success, machine.Snapshot())
           == ChangeSets(StopAtFirstFailure, old(machine.Snapshot()), machine.failing, CortanaPaths, CortanaValues)
    {
      success := ApplyChangeSets(machine, StopAtFirstFailure, CortanaPaths, CortanaValues);
    }

    method DisableCortanaService() returns (success: bool)
      modifies machine
      ensures Outcome(success, machine.Snapshot())
           == StopAndDisableOutcome(old(machine.Snapshot()), machine.failing, CortanaService)
    {
      success := StopAndDisableService(machine, CortanaService);
    }

    method DisableCortanaTasks() returns (success: bool)
      modifies machine
      ensures Outcome(success, machine.Snapshot())
           == TaskPhase(StopAtFirstFailure, old(machine.Snapshot()), machine.failing, CortanaTasks)
    {
      success := DisableTasks(machine, StopAtFirstFailure, CortanaTasks);
    }

    method DisableAllCortana() returns (success: bool)
      modifies machine
      ensures Outcome(success, machine.Snapshot())
           == DisableAllOutcome(isAdmin, old(machine.Snapshot()), machine.failing, CortanaPlan)
    {
      if !isAdmin {
        return false;
      }
      var registry := DisableCortanaRegistry();
      var tasks := DisableCortanaTasks();
      success := registry && tasks;
    }
  }

  // ---------------------------------------------------------------------
  // Properties

  /** The dict has no repeated name: it is the three entries as written. */
  lemma CortanaValuesAsWritten()
    ensures CortanaValues == ValueEntries
  {
    DisplayThree(ValueEntries[0], ValueEntries[1], ValueEntries[2]);
  }

  /** The registry phase is one batch write of the three values under the
      SearchSettings key: it succeeds exactly when that write does. */
  lemma CortanaRegistryIsOneBatch(st: State, failing: set<Op>)
    ensures ChangeSets(StopAtFirstFailure, st, failing, CortanaPaths, CortanaValues)
         == SetMultipleOutcome(st, failing, SearchSettingsPath, CortanaValues)
    ensures ChangeSets(StopAtFirstFailure, st, failing, CortanaPaths, CortanaValues).ok
        <==> ChangeSetSucceeds(failing, Key(LocalMachine, SearchSettingsPath), RegDword, CortanaValues)
  {
    assert CortanaPaths[1..] == [];
    SetMultipleOkIff(st, failing, SearchSettingsPath, CortanaValues, RegDword);
  }

  /** The task phase is one `schtasks` call on the CortanaConsent task, and it
      reports failure when that call fails. */
  lemma CortanaTasksIsOneStep(st: State, failing: set<Op>)
    ensures TaskPhase(StopAtFirstFailure, st, failing, CortanaTasks)
         == Step(st, failing, SchtasksDisable(CortanaConsentTask))
  {
    TaskOpsTail(CortanaTasks);
    var first := Step(st, failing, SchtasksDisable(CortanaConsentTask));
    assert TaskOps(CortanaTasks)[1..] == [];
    assert Run(StopAtFirstFailure, first.post, failing, TaskOps(CortanaTasks)[1..]) == Outcome(true, first.post);
  }

  /** Without rights the aggregate reports failure and the machine, log
      included, is as it was. */
  lemma DisableAllCortanaWithoutRights(st: State, failing: set<Op>)
    ensures DisableAllOutcome(false, st, failing, CortanaPlan) == Outcome(false, st)
  {
    DisableAllWithoutRights(st, failing, CortanaPlan);
  }

  /** The aggregate succeeds exactly when it has rights, the SearchSettings
      batch write succeeds, and the CortanaConsent task exists and can be
      disabled. */
  lemma DisableAllCortanaOkIff(isAdmin: bool, st: State, failing: set<Op>)
    ensures DisableAllOutcome(isAdmin, st, failing, CortanaPlan).ok
        <==> && isAdmin
             && ChangeSetSucceeds(failing, Key(LocalMachine, SearchSettingsPath), RegDword, CortanaValues)
             && CortanaConsentTask in st.tasks && SchtasksDisable(CortanaConsentTask) !in failing
  {
    DisableAllOkIffOnePathOneTask(isAdmin, st, failing, SearchSettingsPath, CortanaValues, CortanaConsentTask);
  }

  /** The aggregate never touches a service, the Cortana service included,
      and changes nothing outside the SearchSettings key and its one task. */
  lemma DisableAllCortanaLeavesServices(isAdmin: bool, st: State, failing: set<Op>)
    ensures var post := DisableAllOutcome(isAdmin, st, failing, CortanaPlan).post;
            && post.services == st.services
            && (forall k :: k != Key(LocalMachine, SearchSettingsPath) ==> Get(post.registry, k) == Get(st.registry, k))
            && (forall t :: t != CortanaConsentTask ==> Get(post.tasks, t) == Get(st.tasks, t))
  {
    var post := DisableAllOutcome(isAdmin, st, failing, CortanaPlan).post;
    DisableAllLeavesRestAlone(isAdmin, st, failing, CortanaPlan);
    GetExt(post.services, st.services);
    forall k | k != Key(LocalMachine, SearchSettingsPath) ensures Get(post.registry, k) == Get(st.registry, k) {
      assert RegKey(k) !in PathTargets(CortanaPaths);
    }
  }

  /** With rights both phases run, even when the registry phase fails: the
      log holds the opening of the SearchSettings key first, and later the
      disabling of the CortanaConsent task. */
  lemma DisableAllCortanaRunsBothPhases(st: State, failing: set<Op>)
    ensures var tr := DisableAllOutcome(true, st, failing, CortanaPlan).post.trace;
            && |st.trace| < |tr| && tr[|st.trace|] == RegCreate(Key(LocalMachine, SearchSettingsPath))
            && exists b :: |st.trace| < b < |tr| && tr[b] == SchtasksDisable(CortanaConsentTask)
  {
    var registry := ChangeSets(StopAtFirstFailure, st, failing, CortanaPaths, CortanaValues);
    DisableAllAttemptsEveryPhase(st, failing, CortanaPlan);
    var b := |registry.post.trace|;
    assert |st.trace| < b;
  }

  /** After a successful run the SearchSettings key holds the dict's values
      (the three names at 0, by CortanaValuesAsWritten) as REG_DWORD, and the
      CortanaConsent task is disabled. */
  lemma DisableAllCortanaSuccess(isAdmin: bool, st: State, failing: set<Op>)
    requires DisableAllOutcome(isAdmin, st, failing, CortanaPlan).ok
    ensures var post := DisableAllOutcome(isAdmin, st, failing, CortanaPlan).post;
            && HasValues(post.registry, Key(LocalMachine, SearchSettingsPath), RegDword, CortanaValues)
            && CortanaConsentTask in post.tasks && !post.tasks[CortanaConsentTask]
  {
    DisableAllSuccessOnePathOneTask(isAdmin, st, failing, SearchSettingsPath, CortanaValues, CortanaConsentTask);
  }

  /** Running the aggregate again after a successful run succeeds again and
      changes nothing but the log. */
  lemma DisableAllCortanaIdempotent(isAdmin: bool, st: State, failing: set<Op>)
    requires DisableAllOutcome(isAdmin, st, failing, CortanaPlan).ok
    ensures var once := DisableAllOutcome(isAdmin, st, failing, CortanaPlan).post;
            var twice := DisableAllOutcome(isAdmin, once, failing, CortanaPlan);
            twice.ok && SameContents(twice.post, once)
  {
    DisableAllIdempotent(isAdmin, st, failing, CortanaPlan);
  }
}
