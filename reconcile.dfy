/** The three phases the feature managers are built from, and the
    admin-gated run of all of them. A `Plan` names what a feature reconciles:
    the HKLM paths that receive one value dict, at most one service to stop
    and disable, and the scheduled tasks to disable. */
module Reconcile {
  import opened Store
  import opened Attempts
  import opened RegistryManager
  import opened ServiceManager

  // ---------------------------------------------------------------------
  // Registry phase: `set_multiple_values(path, values)` for each path

  function PathTargets(paths: seq<string>): set<Target> {
    set i | 0 <= i < |paths| :: RegKey(Key(LocalMachine, paths[i]))
  }

  predicate AllChangeSetsSucceed(failing: set<Op>, paths: seq<string>, values: Dict) {
    forall i :: 0 <= i < |paths| ==> ChangeSetSucceeds(failing, Key(LocalMachine, paths[i]), RegDword, values)
  }

  predicate AllHaveValues(reg: Registry, paths: seq<string>, values: Dict) {
    forall i :: 0 <= i < |paths| ==> HasValues(reg, Key(LocalMachine, paths[i]), RegDword, values)
  }

  /** The paths written in order; under StopAtFirstFailure the loop is left
      at the first path whose batch write reports failure. */
  function ChangeSets(policy: LoopPolicy, st: State, failing: set<Op>, paths: seq<string>, values: Dict): (r: Outcome)
    ensures SameDomains(st, r.post)
    decreases |paths|
  {
    if paths == [] then Outcome(true, st)
    else
      var first := SetMultipleOutcome(st, failing, paths[0], values);
      SetMultipleConfined(st, failing, paths[0], values, RegDword);
      if !first.ok && policy == StopAtFirstFailure then first
      else
        var rest := ChangeSets(policy, first.post, failing, paths[1..], values);
        Outcome(first.ok && rest.ok, rest.post)
  }

  /** The `success`-flag loop over the paths. */
  method ApplyChangeSets(m: Machine, policy: LoopPolicy, paths: seq<string>, values: Dict) returns (success: bool)
    modifies m
    ensures Outcome(success, m.Snapshot()) == ChangeSets(policy, old(m.Snapshot()), m.failing, paths, values)
  {
    success := true;
    var i := 0;
    while i < |paths|
      invariant 0 <= i <= |paths|
      invariant policy == StopAtFirstFailure ==> success
      invariant var rest := ChangeSets(policy, m.Snapshot(), m.failing, paths[i..], values);
                Outcome(success && rest.ok, rest.post) == ChangeSets(policy, old(m.Snapshot()), m.failing, paths, values)
    {
      ChangeSetsStep(policy, m.Snapshot(), m.failing, paths, values, i);
      var ok := SetMultipleValues(m, paths[i], values);
      if !ok {
        success := false;
        if policy == StopAtFirstFailure {
          return;
        }
      }
      i := i + 1;
    }
    assert paths[i..] == [];
  }

  /** The remaining paths from i on: the batch write of path i, then the rest. */
  lemma ChangeSetsStep(policy: LoopPolicy, st: State, failing: set<Op>, paths: seq<string>, values: Dict, i: nat)
    requires i < |paths|
    ensures var first := SetMultipleOutcome(st, failing, paths[i], values);
            ChangeSets(policy, st, failing, paths[i..], values)
              == if !first.ok && policy == StopAtFirstFailure then first
                 else var rest := ChangeSets(policy, first.post, failing, paths[i + 1..], values);
                      Outcome(first.ok && rest.ok, rest.post)
  {
    assert paths[i..][0] == paths[i] && paths[i..][1..] == paths[i + 1..];
  }

  // ---------------------------------------------------------------------
  // Task phase: `schtasks /change /tn <task> /disable` for each task

  function TaskOps(tasks: seq<string>): (ops: seq<Op>)
    ensures |ops| == |tasks|
    ensures forall i :: 0 <= i < |tasks| ==> ops[i] == SchtasksDisable(tasks[i])
  {
    seq(|tasks|, i requires 0 <= i < |tasks| => SchtasksDisable(tasks[i]))
  }

  function TaskTargets(tasks: seq<string>): set<Target> {
    set i | 0 <= i < |tasks| :: Task(tasks[i])
  }

  predicate TasksReady(st: State, failing: set<Op>, tasks: seq<string>) {
    forall i :: 0 <= i < |tasks| ==> tasks[i] in st.tasks && SchtasksDisable(tasks[i]) !in failing
  }

  predicate TasksDisabled(st: State, tasks: seq<string>) {
    forall i :: 0 <= i < |tasks| ==> tasks[i] in st.tasks && !st.tasks[tasks[i]]
  }

  function TaskPhase(policy: LoopPolicy, st: State, failing: set<Op>, tasks: seq<string>): Outcome {
    Run(policy, st, failing, TaskOps(tasks))
  }

  /** The `success`-flag loop over the tasks. */
  method DisableTasks(m: Machine, policy: LoopPolicy, tasks: seq<string>) returns (success: bool)
    modifies m
    ensures Outcome(success, m.Snapshot()) == TaskPhase(policy, old(m.Snapshot()), m.failing, tasks)
  {
    ghost var ops := TaskOps(tasks);
    success := true;
    var i := 0;
    while i < |tasks|
      invariant 0 <= i <= |tasks|
      invariant policy == StopAtFirstFailure ==> success
      invariant var rest := Run(policy, m.Snapshot(), m.failing, ops[i..]);
                Outcome(success && rest.ok, rest.post) == TaskPhase(policy, old(m.Snapshot()), m.failing, tasks)
    {
      RunFrom(policy, m.Snapshot(), m.failing, ops, i);
      var ok := m.Perform(SchtasksDisable(tasks[i]));
      if !ok {
        success := false;
        if policy == StopAtFirstFailure {
          return;
        }
      }
      i := i + 1;
    }
    assert ops[i..] == [];
  }

  // ---------------------------------------------------------------------
  // Service phase: `stop_and_disable_service(name)`, when the plan has one

  function ServiceTargets(service: Option<string>): set<Target> {
    match service
    case None => {}
    case Some(s) => {Service(s)}
  }

  predicate ServiceReady(st: State, failing: set<Op>, service: Option<string>) {
    service.Some? ==>
      && service.value in st.services && st.services[service.value].running
      && ScStop(service.value) !in failing && ScDisable(service.value) !in failing
  }

  predicate ServiceDisabled(st: State, service: Option<string>) {
    service.Some? ==> service.value in st.services && st.services[service.value] == ServiceState(false, true)
  }

  function ServicePhase(st: State, failing: set<Op>, service: Option<string>): Outcome {
    match service
    case None => Outcome(true, st)
    case Some(s) => StopAndDisableOutcome(st, failing, s)
  }

  // ---------------------------------------------------------------------
  // The admin-gated aggregate

  datatype Plan = Plan(paths: seq<string>, values: Dict, service: Option<string>, tasks: seq<string>)

  function PlanTargets(plan: Plan): set<Target> {
    PathTargets(plan.paths) + ServiceTargets(plan.service) + TaskTargets(plan.tasks)
  }

  /** Everything the plan asks for is in place. */
  predicate Reconciled(st: State, plan: Plan) {
    && AllHaveValues(st.registry, plan.paths, plan.values)
    && ServiceDisabled(st, plan.service)
    && TasksDisabled(st, plan.tasks)
  }

  /** Without rights: false, and nothing is attempted. With rights: the
      registry, service and task phases in that order, each run whatever the
      earlier ones returned, and the AND of their verdicts. */
  function DisableAllOutcome(isAdmin: bool, st: State, failing: set<Op>, plan: Plan): Outcome {
    if !isAdmin then Outcome(false, st)
    else
      var registry := ChangeSets(StopAtFirstFailure, st, failing, plan.paths, plan.values);
      var service := ServicePhase(registry.post, failing, plan.service);
      var tasks := TaskPhase(StopAtFirstFailure, service.post, failing, plan.tasks);
      Outcome(registry.ok && service.ok && tasks.ok, tasks.post)
  }

  // ---------------------------------------------------------------------
  // Properties of the registry phase

  lemma PathTargetsCons(paths: seq<string>)
    requires paths != []
    ensures PathTargets(paths) == {RegKey(Key(LocalMachine, paths[0]))} + PathTargets(paths[1..])
  {
    forall x | x in PathTargets(paths) ensures x in {RegKey(Key(LocalMachine, paths[0]))} + PathTargets(paths[1..]) {
      var i :| 0 <= i < |paths| && RegKey(Key(LocalMachine, paths[i])) == x;
      if i > 0 { assert paths[1..][i - 1] == paths[i]; }
    }
    forall x | x in PathTargets(paths[1..]) ensures x in PathTargets(paths) {
      var i :| 0 <= i < |paths[1..]| && RegKey(Key(LocalMachine, paths[1..][i])) == x;
      assert paths[i + 1] == paths[1..][i];
    }
  }

  /** The registry phase touches only the keys of its paths. */
  lemma {:induction false} ChangeSetsConfined(policy: LoopPolicy, st: State, failing: set<Op>, paths: seq<string>, values: Dict)
    ensures Confined(st, ChangeSets(policy, st, failing, paths, values).post, PathTargets(paths))
    decreases |paths|
  {
    if paths == [] {
      ConfinedRefl(st, PathTargets(paths));
    } else {
      var first := SetMultipleOutcome(st, failing, paths[0], values);
      SetMultipleConfined(st, failing, paths[0], values, RegDword);
      PathTargetsCons(paths);
      var T0 := {RegKey(Key(LocalMachine, paths[0]))};
      if !first.ok && policy == StopAtFirstFailure {
        ConfinedWiden(st, first.post, T0, PathTargets(paths));
      } else {
        ChangeSetsConfined(policy, first.post, failing, paths[1..], values);
        ConfinedTrans(st, first.post, ChangeSets(policy, first.post, failing, paths[1..], values).post,
                      T0, PathTargets(paths[1..]));
      }
    }
  }

  /** The registry phase leaves services and tasks exactly as they were. */
  lemma {:induction false} ChangeSetsKeepsServices(policy: LoopPolicy, st: State, failing: set<Op>, paths: seq<string>, values: Dict)
    ensures var post := ChangeSets(policy, st, failing, paths, values).post;
            post.services == st.services && post.tasks == st.tasks
    decreases |paths|
  {
    if paths != [] {
      var first := SetMultipleOutcome(st, failing, paths[0], values);
      SetMultipleConfined(st, failing, paths[0], values, RegDword);
      if first.ok || policy == ContinueAfterFailure {
        ChangeSetsKeepsServices(policy, first.post, failing, paths[1..], values);
      }
    }
  }

  lemma AllChangeSetsSucceedCons(failing: set<Op>, paths: seq<string>, values: Dict)
    requires paths != []
    ensures AllChangeSetsSucceed(failing, paths, values)
        <==> ChangeSetSucceeds(failing, Key(LocalMachine, paths[0]), RegDword, values)
             && AllChangeSetsSucceed(failing, paths[1..], values)
  {
    if AllChangeSetsSucceed(failing, paths[1..], values) {
      forall i | 1 <= i < |paths|
        ensures ChangeSetSucceeds(failing, Key(LocalMachine, paths[i]), RegDword, values)
      {
        assert paths[1..][i - 1] == paths[i];
      }
    }
    if AllChangeSetsSucceed(failing, paths, values) {
      forall i | 0 <= i < |paths[1..]|
        ensures ChangeSetSucceeds(failing, Key(LocalMachine, paths[1..][i]), RegDword, values)
      {
        assert paths[1..][i] == paths[i + 1];
      }
    }
  }

  /** The registry phase reports success exactly when no path's batch write
      fails, under either policy. */
  lemma {:induction false} ChangeSetsOkIff(policy: LoopPolicy, st: State, failing: set<Op>, paths: seq<string>, values: Dict)
    ensures ChangeSets(policy, st, failing, paths, values).ok <==> AllChangeSetsSucceed(failing, paths, values)
    decreases |paths|
  {
    if paths != [] {
      var first := SetMultipleOutcome(st, failing, paths[0], values);
      SetMultipleOkIff(st, failing, paths[0], values, RegDword);
      ChangeSetsOkIff(policy, first.post, failing, paths[1..], values);
      AllChangeSetsSucceedCons(failing, paths, values);
    }
  }

  /** Under StopAtFirstFailure, when path j is the first to fail, the phase
      ends there: its result is that of the paths up to and including j, and
      no later path is attempted. */
  lemma {:induction false} ChangeSetsStopsAtFirstFailure(st: State, failing: set<Op>, paths: seq<string>, values: Dict, j: nat)
    requires j < |paths| && !ChangeSetSucceeds(failing, Key(LocalMachine, paths[j]), RegDword, values)
    requires forall i :: 0 <= i < j ==> ChangeSetSucceeds(failing, Key(LocalMachine, paths[i]), RegDword, values)
    ensures var r := ChangeSets(StopAtFirstFailure, st, failing, paths, values);
            && !r.ok
            && r == ChangeSets(StopAtFirstFailure, st, failing, paths[..j + 1], values)
    decreases j
  {
    var first := SetMultipleOutcome(st, failing, paths[0], values);
    SetMultipleOkIff(st, failing, paths[0], values, RegDword);
    var prefix := paths[..j + 1];
    assert prefix[0] == paths[0];
    if j > 0 {
      var tail := paths[1..];
      assert tail[j - 1] == paths[j];
      forall i | 0 <= i < j - 1 ensures ChangeSetSucceeds(failing, Key(LocalMachine, tail[i]), RegDword, values) {
        assert tail[i] == paths[i + 1];
      }
      ChangeSetsStopsAtFirstFailure(first.post, failing, tail, values, j - 1);
      assert prefix[1..] == tail[..j];
    }
  }

  /** Under ContinueAfterFailure every path's key is opened, whatever fails. */
  lemma {:induction false} ChangeSetsContinueAttemptsAll(st: State, failing: set<Op>, paths: seq<string>, values: Dict)
    ensures var r := ChangeSets(ContinueAfterFailure, st, failing, paths, values);
            forall i :: 0 <= i < |paths| ==> RegCreate(Key(LocalMachine, paths[i])) in r.post.trace
    decreases |paths|
  {
    if paths != [] {
      var first := SetMultipleOutcome(st, failing, paths[0], values);
      var rest := ChangeSets(ContinueAfterFailure, first.post, failing, paths[1..], values);
      SetMultipleOpensFirst(st, failing, paths[0], values, RegDword);
      SetMultipleConfined(st, failing, paths[0], values, RegDword);
      ChangeSetsConfined(ContinueAfterFailure, first.post, failing, paths[1..], values);
      ChangeSetsContinueAttemptsAll(first.post, failing, paths[1..], values);
      assert rest.post.trace[|st.trace|] == rest.post.trace[..|first.post.trace|][|st.trace|];
      forall i | 1 <= i < |paths| ensures RegCreate(Key(LocalMachine, paths[i])) in rest.post.trace {
        assert paths[1..][i - 1] == paths[i];
      }
    }
  }

  /** Any registry phase with the same dict keeps a key that already holds
      the dict's values holding them. */
  lemma {:induction false} ChangeSetsKeepsValues(policy: LoopPolicy, st: State, failing: set<Op>, paths: seq<string>,
                                                 values: Dict, k: Key)
    requires UniqueNames(values)
    requires HasValues(st.registry, k, RegDword, values)
    ensures HasValues(ChangeSets(policy, st, failing, paths, values).post.registry, k, RegDword, values)
    decreases |paths|
  {
    if paths != [] {
      var first := SetMultipleOutcome(st, failing, paths[0], values);
      SetMultipleKeepsValues(st, failing, paths[0], values, RegDword, k);
      if first.ok || policy == ContinueAfterFailure {
        ChangeSetsKeepsValues(policy, first.post, failing, paths[1..], values, k);
      }
    }
  }

  /** After a successful registry phase every path holds every value. */
  lemma {:induction false} ChangeSetsSuccess(policy: LoopPolicy, st: State, failing: set<Op>, paths: seq<string>, values: Dict)
    requires UniqueNames(values)
    requires ChangeSets(policy, st, failing, paths, values).ok
    ensures AllHaveValues(ChangeSets(policy, st, failing, paths, values).post.registry, paths, values)
    decreases |paths|
  {
    if paths != [] {
      var first := SetMultipleOutcome(st, failing, paths[0], values);
      var rest := ChangeSets(policy, first.post, failing, paths[1..], values);
      SetMultipleSuccess(st, failing, paths[0], values, RegDword);
      ChangeSetsKeepsValues(policy, first.post, failing, paths[1..], values, Key(LocalMachine, paths[0]));
      ChangeSetsSuccess(policy, first.post, failing, paths[1..], values);
      forall i | 1 <= i < |paths| ensures HasValues(rest.post.registry, Key(LocalMachine, paths[i]), RegDword, values) {
        assert paths[1..][i - 1] == paths[i];
      }
    }
  }

  /** Under ContinueAfterFailure a path from which on every batch write
      succeeds ends up holding the values, whatever failed before it. */
  lemma {:induction false} ChangeSetsContinueWritesLaterPaths(st: State, failing: set<Op>, paths: seq<string>, values: Dict, i: nat)
    requires UniqueNames(values)
    requires i < |paths|
    requires forall j :: i <= j < |paths| ==> ChangeSetSucceeds(failing, Key(LocalMachine, paths[j]), RegDword, values)
    ensures HasValues(ChangeSets(ContinueAfterFailure, st, failing, paths, values).post.registry,
                      Key(LocalMachine, paths[i]), RegDword, values)
    decreases i
  {
    var first := SetMultipleOutcome(st, failing, paths[0], values);
    if i == 0 {
      SetMultipleOkIff(st, failing, paths[0], values, RegDword);
      SetMultipleSuccess(st, failing, paths[0], values, RegDword);
      ChangeSetsKeepsValues(ContinueAfterFailure, first.post, failing, paths[1..], values, Key(LocalMachine, paths[0]));
    } else {
      forall j | i - 1 <= j < |paths[1..]|
        ensures ChangeSetSucceeds(failing, Key(LocalMachine, paths[1..][j]), RegDword, values)
      {
        assert paths[1..][j] == paths[j + 1];
      }
      ChangeSetsContinueWritesLaterPaths(first.post, failing, paths[1..], values, i - 1);
      assert paths[1..][i - 1] == paths[i];
    }
  }

  /** A registry phase whose values are all in place, and in which nothing
      fails, succeeds and changes nothing but the log. */
  lemma {:induction false} ChangeSetsNoChange(policy: LoopPolicy, st: State, failing: set<Op>, paths: seq<string>, values: Dict)
    requires UniqueNames(values)
    requires AllHaveValues(st.registry, paths, values)
    requires AllChangeSetsSucceed(failing, paths, values)
    ensures var r := ChangeSets(policy, st, failing, paths, values);
            r.ok && SameContents(r.post, st)
    decreases |paths|
  {
    if paths != [] {
      var first := SetMultipleOutcome(st, failing, paths[0], values);
      SetMultipleNoChange(st, failing, paths[0], values, RegDword);
      forall i | 0 <= i < |paths[1..]|
        ensures HasValues(first.post.registry, Key(LocalMachine, paths[1..][i]), RegDword, values)
        ensures ChangeSetSucceeds(failing, Key(LocalMachine, paths[1..][i]), RegDword, values)
      {
        assert paths[1..][i] == paths[i + 1];
      }
      ChangeSetsNoChange(policy, first.post, failing, paths[1..], values);
    }
  }

  // ---------------------------------------------------------------------
  // Properties of the task phase

  lemma TaskOpsTail(tasks: seq<string>)
    requires tasks != []
    ensures TaskOps(tasks)[0] == SchtasksDisable(tasks[0])
    ensures TaskOps(tasks)[1..] == TaskOps(tasks[1..])
  {
  }

  lemma TaskTargetsFacts(tasks: seq<string>)
    ensures AllDomainDecided(TaskOps(tasks))
    ensures Targets(TaskOps(tasks)) == TaskTargets(tasks)
  {
    var ops := TaskOps(tasks);
    forall x | x in Targets(ops) ensures x in TaskTargets(tasks) {
      var i :| 0 <= i < |ops| && ops[i].Touches() == x;
    }
    forall x | x in TaskTargets(tasks) ensures x in Targets(ops) {
      var i :| 0 <= i < |tasks| && Task(tasks[i]) == x;
      assert ops[i].Touches() == x;
    }
  }

  /** The task phase touches only its tasks; registry and services are as they were. */
  lemma TaskPhaseConfined(policy: LoopPolicy, st: State, failing: set<Op>, tasks: seq<string>)
    ensures var post := TaskPhase(policy, st, failing, tasks).post;
            && Confined(st, post, TaskTargets(tasks))
            && post.registry == st.registry && post.services == st.services
  {
    var post := TaskPhase(policy, st, failing, tasks).post;
    TaskTargetsFacts(tasks);
    RunConfined(policy, st, failing, TaskOps(tasks));
    forall k ensures Get(st.registry, k) == Get(post.registry, k) {
      assert RegKey(k) !in TaskTargets(tasks);
    }
    GetExt(st.registry, post.registry);
    forall s ensures Get(st.services, s) == Get(post.services, s) {
      assert Service(s) !in TaskTargets(tasks);
    }
    GetExt(st.services, post.services);
  }

  /** The task phase reports success exactly when every task exists and no
      `schtasks` call fails, under either policy. */
  lemma TaskPhaseOkIff(policy: LoopPolicy, st: State, failing: set<Op>, tasks: seq<string>)
    ensures TaskPhase(policy, st, failing, tasks).ok <==> TasksReady(st, failing, tasks)
  {
    var ops := TaskOps(tasks);
    TaskTargetsFacts(tasks);
    RunOkIff(policy, st, failing, ops);
    assert (forall i :: 0 <= i < |ops| ==> Succeeds(st, failing, ops[i])) <==> TasksReady(st, failing, tasks);
  }

  /** Under StopAtFirstFailure, when task j is the first to fail, the tasks
      before it are disabled, task j is attempted, and no later task is. */
  lemma TaskPhaseStopsAtFirstFailure(st: State, failing: set<Op>, tasks: seq<string>, j: nat)
    requires j < |tasks| && !(tasks[j] in st.tasks && SchtasksDisable(tasks[j]) !in failing)
    requires forall i :: 0 <= i < j ==> tasks[i] in st.tasks && SchtasksDisable(tasks[i]) !in failing
    ensures var r := TaskPhase(StopAtFirstFailure, st, failing, tasks);
            var done := TaskPhase(StopAtFirstFailure, st, failing, tasks[..j]);
            && !r.ok && done.ok
            && r.post == done.post.(trace := done.post.trace + [SchtasksDisable(tasks[j])])
  {
    var ops := TaskOps(tasks);
    TaskTargetsFacts(tasks);
    RunStopsAtFirstFailure(st, failing, ops, j);
    assert ops[..j] == TaskOps(tasks[..j]);
  }

  /** Disabling tasks never re-enables one. */
  lemma {:induction false} TaskPhaseKeepsDisabled(policy: LoopPolicy, st: State, failing: set<Op>, tasks: seq<string>, t: string)
    requires t in st.tasks && !st.tasks[t]
    ensures var post := TaskPhase(policy, st, failing, tasks).post;
            t in post.tasks && !post.tasks[t]
    decreases |tasks|
  {
    if tasks != [] {
      TaskOpsTail(tasks);
      var first := Step(st, failing, SchtasksDisable(tasks[0]));
      if first.ok || policy == ContinueAfterFailure {
        TaskPhaseKeepsDisabled(policy, first.post, failing, tasks[1..], t);
      }
    }
  }

  /** After a successful task phase every task is disabled. */
  lemma {:induction false} TaskPhaseSuccess(policy: LoopPolicy, st: State, failing: set<Op>, tasks: seq<string>)
    requires TaskPhase(policy, st, failing, tasks).ok
    ensures TasksDisabled(TaskPhase(policy, st, failing, tasks).post, tasks)
    decreases |tasks|
  {
    if tasks != [] {
      TaskOpsTail(tasks);
      var first := Step(st, failing, SchtasksDisable(tasks[0]));
      var post := TaskPhase(policy, st, failing, tasks).post;
      TaskPhaseKeepsDisabled(policy, first.post, failing, tasks[1..], tasks[0]);
      TaskPhaseSuccess(policy, first.post, failing, tasks[1..]);
      forall i | 1 <= i < |tasks| ensures tasks[i] in post.tasks && !post.tasks[tasks[i]] {
        assert tasks[1..][i - 1] == tasks[i];
      }
    }
  }

  /** A task phase whose tasks are all disabled already, and in which nothing
      fails, succeeds and changes nothing but the log. */
  lemma {:induction false} TaskPhaseNoChange(policy: LoopPolicy, st: State, failing: set<Op>, tasks: seq<string>)
    requires TasksDisabled(st, tasks)
    requires TasksReady(st, failing, tasks)
    ensures var r := TaskPhase(policy, st, failing, tasks);
            r.ok && SameContents(r.post, st)
    decreases |tasks|
  {
    if tasks != [] {
      TaskOpsTail(tasks);
      var first := Step(st, failing, SchtasksDisable(tasks[0]));
      UpdateSame(st.tasks, tasks[0], false);
      assert SameContents(first.post, st);
      forall i | 0 <= i < |tasks[1..]|
        ensures tasks[1..][i] in first.post.tasks && !first.post.tasks[tasks[1..][i]]
        ensures SchtasksDisable(tasks[1..][i]) !in failing
      {
        assert tasks[1..][i] == tasks[i + 1];
      }
      TaskPhaseNoChange(policy, first.post, failing, tasks[1..]);
    }
  }

  // ---------------------------------------------------------------------
  // Properties of the service phase

  lemma ServicePhaseFacts(st: State, failing: set<Op>, service: Option<string>)
    ensures var r := ServicePhase(st, failing, service);
            && (r.ok <==> ServiceReady(st, failing, service))
            && (r.ok ==> ServiceDisabled(r.post, service))
            && r.post.registry == st.registry && r.post.tasks == st.tasks
            && SameDomains(st, r.post)
            && Confined(st, r.post, ServiceTargets(service))
  {
    match service
    case None => ConfinedRefl(st, {});
    case Some(s) => StopAndDisableConfined(st, failing, s);
  }

  /** A service phase on a service already stopped and disabled changes
      nothing but the log, whatever fails; it reports failure, because `sc stop`
      on a service that is not running exits with 1062. Without a service it
      succeeds. */
  lemma ServicePhaseNoChange(st: State, failing: set<Op>, service: Option<string>)
    requires ServiceDisabled(st, service)
    ensures var r := ServicePhase(st, failing, service);
            (r.ok <==> service.None?) && SameContents(r.post, st)
  {
    if service.Some? {
      UpdateSame(st.services, service.value, ServiceState(false, true));
    }
  }

  // ---------------------------------------------------------------------
  // Properties of the aggregate

  /** Without rights the aggregate reports failure and attempts nothing. */
  lemma DisableAllWithoutRights(st: State, failing: set<Op>, plan: Plan)
    ensures DisableAllOutcome(false, st, failing, plan) == Outcome(false, st)
  {
  }

  /** The aggregate reports success exactly when it has rights and every
      operation of every phase succeeds, judged on the state it starts from. */
  lemma DisableAllOkIff(isAdmin: bool, st: State, failing: set<Op>, plan: Plan)
    ensures DisableAllOutcome(isAdmin, st, failing, plan).ok
        <==> && isAdmin
             && AllChangeSetsSucceed(failing, plan.paths, plan.values)
             && ServiceReady(st, failing, plan.service)
             && TasksReady(st, failing, plan.tasks)
  {
    if isAdmin {
      var registry := ChangeSets(StopAtFirstFailure, st, failing, plan.paths, plan.values);
      var service := ServicePhase(registry.post, failing, plan.service);
      ChangeSetsOkIff(StopAtFirstFailure, st, failing, plan.paths, plan.values);
      ChangeSetsKeepsServices(StopAtFirstFailure, st, failing, plan.paths, plan.values);
      ServicePhaseFacts(registry.post, failing, plan.service);
      TaskPhaseOkIff(StopAtFirstFailure, service.post, failing, plan.tasks);
    }
  }

  /** The registry phase opens the first path's key before anything else. */
  lemma ChangeSetsOpensFirst(policy: LoopPolicy, st: State, failing: set<Op>, paths: seq<string>, values: Dict)
    requires paths != []
    ensures var post := ChangeSets(policy, st, failing, paths, values).post;
            |st.trace| < |post.trace| && post.trace[|st.trace|] == RegCreate(Key(LocalMachine, paths[0]))
  {
    var first := SetMultipleOutcome(st, failing, paths[0], values);
    SetMultipleOpensFirst(st, failing, paths[0], values, RegDword);
    if first.ok || policy == ContinueAfterFailure {
      var post := ChangeSets(policy, first.post, failing, paths[1..], values).post;
      ChangeSetsConfined(policy, first.post, failing, paths[1..], values);
      assert post.trace[|st.trace|] == post.trace[..|first.post.trace|][|st.trace|];
    }
  }

  /** The task phase disables the first task before anything else. */
  lemma TaskPhaseAttemptsFirst(policy: LoopPolicy, st: State, failing: set<Op>, tasks: seq<string>)
    requires tasks != []
    ensures var post := TaskPhase(policy, st, failing, tasks).post;
            |st.trace| < |post.trace| && post.trace[|st.trace|] == SchtasksDisable(tasks[0])
  {
    TaskOpsTail(tasks);
    var first := Step(st, failing, SchtasksDisable(tasks[0]));
    if first.ok || policy == ContinueAfterFailure {
      var post := Run(policy, first.post, failing, TaskOps(tasks[1..])).post;
      RunConfined(policy, first.post, failing, TaskOps(tasks[1..]));
      assert post.trace[|st.trace|] == post.trace[..|first.post.trace|][|st.trace|];
    }
  }

  /** The operations a registry phase issues when no batch fails: for each
      path in listed order, the creation of its key and then its writes in
      dict order. */
  function PhaseOps(paths: seq<string>, values: Dict): seq<Op>
    decreases |paths|
  {
    if paths == [] then []
    else
      var k := Key(LocalMachine, paths[0]);
      [RegCreate(k)] + WriteOps(k, RegDword, values) + PhaseOps(paths[1..], values)
  }

  /** When no batch fails the phase succeeds under either policy, and its log
      is every path's creation and writes, path after path in listed order. */
  lemma {:induction false} ChangeSetsAllSucceedTrace(policy: LoopPolicy, st: State, failing: set<Op>, paths: seq<string>, values: Dict)
    requires AllChangeSetsSucceed(failing, paths, values)
    ensures var r := ChangeSets(policy, st, failing, paths, values);
            r.ok && r.post.trace == st.trace + PhaseOps(paths, values)
    decreases |paths|
  {
    if paths != [] {
      var k := Key(LocalMachine, paths[0]);
      AllChangeSetsSucceedCons(failing, paths, values);
      var first := SetMultipleOutcome(st, failing, paths[0], values);
      assert first.ok && first.post.trace == st.trace + [RegCreate(k)] + WriteOps(k, RegDword, values) by {
        SetMultipleEffect(st, failing, paths[0], values, RegDword);
      }
      var rest := ChangeSets(policy, first.post, failing, paths[1..], values);
      assert ChangeSets(policy, st, failing, paths, values) == Outcome(rest.ok, rest.post);
      ChangeSetsAllSucceedTrace(policy, first.post, failing, paths[1..], values);
      assert PhaseOps(paths, values) == [RegCreate(k)] + WriteOps(k, RegDword, values) + PhaseOps(paths[1..], values);
      AppendThree(st.trace, [RegCreate(k)], WriteOps(k, RegDword, values), PhaseOps(paths[1..], values));
    }
  }

  lemma AppendThree<T>(s: seq<T>, x: seq<T>, y: seq<T>, z: seq<T>)
    ensures s + x + y + z == s + (x + y + z)
  {
  }

  lemma ChangeSetsExtendsTrace(policy: LoopPolicy, st: State, failing: set<Op>, paths: seq<string>, values: Dict)
    ensures var tr := ChangeSets(policy, st, failing, paths, values).post.trace;
            |st.trace| <= |tr| && tr[..|st.trace|] == st.trace
  {
    ChangeSetsConfined(policy, st, failing, paths, values);
  }

  lemma TaskPhaseExtendsTrace(policy: LoopPolicy, st: State, failing: set<Op>, tasks: seq<string>)
    ensures var tr := TaskPhase(policy, st, failing, tasks).post.trace;
            |st.trace| <= |tr| && tr[..|st.trace|] == st.trace
  {
    TaskPhaseConfined(policy, st, failing, tasks);
  }

  lemma ServicePhaseTrace(st: State, failing: set<Op>, service: Option<string>)
    ensures ServicePhase(st, failing, service).post.trace
         == st.trace + (if service.Some? then [ScStop(service.value), ScDisable(service.value)] else [])
  {
  }

  /** With rights, every phase is attempted whatever the earlier ones
      returned, in the order registry, service, tasks: the log holds the
      registry phase's operations (opening the first path's key first), then
      the service's stop and disable, then the task phase's operations
      (disabling the first task first). */
  lemma DisableAllAttemptsEveryPhase(st: State, failing: set<Op>, plan: Plan)
    ensures var registry := ChangeSets(StopAtFirstFailure, st, failing, plan.paths, plan.values);
            var service := ServicePhase(registry.post, failing, plan.service);
            var post := DisableAllOutcome(true, st, failing, plan).post;
            var a := |registry.post.trace|;
            var b := |service.post.trace|;
            && |st.trace| <= a <= b <= |post.trace|
            && post.trace[..a] == registry.post.trace
            && post.trace[..b] == service.post.trace
            && (plan.paths != [] ==> |st.trace| < a && post.trace[|st.trace|] == RegCreate(Key(LocalMachine, plan.paths[0])))
            && (plan.service.Some? ==>
                  b == a + 2 && post.trace[a] == ScStop(plan.service.value) && post.trace[a + 1] == ScDisable(plan.service.value))
            && (plan.tasks != [] ==> b < |post.trace| && post.trace[b] == SchtasksDisable(plan.tasks[0]))
  {
    var registry := ChangeSets(StopAtFirstFailure, st, failing, plan.paths, plan.values);
    var service := ServicePhase(registry.post, failing, plan.service);
    var tasks := TaskPhase(StopAtFirstFailure, service.post, failing, plan.tasks);
    assert DisableAllOutcome(true, st, failing, plan).post == tasks.post;
    var tr := tasks.post.trace;
    ChangeSetsExtendsTrace(StopAtFirstFailure, st, failing, plan.paths, plan.values);
    ServicePhaseTrace(registry.post, failing, plan.service);
    TaskPhaseExtendsTrace(StopAtFirstFailure, service.post, failing, plan.tasks);
    var a := |registry.post.trace|;
    assert service.post.trace[..a] == registry.post.trace;
    PrefixTrans(tr, service.post.trace, registry.post.trace);
    if plan.paths != [] {
      ChangeSetsOpensFirst(StopAtFirstFailure, st, failing, plan.paths, plan.values);
      PrefixAt(tr, registry.post.trace, |st.trace|);
    }
    if plan.service.Some? {
      PrefixAt(tr, service.post.trace, a);
      PrefixAt(tr, service.post.trace, a + 1);
    }
    if plan.tasks != [] {
      TaskPhaseAttemptsFirst(StopAtFirstFailure, service.post, failing, plan.tasks);
    }
  }

  /** `tr` starts with `p`, which is directly followed by `x`, `y` and `z`. */
  predicate LogContinues(tr: seq<Op>, p: seq<Op>, x: Op, y: Op, z: Op) {
    && |p| + 2 < |tr| && tr[..|p|] == p
    && tr[|p|] == x && tr[|p| + 1] == y && tr[|p| + 2] == z
  }

  /** When no registry batch fails, the log of a run with rights starts with
      the whole registry phase, path after path, directly followed by the
      service's stop and disable and then the first task's disable. */
  lemma {:induction false} DisableAllLogWhenRegistrySucceeds(st: State, failing: set<Op>, plan: Plan)
    requires AllChangeSetsSucceed(failing, plan.paths, plan.values)
    requires plan.service.Some? && plan.tasks != []
    ensures LogContinues(DisableAllOutcome(true, st, failing, plan).post.trace,
                         st.trace + PhaseOps(plan.paths, plan.values),
                         ScStop(plan.service.value), ScDisable(plan.service.value), SchtasksDisable(plan.tasks[0]))
  {
    ServiceFollowsRegistry(st, failing, plan);
    assert ChangeSets(StopAtFirstFailure, st, failing, plan.paths, plan.values).post.trace
           == st.trace + PhaseOps(plan.paths, plan.values) by {
      ChangeSetsAllSucceedTrace(StopAtFirstFailure, st, failing, plan.paths, plan.values);
    }
  }

  /** Whatever the registry phase does, the service's stop and disable and
      the first task's disable directly follow its log. */
  lemma {:induction false} ServiceFollowsRegistry(st: State, failing: set<Op>, plan: Plan)
    requires plan.service.Some? && plan.tasks != []
    ensures LogContinues(DisableAllOutcome(true, st, failing, plan).post.trace,
                         ChangeSets(StopAtFirstFailure, st, failing, plan.paths, plan.values).post.trace,
                         ScStop(plan.service.value), ScDisable(plan.service.value), SchtasksDisable(plan.tasks[0]))
  {
    DisableAllAttemptsEveryPhase(st, failing, plan);
  }

  /** The aggregate touches only what the plan names. */
  lemma DisableAllConfined(isAdmin: bool, st: State, failing: set<Op>, plan: Plan)
    ensures Confined(st, DisableAllOutcome(isAdmin, st, failing, plan).post, PlanTargets(plan))
  {
    if !isAdmin {
      ConfinedRefl(st, PlanTargets(plan));
    } else {
      var registry := ChangeSets(StopAtFirstFailure, st, failing, plan.paths, plan.values);
      var service := ServicePhase(registry.post, failing, plan.service);
      var tasks := TaskPhase(StopAtFirstFailure, service.post, failing, plan.tasks);
      ChangeSetsConfined(StopAtFirstFailure, st, failing, plan.paths, plan.values);
      ServicePhaseFacts(registry.post, failing, plan.service);
      TaskPhaseConfined(StopAtFirstFailure, service.post, failing, plan.tasks);
      ConfinedTrans(st, registry.post, service.post, PathTargets(plan.paths), ServiceTargets(plan.service));
      ConfinedTrans(st, service.post, tasks.post,
                    PathTargets(plan.paths) + ServiceTargets(plan.service), TaskTargets(plan.tasks));
    }
  }

  /** The aggregate's confinement spelled out: the log only grows, and every
      key off the plan's paths, every service but the plan's, and every task
      not in the plan is as it was. */
  lemma DisableAllLeavesRestAlone(isAdmin: bool, st: State, failing: set<Op>, plan: Plan)
    ensures var post := DisableAllOutcome(isAdmin, st, failing, plan).post;
            && |st.trace| <= |post.trace| && post.trace[..|st.trace|] == st.trace
            && (forall k :: RegKey(k) !in PathTargets(plan.paths) ==> Get(post.registry, k) == Get(st.registry, k))
            && (forall s :: plan.service != Some(s) ==> Get(post.services, s) == Get(st.services, s))
            && (forall t :: t !in plan.tasks ==> Get(post.tasks, t) == Get(st.tasks, t))
  {
    var post := DisableAllOutcome(isAdmin, st, failing, plan).post;
    DisableAllConfined(isAdmin, st, failing, plan);
    forall k | RegKey(k) !in PathTargets(plan.paths) ensures Get(post.registry, k) == Get(st.registry, k) {
      assert RegKey(k) !in PlanTargets(plan);
    }
    forall s | plan.service != Some(s) ensures Get(post.services, s) == Get(st.services, s) {
      assert Service(s) !in PlanTargets(plan);
    }
    forall t | t !in plan.tasks ensures Get(post.tasks, t) == Get(st.tasks, t) {
      assert Task(t) !in PlanTargets(plan);
    }
  }

  /** After a successful aggregate everything the plan asks for is in place. */
  lemma DisableAllSuccess(isAdmin: bool, st: State, failing: set<Op>, plan: Plan)
    requires UniqueNames(plan.values)
    requires DisableAllOutcome(isAdmin, st, failing, plan).ok
    ensures Reconciled(DisableAllOutcome(isAdmin, st, failing, plan).post, plan)
  {
    var registry := ChangeSets(StopAtFirstFailure, st, failing, plan.paths, plan.values);
    var service := ServicePhase(registry.post, failing, plan.service);
    ChangeSetsSuccess(StopAtFirstFailure, st, failing, plan.paths, plan.values);
    ServicePhaseFacts(registry.post, failing, plan.service);
    TaskPhaseConfined(StopAtFirstFailure, service.post, failing, plan.tasks);
    TaskPhaseSuccess(StopAtFirstFailure, service.post, failing, plan.tasks);
  }

  /** A plan with one path, no service and one task succeeds exactly when
      the path's batch write and the task's `schtasks` call do. */
  lemma DisableAllOkIffOnePathOneTask(isAdmin: bool, st: State, failing: set<Op>, path: string, values: Dict, task: string)
    ensures DisableAllOutcome(isAdmin, st, failing, Plan([path], values, None, [task])).ok
        <==> && isAdmin
             && ChangeSetSucceeds(failing, Key(LocalMachine, path), RegDword, values)
             && task in st.tasks && SchtasksDisable(task) !in failing
  {
    DisableAllOkIff(isAdmin, st, failing, Plan([path], values, None, [task]));
    AllChangeSetsSucceedCons(failing, [path], values);
  }

  /** After a successful run of such a plan the path holds the values and the task is disabled. */
  lemma DisableAllSuccessOnePathOneTask(isAdmin: bool, st: State, failing: set<Op>, path: string, values: Dict, task: string)
    requires UniqueNames(values)
    requires DisableAllOutcome(isAdmin, st, failing, Plan([path], values, None, [task])).ok
    ensures var post := DisableAllOutcome(isAdmin, st, failing, Plan([path], values, None, [task])).post;
            && HasValues(post.registry, Key(LocalMachine, path), RegDword, values)
            && task in post.tasks && !post.tasks[task]
  {
    var plan := Plan([path], values, None, [task]);
    DisableAllSuccess(isAdmin, st, failing, plan);
    var post := DisableAllOutcome(isAdmin, st, failing, plan).post;
    assert HasValues(post.registry, Key(LocalMachine, plan.paths[0]), RegDword, values);
    assert plan.tasks[0] in post.tasks && !post.tasks[plan.tasks[0]];
  }

  /** On a machine where everything is in place already, and no registry or
      task operation fails, the aggregate changes nothing but the log. It
      succeeds exactly when the plan has no service: a plan's service is
      already stopped, so its `sc stop` exits with 1062. */
  lemma DisableAllNoChange(st: State, failing: set<Op>, plan: Plan)
    requires UniqueNames(plan.values)
    requires Reconciled(st, plan)
    requires AllChangeSetsSucceed(failing, plan.paths, plan.values)
    requires TasksReady(st, failing, plan.tasks)
    ensures var r := DisableAllOutcome(true, st, failing, plan);
            (r.ok <==> plan.service.None?) && SameContents(r.post, st)
  {
    var registry := ChangeSets(StopAtFirstFailure, st, failing, plan.paths, plan.values);
    var service := ServicePhase(registry.post, failing, plan.service);
    ChangeSetsNoChange(StopAtFirstFailure, st, failing, plan.paths, plan.values);
    ServicePhaseNoChange(registry.post, failing, plan.service);
    TaskPhaseNoChange(StopAtFirstFailure, service.post, failing, plan.tasks);
  }

  /** Running the aggregate again after it succeeded changes nothing but the
      log. The second run succeeds exactly when the plan has no service: the
      service the first run stopped makes the second `sc stop` exit with 1062. */
  lemma DisableAllIdempotent(isAdmin: bool, st: State, failing: set<Op>, plan: Plan)
    requires UniqueNames(plan.values)
    requires DisableAllOutcome(isAdmin, st, failing, plan).ok
    ensures var once := DisableAllOutcome(isAdmin, st, failing, plan).post;
            var twice := DisableAllOutcome(isAdmin, once, failing, plan);
            (twice.ok <==> plan.service.None?) && SameContents(twice.post, once)
  {
    var once := DisableAllOutcome(isAdmin, st, failing, plan).post;
    DisableAllOkIff(isAdmin, st, failing, plan);
    DisableAllSuccess(isAdmin, st, failing, plan);
    DisableAllConfined(isAdmin, st, failing, plan);
    var registry := ChangeSets(StopAtFirstFailure, st, failing, plan.paths, plan.values);
    var service := ServicePhase(registry.post, failing, plan.service);
    ServicePhaseFacts(registry.post, failing, plan.service);
    TaskPhaseConfined(StopAtFirstFailure, service.post, failing, plan.tasks);
    DisableAllNoChange(once, failing, plan);
  }
}
