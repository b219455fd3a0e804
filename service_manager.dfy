/** The service adapter: `sc stop`, `sc config <name> start=disabled`, and the
    two in sequence. A non-zero exit status is caught and reported as `false`. */
module ServiceManager {
  import opened Store

  method StopService(m: Machine, serviceName: string) returns (ok: bool)
    modifies m
    ensures Outcome(ok, m.Snapshot()) == Step(old(m.Snapshot()), m.failing, ScStop(serviceName))
  {
    ok := m.Perform(ScStop(serviceName));
  }

  method DisableService(m: Machine, serviceName: string) returns (ok: bool)
    modifies m
    ensures Outcome(ok, m.Snapshot()) == Step(old(m.Snapshot()), m.failing, ScDisable(serviceName))
  {
    ok := m.Perform(ScDisable(serviceName));
  }

  /** Stop, then disable; the second is attempted whatever the first returned. */
  function StopAndDisableOutcome(st: State, failing: set<Op>, serviceName: string): (r: Outcome)
    // the verdict is the AND of the two commands' own verdicts, each as if run alone
    ensures r.ok == (Step(st, failing, ScStop(serviceName)).ok && Step(st, failing, ScDisable(serviceName)).ok)
    ensures r.ok <==> && serviceName in st.services && st.services[serviceName].running
                      && ScStop(serviceName) !in failing && ScDisable(serviceName) !in failing
    // both commands are attempted, stop first
    ensures r.post.trace == st.trace + [ScStop(serviceName), ScDisable(serviceName)]
    // each command that succeeded has its effect, independently of the other
    ensures serviceName in st.services ==>
              r.post.services == st.services[serviceName := ServiceState(
                running := st.services[serviceName].running && ScStop(serviceName) in failing,
                startDisabled := st.services[serviceName].startDisabled || ScDisable(serviceName) !in failing)]
    ensures serviceName !in st.services ==> r.post.services == st.services
    ensures r.post.registry == st.registry && r.post.tasks == st.tasks
  {
    var stop := Step(st, failing, ScStop(serviceName));
    var disable := Step(stop.post, failing, ScDisable(serviceName));
    Outcome(stop.ok && disable.ok, disable.post)
  }

  method StopAndDisableService(m: Machine, serviceName: string) returns (ok: bool)
    modifies m
    ensures Outcome(ok, m.Snapshot()) == StopAndDisableOutcome(old(m.Snapshot()), m.failing, serviceName)
  {
    var stopSuccess := StopService(m, serviceName);
    var disableSuccess := DisableService(m, serviceName);
    ok := stopSuccess && disableSuccess;
  }

  // ---------------------------------------------------------------------
  // Properties

  /** `sc stop` succeeds exactly when the service exists, is running and the
      command does not fail otherwise; afterwards the service is not running,
      and its start mode and every other service are as they were. */
  lemma StopServiceFacts(st: State, failing: set<Op>, serviceName: string)
    ensures var r := Step(st, failing, ScStop(serviceName));
            && (r.ok <==> serviceName in st.services && st.services[serviceName].running && ScStop(serviceName) !in failing)
            && (r.ok ==> r.post.services == st.services[serviceName := st.services[serviceName].(running := false)])
            && (!r.ok ==> r.post.services == st.services)
            && r.post.registry == st.registry && r.post.tasks == st.tasks
  {
  }

  /** `sc config ... start=disabled` succeeds exactly when the service exists and
      the command does not fail; afterwards its start mode is disabled and its
      running flag is unchanged. */
  lemma DisableServiceFacts(st: State, failing: set<Op>, serviceName: string)
    ensures var r := Step(st, failing, ScDisable(serviceName));
            && (r.ok <==> serviceName in st.services && ScDisable(serviceName) !in failing)
            && (r.ok ==> r.post.services == st.services[serviceName := st.services[serviceName].(startDisabled := true)])
            && (!r.ok ==> r.post.services == st.services)
            && r.post.registry == st.registry && r.post.tasks == st.tasks
  {
  }

  /** Stopping and disabling touches only the named service. */
  lemma StopAndDisableConfined(st: State, failing: set<Op>, serviceName: string)
    ensures Confined(st, StopAndDisableOutcome(st, failing, serviceName).post, {Service(serviceName)})
    ensures SameDomains(st, StopAndDisableOutcome(st, failing, serviceName).post)
  {
    var stop := Step(st, failing, ScStop(serviceName));
    StepConfined(st, failing, ScStop(serviceName));
    StepConfined(stop.post, failing, ScDisable(serviceName));
    ConfinedTrans(st, stop.post, Step(stop.post, failing, ScDisable(serviceName)).post,
                  {Service(serviceName)}, {Service(serviceName)});
    assert {Service(serviceName)} + {Service(serviceName)} == {Service(serviceName)};
  }

  /** A second stop-and-disable after a successful one changes nothing, but
      reports failure: the service is no longer running, so its `sc stop`
      exits with 1062. */
  lemma StopAndDisableIdempotent(st: State, failing: set<Op>, serviceName: string)
    requires StopAndDisableOutcome(st, failing, serviceName).ok
    ensures var once := StopAndDisableOutcome(st, failing, serviceName).post;
            var twice := StopAndDisableOutcome(once, failing, serviceName);
            !twice.ok && SameContents(twice.post, once)
  {
    var once := StopAndDisableOutcome(st, failing, serviceName).post;
    UpdateSame(once.services, serviceName, ServiceState(false, true));
  }
}
