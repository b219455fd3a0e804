/** The abstract operating-system state that every manager works against:
    the registry, the service-control database and the task scheduler, plus
    a log of every primitive operation that was attempted. The registry,
    service and task primitives (winreg, `sc`, `schtasks`) become one
    operation type `Op`; which of them fail is injected as a set. */
module Store {

  datatype Option<T> = None | Some(value: T)

  function Get<K, V>(m: map<K, V>, x: K): Option<V> {
    if x in m then Some(m[x]) else None
  }

  /** The two hives the system writes to: HKEY_LOCAL_MACHINE and HKEY_CURRENT_USER. */
  datatype Hive = LocalMachine | CurrentUser

  /** The registry value types the system uses: REG_DWORD and REG_SZ. */
  datatype ValueType = RegDword | RegSz

  /** A value as handed to SetValueEx: an integer or a string. */
  datatype Data = Int(n: int) | Str(s: string)

  datatype RegValue = RegValue(kind: ValueType, data: Data)

  /** A registry key: a hive and a hive-relative path. */
  datatype Key = Key(hive: Hive, path: string)

  /** The values under one key, by value name ("" is the default value). */
  type Table = map<string, RegValue>

  type Registry = map<Key, Table>

  datatype ServiceState = ServiceState(running: bool, startDisabled: bool)

  /** What an operation can affect. */
  datatype Target = RegKey(key: Key) | Service(name: string) | Task(path: string)

  /** The primitive operations: winreg.CreateKey/CreateKeyEx, winreg.SetValueEx,
      winreg.DeleteValue, `sc stop`, `sc config ... start=disabled` and
      `schtasks /change /tn ... /disable`. */
  datatype Op =
    | RegCreate(key: Key)
    | RegSet(key: Key, name: string, value: RegValue)
    | RegDelete(key: Key, name: string)
    | ScStop(service: string)
    | ScDisable(service: string)
    | SchtasksDisable(task: string)
  {
    function Touches(): Target {
      match this
      case RegCreate(k) => RegKey(k)
      case RegSet(k, _, _) => RegKey(k)
      case RegDelete(k, _) => RegKey(k)
      case ScStop(s) => Service(s)
      case ScDisable(s) => Service(s)
      case SchtasksDisable(t) => Task(t)
    }
  }

  /** A snapshot of the machine. `tasks` maps a task path to its enabled flag;
      `trace` lists every primitive operation attempted so far, in order. */
  datatype State = State(
    registry: Registry,
    services: map<string, ServiceState>,
    tasks: map<string, bool>,
    trace: seq<Op>)

  /** The boolean verdict of an operation and the state it leaves behind. */
  datatype Outcome = Outcome(ok: bool, post: State)

  function TableOf(reg: Registry, k: Key): Table {
    if k in reg then reg[k] else map[]
  }

  /** Whether a primitive succeeds. An operation in `failing` raises
      WindowsError (registry) or exits non-zero (`sc`, `schtasks`). Besides,
      deleting a value that is not there raises FileNotFoundError, `sc` and
      `schtasks` fail on a service or task that does not exist, and `sc stop`
      fails on a service that is not running (error 1062). Creating a key that
      is absent is not a failure, nor is disabling what is already disabled. */
  predicate Succeeds(st: State, failing: set<Op>, op: Op) {
    && op !in failing
    && match op
       case RegCreate(_) => true
       case RegSet(_, _, _) => true
       case RegDelete(k, name) => k in st.registry && name in st.registry[k]
       case ScStop(s) => s in st.services && st.services[s].running
       case ScDisable(s) => s in st.services
       case SchtasksDisable(t) => t in st.tasks
  }

  /** The effect of a primitive that succeeded. */
  function Effect(st: State, op: Op): State {
    match op
    case RegCreate(k) => st.(registry := st.registry[k := TableOf(st.registry, k)])
    case RegSet(k, name, v) => st.(registry := st.registry[k := TableOf(st.registry, k)[name := v]])
    case RegDelete(k, name) => st.(registry := st.registry[k := TableOf(st.registry, k) - {name}])
    case ScStop(s) =>
      if s in st.services then st.(services := st.services[s := st.services[s].(running := false)]) else st
    case ScDisable(s) =>
      if s in st.services then st.(services := st.services[s := st.services[s].(startDisabled := true)]) else st
    case SchtasksDisable(t) =>
      if t in st.tasks then st.(tasks := st.tasks[t := false]) else st
  }

  /** One attempted primitive: it is logged, and changes the state only if it succeeds. */
  function Step(st: State, failing: set<Op>, op: Op): Outcome {
    var logged := st.(trace := st.trace + [op]);
    if Succeeds(st, failing, op) then Outcome(true, Effect(logged, op)) else Outcome(false, logged)
  }

  /** `b` follows `a` by operations that touch only `T`: the log only grows, by
      operations on `T`, and every registry key, service and task outside `T`
      is as it was. */
  ghost predicate Confined(a: State, b: State, T: set<Target>) {
    && |a.trace| <= |b.trace|
    && b.trace[..|a.trace|] == a.trace
    && (forall i :: |a.trace| <= i < |b.trace| ==> b.trace[i].Touches() in T)
    && (forall k :: RegKey(k) !in T ==> Get(a.registry, k) == Get(b.registry, k))
    && (forall s :: Service(s) !in T ==> Get(a.services, s) == Get(b.services, s))
    && (forall t :: Task(t) !in T ==> Get(a.tasks, t) == Get(b.tasks, t))
  }

  /** The services and tasks that exist are the same in both states. */
  predicate SameDomains(a: State, b: State) {
    a.services.Keys == b.services.Keys && a.tasks.Keys == b.tasks.Keys
  }

  /** The two states agree on everything but the log. */
  predicate SameContents(a: State, b: State) {
    a.registry == b.registry && a.services == b.services && a.tasks == b.tasks
  }

  lemma StepConfined(st: State, failing: set<Op>, op: Op)
    ensures Confined(st, Step(st, failing, op).post, {op.Touches()})
    ensures Step(st, failing, op).post.trace == st.trace + [op]
    ensures SameDomains(st, Step(st, failing, op).post)
  {
    var post := Step(st, failing, op).post;
    assert post.trace[..|st.trace|] == st.trace;
  }

  lemma ConfinedTrans(a: State, b: State, c: State, T1: set<Target>, T2: set<Target>)
    requires Confined(a, b, T1) && Confined(b, c, T2)
    ensures Confined(a, c, T1 + T2)
  {
    assert c.trace[..|a.trace|] == c.trace[..|b.trace|][..|a.trace|];
    forall i | |a.trace| <= i < |c.trace| ensures c.trace[i].Touches() in T1 + T2 {
      if i < |b.trace| {
        assert c.trace[i] == c.trace[..|b.trace|][i];
      }
    }
  }

  lemma ConfinedWiden(a: State, b: State, T1: set<Target>, T2: set<Target>)
    requires Confined(a, b, T1) && T1 <= T2
    ensures Confined(a, b, T2)
  {
  }

  lemma ConfinedRefl(a: State, T: set<Target>)
    ensures Confined(a, a, T)
  {
    assert a.trace[..|a.trace|] == a.trace;
  }

  /** The primitives whose success is decided by the failure set and by which
      services and tasks exist, whatever the values and flags they hold. */
  predicate DomainDecided(op: Op) {
    !op.RegDelete? && !op.ScStop?
  }

  lemma SucceedsOnSameDomains(a: State, b: State, failing: set<Op>, op: Op)
    requires SameDomains(a, b) && DomainDecided(op)
    ensures Succeeds(a, failing, op) == Succeeds(b, failing, op)
  {
  }

  lemma GetExt<K, V>(a: map<K, V>, b: map<K, V>)
    requires forall x :: Get(a, x) == Get(b, x)
    ensures a == b
  {
    forall x | x in a ensures x in b && a[x] == b[x] {
      assert Get(a, x) == Get(b, x);
    }
    forall x | x in b ensures x in a {
      assert Get(a, x) == Get(b, x);
    }
  }

  lemma UpdateSame<K, V>(m: map<K, V>, k: K, v: V)
    requires k in m && m[k] == v
    ensures m[k := v] == m
  {
  }

  lemma UpdateTwice<K, V>(m: map<K, V>, k: K, a: V, b: V)
    ensures m[k := a][k := b] == m[k := b]
  {
  }

  lemma PrefixAt<T>(s: seq<T>, p: seq<T>, i: nat)
    requires |p| <= |s| && s[..|p|] == p && i < |p|
    ensures s[i] == p[i]
  {
    assert s[i] == s[..|p|][i];
  }

  lemma PrefixTrans<T>(s: seq<T>, q: seq<T>, p: seq<T>)
    requires |q| <= |s| && s[..|q|] == q && |p| <= |q| && q[..|p|] == p
    ensures s[..|p|] == p
  {
    assert s[..|p|] == s[..|q|][..|p|];
  }

  /** The machine: the live state the managers mutate. */
  class Machine {
    var registry: Registry
    var services: map<string, ServiceState>
    var tasks: map<string, bool>
    var trace: seq<Op>
    const failing: set<Op>

    function Snapshot(): State
      reads this
    {
      State(registry, services, tasks, trace)
    }

    constructor (registry: Registry, services: map<string, ServiceState>, tasks: map<string, bool>, failing: set<Op>)
      ensures Snapshot() == State(registry, services, tasks, [])
      ensures this.failing == failing
    {
      this.registry := registry;
      this.services := services;
      this.tasks := tasks;
      this.trace := [];
      this.failing := failing;
    }

    /** Issue one primitive against the operating system. */
    method Perform(op: Op) returns (ok: bool)
      modifies this
      ensures Outcome(ok, Snapshot()) == Step(old(Snapshot()), failing, op)
    {
      var r := Step(Snapshot(), failing, op);
      registry, services, tasks, trace := r.post.registry, r.post.services, r.post.tasks, r.post.trace;
      ok := r.ok;
    }
  }
}
