/** The registry adapter: writing one value, writing a batch of values, and
    deleting a value, all under HKEY_LOCAL_MACHINE. Each opens the key with
    CreateKeyEx, which creates it when it is absent, and reports failure as
    `false` instead of raising. */
module RegistryManager {
  import opened Store
  import opened Attempts

  /** A Python dict of value names to values, in its iteration order. */
  type Dict = seq<(string, Data)>

  function Names(d: Dict): set<string> {
    set i | 0 <= i < |d| :: d[i].0
  }

  predicate UniqueNames(d: Dict) {
    forall i, j :: 0 <= i < j < |d| ==> d[i].0 != d[j].0
  }

  lemma NamesCons(d: Dict)
    requires d != []
    ensures Names(d) == {d[0].0} + Names(d[1..])
  {
    forall n | n in Names(d) ensures n in {d[0].0} + Names(d[1..]) {
      var i :| 0 <= i < |d| && d[i].0 == n;
      if i > 0 { assert d[1..][i - 1] == d[i]; }
    }
    forall n | n in Names(d[1..]) ensures n in Names(d) {
      var i :| 0 <= i < |d[1..]| && d[1..][i].0 == n;
      assert d[i + 1] == d[1..][i];
    }
  }

  /** Adding `n: v` to a dict: a key already present keeps its position and
      takes the new value; a new key goes last. */
  function Insert(d: Dict, n: string, v: Data): (r: Dict)
    ensures Names(r) == Names(d) + {n}
    ensures UniqueNames(d) ==> UniqueNames(r)
    ensures n in Names(d) ==> |r| == |d|
    ensures n !in Names(d) ==> r == d + [(n, v)]
    decreases |d|
  {
    if d == [] then
      var r := [(n, v)];
      assert r[0].0 == n;
      r
    else if d[0].0 == n then
      ReplaceHead(d, v);
      [(n, v)] + d[1..]
    else
      var rest := Insert(d[1..], n, v);
      NamesCons(d);
      PrependHead(d, rest, n, v);
      [d[0]] + rest
  }

  /** Giving the first entry a new value keeps the names and their uniqueness. */
  lemma ReplaceHead(d: Dict, v: Data)
    requires d != []
    ensures var r := [(d[0].0, v)] + d[1..];
            Names(r) == Names(d) && |r| == |d| && (UniqueNames(d) ==> UniqueNames(r))
  {
    var r := [(d[0].0, v)] + d[1..];
    NamesCons(d);
    NamesCons(r);
    assert r[1..] == d[1..];
    assert forall i, j :: 0 <= i < j < |r| ==> r[i].0 == d[i].0 && r[j].0 == d[j].0;
  }

  /** Putting back the first entry in front of the tail's insertion of `n`. */
  lemma PrependHead(d: Dict, rest: Dict, n: string, v: Data)
    requires d != [] && d[0].0 != n
    requires Names(rest) == Names(d[1..]) + {n} && (UniqueNames(d[1..]) ==> UniqueNames(rest))
    requires n in Names(d[1..]) ==> |rest| == |d[1..]|
    requires n !in Names(d[1..]) ==> rest == d[1..] + [(n, v)]
    ensures var r := [d[0]] + rest;
            && Names(r) == Names(d) + {n} && (UniqueNames(d) ==> UniqueNames(r))
            && (n in Names(d) ==> |r| == |d|)
            && (n !in Names(d) ==> r == d + [(n, v)])
  {
    var r := [d[0]] + rest;
    NamesCons(d);
    NamesCons(r);
    assert r[1..] == rest;
    if UniqueNames(d) {
      UniqueTail(d);
      UniqueCons(d[0], rest);
    }
    if n !in Names(d) {
      assert d == [d[0]] + d[1..];
    }
  }

  lemma UniqueTail(d: Dict)
    requires d != [] && UniqueNames(d)
    ensures UniqueNames(d[1..]) && d[0].0 !in Names(d[1..])
  {
    forall i, j | 0 <= i < j < |d[1..]| ensures d[1..][i].0 != d[1..][j].0 {
      assert d[1..][i] == d[i + 1] && d[1..][j] == d[j + 1];
    }
    forall i | 0 <= i < |d[1..]| ensures d[1..][i].0 != d[0].0 {
      assert d[1..][i] == d[i + 1];
    }
  }

  lemma UniqueCons(x: (string, Data), rest: Dict)
    requires UniqueNames(rest) && x.0 !in Names(rest)
    ensures UniqueNames([x] + rest)
  {
    var r := [x] + rest;
    forall i, j | 0 <= i < j < |r| ensures r[i].0 != r[j].0 {
      if i == 0 {
        assert r[j] == rest[j - 1];
        assert rest[j - 1].0 in Names(rest);
      } else {
        assert r[i] == rest[i - 1] && r[j] == rest[j - 1];
      }
    }
  }

  /** The dict a Python dict display builds from its entries, in writing order:
      a repeated key stays at its first position and takes its last value. */
  function DictDisplay(entries: seq<(string, Data)>): (d: Dict)
    ensures UniqueNames(d)
    ensures Names(d) == Names(entries)
    decreases |entries|
  {
    if entries == [] then []
    else
      var init := entries[..|entries| - 1];
      var last := entries[|entries| - 1];
      assert Names(entries) == Names(init) + {last.0} by {
        forall n | n in Names(entries) ensures n in Names(init) + {last.0} {
          var i :| 0 <= i < |entries| && entries[i].0 == n;
          if i < |entries| - 1 { assert init[i] == entries[i]; }
        }
        forall n | n in Names(init) ensures n in Names(entries) {
          var i :| 0 <= i < |init| && init[i].0 == n;
          assert entries[i] == init[i];
        }
      }
      Insert(DictDisplay(init), last.0, last.1)
  }

  /** The position of the last entry named `n`, or -1 when there is none. */
  function LastIndex(e: seq<(string, Data)>, n: string): (l: int)
    ensures -1 <= l < |e|
    decreases |e|
  {
    if e == [] then -1
    else if e[|e| - 1].0 == n then |e| - 1
    else LastIndex(e[..|e| - 1], n)
  }

  /** The position of the first entry named `n`, or -1 when there is none. */
  function FirstIndex(e: seq<(string, Data)>, n: string): (f: int)
    ensures -1 <= f < |e|
    decreases |e|
  {
    if e == [] then -1
    else
      var f := FirstIndex(e[..|e| - 1], n);
      if f >= 0 then f else if e[|e| - 1].0 == n then |e| - 1 else -1
  }

  lemma {:induction false} LastIndexIsLast(e: seq<(string, Data)>, n: string)
    ensures var l := LastIndex(e, n);
            && (l >= 0 ==> e[l].0 == n && forall j :: l < j < |e| ==> e[j].0 != n)
            && (l < 0 ==> forall j :: 0 <= j < |e| ==> e[j].0 != n)
    decreases |e|
  {
    if e != [] && e[|e| - 1].0 != n {
      var init := e[..|e| - 1];
      LastIndexIsLast(init, n);
      forall j | 0 <= j < |init| ensures e[j] == init[j] {}
    }
  }

  lemma {:induction false} FirstIndexIsFirst(e: seq<(string, Data)>, n: string)
    ensures var f := FirstIndex(e, n);
            && (f >= 0 ==> e[f].0 == n && forall j :: 0 <= j < f ==> e[j].0 != n)
            && (f < 0 ==> forall j :: 0 <= j < |e| ==> e[j].0 != n)
    decreases |e|
  {
    if e != [] {
      var init := e[..|e| - 1];
      FirstIndexIsFirst(init, n);
      forall j | 0 <= j < |init| ensures e[j] == init[j] {}
    }
  }

  lemma FirstIndexOfName(e: seq<(string, Data)>, n: string)
    ensures n in Names(e) <==> FirstIndex(e, n) >= 0
  {
    var f := FirstIndex(e, n);
    FirstIndexIsFirst(e, n);
    if n in Names(e) {
      var j :| 0 <= j < |e| && e[j].0 == n;
    }
    if f >= 0 {
      assert e[f].0 in Names(e);
    }
  }

  /** Storing a name already present in a dict with unique names replaces the
      value at that name's position and leaves every other entry in place. */
  lemma {:induction false} InsertKeepsPosition(d: Dict, n: string, v: Data)
    requires UniqueNames(d) && n in Names(d)
    ensures var r := Insert(d, n, v);
            |r| == |d| && forall i :: 0 <= i < |d| ==> r[i] == (if d[i].0 == n then (n, v) else d[i])
    decreases |d|
  {
    if d[0].0 != n {
      NamesCons(d);
      UniqueTail(d);
      InsertKeepsPosition(d[1..], n, v);
      var r := Insert(d, n, v);
      assert r == [d[0]] + Insert(d[1..], n, v);
      forall i | 0 < i < |d| ensures r[i] == (if d[i].0 == n then (n, v) else d[i]) {
        assert r[i] == Insert(d[1..], n, v)[i - 1] && d[1..][i - 1] == d[i];
      }
    }
  }

  /** What the last entry of a display does to the display of the others: it
      replaces the value of its name in place, or comes last when its name is new. */
  lemma DisplayLast(entries: seq<(string, Data)>)
    requires entries != []
    ensures var init := entries[..|entries| - 1];
            var x := entries[|entries| - 1];
            var D := DictDisplay(init);
            var r := DictDisplay(entries);
            && |D| <= |r| <= |D| + 1
            && (forall i :: 0 <= i < |D| ==> r[i] == (if D[i].0 == x.0 then x else D[i]))
            && (|r| == |D| + 1 ==> r[|D|] == x && x.0 !in Names(init))
  {
    var init := entries[..|entries| - 1];
    var x := entries[|entries| - 1];
    var D := DictDisplay(init);
    assert DictDisplay(entries) == Insert(D, x.0, x.1);
    if x.0 in Names(D) {
      InsertKeepsPosition(D, x.0, x.1);
    } else {
      forall i | 0 <= i < |D| ensures D[i].0 != x.0 {
        assert D[i].0 in Names(D);
      }
    }
  }

  /** Each name of a dict display holds the value of its last entry. */
  lemma {:induction false} DictDisplayLastValue(entries: seq<(string, Data)>)
    ensures var d := DictDisplay(entries);
            forall i :: 0 <= i < |d| ==> LastIndex(entries, d[i].0) >= 0 && entries[LastIndex(entries, d[i].0)] == d[i]
    decreases |entries|
  {
    if entries != [] {
      var init := entries[..|entries| - 1];
      var x := entries[|entries| - 1];
      var D := DictDisplay(init);
      var r := DictDisplay(entries);
      DictDisplayLastValue(init);
      DisplayLast(entries);
      forall i | 0 <= i < |r|
        ensures LastIndex(entries, r[i].0) >= 0 && entries[LastIndex(entries, r[i].0)] == r[i]
      {
        if r[i].0 != x.0 {
          assert r[i] == D[i];
          assert LastIndex(entries, r[i].0) == LastIndex(init, D[i].0);
          assert entries[LastIndex(init, D[i].0)] == init[LastIndex(init, D[i].0)];
        }
      }
    }
  }

  /** The names of a dict display come in the order of their first entries. */
  lemma {:induction false} DictDisplayFirstPosition(entries: seq<(string, Data)>)
    ensures var d := DictDisplay(entries);
            forall i, j :: 0 <= i < j < |d| ==> FirstIndex(entries, d[i].0) < FirstIndex(entries, d[j].0)
    decreases |entries|
  {
    if entries != [] {
      var init := entries[..|entries| - 1];
      var x := entries[|entries| - 1];
      var D := DictDisplay(init);
      var r := DictDisplay(entries);
      DictDisplayFirstPosition(init);
      DisplayLast(entries);
      forall i | 0 <= i < |D| ensures FirstIndex(entries, r[i].0) == FirstIndex(init, D[i].0) >= 0 {
        assert r[i].0 == D[i].0;
        assert D[i].0 in Names(D);
        FirstIndexOfName(init, D[i].0);
      }
      if |r| == |D| + 1 {
        FirstIndexOfName(init, x.0);
        assert FirstIndex(entries, r[|D|].0) == |init|;
      }
      forall i, j | 0 <= i < j < |r| ensures FirstIndex(entries, r[i].0) < FirstIndex(entries, r[j].0) {
        if j < |D| {
          assert FirstIndex(init, D[i].0) < FirstIndex(init, D[j].0);
        }
      }
    }
  }

  lemma DictDisplaySnoc(init: seq<(string, Data)>, n: string, v: Data)
    ensures DictDisplay(init + [(n, v)]) == Insert(DictDisplay(init), n, v)
  {
    var e := init + [(n, v)];
    assert e[..|e| - 1] == init;
  }

  lemma InsertFresh(d: Dict, n: string, v: Data)
    requires forall i :: 0 <= i < |d| ==> d[i].0 != n
    ensures Insert(d, n, v) == d + [(n, v)]
  {
    assert n !in Names(d);
  }

  /** Inserting an entry again, where no earlier entry has its name, changes nothing. */
  lemma InsertAgain(d: Dict, i: nat)
    requires i < |d| && forall j :: 0 <= j < i ==> d[j].0 != d[i].0
    ensures Insert(d, d[i].0, d[i].1) == d
    decreases i
  {
    if i == 0 {
      assert [(d[0].0, d[0].1)] + d[1..] == d;
    } else {
      assert d[1..][i - 1] == d[i];
      InsertAgain(d[1..], i - 1);
      assert [d[0]] + d[1..] == d;
    }
  }

  lemma DisplayOne(a: (string, Data))
    ensures DictDisplay([a]) == [a]
  {
    DictDisplaySnoc([], a.0, a.1);
    assert [] + [a] == [a];
  }

  lemma DisplayTwo(a: (string, Data), b: (string, Data))
    requires a.0 != b.0
    ensures DictDisplay([a, b]) == [a, b]
  {
    calc {
      DictDisplay([a, b]);
    == { assert [a, b] == [a] + [(b.0, b.1)]; DictDisplaySnoc([a], b.0, b.1); }
      Insert(DictDisplay([a]), b.0, b.1);
    == { DisplayOne(a); }
      Insert([a], b.0, b.1);
    == { InsertFresh([a], b.0, b.1); }
      [a, b];
    }
  }

  /** A display of three distinct names is those three entries. */
  lemma DisplayThree(a: (string, Data), b: (string, Data), c: (string, Data))
    requires a.0 != b.0 && a.0 != c.0 && b.0 != c.0
    ensures DictDisplay([a, b, c]) == [a, b, c]
  {
    calc {
      DictDisplay([a, b, c]);
    == { assert [a, b, c] == [a, b] + [(c.0, c.1)]; DictDisplaySnoc([a, b], c.0, c.1); }
      Insert(DictDisplay([a, b]), c.0, c.1);
    == { DisplayTwo(a, b); }
      Insert([a, b], c.0, c.1);
    == { InsertFresh([a, b], c.0, c.1); }
      [a, b, c];
    }
  }

  lemma DisplayFourRepeatingSecond(a: (string, Data), b: (string, Data), c: (string, Data), d: (string, Data))
    requires a.0 != b.0 && a.0 != c.0 && b.0 != c.0 && d == b
    ensures DictDisplay([a, b, c, d]) == [a, b, c]
  {
    calc {
      DictDisplay([a, b, c, d]);
    == { assert [a, b, c, d] == [a, b, c] + [(d.0, d.1)]; DictDisplaySnoc([a, b, c], d.0, d.1); }
      Insert(DictDisplay([a, b, c]), d.0, d.1);
    == { DisplayThree(a, b, c); }
      Insert([a, b, c], d.0, d.1);
    == { InsertAgain([a, b, c], 1); }
      [a, b, c];
    }
  }

  /** A display of five entries whose fourth repeats the second, name and
      value: the repeat leaves no trace. */
  lemma DisplayFiveRepeatingSecond(a: (string, Data), b: (string, Data), c: (string, Data), d: (string, Data), f: (string, Data))
    requires a.0 != b.0 && a.0 != c.0 && b.0 != c.0 && d == b
    requires f.0 != a.0 && f.0 != b.0 && f.0 != c.0
    ensures DictDisplay([a, b, c, d, f]) == [a, b, c, f]
  {
    calc {
      DictDisplay([a, b, c, d, f]);
    == { assert [a, b, c, d, f] == [a, b, c, d] + [(f.0, f.1)]; DictDisplaySnoc([a, b, c, d], f.0, f.1); }
      Insert(DictDisplay([a, b, c, d]), f.0, f.1);
    == { DisplayFourRepeatingSecond(a, b, c, d); }
      Insert([a, b, c], f.0, f.1);
    == { InsertFresh([a, b, c], f.0, f.1); }
      [a, b, c, f];
    }
  }

  /** The values a batch write leaves under its key, as a map: each name of
      the dict with its value, typed `t`; a later entry wins over an earlier. */
  function AsMap(t: ValueType, d: Dict): (m: Table)
    ensures m.Keys == Names(d)
    ensures UniqueNames(d) ==> forall i :: 0 <= i < |d| ==> d[i].0 in m && m[d[i].0] == RegValue(t, d[i].1)
    decreases |d|
  {
    if d == [] then map[]
    else
      NamesCons(d);
      var rest := AsMap(t, d[1..]);
      assert UniqueNames(d) ==> UniqueNames(d[1..]) by {
        if UniqueNames(d) {
          forall i, j | 0 <= i < j < |d[1..]| ensures d[1..][i].0 != d[1..][j].0 {
            assert d[1..][i] == d[i + 1] && d[1..][j] == d[j + 1];
          }
        }
      }
      assert UniqueNames(d) ==> d[0].0 !in rest;
      assert forall i :: 1 <= i < |d| ==> d[i] == d[1..][i - 1];
      map[d[0].0 := RegValue(t, d[0].1)] + rest
  }

  /** The SetValueEx calls of a batch write, in the dict's order. */
  function WriteOps(k: Key, t: ValueType, d: Dict): (ops: seq<Op>)
    ensures |ops| == |d|
    ensures forall i :: 0 <= i < |d| ==> ops[i] == RegSet(k, d[i].0, RegValue(t, d[i].1))
  {
    seq(|d|, i requires 0 <= i < |d| => RegSet(k, d[i].0, RegValue(t, d[i].1)))
  }

  /** A batch write under `k` succeeds exactly when neither the key creation nor
      any of the value writes fails. */
  predicate ChangeSetSucceeds(failing: set<Op>, k: Key, t: ValueType, d: Dict) {
    && RegCreate(k) !in failing
    && forall i :: 0 <= i < |d| ==> RegSet(k, d[i].0, RegValue(t, d[i].1)) !in failing
  }

  /** The table `k` holds when every name of `d` is present with its value. */
  predicate HasValues(reg: Registry, k: Key, t: ValueType, d: Dict) {
    k in reg && forall i :: 0 <= i < |d| ==> d[i].0 in reg[k] && reg[k][d[i].0] == RegValue(t, d[i].1)
  }

  /** CreateKeyEx, then one SetValueEx. */
  function CreateAndSet(st: State, failing: set<Op>, k: Key, name: string, v: RegValue): Outcome {
    var created := Step(st, failing, RegCreate(k));
    if !created.ok then created else Step(created.post, failing, RegSet(k, name, v))
  }

  function SetRegistryValueOutcome(st: State, failing: set<Op>, keyPath: string, valueName: string,
                                   value: Data, valueType: ValueType := RegDword): Outcome
  {
    CreateAndSet(st, failing, Key(LocalMachine, keyPath), valueName, RegValue(valueType, value))
  }

  /** CreateKeyEx, then the writes in dict order; the first that raises ends the batch. */
  function SetMultipleOutcome(st: State, failing: set<Op>, keyPath: string, values: Dict,
                              valueType: ValueType := RegDword): Outcome
  {
    var k := Key(LocalMachine, keyPath);
    var created := Step(st, failing, RegCreate(k));
    if !created.ok then created else Run(StopAtFirstFailure, created.post, failing, WriteOps(k, valueType, values))
  }

  /** CreateKeyEx (which creates an absent key), then DeleteValue. */
  function DeleteValueOutcome(st: State, failing: set<Op>, keyPath: string, valueName: string): Outcome {
    var k := Key(LocalMachine, keyPath);
    var created := Step(st, failing, RegCreate(k));
    if !created.ok then created else Step(created.post, failing, RegDelete(k, valueName))
  }

  method SetRegistryValue(m: Machine, keyPath: string, valueName: string, value: Data,
                          valueType: ValueType := RegDword) returns (ok: bool)
    modifies m
    ensures Outcome(ok, m.Snapshot()) == SetRegistryValueOutcome(old(m.Snapshot()), m.failing, keyPath, valueName, value, valueType)
  {
    var k := Key(LocalMachine, keyPath);
    ok := m.Perform(RegCreate(k));
    if ok {
      ok := m.Perform(RegSet(k, valueName, RegValue(valueType, value)));
    }
  }

  method SetMultipleValues(m: Machine, keyPath: string, values: Dict,
                           valueType: ValueType := RegDword) returns (ok: bool)
    modifies m
    ensures Outcome(ok, m.Snapshot()) == SetMultipleOutcome(old(m.Snapshot()), m.failing, keyPath, values, valueType)
  {
    var k := Key(LocalMachine, keyPath);
    ok := m.Perform(RegCreate(k));
    if !ok {
      return;
    }
    ghost var ops := WriteOps(k, valueType, values);
    ghost var created := m.Snapshot();
    assert ops[0..] == ops;
    var i := 0;
    while i < |values|
      invariant 0 <= i <= |values|
      invariant Run(StopAtFirstFailure, m.Snapshot(), m.failing, ops[i..]) == Run(StopAtFirstFailure, created, m.failing, ops)
    {
      var (name, value) := values[i];
      RunFrom(StopAtFirstFailure, m.Snapshot(), m.failing, ops, i);
      ok := m.Perform(RegSet(k, name, RegValue(valueType, value)));
      if !ok {
        return;
      }
      i := i + 1;
    }
    assert ops[i..] == [];
  }

  method DeleteValue(m: Machine, keyPath: string, valueName: string) returns (ok: bool)
    modifies m
    ensures Outcome(ok, m.Snapshot()) == DeleteValueOutcome(old(m.Snapshot()), m.failing, keyPath, valueName)
  {
    var k := Key(LocalMachine, keyPath);
    ok := m.Perform(RegCreate(k));
    if ok {
      ok := m.Perform(RegDelete(k, valueName));
    }
  }

  // ---------------------------------------------------------------------
  // Properties

  lemma WriteOpsFacts(k: Key, t: ValueType, d: Dict)
    ensures AllDomainDecided(WriteOps(k, t, d))
    ensures Targets(WriteOps(k, t, d)) <= {RegKey(k)}
    ensures d != [] ==> WriteOps(k, t, d)[1..] == WriteOps(k, t, d[1..])
  {
  }

  lemma AppendCons<T>(s: seq<T>, xs: seq<T>)
    requires xs != []
    ensures s + [xs[0]] + xs[1..] == s + xs
  {
    assert [xs[0]] + xs[1..] == xs;
  }

  lemma AppendOne<T>(s: seq<T>, xs: seq<T>, j: nat)
    requires j < |xs|
    ensures s + xs[..j] + [xs[j]] == s + xs[..j + 1]
  {
    assert xs[..j] + [xs[j]] == xs[..j + 1];
  }

  lemma OverlayStep(T: Table, t: ValueType, d: Dict)
    requires d != []
    ensures T[d[0].0 := RegValue(t, d[0].1)] + AsMap(t, d[1..]) == T + AsMap(t, d)
  {
  }

  /** Writing values that all succeed, under a key that exists, overlays the
      dict on the key's table and logs the writes. */
  lemma {:induction false} RunWritesEffect(st: State, failing: set<Op>, k: Key, t: ValueType, d: Dict)
    requires k in st.registry
    requires forall i :: 0 <= i < |d| ==> RegSet(k, d[i].0, RegValue(t, d[i].1)) !in failing
    ensures Run(StopAtFirstFailure, st, failing, WriteOps(k, t, d))
         == Outcome(true, st.(registry := st.registry[k := st.registry[k] + AsMap(t, d)],
                              trace := st.trace + WriteOps(k, t, d)))
    decreases |d|
  {
    var ops := WriteOps(k, t, d);
    if d == [] {
      var T := st.registry[k];
      assert T + AsMap(t, d) == T;
      assert st.registry[k := T] == st.registry;
      assert st.trace + ops == st.trace;
    } else {
      var v0 := RegValue(t, d[0].1);
      assert ops[0] == RegSet(k, d[0].0, v0);
      var first := Step(st, failing, ops[0]);
      var T1 := st.registry[k][d[0].0 := v0];
      assert first == Outcome(true, st.(registry := st.registry[k := T1], trace := st.trace + [ops[0]]));
      WriteOpsFacts(k, t, d);
      forall i | 0 <= i < |d[1..]| ensures RegSet(k, d[1..][i].0, RegValue(t, d[1..][i].1)) !in failing {
        assert d[1..][i] == d[i + 1];
      }
      var rest := Run(StopAtFirstFailure, first.post, failing, ops[1..]);
      assert Run(StopAtFirstFailure, st, failing, ops) == rest;
      RunWritesEffect(first.post, failing, k, t, d[1..]);
      var T2 := T1 + AsMap(t, d[1..]);
      assert rest.ok && rest.post.registry == st.registry[k := T1][k := T2];
      assert rest.post.trace == st.trace + [ops[0]] + ops[1..];
      OverlayStep(st.registry[k], t, d);
      assert T2 == st.registry[k] + AsMap(t, d);
      UpdateTwice(st.registry, k, T1, T2);
      AppendCons(st.trace, ops);
    }
  }

  /** A batch write reports success exactly when nothing in it fails. */
  lemma SetMultipleOkIff(st: State, failing: set<Op>, keyPath: string, values: Dict, t: ValueType)
    ensures SetMultipleOutcome(st, failing, keyPath, values, t).ok
        <==> ChangeSetSucceeds(failing, Key(LocalMachine, keyPath), t, values)
  {
    var k := Key(LocalMachine, keyPath);
    var created := Step(st, failing, RegCreate(k));
    if created.ok {
      var ops := WriteOps(k, t, values);
      WriteOpsFacts(k, t, values);
      RunOkIff(StopAtFirstFailure, created.post, failing, ops);
      assert (forall i :: 0 <= i < |ops| ==> Succeeds(created.post, failing, ops[i]))
         <==> (forall i :: 0 <= i < |values| ==> RegSet(k, values[i].0, RegValue(t, values[i].1)) !in failing);
    }
  }

  /** A batch write touches only its own key, and only logs its operations. */
  lemma SetMultipleConfined(st: State, failing: set<Op>, keyPath: string, values: Dict, t: ValueType)
    ensures Confined(st, SetMultipleOutcome(st, failing, keyPath, values, t).post, {RegKey(Key(LocalMachine, keyPath))})
    ensures SameDomains(st, SetMultipleOutcome(st, failing, keyPath, values, t).post)
    ensures var post := SetMultipleOutcome(st, failing, keyPath, values, t).post;
            post.services == st.services && post.tasks == st.tasks
  {
    var k := Key(LocalMachine, keyPath);
    var created := Step(st, failing, RegCreate(k));
    StepConfined(st, failing, RegCreate(k));
    if created.ok {
      var ops := WriteOps(k, t, values);
      WriteOpsFacts(k, t, values);
      RunConfined(StopAtFirstFailure, created.post, failing, ops);
      ConfinedTrans(st, created.post, Run(StopAtFirstFailure, created.post, failing, ops).post, {RegKey(k)}, Targets(ops));
      ConfinedWiden(st, Run(StopAtFirstFailure, created.post, failing, ops).post, {RegKey(k)} + Targets(ops), {RegKey(k)});
    }
    var post := SetMultipleOutcome(st, failing, keyPath, values, t).post;
    GetExt(st.services, post.services);
    GetExt(st.tasks, post.tasks);
  }

  /** A batch in which nothing fails creates the key if needed, overlays the
      dict on the key's values, and logs the creation and the writes in order. */
  lemma SetMultipleEffect(st: State, failing: set<Op>, keyPath: string, values: Dict, t: ValueType)
    requires ChangeSetSucceeds(failing, Key(LocalMachine, keyPath), t, values)
    ensures var k := Key(LocalMachine, keyPath);
            SetMultipleOutcome(st, failing, keyPath, values, t)
              == Outcome(true, st.(registry := st.registry[k := TableOf(st.registry, k) + AsMap(t, values)],
                                 trace := st.trace + [RegCreate(k)] + WriteOps(k, t, values)))
  {
    var k := Key(LocalMachine, keyPath);
    var T := TableOf(st.registry, k);
    var created := Step(st, failing, RegCreate(k));
    assert created == Outcome(true, st.(registry := st.registry[k := T], trace := st.trace + [RegCreate(k)]));
    RunWritesEffect(created.post, failing, k, t, values);
    UpdateTwice(st.registry, k, T, T + AsMap(t, values));
  }

  /** Overlaying a dict sets each of its names and leaves every other name alone. */
  lemma OverlayFacts(T: Table, t: ValueType, d: Dict)
    ensures forall n :: n !in Names(d) ==> Get(T + AsMap(t, d), n) == Get(T, n)
    ensures UniqueNames(d) ==>
              forall i :: 0 <= i < |d| ==> d[i].0 in T + AsMap(t, d) && (T + AsMap(t, d))[d[i].0] == RegValue(t, d[i].1)
  {
  }

  lemma OverlayTwice<K, V>(T: map<K, V>, A: map<K, V>)
    ensures (T + A) + A == T + A
  {
  }

  /** After a successful batch write the key exists, every name of the dict
      maps to its value, every other name of the key is unchanged, every other
      key is unchanged, and services and tasks are untouched. The key was
      created if it was absent. */
  lemma SetMultipleSuccess(st: State, failing: set<Op>, keyPath: string, values: Dict, t: ValueType)
    requires SetMultipleOutcome(st, failing, keyPath, values, t).ok
    ensures var k := Key(LocalMachine, keyPath);
            var post := SetMultipleOutcome(st, failing, keyPath, values, t).post;
            && k in post.registry
            && (UniqueNames(values) ==> HasValues(post.registry, k, t, values))
            && (forall n :: n !in Names(values) ==> Get(post.registry[k], n) == Get(TableOf(st.registry, k), n))
            && (forall k' :: k' != k ==> Get(post.registry, k') == Get(st.registry, k'))
            && post.services == st.services && post.tasks == st.tasks
  {
    var k := Key(LocalMachine, keyPath);
    SetMultipleOkIff(st, failing, keyPath, values, t);
    SetMultipleEffect(st, failing, keyPath, values, t);
    var T := TableOf(st.registry, k);
    OverlayFacts(T, t, values);
  }

  /** When write j is the first to fail, the batch reports failure, the writes
      before it stay in place (there is no rollback) and nothing after it is
      attempted. */
  lemma SetMultipleNoRollback(st: State, failing: set<Op>, keyPath: string, values: Dict, t: ValueType, j: nat)
    requires RegCreate(Key(LocalMachine, keyPath)) !in failing
    requires j < |values| && RegSet(Key(LocalMachine, keyPath), values[j].0, RegValue(t, values[j].1)) in failing
    requires forall i :: 0 <= i < j ==> RegSet(Key(LocalMachine, keyPath), values[i].0, RegValue(t, values[i].1)) !in failing
    ensures var k := Key(LocalMachine, keyPath);
            var r := SetMultipleOutcome(st, failing, keyPath, values, t);
            && !r.ok
            && r.post.registry == st.registry[k := TableOf(st.registry, k) + AsMap(t, values[..j])]
            && r.post.trace == st.trace + [RegCreate(k)] + WriteOps(k, t, values)[..j + 1]
  {
    var k := Key(LocalMachine, keyPath);
    var T := TableOf(st.registry, k);
    var created := Step(st, failing, RegCreate(k));
    assert created == Outcome(true, st.(registry := st.registry[k := T], trace := st.trace + [RegCreate(k)]));
    var ops := WriteOps(k, t, values);
    WriteOpsFacts(k, t, values);
    RunStopsAtFirstFailure(created.post, failing, ops, j);
    var prefix := values[..j];
    assert ops[..j] == WriteOps(k, t, prefix);
    assert forall i :: 0 <= i < |prefix| ==> prefix[i] == values[i];
    RunWritesEffect(created.post, failing, k, t, prefix);
    UpdateTwice(st.registry, k, T, T + AsMap(t, prefix));
    AppendOne(st.trace + [RegCreate(k)], ops, j);
  }

  /** A batch write whose key cannot be opened changes nothing but the log. */
  lemma SetMultipleOpenFails(st: State, failing: set<Op>, keyPath: string, values: Dict, t: ValueType)
    requires RegCreate(Key(LocalMachine, keyPath)) in failing
    ensures SetMultipleOutcome(st, failing, keyPath, values, t)
         == Outcome(false, st.(trace := st.trace + [RegCreate(Key(LocalMachine, keyPath))]))
  {
  }

  /** Any batch write of the same dict and type keeps every key that already
      holds those values holding them, whether it succeeds or not. */
  lemma SetMultipleKeepsValues(st: State, failing: set<Op>, keyPath: string, values: Dict, t: ValueType, k': Key)
    requires UniqueNames(values)
    requires HasValues(st.registry, k', t, values)
    ensures HasValues(SetMultipleOutcome(st, failing, keyPath, values, t).post.registry, k', t, values)
  {
    var k := Key(LocalMachine, keyPath);
    var r := SetMultipleOutcome(st, failing, keyPath, values, t);
    if k' != k {
      assert Get(st.registry, k') == Get(r.post.registry, k') by {
        SetMultipleConfined(st, failing, keyPath, values, t);
      }
    } else if RegCreate(k) in failing {
    } else if r.ok {
      SetMultipleSuccess(st, failing, keyPath, values, t);
    } else {
      SetMultipleOkIff(st, failing, keyPath, values, t);
      var j := FirstFailedWrite(failing, k, t, values);
      SetMultipleNoRollback(st, failing, keyPath, values, t, j);
      OverlayPrefixKeeps(st.registry[k], t, values, j);
    }
  }

  /** Overlaying a prefix of a dict on a table that already holds the whole
      dict leaves it holding the whole dict. */
  lemma OverlayPrefixKeeps(T: Table, t: ValueType, values: Dict, j: nat)
    requires UniqueNames(values) && j <= |values|
    requires forall i :: 0 <= i < |values| ==> values[i].0 in T && T[values[i].0] == RegValue(t, values[i].1)
    ensures var R := T + AsMap(t, values[..j]);
            forall i :: 0 <= i < |values| ==> values[i].0 in R && R[values[i].0] == RegValue(t, values[i].1)
  {
    var R := T + AsMap(t, values[..j]);
    forall i | 0 <= i < |values|
      ensures values[i].0 in R && R[values[i].0] == RegValue(t, values[i].1)
    {
      if i < j {
        assert values[..j][i] == values[i];
        assert UniqueNames(values[..j]);
      } else {
        assert values[i].0 !in Names(values[..j]);
      }
    }
  }

  /** The index of the first write that fails, for a batch that does not succeed. */
  function FirstFailedWrite(failing: set<Op>, k: Key, t: ValueType, d: Dict): (j: nat)
    requires exists i :: 0 <= i < |d| && RegSet(k, d[i].0, RegValue(t, d[i].1)) in failing
    ensures j < |d| && RegSet(k, d[j].0, RegValue(t, d[j].1)) in failing
    ensures forall i :: 0 <= i < j ==> RegSet(k, d[i].0, RegValue(t, d[i].1)) !in failing
    decreases |d|
  {
    if RegSet(k, d[0].0, RegValue(t, d[0].1)) in failing then 0
    else
      var i :| 0 <= i < |d| && RegSet(k, d[i].0, RegValue(t, d[i].1)) in failing;
      assert d[1..][i - 1] == d[i];
      var j := FirstFailedWrite(failing, k, t, d[1..]);
      assert forall l :: 0 <= l < j ==> d[1..][l] == d[l + 1];
      assert d[1..][j] == d[j + 1];
      1 + j
  }

  /** Writing the same batch twice leaves the same registry as writing it once,
      and the second write succeeds too. */
  lemma SetMultipleIdempotent(st: State, failing: set<Op>, keyPath: string, values: Dict, t: ValueType)
    requires SetMultipleOutcome(st, failing, keyPath, values, t).ok
    ensures var once := SetMultipleOutcome(st, failing, keyPath, values, t).post;
            var twice := SetMultipleOutcome(once, failing, keyPath, values, t);
            twice.ok && SameContents(twice.post, once)
  {
    var k := Key(LocalMachine, keyPath);
    var once := SetMultipleOutcome(st, failing, keyPath, values, t).post;
    SetMultipleSuccess(st, failing, keyPath, values, t);
    SetMultipleOkIff(st, failing, keyPath, values, t);
    SetMultipleOkIff(once, failing, keyPath, values, t);
    SetMultipleSuccess(once, failing, keyPath, values, t);
    SetMultipleEffect(st, failing, keyPath, values, t);
    SetMultipleEffect(once, failing, keyPath, values, t);
    var T := TableOf(st.registry, k);
    OverlayTwice(T, AsMap(t, values));
    UpdateTwice(st.registry, k, T + AsMap(t, values), T + AsMap(t, values));
  }

  /** A batch write whose values are all already in place, and in which
      nothing fails, succeeds and changes nothing but the log. */
  lemma SetMultipleNoChange(st: State, failing: set<Op>, keyPath: string, values: Dict, t: ValueType)
    requires UniqueNames(values)
    requires HasValues(st.registry, Key(LocalMachine, keyPath), t, values)
    requires ChangeSetSucceeds(failing, Key(LocalMachine, keyPath), t, values)
    ensures var r := SetMultipleOutcome(st, failing, keyPath, values, t);
            r.ok && SameContents(r.post, st)
  {
    var k := Key(LocalMachine, keyPath);
    var T := st.registry[k];
    SetMultipleEffect(st, failing, keyPath, values, t);
    OverlayPresent(T, t, values);
    UpdateSame(st.registry, k, T);
  }

  lemma OverlayPresent(T: Table, t: ValueType, d: Dict)
    requires UniqueNames(d)
    requires forall i :: 0 <= i < |d| ==> d[i].0 in T && T[d[i].0] == RegValue(t, d[i].1)
    ensures T + AsMap(t, d) == T
  {
    forall n | n in AsMap(t, d) ensures n in T && T[n] == AsMap(t, d)[n] {
      var i :| 0 <= i < |d| && d[i].0 == n;
    }
  }

  /** A batch write always opens its key first, whatever fails. */
  lemma SetMultipleOpensFirst(st: State, failing: set<Op>, keyPath: string, values: Dict, t: ValueType)
    ensures var post := SetMultipleOutcome(st, failing, keyPath, values, t).post;
            |st.trace| < |post.trace| && post.trace[|st.trace|] == RegCreate(Key(LocalMachine, keyPath))
  {
    var k := Key(LocalMachine, keyPath);
    var created := Step(st, failing, RegCreate(k));
    if created.ok {
      var ops := WriteOps(k, t, values);
      RunConfined(StopAtFirstFailure, created.post, failing, ops);
      var post := Run(StopAtFirstFailure, created.post, failing, ops).post;
      assert post.trace[|st.trace|] == post.trace[..|created.post.trace|][|st.trace|];
    }
  }

  /** Writing one value is a batch write of a one-entry dict. */
  lemma SetRegistryValueIsBatchOfOne(st: State, failing: set<Op>, keyPath: string, valueName: string, value: Data, t: ValueType)
    ensures SetRegistryValueOutcome(st, failing, keyPath, valueName, value, t)
         == SetMultipleOutcome(st, failing, keyPath, [(valueName, value)], t)
  {
    var k := Key(LocalMachine, keyPath);
    var created := Step(st, failing, RegCreate(k));
    if created.ok {
      var ops := WriteOps(k, t, [(valueName, value)]);
      assert ops == [RegSet(k, valueName, RegValue(t, value))];
      assert ops[1..] == [];
      var first := Step(created.post, failing, ops[0]);
      assert Run(StopAtFirstFailure, created.post, failing, ops) == first;
    }
  }

  /** CreateKey/CreateKeyEx then SetValueEx, on any key: it succeeds exactly
      when neither call fails; afterwards the key exists and the name maps to
      the value, and nothing else changes. A failed write after a successful
      creation leaves the key created and its values as they were. */
  lemma CreateAndSetFacts(st: State, failing: set<Op>, k: Key, name: string, v: RegValue)
    ensures var r := CreateAndSet(st, failing, k, name, v);
            && (r.ok <==> RegCreate(k) !in failing && RegSet(k, name, v) !in failing)
            && (r.ok ==> r.post.registry == st.registry[k := TableOf(st.registry, k)[name := v]])
            && (RegCreate(k) !in failing ==> k in r.post.registry)
            && (!r.ok ==> forall n :: Get(TableOf(r.post.registry, k), n) == Get(TableOf(st.registry, k), n))
            && r.post.services == st.services && r.post.tasks == st.tasks
            && Confined(st, r.post, {RegKey(k)})
  {
    var created := Step(st, failing, RegCreate(k));
    StepConfined(st, failing, RegCreate(k));
    if created.ok {
      var op := RegSet(k, name, v);
      StepConfined(created.post, failing, op);
      ConfinedTrans(st, created.post, Step(created.post, failing, op).post, {RegKey(k)}, {RegKey(k)});
      assert {RegKey(k)} + {RegKey(k)} == {RegKey(k)};
    }
  }

  /** Writing one value again after it succeeded succeeds again and changes
      nothing but the log. */
  lemma CreateAndSetIdempotent(st: State, failing: set<Op>, k: Key, name: string, v: RegValue)
    requires CreateAndSet(st, failing, k, name, v).ok
    ensures var once := CreateAndSet(st, failing, k, name, v).post;
            var twice := CreateAndSet(once, failing, k, name, v);
            twice.ok && SameContents(twice.post, once)
  {
    var once := CreateAndSet(st, failing, k, name, v).post;
    CreateAndSetFacts(st, failing, k, name, v);
    CreateAndSetFacts(once, failing, k, name, v);
    var T := TableOf(st.registry, k)[name := v];
    UpdateSame(T, name, v);
    UpdateSame(once.registry, k, T);
  }

  /** Writing one value a second time, whatever the first attempt did, gives
      the same verdict and changes nothing but the log: with a fixed failure
      set a failed creation fails again, and a failed write meets the key the
      first attempt already created. */
  lemma CreateAndSetRepeat(st: State, failing: set<Op>, k: Key, name: string, v: RegValue)
    ensures var first := CreateAndSet(st, failing, k, name, v);
            var twice := CreateAndSet(first.post, failing, k, name, v);
            twice.ok == first.ok && SameContents(twice.post, first.post)
  {
    var first := CreateAndSet(st, failing, k, name, v);
    if first.ok {
      CreateAndSetIdempotent(st, failing, k, name, v);
    } else if RegCreate(k) !in failing {
      UpdateSame(first.post.registry, k, TableOf(first.post.registry, k));
    }
  }

  /** Writing one value under HKEY_LOCAL_MACHINE succeeds exactly when neither
      the key creation nor the write fails; afterwards the key (created if it
      was absent) exists, the name maps to the value, and nothing else
      changes. */
  lemma SetRegistryValueFacts(st: State, failing: set<Op>, keyPath: string, valueName: string, value: Data, t: ValueType)
    ensures var k := Key(LocalMachine, keyPath);
            var r := SetRegistryValueOutcome(st, failing, keyPath, valueName, value, t);
            && (r.ok <==> RegCreate(k) !in failing && RegSet(k, valueName, RegValue(t, value)) !in failing)
            && (r.ok ==> r.post.registry == st.registry[k := TableOf(st.registry, k)[valueName := RegValue(t, value)]])
            && (RegCreate(k) !in failing ==> k in r.post.registry)
            && (!r.ok ==> forall n :: Get(TableOf(r.post.registry, k), n) == Get(TableOf(st.registry, k), n))
            && Confined(st, r.post, {RegKey(k)})
  {
    CreateAndSetFacts(st, failing, Key(LocalMachine, keyPath), valueName, RegValue(t, value));
  }

  /** Deleting succeeds exactly when neither operation fails and the name is
      present under the key; it then removes that name only. An absent key is
      created by the open, and the delete then fails. */
  lemma DeleteValueFacts(st: State, failing: set<Op>, keyPath: string, valueName: string)
    ensures var k := Key(LocalMachine, keyPath);
            var r := DeleteValueOutcome(st, failing, keyPath, valueName);
            && (r.ok <==> && RegCreate(k) !in failing && RegDelete(k, valueName) !in failing
                          && k in st.registry && valueName in st.registry[k])
            && (r.ok ==> r.post.registry == st.registry[k := st.registry[k] - {valueName}])
            && (!r.ok ==> TableOf(r.post.registry, k) == TableOf(st.registry, k))
            && (RegCreate(k) !in failing ==> k in r.post.registry)
            && r.post.services == st.services && r.post.tasks == st.tasks
            && Confined(st, r.post, {RegKey(k)})
  {
    var k := Key(LocalMachine, keyPath);
    var created := Step(st, failing, RegCreate(k));
    StepConfined(st, failing, RegCreate(k));
    if created.ok {
      StepConfined(created.post, failing, RegDelete(k, valueName));
      ConfinedTrans(st, created.post, Step(created.post, failing, RegDelete(k, valueName)).post, {RegKey(k)}, {RegKey(k)});
      assert {RegKey(k)} + {RegKey(k)} == {RegKey(k)};
    }
  }

  /** Deleting a value that was just written restores the key's other names:
      the key ends as it was, minus that name. */
  lemma DeleteUndoesSet(st: State, failing: set<Op>, keyPath: string, valueName: string, value: Data, t: ValueType)
    requires SetRegistryValueOutcome(st, failing, keyPath, valueName, value, t).ok
    requires RegDelete(Key(LocalMachine, keyPath), valueName) !in failing
    ensures var k := Key(LocalMachine, keyPath);
            var written := SetRegistryValueOutcome(st, failing, keyPath, valueName, value, t).post;
            var r := DeleteValueOutcome(written, failing, keyPath, valueName);
            r.ok && r.post.registry[k] == TableOf(st.registry, k) - {valueName}
  {
    var k := Key(LocalMachine, keyPath);
    SetRegistryValueFacts(st, failing, keyPath, valueName, value, t);
    var T := TableOf(st.registry, k);
    assert T[valueName := RegValue(t, value)] - {valueName} == T - {valueName};
  }
}
