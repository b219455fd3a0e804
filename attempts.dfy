/** Running a list of primitive operations in order under one of the two loop
    policies the managers use: leave the loop at the first failure (`break`),
    or record the failure and go on (`continue`). */
module Attempts {
  import opened Store

  datatype LoopPolicy = StopAtFirstFailure | ContinueAfterFailure

  function Targets(ops: seq<Op>): set<Target> {
    set i | 0 <= i < |ops| :: ops[i].Touches()
  }

  predicate AllDomainDecided(ops: seq<Op>) {
    forall i :: 0 <= i < |ops| ==> DomainDecided(ops[i])
  }

  /** The operations attempted in order; the verdict is true iff every
      attempted operation succeeded. */
  function Run(policy: LoopPolicy, st: State, failing: set<Op>, ops: seq<Op>): (r: Outcome)
    ensures SameDomains(st, r.post)
    decreases |ops|
  {
    if ops == [] then Outcome(true, st)
    else
      var first := Step(st, failing, ops[0]);
      if !first.ok && policy == StopAtFirstFailure then first
      else
        var rest := Run(policy, first.post, failing, ops[1..]);
        Outcome(first.ok && rest.ok, rest.post)
  }

  /** Running a suffix of a batch attempts its first operation, then the rest. */
  lemma RunFrom(policy: LoopPolicy, st: State, failing: set<Op>, ops: seq<Op>, i: nat)
    requires i < |ops|
    ensures Run(policy, st, failing, ops[i..])
            == var first := Step(st, failing, ops[i]);
               if !first.ok && policy == StopAtFirstFailure then first
               else
                 var rest := Run(policy, first.post, failing, ops[i + 1..]);
                 Outcome(first.ok && rest.ok, rest.post)
  {
    assert ops[i..][0] == ops[i] && ops[i..][1..] == ops[i + 1..];
  }

  lemma TargetsCons(ops: seq<Op>)
    requires ops != []
    ensures Targets(ops) == {ops[0].Touches()} + Targets(ops[1..])
  {
    forall t | t in Targets(ops) ensures t in {ops[0].Touches()} + Targets(ops[1..]) {
      var i :| 0 <= i < |ops| && ops[i].Touches() == t;
      if i > 0 { assert ops[1..][i - 1] == ops[i]; }
    }
    forall t | t in Targets(ops[1..]) ensures t in Targets(ops) {
      var i :| 0 <= i < |ops[1..]| && ops[1..][i].Touches() == t;
      assert ops[i + 1] == ops[1..][i];
    }
  }

  /** Running operations changes nothing they do not touch, and only logs them. */
  lemma {:induction false} RunConfined(policy: LoopPolicy, st: State, failing: set<Op>, ops: seq<Op>)
    ensures Confined(st, Run(policy, st, failing, ops).post, Targets(ops))
    decreases |ops|
  {
    if ops == [] {
      ConfinedRefl(st, Targets(ops));
    } else {
      var first := Step(st, failing, ops[0]);
      StepConfined(st, failing, ops[0]);
      TargetsCons(ops);
      if !first.ok && policy == StopAtFirstFailure {
        ConfinedWiden(st, first.post, {ops[0].Touches()}, Targets(ops));
      } else {
        RunConfined(policy, first.post, failing, ops[1..]);
        ConfinedTrans(st, first.post, Run(policy, first.post, failing, ops[1..]).post,
                      {ops[0].Touches()}, Targets(ops[1..]));
      }
    }
  }

  /** Whatever the policy, the verdict is true exactly when every operation
      succeeds, judged on the state the run starts from. */
  lemma {:induction false} RunOkIff(policy: LoopPolicy, st: State, failing: set<Op>, ops: seq<Op>)
    requires AllDomainDecided(ops)
    ensures Run(policy, st, failing, ops).ok <==> forall i :: 0 <= i < |ops| ==> Succeeds(st, failing, ops[i])
    decreases |ops|
  {
    if ops != [] {
      var first := Step(st, failing, ops[0]);
      StepConfined(st, failing, ops[0]);
      assert AllDomainDecided(ops[1..]) by {
        forall i | 0 <= i < |ops[1..]| ensures DomainDecided(ops[1..][i]) { assert ops[1..][i] == ops[i + 1]; }
      }
      RunOkIff(policy, first.post, failing, ops[1..]);
      forall i | 0 <= i < |ops[1..]|
        ensures Succeeds(first.post, failing, ops[1..][i]) == Succeeds(st, failing, ops[i + 1])
      {
        assert ops[1..][i] == ops[i + 1];
        SucceedsOnSameDomains(st, first.post, failing, ops[i + 1]);
      }
      if Run(policy, st, failing, ops).ok {
        forall i | 0 <= i < |ops| ensures Succeeds(st, failing, ops[i]) {
          if i > 0 { assert ops[1..][i - 1] == ops[i]; }
        }
      }
    }
  }

  /** Under StopAtFirstFailure, when operation j is the first to fail, the run
      leaves exactly what the successful prefix left, plus the log of the
      failed attempt: earlier effects stay (no rollback) and nothing after j is
      attempted. */
  lemma {:induction false} RunStopsAtFirstFailure(st: State, failing: set<Op>, ops: seq<Op>, j: nat)
    requires AllDomainDecided(ops)
    requires j < |ops| && !Succeeds(st, failing, ops[j])
    requires forall i :: 0 <= i < j ==> Succeeds(st, failing, ops[i])
    ensures var done := Run(StopAtFirstFailure, st, failing, ops[..j]);
            && done.ok
            && Run(StopAtFirstFailure, st, failing, ops) == Outcome(false, done.post.(trace := done.post.trace + [ops[j]]))
    decreases j
  {
    var first := Step(st, failing, ops[0]);
    StepConfined(st, failing, ops[0]);
    if j > 0 {
      var tail := ops[1..];
      assert AllDomainDecided(tail) by {
        forall i | 0 <= i < |tail| ensures DomainDecided(tail[i]) { assert tail[i] == ops[i + 1]; }
      }
      assert tail[j - 1] == ops[j];
      SucceedsOnSameDomains(st, first.post, failing, ops[j]);
      forall i | 0 <= i < j - 1 ensures Succeeds(first.post, failing, tail[i]) {
        assert tail[i] == ops[i + 1];
        SucceedsOnSameDomains(st, first.post, failing, ops[i + 1]);
      }
      RunStopsAtFirstFailure(first.post, failing, tail, j - 1);
      assert ops[..j][0] == ops[0];
      assert ops[..j][1..] == tail[..j - 1];
    }
  }

  /** Under ContinueAfterFailure every operation is attempted, in order. */
  lemma {:induction false} RunContinueAttemptsAll(st: State, failing: set<Op>, ops: seq<Op>)
    ensures Run(ContinueAfterFailure, st, failing, ops).post.trace == st.trace + ops
    decreases |ops|
  {
    if ops != [] {
      var first := Step(st, failing, ops[0]);
      StepConfined(st, failing, ops[0]);
      RunContinueAttemptsAll(first.post, failing, ops[1..]);
      assert Run(ContinueAfterFailure, st, failing, ops).post == Run(ContinueAfterFailure, first.post, failing, ops[1..]).post;
      assert (st.trace + [ops[0]]) + ops[1..] == st.trace + ops;
    }
  }

  /** Operations that all succeed on one state all succeed, bar the first, on
      any state with the same services and tasks. */
  lemma TailSucceeds(st: State, st': State, failing: set<Op>, ops: seq<Op>)
    requires ops != [] && SameDomains(st, st') && AllDomainDecided(ops)
    requires forall i :: 0 <= i < |ops| ==> Succeeds(st, failing, ops[i])
    ensures AllDomainDecided(ops[1..])
    ensures forall i :: 0 <= i < |ops[1..]| ==> Succeeds(st', failing, ops[1..][i])
  {
    var tail := ops[1..];
    forall i | 0 <= i < |tail| ensures DomainDecided(tail[i]) && Succeeds(st', failing, tail[i]) {
      assert tail[i] == ops[i + 1];
      SucceedsOnSameDomains(st, st', failing, ops[i + 1]);
    }
  }

  /** An operation that succeeds is logged and leaves the services and tasks known. */
  lemma FirstSucceeds(st: State, failing: set<Op>, op: Op)
    requires Succeeds(st, failing, op)
    ensures var first := Step(st, failing, op);
            first.ok && first.post.trace == st.trace + [op] && SameDomains(st, first.post)
  {
    StepConfined(st, failing, op);
  }

  /** When every operation succeeds the two policies cannot be told apart, and
      all of them are attempted. */
  lemma {:induction false} RunPoliciesAgree(st: State, failing: set<Op>, ops: seq<Op>)
    requires AllDomainDecided(ops)
    requires forall i :: 0 <= i < |ops| ==> Succeeds(st, failing, ops[i])
    ensures Run(StopAtFirstFailure, st, failing, ops) == Run(ContinueAfterFailure, st, failing, ops)
    ensures Run(StopAtFirstFailure, st, failing, ops).post.trace == st.trace + ops
    decreases |ops|
  {
    if ops != [] {
      var first := Step(st, failing, ops[0]);
      var tail := ops[1..];
      assert Succeeds(st, failing, ops[0]);
      FirstSucceeds(st, failing, ops[0]);
      TailSucceeds(st, first.post, failing, ops);
      RunPoliciesAgree(first.post, failing, tail);
      var rest := Run(StopAtFirstFailure, first.post, failing, tail);
      assert Run(StopAtFirstFailure, st, failing, ops) == Outcome(rest.ok, rest.post);
      assert Run(ContinueAfterFailure, st, failing, ops) == Outcome(rest.ok, rest.post);
      calc {
        rest.post.trace;
        (st.trace + [ops[0]]) + tail;
        { assert [ops[0]] + tail == ops; }
        st.trace + ops;
      }
    }
  }
}
