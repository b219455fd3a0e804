/** The Copilot switch: `DisableCopilot` = 1 as REG_DWORD under an HKCU key.
    The key is the same CLSID InprocServer32 key the context-menu switch
    uses. There is no admin check, and a failure is caught. */
module Copilot {
  import opened Store
  import opened RegistryManager
  import opened ContextMenu

  const CopilotPath: string := @"Software\Classes\CLSID\{86ca1aa0-34aa-4e8b-a509-50c905bae2a2}\InprocServer32"

  function DisableCopilotOutcome(st: State, failing: set<Op>): Outcome {
    CreateAndSet(st, failing, Key(CurrentUser, CopilotPath), "DisableCopilot", RegValue(RegDword, Int(1)))
  }

  class CopilotManager {
    const path: string := CopilotPath
    const machine: Machine

    constructor (machine: Machine)
      ensures this.machine == machine
    {
      this.machine := machine;
    }

    method DisableCopilot()
      modifies machine
      ensures machine.Snapshot() == DisableCopilotOutcome(old(machine.Snapshot()), machine.failing).post
    {
      var k := Key(CurrentUser, path);
      var created := machine.Perform(RegCreate(k));
      if created {
        var written := machine.Perform(RegSet(k, "DisableCopilot", RegValue(RegDword, Int(1))));
      }
    }
  }

  // ---------------------------------------------------------------------
  // Properties

  /** The key is created if absent; after success `DisableCopilot` is 1 as
      REG_DWORD and every other name under the key is as it was; nothing
      outside the key changes. */
  lemma DisableCopilotFacts(st: State, failing: set<Op>)
    ensures var k := Key(CurrentUser, CopilotPath);
            var r := DisableCopilotOutcome(st, failing);
            && (r.ok <==> RegCreate(k) !in failing && RegSet(k, "DisableCopilot", RegValue(RegDword, Int(1))) !in failing)
            && (RegCreate(k) !in failing ==> k in r.post.registry)
            && (r.ok ==> && r.post.registry[k]["DisableCopilot"] == RegValue(RegDword, Int(1))
                         && forall n :: n != "DisableCopilot" ==> Get(r.post.registry[k], n) == Get(TableOf(st.registry, k), n))
            && (forall k' :: k' != k ==> Get(r.post.registry, k') == Get(st.registry, k'))
            && r.post.services == st.services && r.post.tasks == st.tasks
  {
    CreateAndSetFacts(st, failing, Key(CurrentUser, CopilotPath), "DisableCopilot", RegValue(RegDword, Int(1)));
  }

  /** The Copilot key is the context-menu key: once its creation succeeds the
      context-menu check finds the key, and a default value the context-menu
      switch wrote there stays. */
  lemma DisableCopilotSharesContextMenuKey(st: State, failing: set<Op>)
    ensures Key(CurrentUser, CopilotPath) == ContextMenuKey
    ensures var r := DisableCopilotOutcome(st, failing);
            && (RegCreate(ContextMenuKey) !in failing ==> ContextMenuKey in r.post.registry)
            && (ContextMenuKey in st.registry && "" in st.registry[ContextMenuKey] ==>
                  "" in r.post.registry[ContextMenuKey] && r.post.registry[ContextMenuKey][""] == st.registry[ContextMenuKey][""])
  {
    DisableCopilotFacts(st, failing);
    var r := DisableCopilotOutcome(st, failing);
    if ContextMenuKey in st.registry && "" in st.registry[ContextMenuKey] {
      assert Get(TableOf(r.post.registry, ContextMenuKey), "") == Get(TableOf(st.registry, ContextMenuKey), "");
    }
  }

  /** Disabling Copilot a second time, whether the first call succeeded or
      not, gives the same verdict and leaves the machine as the first call did. */
  lemma DisableCopilotIdempotent(st: State, failing: set<Op>)
    ensures var first := DisableCopilotOutcome(st, failing);
            var twice := DisableCopilotOutcome(first.post, failing);
            twice.ok == first.ok && SameContents(twice.post, first.post)
  {
    CreateAndSetRepeat(st, failing, Key(CurrentUser, CopilotPath), "DisableCopilot", RegValue(RegDword, Int(1)));
  }
}
