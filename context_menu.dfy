/** The classic context menu switch: an empty default value under a CLSID
    InprocServer32 key in HKEY_CURRENT_USER. A failure is caught, so the
    writer returns nothing either way. */
module ContextMenu {
  import opened Store
  import opened RegistryManager

  const ContextMenuPath: string := @"Software\Classes\CLSID\{86ca1aa0-34aa-4e8b-a509-50c905bae2a2}\InprocServer32"

  const ContextMenuKey: Key := Key(CurrentUser, ContextMenuPath)

  /** CreateKey, then the default value "" set to the empty REG_SZ string. */
  function CreateOldContextMenuKeyOutcome(st: State, failing: set<Op>): Outcome {
    CreateAndSet(st, failing, ContextMenuKey, "", RegValue(RegSz, Str("")))
  }

  class ContextMenuManager {
    const path: string := ContextMenuPath
    const machine: Machine

    constructor (machine: Machine)
      ensures this.machine == machine
    {
      this.machine := machine;
    }

    method CreateOldContextMenuKey()
      modifies machine
      ensures machine.Snapshot() == CreateOldContextMenuKeyOutcome(old(machine.Snapshot()), machine.failing).post
    {
      var k := Key(CurrentUser, path);
      var created := machine.Perform(RegCreate(k));
      if created {
        var written := machine.Perform(RegSet(k, "", RegValue(RegSz, Str(""))));
      }
    }

    /** OpenKey on the same path: a read that changes nothing. */
    method CheckKeyExists() returns (found: bool)
      ensures found <==> Key(CurrentUser, path) in machine.registry
    {
      found := Key(CurrentUser, path) in machine.registry;
    }
  }

  // ---------------------------------------------------------------------
  // Properties

  /** The key exists afterwards whenever its creation succeeded, so a later
      check finds it; when the default value is written too, it is the empty
      REG_SZ string and the key's other values are as they were. Nothing
      outside the key changes. */
  lemma CreateOldContextMenuKeyFacts(st: State, failing: set<Op>)
    ensures var r := CreateOldContextMenuKeyOutcome(st, failing);
            && (RegCreate(ContextMenuKey) !in failing ==> ContextMenuKey in r.post.registry)
            && (r.ok ==> && r.post.registry[ContextMenuKey][""] == RegValue(RegSz, Str(""))
                         && forall n :: n != "" ==> Get(r.post.registry[ContextMenuKey], n) == Get(TableOf(st.registry, ContextMenuKey), n))
            && (forall k :: k != ContextMenuKey ==> Get(r.post.registry, k) == Get(st.registry, k))
            && r.post.services == st.services && r.post.tasks == st.tasks
  {
    CreateAndSetFacts(st, failing, ContextMenuKey, "", RegValue(RegSz, Str("")));
  }

  /** Creating the key a second time, whether the first call succeeded or
      not, gives the same verdict and leaves the machine as the first call did. */
  lemma CreateOldContextMenuKeyIdempotent(st: State, failing: set<Op>)
    ensures var first := CreateOldContextMenuKeyOutcome(st, failing);
            var twice := CreateOldContextMenuKeyOutcome(first.post, failing);
            twice.ok == first.ok && SameContents(twice.post, first.post)
  {
    CreateAndSetRepeat(st, failing, ContextMenuKey, "", RegValue(RegSz, Str("")));
  }
}
