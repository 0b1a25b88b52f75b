/**
 The scanner's record of one module (generate.py, `Module`): whether it looks unstable,
 and extra `#[cfg]` predicates. The overrides change these fields in place, so a module
 is an object; what generation reads of it is the value `ModuleEntry`.
 */
module Entries {

  datatype ModuleEntry = ModuleEntry(unstable: bool, cfgs: seq<string>)

  class Module {
    var unstable: bool
    var cfgs: seq<string>

    /** A fresh record owns its own (empty) list of predicates. */
    constructor (unstable: bool)
      ensures this.unstable == unstable && cfgs == []
    {
      this.unstable := unstable;
      cfgs := [];
    }

    function Entry(): ModuleEntry
      reads this
    {
      ModuleEntry(unstable, cfgs)
    }
  }

  /** No two names share a record, so a change made through one name is seen through
      no other. */
  predicate Injective(m: map<string, Module>) {
    forall a, b :: a in m && b in m && a != b ==> m[a] != m[b]
  }

  /** The current values of the records of a namespace. */
  function Snapshot(m: map<string, Module>): map<string, ModuleEntry>
    reads m.Values
  {
    map k | k in m :: m[k].Entry()
  }

  /** Storing a record under a name changes the snapshot at that name only. */
  lemma SnapshotUpdate(m: map<string, Module>, k: string, v: Module)
    ensures Snapshot(m[k := v]) == Snapshot(m)[k := v.Entry()]
  {
  }
}
