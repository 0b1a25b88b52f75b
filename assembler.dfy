/**
 The top level of generate.py: scan `core` and `alloc`, apply the per-module overrides,
 generate a block for every module either crate declares (lines 148-181), put the four
 hand-written blocks in place (lines 183-223), and print every block after a fixed header
 in ascending order of module name (lines 225-228).
 */
module Assembler {
  import opened Options
  import opened Text
  import opened FileSystem
  import opened Entries
  import opened Scanner
  import opened Generator
  import opened Matcher

  /** The extra predicate that keeps `alloc`'s `sync` and `task` off bare-metal targets. */
  const NotBareMetal := "not(target_os = \"none\")"

  /** The two scanned namespaces, as values. */
  datatype Crates = Crates(core: map<string, ModuleEntry>, alloc: map<string, ModuleEntry>)

  /** The overrides of lines 152-154 on the scanned records: `core`'s `async_iter` is
      forced unstable, and `alloc`'s `sync` and `task` get the bare-metal predicate
      appended. Looking a name up that was not scanned raises `KeyError`; the lookups
      happen in that order. */
  function Overridden(core: map<string, ModuleEntry>, alloc: map<string, ModuleEntry>): (r: Result<Crates, Failure>)
    ensures r.Err? <==> "async_iter" !in core || "sync" !in alloc || "task" !in alloc
    ensures r.Err? ==> r.error == KeyError(
      if "async_iter" !in core then "async_iter" else if "sync" !in alloc then "sync" else "task")
    ensures r.Ok? ==>
      && r.value.core.Keys == core.Keys
      && r.value.core["async_iter"] == ModuleEntry(true, core["async_iter"].cfgs)
      && (forall k :: k in core && k != "async_iter" ==> r.value.core[k] == core[k])
    ensures r.Ok? ==>
      && r.value.alloc.Keys == alloc.Keys
      && (forall k :: k in alloc && (k == "sync" || k == "task") ==>
            r.value.alloc[k] == ModuleEntry(alloc[k].unstable, alloc[k].cfgs + [NotBareMetal]))
      && (forall k :: k in alloc && k != "sync" && k != "task" ==> r.value.alloc[k] == alloc[k])
  {
    if "async_iter" !in core then Err(KeyError("async_iter"))
    else if "sync" !in alloc then Err(KeyError("sync"))
    else if "task" !in alloc then Err(KeyError("task"))
    else
      var asyncIter := core["async_iter"];
      var sync := alloc["sync"];
      var task := alloc["task"];
      Ok(Crates(
        core["async_iter" := asyncIter.(unstable := true)],
        alloc["sync" := sync.(cfgs := sync.cfgs + [NotBareMetal])]
             ["task" := task.(cfgs := task.cfgs + [NotBareMetal])]))
  }

  /** No record is shared between the two namespaces. */
  predicate Disjoint(core: map<string, Module>, alloc: map<string, Module>) {
    forall a, b :: a in core && b in alloc ==> core[a] != alloc[b]
  }

  /** Lines 152-154: the overrides, written into the records in place. */
  method ApplyOverrides(core: map<string, Module>, alloc: map<string, Module>) returns (r: Option<Failure>)
    requires Injective(core) && Injective(alloc) && Disjoint(core, alloc)
    modifies core.Values, alloc.Values
    ensures var o := Overridden(old(Snapshot(core)), old(Snapshot(alloc)));
            && (r.Some? <==> o.Err?)
            && (r.Some? ==> r.value == o.error)
            && (r.None? ==> Crates(Snapshot(core), Snapshot(alloc)) == o.value)
  {
    ghost var c := Snapshot(core);
    ghost var a := Snapshot(alloc);
    if "async_iter" !in core {
      return Some(KeyError("async_iter"));
    }
    core["async_iter"].unstable := true;
    if "sync" !in alloc {
      return Some(KeyError("sync"));
    }
    alloc["sync"].cfgs := alloc["sync"].cfgs + [NotBareMetal];
    if "task" !in alloc {
      return Some(KeyError("task"));
    }
    alloc["task"].cfgs := alloc["task"].cfgs + [NotBareMetal];
    ghost var o := Overridden(c, a).value;
    assert Snapshot(core) == o.core;
    assert Snapshot(alloc) == o.alloc;
    return None;
  }

  /** The namespaces that provide `name`, `core` first. */
  function Providers(core: map<string, ModuleEntry>, alloc: map<string, ModuleEntry>, name: string): seq<Namespace> {
    (if name in core then [Namespace("core", core[name])] else [])
    + (if name in alloc then [Namespace("alloc", alloc[name])] else [])
  }

  /** The generated block of each name in `names`. */
  function Blocks(core: map<string, ModuleEntry>, alloc: map<string, ModuleEntry>, names: set<string>): map<string, Option<string>> {
    map name | name in names :: GeneratedText(name, Providers(core, alloc, name))
  }

  /** What `generated` holds before the hand-written blocks go in: a block for every name
      either namespace declares, built from all the namespaces that declare it. */
  function Merged(core: map<string, ModuleEntry>, alloc: map<string, ModuleEntry>): map<string, Option<string>> {
    Blocks(core, alloc, core.Keys + alloc.Keys)
  }

  lemma BlocksAdd(core: map<string, ModuleEntry>, alloc: map<string, ModuleEntry>, names: set<string>, name: string)
    ensures Blocks(core, alloc, names + {name})
         == Blocks(core, alloc, names)[name := GeneratedText(name, Providers(core, alloc, name))]
  {
  }

  /** One name moves from the names still to visit to the names visited. */
  lemma Visit(done: set<string>, all: set<string>, todo: set<string>, name: string)
    requires name in todo && todo <= all
    ensures done + (all - (todo - {name})) == done + (all - todo) + {name}
  {
  }

  /** One step of a merge pass: the block of `name` joins the blocks built so far. */
  lemma MergeStep(c: map<string, ModuleEntry>, a: map<string, ModuleEntry>, done: set<string>,
                  all: set<string>, todo: set<string>, name: string, r: map<string, Option<string>>,
                  providers: seq<Namespace>, text: Option<string>)
    requires name in todo && todo <= all
    requires r == Blocks(c, a, done + (all - todo))
    requires providers == Providers(c, a, name) && text == GeneratedText(name, providers)
    ensures r[name := text] == Blocks(c, a, done + (all - (todo - {name})))
  {
    BlocksAdd(c, a, done + (all - todo), name);
    Visit(done, all, todo, name);
  }

  /** Lines 161-167: a block for every name both namespaces declare, from `core` and
      then `alloc`. */
  method MergeBoth(core: map<string, ModuleEntry>, alloc: map<string, ModuleEntry>, done: set<string>,
                   generated: map<string, Option<string>>) returns (r: map<string, Option<string>>)
    requires generated == Blocks(core, alloc, done)
    ensures r == Blocks(core, alloc, done + core.Keys * alloc.Keys)
  {
    r := generated;
    var todo := core.Keys * alloc.Keys;
    while todo != {}
      invariant todo <= core.Keys * alloc.Keys
      invariant r == Blocks(core, alloc, done + (core.Keys * alloc.Keys - todo))
      decreases todo
    {
      var name :| name in todo;
      var providers := [Namespace("core", core[name]), Namespace("alloc", alloc[name])];
      assert providers == Providers(core, alloc, name);
      var text := Generate(name, providers);
      MergeStep(core, alloc, done, core.Keys * alloc.Keys, todo, name, r, providers, text);
      r := r[name := text];
      todo := todo - {name};
    }
  }

  /** Lines 169-174: a block for every name only `core` declares. */
  method MergeCoreOnly(core: map<string, ModuleEntry>, alloc: map<string, ModuleEntry>, done: set<string>,
                       generated: map<string, Option<string>>) returns (r: map<string, Option<string>>)
    requires generated == Blocks(core, alloc, done)
    ensures r == Blocks(core, alloc, done + (core.Keys - alloc.Keys))
  {
    r := generated;
    var todo := core.Keys - alloc.Keys;
    while todo != {}
      invariant todo <= core.Keys - alloc.Keys
      invariant r == Blocks(core, alloc, done + (core.Keys - alloc.Keys - todo))
      decreases todo
    {
      var name :| name in todo;
      var providers := [Namespace("core", core[name])];
      assert name !in alloc && providers == Providers(core, alloc, name);
      var text := Generate(name, providers);
      MergeStep(core, alloc, done, core.Keys - alloc.Keys, todo, name, r, providers, text);
      r := r[name := text];
      todo := todo - {name};
    }
  }

  /** Lines 176-181: a block for every name only `alloc` declares. */
  method MergeAllocOnly(core: map<string, ModuleEntry>, alloc: map<string, ModuleEntry>, done: set<string>,
                        generated: map<string, Option<string>>) returns (r: map<string, Option<string>>)
    requires generated == Blocks(core, alloc, done)
    ensures r == Blocks(core, alloc, done + (alloc.Keys - core.Keys))
  {
    r := generated;
    var todo := alloc.Keys - core.Keys;
    while todo != {}
      invariant todo <= alloc.Keys - core.Keys
      invariant r == Blocks(core, alloc, done + (alloc.Keys - core.Keys - todo))
      decreases todo
    {
      var name :| name in todo;
      var providers := [Namespace("alloc", alloc[name])];
      assert name !in core && providers == Providers(core, alloc, name);
      var text := Generate(name, providers);
      MergeStep(core, alloc, done, alloc.Keys - core.Keys, todo, name, r, providers, text);
      r := r[name := text];
      todo := todo - {name};
    }
  }

  /** Lines 156-181: the three passes, each visiting its names in an arbitrary order,
      over the records as the overrides left them. */
  method Merge(core: map<string, ModuleEntry>, alloc: map<string, ModuleEntry>) returns (generated: map<string, Option<string>>)
    ensures generated == Merged(core, alloc)
  {
    assert Blocks(core, alloc, {}) == map[];
    generated := MergeBoth(core, alloc, {}, map[]);
    generated := MergeCoreOnly(core, alloc, {} + core.Keys * alloc.Keys, generated);
    generated := MergeAllocOnly(core, alloc, {} + core.Keys * alloc.Keys + (core.Keys - alloc.Keys), generated);
    assert {} + core.Keys * alloc.Keys + (core.Keys - alloc.Keys) + (alloc.Keys - core.Keys)
        == core.Keys + alloc.Keys;
  }

  const GuardUnwrapModule := @"
#[cfg(feature = ""compat_guard_unwrap"")]
pub mod compat_guard_unwrap {
    pub trait UnwrapExt: Sized {
        fn unwrap(self) -> Self { self }
    }
    #[cfg(all(feature = ""alloc"", feature = ""compat_sync""))] impl<'a, T: ?Sized> UnwrapExt for super::sync::MutexGuard<'a, T> {}
    #[cfg(all(feature = ""alloc"", feature = ""compat_sync""))] impl<'a, T: ?Sized> UnwrapExt for super::sync::RwLockReadGuard<'a, T> {}
    #[cfg(all(feature = ""alloc"", feature = ""compat_sync""))] impl<'a, T: ?Sized> UnwrapExt for super::sync::RwLockWriteGuard<'a, T> {}
}"

  const PreludeModule := @"pub mod prelude {
    pub mod v1 {
        // Prelude
        pub use __core::prelude::rust_2021::*;
        #[cfg(all(feature = ""alloc"", not(feature = ""unstable"")))]
        pub use __alloc::{
            // UNSTABLE: slice::SliceConcatExt,
        };

        // Other imports
        #[cfg(feature = ""alloc"")]
        pub use __alloc::{format, vec, vec::Vec, string::String, string::ToString, borrow::ToOwned, boxed::Box};
        #[cfg(feature = ""compat_macros"")]
        pub use crate::{print, println, eprint, eprintln, dbg};
        #[cfg(feature = ""compat_guard_unwrap"")] pub use crate::compat_guard_unwrap::UnwrapExt as __CompatGuardUnwrapExt;
    }
}"

  const OsModule := @"pub mod os {
    pub mod raw {
        pub use __core::ffi::c_void;
        #[cfg(feature = ""compat_osraw"")] pub use libc::{c_char, c_double, c_float, c_int, c_long, c_longlong, c_schar, c_short, c_uchar, c_uint, c_ulong, c_ulonglong, c_ushort};
    }
}"

  const PathModule := @"pub mod path {
    #[cfg(feature = ""compat_path"")] pub use unix_path::*;
}"

  /** The four hand-written blocks. */
  datatype HandWritten = HandWritten(guardUnwrap: string, prelude: string, os: string, path: string)

  const Written := HandWritten(GuardUnwrapModule, PreludeModule, OsModule, PathModule)

  /** Lines 183-223: the hand-written blocks replace whatever was generated under their
      names, or are added. */
  function Assembled(generated: map<string, Option<string>>, written: HandWritten): map<string, Option<string>> {
    generated["compat_guard_unwrap" := Some(written.guardUnwrap)]
             ["prelude" := Some(written.prelude)]
             ["os" := Some(written.os)]
             ["path" := Some(written.path)]
  }

  const Header := "//! Generated by generate.py located at the repository root\n//! ./generate.py > src/generated.rs"

  /** What `print` writes for a block: the text, or `None` for a missing one. */
  function Shown(block: Option<string>): string {
    match block
    case Some(text) => text
    case None => "None"
  }

  /** The printed blocks of `names`, in that order. */
  function Printed(blocks: map<string, Option<string>>, names: seq<string>): seq<string>
    requires forall i :: 0 <= i < |names| ==> names[i] in blocks
  {
    seq(|names|, i requires 0 <= i < |names| => Shown(blocks[names[i]]))
  }

  /** Everything the run writes to standard output: the header, then every block in
      ascending order of its name, each followed by a line break. */
  ghost function Document(blocks: map<string, Option<string>>): string {
    JoinLines([Header] + Printed(blocks, Ascending(blocks.Keys)))
  }

  /** Both namespaces scanned, `core` first: the first error stops the run. */
  ghost function ScannedCrates(fs: Fs, src: string): Result<Crates, Failure> {
    match Scanned(fs, src, "core")
    case Err(e) => Err(e)
    case Ok(core) =>
      match Scanned(fs, src, "alloc")
      case Err(e) => Err(e)
      case Ok(alloc) => Ok(Crates(core, alloc))
  }

  /** The whole run on a file system and a library location: the text it prints, or the
      error that stops it before anything is printed. */
  ghost function Pipeline(fs: Fs, src: string, written: HandWritten): Result<string, Failure> {
    match ScannedCrates(fs, src)
    case Err(e) => Err(e)
    case Ok(scanned) =>
      match Overridden(scanned.core, scanned.alloc)
      case Err(e) => Err(e)
      case Ok(crates) => Ok(Document(Assembled(Merged(crates.core, crates.alloc), written)))
  }

  lemma PrintedStep(blocks: map<string, Option<string>>, names: seq<string>, i: nat)
    requires i < |names| && forall j :: 0 <= j < |names| ==> names[j] in blocks
    ensures Printed(blocks, names[..i + 1]) == Printed(blocks, names[..i]) + [Shown(blocks[names[i]])]
  {
  }

  /** Lines 225-228: the header, then each block in the order given, each `print`
      ending its text with a line break. */
  method Print(blocks: map<string, Option<string>>, names: seq<string>) returns (out: string)
    requires forall i :: 0 <= i < |names| ==> names[i] in blocks
    ensures out == JoinLines([Header] + Printed(blocks, names))
  {
    out := Header + "\n";
    for i := 0 to |names|
      invariant out == JoinLines([Header] + Printed(blocks, names[..i]))
    {
      PrintedStep(blocks, names, i);
      JoinLinesSnoc([Header] + Printed(blocks, names[..i]), Shown(blocks[names[i]]));
      assert [Header] + Printed(blocks, names[..i + 1])
          == [Header] + Printed(blocks, names[..i]) + [Shown(blocks[names[i]])];
      out := out + Shown(blocks[names[i]]) + "\n";
    }
    assert names[..|names|] == names;
  }

  /** Lines 156-228 after the overrides: merge, put the hand-written blocks in place,
      and print. */
  method Assemble(core: map<string, ModuleEntry>, alloc: map<string, ModuleEntry>, written: HandWritten) returns (out: string)
    ensures out == Document(Assembled(Merged(core, alloc), written))
  {
    var generated := Merge(core, alloc);
    generated := generated["compat_guard_unwrap" := Some(written.guardUnwrap)];
    generated := generated["prelude" := Some(written.prelude)];
    generated := generated["os" := Some(written.os)];
    generated := generated["path" := Some(written.path)];
    var names := SortStrings(generated.Keys);
    out := Print(generated, names);
  }

  /** Lines 148-149: `modules("core")`, then `modules("alloc")`. */
  method ScanCrates(fs: Fs, src: string) returns (r: Result<(map<string, Module>, map<string, Module>), Failure>)
    ensures r.Ok? <==> ScannedCrates(fs, src).Ok?
    ensures r.Err? ==> r.error == ScannedCrates(fs, src).error
    ensures r.Ok? ==>
      var (core, alloc) := r.value;
      && Injective(core) && Injective(alloc) && Disjoint(core, alloc)
      && (forall k :: k in core ==> fresh(core[k]))
      && (forall k :: k in alloc ==> fresh(alloc[k]))
      && Crates(Snapshot(core), Snapshot(alloc)) == ScannedCrates(fs, src).value
  {
    var scannedCore := Modules(fs, src, "core");
    if scannedCore.Err? {
      return Err(scannedCore.error);
    }
    var core := scannedCore.value;
    ghost var coreEntries := Snapshot(core);
    var scannedAlloc := Modules(fs, src, "alloc");
    if scannedAlloc.Err? {
      return Err(scannedAlloc.error);
    }
    var alloc := scannedAlloc.value;
    assert Snapshot(core) == coreEntries;
    return Ok((core, alloc));
  }

  /** The run with the given hand-written blocks. */
  method RunWith(fs: Fs, src: string, written: HandWritten) returns (r: Result<string, Failure>)
    ensures r == Pipeline(fs, src, written)
  {
    var scanned := ScanCrates(fs, src);
    if scanned.Err? {
      return Err(scanned.error);
    }
    var (core, alloc) := scanned.value;
    var failed := ApplyOverrides(core, alloc);
    if failed.Some? {
      return Err(failed.value);
    }
    var out := Assemble(Snapshot(core), Snapshot(alloc), written);
    return Ok(out);
  }

  /** The whole run: scan both crates, override, merge, put the hand-written blocks in
      place, then print the header and every block in ascending order of name. */
  method Run(fs: Fs, src: string) returns (r: Result<string, Failure>)
    ensures r == Pipeline(fs, src, Written)
  {
    r := RunWith(fs, src, Written);
  }

  /** Before the hand-written blocks go in, there is a block for exactly the names either
      namespace declares, and the only one missing its text is the prelude. */
  lemma MergedNames(core: map<string, ModuleEntry>, alloc: map<string, ModuleEntry>)
    ensures Merged(core, alloc).Keys == core.Keys + alloc.Keys
    ensures forall k :: k in Merged(core, alloc) ==> (Merged(core, alloc)[k].None? <==> k == "prelude")
  {
    forall k | k in Merged(core, alloc) ensures Merged(core, alloc)[k].None? <==> k == "prelude" {
      GeneratedFrame(k, Providers(core, alloc, k));
    }
  }

  /** A name both namespaces declare gets the `core` re-export and then the `alloc` one;
      a name only one declares gets that namespace's re-export alone. Each re-export
      carries the guards of its own namespace only. */
  lemma {:induction false} MergedLines(core: map<string, ModuleEntry>, alloc: map<string, ModuleEntry>, name: string)
    requires name in core || name in alloc
    requires name != "prelude" && SingleLine(name, Providers(core, alloc, name))
    ensures var ls := Lines(Merged(core, alloc)[name].value);
            var extra := |PolyfillLines(name)| + 2;
            && (name in core && name in alloc ==>
                  |ls| == 2 + extra
                  && ls[1] == ExportLine(name, Namespace("core", core[name]))
                  && ls[2] == ExportLine(name, Namespace("alloc", alloc[name])))
            && (name in core && name !in alloc ==>
                  |ls| == 1 + extra && ls[1] == ExportLine(name, Namespace("core", core[name])))
            && (name !in core && name in alloc ==>
                  |ls| == 1 + extra && ls[1] == ExportLine(name, Namespace("alloc", alloc[name])))
  {
    var nss := Providers(core, alloc, name);
    GeneratedLines(name, nss);
    assert Merged(core, alloc)[name] == GeneratedText(name, nss);
    var ls := Lines(GeneratedText(name, nss).value);
    assert ls[1] == ExportLine(name, nss[0]);
    if name in core && name in alloc {
      assert ls[2] == ExportLine(name, nss[1]);
      assert nss == [Namespace("core", core[name]), Namespace("alloc", alloc[name])];
    } else if name in core {
      assert nss == [Namespace("core", core[name])];
    } else {
      assert nss == [Namespace("alloc", alloc[name])];
    }
  }

  /** The hand-written blocks take their four names whatever was generated there, and
      every other block is left as it was. */
  lemma AssembledBlocks(generated: map<string, Option<string>>, written: HandWritten)
    ensures var blocks := Assembled(generated, written);
            && blocks.Keys == generated.Keys + {"compat_guard_unwrap", "prelude", "os", "path"}
            && blocks["compat_guard_unwrap"] == Some(written.guardUnwrap)
            && blocks["prelude"] == Some(written.prelude)
            && blocks["os"] == Some(written.os)
            && blocks["path"] == Some(written.path)
            && forall k :: k in generated && k !in {"compat_guard_unwrap", "prelude", "os", "path"} ==>
                 blocks[k] == generated[k]
  {
  }

  /** So nothing is ever printed as `None`: every block of the output has its text. */
  lemma NothingPrintedAsNone(core: map<string, ModuleEntry>, alloc: map<string, ModuleEntry>, written: HandWritten)
    ensures var blocks := Assembled(Merged(core, alloc), written);
            forall k :: k in blocks ==> blocks[k].Some?
  {
    MergedNames(core, alloc);
    AssembledBlocks(Merged(core, alloc), written);
  }

  /** The blocks appear in the one strictly ascending listing of the names: any other
      way of reaching a sorted listing prints the same text. */
  lemma DocumentOrder(blocks: map<string, Option<string>>, names: seq<string>)
    requires StrictlySorted(names)
    requires forall k :: k in names <==> k in blocks
    ensures forall i :: 0 <= i < |names| ==> names[i] in blocks
    ensures Document(blocks) == JoinLines([Header] + Printed(blocks, names))
  {
    SortedCardinality(names, blocks.Keys);
    SortedUnique(names, Ascending(blocks.Keys));
  }

  /** Scanned records: identifier names and no extra predicates. */
  predicate Plain(m: map<string, ModuleEntry>) {
    forall n :: n in m ==> IsIdent(n) && m[n].cfgs == []
  }

  lemma ScannedPlain(fs: Fs, src: string, crate: string)
    requires Scanned(fs, src, crate).Ok?
    ensures Plain(Scanned(fs, src, crate).value)
  {
    ScannedNamesAreIdents(fs, src, crate);
  }

  /** Both scanned crates are plain. */
  lemma ScannedCratesPlain(fs: Fs, src: string)
    requires ScannedCrates(fs, src).Ok?
    ensures Plain(ScannedCrates(fs, src).value.core) && Plain(ScannedCrates(fs, src).value.alloc)
  {
    ScannedPlain(fs, src, "core");
    ScannedPlain(fs, src, "alloc");
  }

  /** After the overrides, `core` records have no extra predicate and `alloc` records at
      most the bare-metal one. */
  lemma OverriddenCfgs(core: map<string, ModuleEntry>, alloc: map<string, ModuleEntry>)
    requires Plain(core) && Plain(alloc) && Overridden(core, alloc).Ok?
    ensures var c := Overridden(core, alloc).value;
            && c.core.Keys == core.Keys && c.alloc.Keys == alloc.Keys
            && (forall k :: k in c.core ==> c.core[k].cfgs == [])
            && (forall k :: k in c.alloc ==> c.alloc[k].cfgs == [] || c.alloc[k].cfgs == [NotBareMetal])
  {
  }

  /** None of the entry's extra predicates holds a line break. */
  predicate CfgsSingleLine(e: ModuleEntry) {
    forall j :: 0 <= j < |e.cfgs| ==> NoNewline(e.cfgs[j])
  }

  lemma BareMetalSingleLine(e: ModuleEntry)
    requires e.cfgs == [] || e.cfgs == [NotBareMetal]
    ensures CfgsSingleLine(e)
  {
    assert NoNewline(NotBareMetal);
  }

  /** After the overrides no record holds a line break: names are identifiers, and every
      `cfgs` is empty or the bare-metal predicate alone. With `ScannedCratesPlain` this is
      the precondition of `MergedLines` for the crates the run builds. */
  lemma OverriddenSingleLine(core: map<string, ModuleEntry>, alloc: map<string, ModuleEntry>, name: string)
    requires Plain(core) && Plain(alloc) && Overridden(core, alloc).Ok?
    requires name in core || name in alloc
    ensures var c := Overridden(core, alloc).value;
            SingleLine(name, Providers(c.core, c.alloc, name))
  {
    var c := Overridden(core, alloc).value;
    OverriddenCfgs(core, alloc);
    IdentNoNewline(name);
    var nss := Providers(c.core, c.alloc, name);
    forall i | 0 <= i < |nss| ensures NoNewline(nss[i].name) && CfgsSingleLine(nss[i].entry) {
      assert (name in c.core && nss[i] == Namespace("core", c.core[name]))
          || (name in c.alloc && nss[i] == Namespace("alloc", c.alloc[name]));
      BareMetalSingleLine(nss[i].entry);
    }
  }
}
