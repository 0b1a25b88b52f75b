/**
 The module scanner (generate.py, `modules()`): finds the module names a crate's
 `lib.rs` declares, and classifies each as unstable when its own source file carries
 the `#![unstable` marker. A module file that is missing or cannot be opened leaves the
 module stable and the scan goes on (the diagnostic on the error stream is not
 modelled); a module file that is not valid UTF-8 raises an error that `except OSError`
 does not catch, so it stops the run.
 */
module Scanner {
  import opened Options
  import opened Text
  import opened FileSystem
  import opened Matcher
  import opened Entries

  const Marker := "#![unstable"

  /** `<src>/<crate>/src` */
  function CrateRoot(src: string, crate: string): string {
    PathJoin(PathJoin(src, crate), "src")
  }

  /** The pattern's outcome on each line, in line order. */
  function Matches(lines: seq<string>): (ms: seq<Option<string>>)
    ensures |ms| == |lines|
  {
    seq(|lines|, k requires 0 <= k < |lines| => LineMatch(lines[k]))
  }

  /** The captured values among the outcomes, in order. */
  function Found(cs: seq<Option<string>>): seq<string>
    decreases |cs|
  {
    if |cs| == 0 then []
    else Found(cs[..|cs| - 1]) + (if cs[|cs| - 1].Some? then [cs[|cs| - 1].value] else [])
  }

  lemma {:induction false} FoundAppend(a: seq<Option<string>>, b: seq<Option<string>>)
    ensures Found(a + b) == Found(a) + Found(b)
    decreases |b|
  {
    if |b| == 0 {
      assert a + b == a;
    } else {
      var b' := b[..|b| - 1];
      FoundAppend(a, b');
      assert (a + b)[..|a + b| - 1] == a + b';
      assert (a + b)[|a + b| - 1] == b[|b| - 1];
    }
  }

  /** The names the pattern captures, one per matching line, in line order. */
  function NamesIn(lines: seq<string>): seq<string> {
    Found(Matches(lines))
  }

  /** Every captured name is a Rust identifier. */
  lemma NamesAreIdents(lines: seq<string>)
    ensures forall n :: n in NamesIn(lines) ==> IsIdent(n)
  {
    forall n | n in NamesIn(lines) ensures IsIdent(n) {
      var k := FoundFrom(Matches(lines), n);
      LineMatchIsIdent(lines[k]);
    }
  }

  /** A found value comes from one of the outcomes. */
  lemma {:induction false} FoundFrom(cs: seq<Option<string>>, n: string) returns (k: nat)
    requires n in Found(cs)
    ensures k < |cs| && cs[k] == Some(n)
    decreases |cs|
  {
    var init := cs[..|cs| - 1];
    if n in Found(init) {
      k := FoundFrom(init, n);
    } else {
      k := |cs| - 1;
    }
  }

  /** The module names declared by the text of a `lib.rs`. */
  function ModuleNames(contents: string): seq<string> {
    NamesIn(Lines(contents))
  }

  /** The file that is opened for module `name`: `<root>/<name>.rs` when that is a file,
      `<root>/<name>/mod.rs` otherwise. */
  function ModuleFile(fs: Fs, root: string, name: string): string {
    var flat := PathJoin(root, name + ".rs");
    if flat in fs then flat else PathJoin(PathJoin(root, name), "mod.rs")
  }

  /** The stability flag of one module, or the error that stops the run. */
  function Stability(fs: Fs, root: string, name: string): Result<bool, Failure> {
    var path := ModuleFile(fs, root, name);
    if path !in fs then Ok(false)
    else match fs[path]
      case Readable(text) => Ok(Contains(text, Marker))
      case Unreadable => Ok(false)
      case Undecodable => Err(DecodeError(path))
  }

  /** The first error among the modules, in scanning order. */
  function FirstFailure(fs: Fs, root: string, names: seq<string>): (r: Option<Failure>)
    ensures r.None? <==> forall i :: 0 <= i < |names| ==> Stability(fs, root, names[i]).Ok?
    decreases |names|
  {
    if |names| == 0 then None
    else match Stability(fs, root, names[0])
      case Err(e) => Some(e)
      case Ok(_) =>
        var r := FirstFailure(fs, root, names[1..]);
        assert forall i :: 1 <= i < |names| ==> names[i] == names[1..][i - 1];
        r
  }

  lemma {:induction false} FirstFailureAppend(fs: Fs, root: string, a: seq<string>, b: seq<string>)
    ensures FirstFailure(fs, root, a + b) ==
      if FirstFailure(fs, root, a).Some? then FirstFailure(fs, root, a) else FirstFailure(fs, root, b)
    decreases |a|
  {
    if |a| == 0 {
      assert a + b == b;
    } else {
      assert (a + b)[0] == a[0];
      assert (a + b)[1..] == a[1..] + b;
      FirstFailureAppend(fs, root, a[1..], b);
    }
  }

  /** One record per declared name, stable or not by its file, with no extra predicates. */
  function ScannedEntries(fs: Fs, root: string, names: seq<string>): map<string, ModuleEntry>
    requires FirstFailure(fs, root, names).None?
  {
    map n | n in names :: ModuleEntry(Stability(fs, root, n).value, [])
  }

  /** What `modules(crate)` returns, or the error that stops the run: the crate's
      `lib.rs` that cannot be opened, read or decoded, or the first module file that
      cannot be decoded. */
  function Scanned(fs: Fs, src: string, crate: string): Result<map<string, ModuleEntry>, Failure> {
    var root := CrateRoot(src, crate);
    var lib := PathJoin(root, "lib.rs");
    if lib !in fs || fs[lib].Unreadable? then Err(ReadError(lib))
    else if fs[lib].Undecodable? then Err(DecodeError(lib))
    else
      var names := ModuleNames(fs[lib].contents);
      match FirstFailure(fs, root, names)
      case Some(e) => Err(e)
      case None => Ok(ScannedEntries(fs, root, names))
  }

  lemma NamesStep(lines: seq<string>, i: nat)
    requires i < |lines|
    ensures LineMatch(lines[i]).None? ==> NamesIn(lines[..i + 1]) == NamesIn(lines[..i])
    ensures LineMatch(lines[i]).Some? ==>
      NamesIn(lines[..i + 1]) == NamesIn(lines[..i]) + [LineMatch(lines[i]).value]
  {
    assert Matches(lines[..i + 1])[..i] == Matches(lines[..i]);
    assert NamesIn(lines[..i]) + [] == NamesIn(lines[..i]);
  }

  /** A matching line splits the captured names around its own. */
  lemma NamesAround(lines: seq<string>, i: nat)
    requires i < |lines| && LineMatch(lines[i]).Some?
    ensures NamesIn(lines) == NamesIn(lines[..i]) + [LineMatch(lines[i]).value] + NamesIn(lines[i + 1..])
  {
    var front, back := Matches(lines[..i + 1]), Matches(lines[i + 1..]);
    assert Matches(lines) == front + back;
    NamesStep(lines, i);
    FoundAppend(front, back);
  }

  lemma ScanStep(fs: Fs, root: string, before: seq<string>, name: string)
    requires FirstFailure(fs, root, before).None? && Stability(fs, root, name).Ok?
    ensures FirstFailure(fs, root, before + [name]).None?
    ensures ScannedEntries(fs, root, before + [name]) ==
      ScannedEntries(fs, root, before)[name := ModuleEntry(Stability(fs, root, name).value, [])]
  {
    FirstFailureAppend(fs, root, before, [name]);
  }

  /** The first failing name decides the failure of every longer list. */
  lemma FailureStops(fs: Fs, root: string, before: seq<string>, name: string, after: seq<string>)
    requires FirstFailure(fs, root, before).None? && Stability(fs, root, name).Err?
    ensures FirstFailure(fs, root, before + [name] + after) == Some(Stability(fs, root, name).error)
  {
    FirstFailureAppend(fs, root, before, [name]);
    FirstFailureAppend(fs, root, before + [name], after);
  }

  lemma ScanStops(fs: Fs, root: string, lines: seq<string>, i: nat)
    requires i < |lines| && LineMatch(lines[i]).Some?
    requires FirstFailure(fs, root, NamesIn(lines[..i])).None?
    requires Stability(fs, root, LineMatch(lines[i]).value).Err?
    ensures FirstFailure(fs, root, NamesIn(lines)) == Some(Stability(fs, root, LineMatch(lines[i]).value).error)
  {
    NamesAround(lines, i);
    FailureStops(fs, root, NamesIn(lines[..i]), LineMatch(lines[i]).value, NamesIn(lines[i + 1..]));
  }

  /** The stability check of one module: opens `<name>.rs`, or `<name>/mod.rs` when the
      former is not a file, and looks for the marker; an open error is passed over, a
      decoding error is raised. */
  method ModuleFlag(fs: Fs, root: string, name: string) returns (r: Result<bool, Failure>)
    ensures r == Stability(fs, root, name)
    ensures r.Err? <==> ModuleUndecodable(fs, root, name)
    ensures r.Err? ==> r.error == DecodeError(ModuleFile(fs, root, name))
    ensures r.Ok? ==> (r.value <==>
      var p := ModuleFile(fs, root, name);
      p in fs && fs[p].Readable? && exists i :: OccursAt(fs[p].contents, Marker, i))
  {
    var path := PathJoin(root, name + ".rs");
    if path !in fs {
      path := PathJoin(PathJoin(root, name), "mod.rs");
    }
    var unstable := false;
    if path in fs {
      match fs[path] {
        case Readable(text) =>
          ContainsIff(text, Marker);
          unstable := Contains(text, Marker);
        case Unreadable =>
        case Undecodable =>
          return Err(DecodeError(path));
      }
    }
    return Ok(unstable);
  }

  /** `modules[module] = Module(unstable)`: a fresh record under the name, replacing any
      earlier one. */
  method Record(modules: map<string, Module>, name: string, unstable: bool) returns (r: map<string, Module>)
    requires Injective(modules)
    ensures Injective(r)
    ensures name in r && fresh(r[name])
    ensures forall k :: k in r && k != name ==> k in modules && r[k] == modules[k]
    ensures Snapshot(r) == old(Snapshot(modules))[name := ModuleEntry(unstable, [])]
  {
    ghost var snap := Snapshot(modules);
    var m := new Module(unstable);
    assert Snapshot(modules) == snap;
    SnapshotUpdate(modules, name, m);
    r := modules[name := m];
  }

  /** The loop of `modules(crate)` over the lines of `lib.rs`. */
  method ScanLines(fs: Fs, root: string, lines: seq<string>) returns (r: Result<map<string, Module>, Failure>)
    ensures r.Ok? <==> FirstFailure(fs, root, NamesIn(lines)).None?
    ensures r.Err? ==> Some(r.error) == FirstFailure(fs, root, NamesIn(lines))
    ensures r.Ok? ==> Injective(r.value) && (forall k :: k in r.value ==> fresh(r.value[k]))
    ensures r.Ok? ==>
      FirstFailure(fs, root, NamesIn(lines)).None? &&
      Snapshot(r.value) == ScannedEntries(fs, root, NamesIn(lines))
  {
    var modules: map<string, Module> := map[];
    for i := 0 to |lines|
      invariant Injective(modules)
      invariant forall k :: k in modules ==> fresh(modules[k])
      invariant FirstFailure(fs, root, NamesIn(lines[..i])).None?
      invariant Snapshot(modules) == ScannedEntries(fs, root, NamesIn(lines[..i]))
    {
      NamesStep(lines, i);
      var found := LineMatch(lines[i]);
      if found.Some? {
        var name := found.value;
        var unstable := ModuleFlag(fs, root, name);
        if unstable.Err? {
          ScanStops(fs, root, lines, i);
          return Err(unstable.error);
        }
        ghost var before := NamesIn(lines[..i]);
        ghost var entry := ModuleEntry(unstable.value, []);
        ghost var prev := ScannedEntries(fs, root, before);
        ScanStep(fs, root, before, name);
        assert ScannedEntries(fs, root, before + [name]) == prev[name := entry];
        modules := Record(modules, name, unstable.value);
        assert Snapshot(modules) == prev[name := entry];
      }
    }
    assert lines[..|lines|] == lines;
    return Ok(modules);
  }

  /** `modules(crate)`: every matching line of `lib.rs` gives a fresh record under its
      name, so a name declared twice keeps the record of its last declaration. */
  method Modules(fs: Fs, src: string, crate: string) returns (r: Result<map<string, Module>, Failure>)
    ensures r.Ok? <==> Scanned(fs, src, crate).Ok?
    ensures r.Err? ==> r.error == Scanned(fs, src, crate).error
    ensures r.Ok? ==> Injective(r.value) && (forall k :: k in r.value ==> fresh(r.value[k]))
    ensures r.Ok? ==> Snapshot(r.value) == Scanned(fs, src, crate).value
  {
    var root := CrateRoot(src, crate);
    var lib := PathJoin(root, "lib.rs");
    if lib !in fs || fs[lib].Unreadable? {
      return Err(ReadError(lib));
    }
    if fs[lib].Undecodable? {
      return Err(DecodeError(lib));
    }
    r := ScanLines(fs, root, Lines(fs[lib].contents));
  }

  /** A scanned module's record has no extra predicates, and it is unstable exactly when
      the file opened for it (`<name>.rs`, else `<name>/mod.rs`) can be read and the
      marker occurs somewhere in its text; a missing or unreadable file leaves it
      stable. Its name is one the pattern found in `lib.rs`. */
  lemma ScanClassifiesByMarker(fs: Fs, src: string, crate: string, name: string)
    requires Scanned(fs, src, crate).Ok? && name in Scanned(fs, src, crate).value
    ensures var root := CrateRoot(src, crate);
            var flat := PathJoin(root, name + ".rs");
            var path := if flat in fs then flat else PathJoin(PathJoin(root, name), "mod.rs");
            var e := Scanned(fs, src, crate).value[name];
            && e.cfgs == []
            && (e.unstable <==>
                 path in fs && fs[path].Readable? && exists i :: OccursAt(fs[path].contents, Marker, i))
            && name in ModuleNames(fs[PathJoin(root, "lib.rs")].contents)
  {
    var root := CrateRoot(src, crate);
    var path := ModuleFile(fs, root, name);
    if path in fs && fs[path].Readable? {
      ContainsIff(fs[path].contents, Marker);
    }
  }

  /** Every name the pattern finds in `lib.rs` gets a record, and only those names do. */
  lemma ScanKeepsEveryDeclaration(fs: Fs, src: string, crate: string)
    requires Scanned(fs, src, crate).Ok?
    ensures forall n :: n in Scanned(fs, src, crate).value <==>
      n in ModuleNames(fs[PathJoin(CrateRoot(src, crate), "lib.rs")].contents)
  {
  }

  /** Every scanned name is an identifier. */
  lemma ScannedNamesAreIdents(fs: Fs, src: string, crate: string)
    requires Scanned(fs, src, crate).Ok?
    ensures forall n :: n in Scanned(fs, src, crate).value ==> IsIdent(n)
  {
    NamesAreIdents(Lines(fs[PathJoin(CrateRoot(src, crate), "lib.rs")].contents));
  }

  /** A module is a fatal error exactly when the file opened for it cannot be decoded. */
  predicate ModuleUndecodable(fs: Fs, root: string, name: string) {
    var path := ModuleFile(fs, root, name);
    path in fs && fs[path].Undecodable?
  }

  lemma FirstFailureIff(fs: Fs, root: string, names: seq<string>)
    ensures FirstFailure(fs, root, names).Some? <==> exists n :: n in names && ModuleUndecodable(fs, root, n)
  {
    if FirstFailure(fs, root, names).Some? {
      var i :| 0 <= i < |names| && Stability(fs, root, names[i]).Err?;
      assert ModuleUndecodable(fs, root, names[i]);
    } else {
      forall n | n in names ensures !ModuleUndecodable(fs, root, n) {
        var i :| 0 <= i < |names| && names[i] == n;
        assert Stability(fs, root, names[i]).Ok?;
      }
    }
  }

  /** The scan fails only on the fatal errors: `lib.rs` not readable as text, or a
      declared module whose file cannot be decoded. A missing or unreadable module file
      never stops it. */
  lemma ScanFailsOnlyWhenFatal(fs: Fs, src: string, crate: string)
    ensures var root := CrateRoot(src, crate);
            var lib := PathJoin(root, "lib.rs");
            Scanned(fs, src, crate).Err? <==>
              || lib !in fs || !fs[lib].Readable?
              || exists n :: n in ModuleNames(fs[lib].contents) && ModuleUndecodable(fs, root, n)
  {
    var root := CrateRoot(src, crate);
    var lib := PathJoin(root, "lib.rs");
    if lib in fs && fs[lib].Readable? {
      FirstFailureIff(fs, root, ModuleNames(fs[lib].contents));
    }
  }
}
