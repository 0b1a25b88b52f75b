/**
 Code generation for one module (generate.py, `generate()`): a `pub mod <name> { … }`
 block with one guarded re-export per namespace that provides the module, followed by
 the fixed polyfill re-exports of `collections`, `sync` and `ffi`. The prelude is never
 generated: its block is written by hand.
 */
module Generator {
  import opened Options
  import opened Text
  import opened Entries

  /** A crate that provides a module (`core` or `alloc`), with its record of that module. */
  datatype Namespace = Namespace(name: string, entry: ModuleEntry)

  /** The `#[cfg]` predicate that holds when the cargo feature `f` is enabled. */
  function Feature(f: string): string {
    "feature = \"" + f + "\""
  }

  const Unstable := Feature("unstable")

  /** The predicates guarding a namespace's re-export, in order: its own cargo feature
      unless it is `core`, the `unstable` feature when its record is unstable, then the
      record's extra predicates as they were recorded. */
  function Guards(ns: Namespace): (gs: seq<string>)
    ensures var own := if ns.name != "core" then 1 else 0;
            var unstable := if ns.entry.unstable then 1 else 0;
            |gs| == own + unstable + |ns.entry.cfgs|
    ensures ns.name != "core" ==> gs[0] == Feature(ns.name)
    ensures ns.entry.unstable ==> gs[|gs| - |ns.entry.cfgs| - 1] == Unstable
    ensures gs[|gs| - |ns.entry.cfgs|..] == ns.entry.cfgs
  {
    (if ns.name != "core" then [Feature(ns.name)] else [])
    + (if ns.entry.unstable then [Unstable] else [])
    + ns.entry.cfgs
  }

  /** The attribute that makes an item conditional on all of `gs`, with its trailing
      space: none at all for no predicate, `#[cfg(p)] ` for one, and
      `#[cfg(all(p1, p2, …))] ` for several. */
  function Attribute(gs: seq<string>): string {
    if |gs| == 0 then ""
    else if |gs| == 1 then "#[cfg(" + gs[0] + ")] "
    else "#[cfg(all(" + Join(", ", gs) + "))] "
  }

  /** `all(…)` */
  predicate AllForm(p: string) {
    |p| >= 5 && p[..4] == "all(" && p[|p| - 1] == ')'
  }

  /** Reads the predicates back out of an attribute. */
  function ReadAttribute(a: string): seq<string> {
    if |a| < 9 then []
    else
      var inner := a[6..|a| - 3];
      if AllForm(inner) then SplitCommaList(inner[4..|inner| - 1]) else [inner]
  }

  lemma SingleAttribute(p: string)
    ensures var a := "#[cfg(" + p + ")] "; |a| >= 9 && a[6..|a| - 3] == p
  {
  }

  lemma AllAttribute(j: string)
    ensures var a := "#[cfg(all(" + j + "))] ";
            var inner := a[6..|a| - 3];
            |a| >= 9 && inner == "all(" + j + ")" && AllForm(inner) && inner[4..|inner| - 1] == j
  {
    var inner := "all(" + j + ")";
    assert inner[..4] == "all(";
  }

  /** The attribute loses nothing: the predicates, in order, can be read back from it,
      provided none holds a comma and a lone predicate is not itself an `all(…)`. */
  lemma AttributeRoundTrip(gs: seq<string>)
    requires forall i :: 0 <= i < |gs| ==> ',' !in gs[i]
    requires |gs| == 1 ==> !AllForm(gs[0])
    ensures ReadAttribute(Attribute(gs)) == gs
  {
    if |gs| == 1 {
      SingleAttribute(gs[0]);
    } else if |gs| > 1 {
      AllAttribute(Join(", ", gs));
      CommaListRoundTrip(gs);
    }
  }

  /** `pub mod <name> {` */
  function Opening(name: string): string {
    "pub mod " + name + " {"
  }

  /** The re-export of `name` from one namespace, under that namespace's own guards. */
  function ExportLine(name: string, ns: Namespace): string {
    "    " + Attribute(Guards(ns)) + "pub use __" + ns.name + "::" + name + "::*;"
  }

  /** The re-exports of `name` from each namespace, in order. */
  function ExportLines(name: string, nss: seq<Namespace>): (ls: seq<string>)
    decreases |nss|
  {
    if |nss| == 0 then []
    else ExportLines(name, nss[..|nss| - 1]) + [ExportLine(name, nss[|nss| - 1])]
  }

  lemma ExportLinesStep(name: string, nss: seq<Namespace>, i: nat)
    requires i < |nss|
    ensures ExportLines(name, nss[..i + 1]) == ExportLines(name, nss[..i]) + [ExportLine(name, nss[i])]
  {
    assert nss[..i + 1][..i] == nss[..i];
  }

  /** One re-export per namespace, the i-th from the i-th namespace. */
  lemma {:induction false} ExportLinesAt(name: string, nss: seq<Namespace>)
    ensures |ExportLines(name, nss)| == |nss|
    ensures forall i :: 0 <= i < |nss| ==> ExportLines(name, nss)[i] == ExportLine(name, nss[i])
    decreases |nss|
  {
    if |nss| > 0 {
      var init := nss[..|nss| - 1];
      ExportLinesAt(name, init);
      forall i | 0 <= i < |nss| ensures ExportLines(name, nss)[i] == ExportLine(name, nss[i]) {
        if i < |nss| - 1 {
          assert ExportLines(name, nss)[i] == ExportLines(name, init)[i];
          assert init[i] == nss[i];
        }
      }
    }
  }

  lemma ExportText(before: string, attribute: string, ns: string, name: string)
    ensures before + "    " + attribute + ("pub use __" + ns + "::" + name + "::*;\n")
         == before + ("    " + attribute + "pub use __" + ns + "::" + name + "::*;") + "\n"
  {
    assert "::*;\n" == "::*;" + "\n";
  }

  /** The start of a polyfill re-export from `path`, enabled by the `alloc` feature
      together with `feature`. */
  function PolyfillPrefix(feature: string, path: string): string {
    "    " + "#[cfg(all(" + Feature("alloc") + ", " + Feature(feature) + "))] " + "pub use " + path + "::"
  }

  /** Items of `path` re-exported when `alloc` and `feature` are both enabled. */
  datatype Polyfill = Polyfill(feature: string, path: string, items: seq<string>)

  /** The polyfills of a module: only `collections`, `sync` and `ffi` have any. */
  function PolyfillOf(name: string): Option<Polyfill> {
    if name == "collections" then
      Some(Polyfill("compat_hash", "hashbrown", ["HashMap", "HashSet"]))
    else if name == "sync" then
      Some(Polyfill("compat_sync", "spin",
        ["Mutex", "MutexGuard", "Once", "RwLock", "RwLockReadGuard", "RwLockWriteGuard"]))
    else if name == "ffi" then
      Some(Polyfill("compat_cstr", "cstr_core", ["CStr"]))
    else None
  }

  function PolyfillLine(p: Polyfill, item: string): string {
    PolyfillPrefix(p.feature, p.path) + item + ";"
  }

  /** The polyfill re-exports that follow the standard ones, one line per item. */
  function PolyfillLines(name: string): seq<string> {
    match PolyfillOf(name)
    case None => []
    case Some(p) => seq(|p.items|, i requires 0 <= i < |p.items| => PolyfillLine(p, p.items[i]))
  }

  /** What `generate(name, *nss)` returns: nothing for the prelude, otherwise the block
      with the opening line, one re-export per namespace, the polyfills and the closing
      brace. */
  function GeneratedText(name: string, nss: seq<Namespace>): Option<string> {
    if name == "prelude" then None
    else Some(JoinLines([Opening(name)] + ExportLines(name, nss) + PolyfillLines(name)) + "}")
  }

  /** `generate(name, *nss)`, accumulating the text line by line. */
  method Generate(name: string, nss: seq<Namespace>) returns (r: Option<string>)
    ensures r == GeneratedText(name, nss)
  {
    var out := "pub mod " + name + " {\n";
    if name == "prelude" {
      return None;
    }
    OpeningText(name, nss);
    for i := 0 to |nss|
      invariant out == JoinLines([Opening(name)] + ExportLines(name, nss[..i]))
    {
      var ns := nss[i];
      ghost var before := out;
      out := out + "    ";
      var cfgs := [];
      if ns.name != "core" {
        cfgs := cfgs + [Feature(ns.name)];
      }
      if ns.entry.unstable {
        cfgs := cfgs + [Unstable];
      }
      cfgs := cfgs + ns.entry.cfgs;
      assert cfgs == Guards(ns);
      ghost var attribute := Attribute(cfgs);
      if |cfgs| == 1 {
        out := out + ("#[cfg(" + cfgs[0] + ")] ");
      } else if |cfgs| > 1 {
        out := out + ("#[cfg(all(" + Join(", ", cfgs) + "))] ");
      } else {
        assert out + attribute == out;
      }
      assert out == before + "    " + attribute;
      ExportStep(name, nss, i, before, attribute);
      out := out + ("pub use __" + ns.name + "::" + name + "::*;\n");
    }
    assert nss[..|nss|] == nss;
    ClosingText(name, nss, out);
    out := out + JoinLines(PolyfillLines(name));
    out := out + "}";
    return Some(out);
  }


  lemma OpeningText(name: string, nss: seq<Namespace>)
    ensures "pub mod " + name + " {\n" == JoinLines([Opening(name)] + ExportLines(name, nss[..0]))
  {
    assert [Opening(name)] + ExportLines(name, nss[..0]) == [Opening(name)];
    assert " {\n" == " {" + "\n";
  }

  lemma ExportStep(name: string, nss: seq<Namespace>, i: nat, before: string, attribute: string)
    requires i < |nss|
    requires before == JoinLines([Opening(name)] + ExportLines(name, nss[..i]))
    requires attribute == Attribute(Guards(nss[i]))
    ensures before + "    " + attribute + ("pub use __" + nss[i].name + "::" + name + "::*;\n")
         == JoinLines([Opening(name)] + ExportLines(name, nss[..i + 1]))
  {
    ExportText(before, attribute, nss[i].name, name);
    ExportLinesStep(name, nss, i);
    JoinLinesSnoc([Opening(name)] + ExportLines(name, nss[..i]), ExportLine(name, nss[i]));
    assert [Opening(name)] + ExportLines(name, nss[..i + 1])
        == [Opening(name)] + ExportLines(name, nss[..i]) + [ExportLine(name, nss[i])];
  }

  lemma ClosingText(name: string, nss: seq<Namespace>, out: string)
    requires name != "prelude"
    requires out == JoinLines([Opening(name)] + ExportLines(name, nss))
    ensures Some(out + JoinLines(PolyfillLines(name)) + "}") == GeneratedText(name, nss)
  {
    JoinLinesAppend([Opening(name)] + ExportLines(name, nss), PolyfillLines(name));
  }

  lemma PolyfillGuard(feature: string, path: string)
    ensures PolyfillPrefix(feature, path)
         == "    " + Attribute([Feature("alloc"), Feature(feature)]) + "pub use " + path + "::"
  {
    var gs := [Feature("alloc"), Feature(feature)];
    assert Join(", ", gs) == Feature("alloc") + ", " + Feature(feature);
  }

  /** Only `collections` (2 items), `sync` (6) and `ffi` (1) get polyfills. */
  lemma PolyfillCount(name: string)
    ensures |PolyfillLines(name)| ==
      if name == "collections" then 2 else if name == "sync" then 6 else if name == "ffi" then 1 else 0
  {
  }

  /** Every polyfill is a re-export enabled by `alloc` together with the module's own
      `compat_…` feature, written with the same attribute as the standard re-exports. */
  lemma PolyfillsGuarded(name: string)
    ensures forall i :: 0 <= i < |PolyfillLines(name)| ==>
      var head := "    " + Attribute([Feature("alloc"), Feature(PolyfillOf(name).value.feature)]) + "pub use ";
      |head| <= |PolyfillLines(name)[i]| && PolyfillLines(name)[i][..|head|] == head
  {
    if PolyfillOf(name).Some? {
      var p := PolyfillOf(name).value;
      PolyfillGuard(p.feature, p.path);
    }
  }

  /** Namespace names and recorded predicates hold no line break. */
  predicate SingleLine(name: string, nss: seq<Namespace>) {
    && NoNewline(name)
    && (forall i :: 0 <= i < |nss| ==> NoNewline(nss[i].name))
    && (forall i, j :: 0 <= i < |nss| && 0 <= j < |nss[i].entry.cfgs| ==> NoNewline(nss[i].entry.cfgs[j]))
  }

  lemma FeatureNoNewline(f: string)
    requires NoNewline(f)
    ensures NoNewline(Feature(f))
  {
  }

  lemma ExportLineNoNewline(name: string, ns: Namespace)
    requires NoNewline(name) && NoNewline(ns.name)
    requires forall j :: 0 <= j < |ns.entry.cfgs| ==> NoNewline(ns.entry.cfgs[j])
    ensures NoNewline(ExportLine(name, ns))
  {
    var gs := Guards(ns);
    FeatureNoNewline(ns.name);
    FeatureNoNewline("unstable");
    assert forall j :: 0 <= j < |gs| ==> NoNewline(gs[j]);
    JoinNoNewline(", ", gs);
  }

  lemma PrefixNoNewline(feature: string, path: string)
    requires NoNewline(feature) && NoNewline(path)
    ensures NoNewline(PolyfillPrefix(feature, path))
  {
    FeatureNoNewline(feature);
  }

  lemma PolyfillOfNoNewline(name: string)
    ensures PolyfillOf(name).Some? ==>
      var p := PolyfillOf(name).value;
      NoNewline(p.feature) && NoNewline(p.path) && forall i :: 0 <= i < |p.items| ==> NoNewline(p.items[i])
  {
  }

  lemma PolyfillNoNewline(name: string)
    ensures NoNewlines(PolyfillLines(name))
  {
    if PolyfillOf(name).Some? {
      var p := PolyfillOf(name).value;
      PolyfillOfNoNewline(name);
      PrefixNoNewline(p.feature, p.path);
    }
  }

  /** `generate` returns nothing exactly for the prelude; any other block opens with
      `pub mod <name> {` and a line break, and closes with `}`. */
  lemma GeneratedFrame(name: string, nss: seq<Namespace>)
    ensures GeneratedText(name, nss).None? <==> name == "prelude"
    ensures GeneratedText(name, nss).Some? ==>
      var t := GeneratedText(name, nss).value;
      Opening(name) + "\n" <= t && t[|t| - 1] == '}'
  {
    if name != "prelude" {
      var body := [Opening(name)] + ExportLines(name, nss) + PolyfillLines(name);
      assert body[0] == Opening(name);
      var rest := JoinLines(body[1..]) + "}";
      assert JoinLines(body) + "}" == Opening(name) + "\n" + rest;
    }
  }

  /** Read back line by line, a generated block is the opening line, one re-export per
      namespace in argument order, each under that namespace's own guards, then the
      polyfills and the closing brace. */
  lemma GeneratedLines(name: string, nss: seq<Namespace>)
    requires name != "prelude" && SingleLine(name, nss)
    ensures var ls := Lines(GeneratedText(name, nss).value);
            && |ls| == |nss| + |PolyfillLines(name)| + 2
            && ls[0] == Opening(name)
            && (forall i :: 0 <= i < |nss| ==> ls[i + 1] == ExportLine(name, nss[i]))
            && ls[|nss| + 1..|ls| - 1] == PolyfillLines(name)
            && ls[|ls| - 1] == "}"
  {
    var exports := ExportLines(name, nss);
    var body := [Opening(name)] + exports + PolyfillLines(name);
    ExportLinesAt(name, nss);
    BodyNoNewline(name, nss);
    LinesOfJoinLines(body, "}");
    SplitSingle("}", '\n');
    assert Lines(GeneratedText(name, nss).value) == body + ["}"];
    Layout(Opening(name), exports, PolyfillLines(name));
  }

  lemma Layout(opening: string, exports: seq<string>, polyfills: seq<string>)
    ensures var ls := [opening] + exports + polyfills + ["}"];
            && |ls| == |exports| + |polyfills| + 2
            && ls[0] == opening
            && (forall i :: 0 <= i < |exports| ==> ls[i + 1] == exports[i])
            && ls[|exports| + 1..|ls| - 1] == polyfills
            && ls[|ls| - 1] == "}"
  {
    var ls := [opening] + exports + polyfills + ["}"];
    assert ls[|exports| + 1..|ls| - 1] == polyfills;
  }

  lemma OpeningNoNewline(name: string)
    requires NoNewline(name)
    ensures NoNewlines([Opening(name)])
  {
  }

  lemma BodyNoNewline(name: string, nss: seq<Namespace>)
    requires SingleLine(name, nss)
    ensures NoNewlines([Opening(name)] + ExportLines(name, nss) + PolyfillLines(name))
  {
    var exports := ExportLines(name, nss);
    ExportLinesAt(name, nss);
    forall i | 0 <= i < |nss| ensures NoNewline(exports[i]) {
      ExportLineNoNewline(name, nss[i]);
    }
    OpeningNoNewline(name);
    PolyfillNoNewline(name);
    NoNewlinesConcat([Opening(name)], exports);
    NoNewlinesConcat([Opening(name)] + exports, PolyfillLines(name));
  }
}
