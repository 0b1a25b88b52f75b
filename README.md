# no-std-compat2 generator, modelled in Dafny

`generate.py` writes `src/generated.rs`, the module tree behind the crate's `std`
facade. For every module that the `core` and `alloc` crates declare, it emits a
`pub mod <name> { … }` block. The block re-exports `__core::<name>::*` and/or
`__alloc::<name>::*`, each behind its own `#[cfg(...)]` guard. A few modules also get
polyfill re-exports from third-party crates. Four modules are written by hand. The
blocks are printed after a two-line header, in ascending order of module name.

The model follows the script step by step:

- **Scanning** (`Scanner`, over `FileSystem`, `Matcher` and `Entries`):
  - finds the names that a crate's `lib.rs` declares with `pub mod X;` or
    `pub use a::b::X;`;
  - makes one fresh `Module` record per declaration;
  - marks a record unstable when the module's own file contains `#![unstable`.
- **Overrides** (`Assembler.ApplyOverrides`): write into three of those records in place.
- **Generation** (`Generator.Generate`):
  - builds the guard list per namespace;
  - renders the `#[cfg]` attribute;
  - emits one re-export line per namespace, then the polyfills and the closing brace.
- **Merging** (`Assembler.MergeBoth`, `MergeCoreOnly`, `MergeAllocOnly`): the three
  passes over the names both crates declare, only `core` declares, and only `alloc`
  declares.
- **Assembly** (`Assembler.Assemble`, `Print`, `Text.SortStrings`): puts the
  hand-written blocks in place, sorts the names and prints.
- **The whole run** (`Assembler.Run`): proved equal to `Pipeline`, one function that states the whole result.

Each imperative step is a method proved against a function that states what it
computes. The lemmas listed below then state what the script promises about those
functions.

The file system is a map from path to `Readable(text)`, `Unreadable` or
`Undecodable`. A path that is not a key is not a regular file.

A module file that opens but is not valid UTF-8 raises `UnicodeDecodeError`. The
`except OSError` at generate.py:70 does not catch it, so the whole run stops; the model
returns `DecodeError` for it. A missing or unopenable module file is passed over, and
the module counts as stable.

## Model

| member | source | states |
|---|---|---|
| Matcher.LineMatchIsLastDeclaration | generate.py:38-42 | On one line, the pattern picks the declaration at the last start that recognises one (greedy `(?:\S.*)?`). It finds nothing exactly when no start recognises a declaration. |
| Matcher.LineMatchIsIdent | generate.py:38-42 | The captured name is always one Rust identifier `[a-zA-Z_][a-zA-Z0-9_]*`. |
| Matcher.IndentedLineNoMatch | generate.py:38-42 | A line whose first character is whitespace never yields a name. |
| Matcher.ModDeclarationRecognised | generate.py:38-42 | `pub mod NAME;` yields NAME, alone or after any prefix that starts with a non-space character. |
| Matcher.UseDeclarationRecognised | generate.py:38-42 | `pub use a::b::NAME;` yields NAME, alone or after any prefix that starts with a non-space character. |
| Entries.Module.constructor | generate.py:13-16 | `Module(unstable)` is a fresh record with `unstable` as given and its own empty `cfgs` list. |
| Scanner.NamesAreIdents | generate.py:55-56 | Every name the scan of `lib.rs` yields is an identifier. |
| Scanner.ModuleFlag | generate.py:57-72 | The check of one module fails exactly when the file opened for it (`<name>.rs`, or `<name>/mod.rs` when the former is not a file) cannot be decoded, and then with `DecodeError` of that path. Otherwise the module is unstable iff that file is readable and `#![unstable` occurs in it at some index; a missing or unopenable file gives stable. |
| Scanner.Record | generate.py:74 | Storing a record puts a fresh object under the name, replacing any earlier one. Every other name keeps its object. Names still do not share records. |
| Scanner.ScanLines | generate.py:54-75 | The loop over `lib.rs` lines fails exactly with the first failure among the declared names. Otherwise it returns distinct fresh records whose values are `ScannedEntries`. |
| Scanner.Modules | generate.py:45-75 | `modules(crate)` returns `Scanned`: unreadable or undecodable `lib.rs` is an error, else the result of the line scan. |
| Scanner.ScanKeepsEveryDeclaration | generate.py:55-74 | After a successful scan, a name has a record exactly when the pattern finds it in `lib.rs`. |
| Scanner.ScanClassifiesByMarker | generate.py:57-74 | A scanned record has empty `cfgs`. It is unstable iff the file opened for it is readable and contains `#![unstable` at some position. Its name was declared in `lib.rs`. |
| Scanner.ScanFailsOnlyWhenFatal | generate.py:49-72 | The scan fails iff `lib.rs` is not readable text, or some declared module's file cannot be decoded. A missing or unreadable module file never stops it. |
| Text.ContainsIff | generate.py:64 | The model of Python's `in` on strings holds exactly when the substring occurs at some index. |
| Generator.Guards | generate.py:91-96 | The guard list is `feature = "<ns>"` only when the namespace is not `core`, then `feature = "unstable"` when the record is unstable, then the record's `cfgs` in recorded order. |
| Text.CommaListRoundTrip | generate.py:101 | `", ".join` of comma-free items can be split back into exactly those items. |
| Generator.AttributeRoundTrip | generate.py:98-101 | The rendered attribute (nothing, `#[cfg(p)] ` or `#[cfg(all(p1, p2, …))] `) loses nothing: the guards, in order, read back out of it. |
| Generator.Generate | generate.py:78-143 | The accumulating loop returns `GeneratedText`: `None` for `prelude`, else the opening line, one guarded re-export per namespace, the polyfills and `}`. |
| Generator.GeneratedFrame | generate.py:83-143 | The result is `None` iff the module is `prelude` (lines 85-86). Otherwise it starts with `pub mod <name> {` and a line break, and ends with `}`. |
| Generator.GeneratedLines | generate.py:88-143 | Read back as lines, a block is: the opening; then line i+1 is the re-export of the i-th namespace under that namespace's own guards only; then the polyfill lines; then `}`. |
| Generator.PolyfillCount | generate.py:105-140 | Polyfills exist only for `collections` (2 lines), `sync` (6) and `ffi` (1). |
| Generator.PolyfillsGuarded | generate.py:105-140 | Every polyfill line is a `pub use` under `#[cfg(all(feature = "alloc", feature = "compat_…"))]`, rendered like the standard guards. |
| Assembler.Overridden | generate.py:152-154 | `async_iter` in `core` becomes unstable. `sync` and `task` in `alloc` get `not(target_os = "none")` appended. Nothing else changes. A missing key is a `KeyError`, checked in that order. |
| Assembler.ApplyOverrides | generate.py:152-154 | The in-place writes into the records produce exactly `Overridden` of the records' previous values, or its `KeyError`. |
| Assembler.MergeBoth | generate.py:161-167 | After the pass, every name in both crates has its generated block from `core` then `alloc`, whatever order the names are visited in. |
| Assembler.MergeCoreOnly | generate.py:169-174 | After the pass, every name only `core` declares has its block from `core` alone. |
| Assembler.MergeAllocOnly | generate.py:176-181 | After the pass, every name only `alloc` declares has its block from `alloc` alone. |
| Assembler.Merge | generate.py:156-181 | The three passes together build `Merged`: one block per name in `core_keys ∪ alloc_keys`. |
| Assembler.MergedNames | generate.py:158-181 | The keys of the merged map are exactly the union of the two key sets. The only `None` block is `prelude`. |
| Assembler.MergedLines | generate.py:161-181 | A name in both crates gets the `core` re-export line, then the `alloc` one. A name in one crate gets exactly one re-export line, from that crate. |
| Assembler.ScannedCratesPlain | generate.py:148-149 | Both scanned crates have identifier names and records with empty `cfgs`. |
| Assembler.OverriddenSingleLine | generate.py:152-181 | After the overrides, a name's providers hold no line break: every `cfgs` is empty or `not(target_os = "none")` alone. This is the precondition of `MergedLines` for the crates the run builds. |
| Assembler.AssembledBlocks | generate.py:183-223 | The four hand-written blocks take their names unconditionally. Every other block is left as generated. |
| Assembler.NothingPrintedAsNone | generate.py:196-212 | The hand-written `prelude` replaces the one `None` that `generate` returns (lines 85-86). After assembly every block has its text, so `print` never writes `None`. |
| Text.SortStrings | generate.py:227 | Sorting the names yields `Ascending`: strictly ascending in Python's string order and holding exactly the set's members. |
| Assembler.Print | generate.py:225-228 | The printed text is the header, then each block's text in the given order, each followed by a line break. |
| Assembler.DocumentOrder | generate.py:225-228 | Any strictly ascending listing of the names prints the same document, since the ascending order is unique. |
| Assembler.Assemble | generate.py:156-228 | Merging, inserting the hand-written blocks, sorting and printing yields `Document` of the assembled blocks. |
| Assembler.ScanCrates | generate.py:148-149 | Scanning `core`, then `alloc`, gives `ScannedCrates` or its first error. The records are fresh, distinct within a crate and not shared between crates. |
| Assembler.Run | generate.py:148-228 | The whole run returns `Pipeline`: the printed text, or the first error (unreadable `lib.rs`, undecodable module file, missing override key). |

## Left out

- Argument parsing and the `rustc --print sysroot` subprocess (generate.py:20-33) are not modelled. The library location `src` is a parameter.
- Real file I/O is an abstract map; `os.path.isfile` is membership in it. The messages written to standard error (unstable modules, `OSError`s) are not modelled.
- Output goes to standard output through `print`. The model returns the text instead: the header and each block, each followed by a line break.
- Scanner.Modules: returns a map, so the insertion order of Python's `dict` is not kept. Nothing downstream depends on it: the merge iterates over sets, and the output is sorted.
- Matcher.LineMatchIsLastDeclaration: the pattern is matched one line at a time. With `re.MULTILINE`, `.` stops at a line break, but `\s+` can also match one. A declaration split across lines (`pub\nmod x;`) is found by Python and not by the model.
- The newline translation of Python's text mode is not modelled; a readable file's text is given after translation. The encoding of `lib.rs` (the locale default) is folded into `Readable`/`Undecodable`.
- Python sets iterate in an unspecified order. Each merge pass picks its next name arbitrarily and is proved correct for every order.
- Assembler.Merge: reads each record's values once, after the overrides, and runs the passes over those values. The original reads the same fields through the `Module` objects during the passes. Nothing writes to the records in between, so the result is the same.
- Text.SortStrings: Python's `sorted` (Timsort) is modelled by selecting the least remaining name at each step. The ascending order of a set of distinct strings is unique (Assembler.DocumentOrder), so the printed text is the same.
- The texts of the four hand-written blocks are constants of the model (`Assembler.Written`). `Assembler.RunWith` takes them as a parameter, and `Assembler.Run` passes the constants; the lemmas hold for any texts.
- `src/lib.rs` is not part of this model: it holds only compile-time attributes, crate aliases and macros.
