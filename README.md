# js-macros build script, modelled in Dafny

The crate lets a project declare Rust procedural macros in JavaScript or TypeScript
files. Its build script (`build.rs`) does four things:

- It scans every file of the declarations directory for a marker line such as
  `//! JS_MACRO: derive(SayHello) attributes(hello_message)`. The directory is `js-macros`
  joined onto the text of OUT_DIR before its first "target", or onto all of OUT_DIR when
  it has none. In a default layout that puts it next to the `target` directory. The cut is
  on the text, so any earlier "target" in the path, such as in `retargeting`, cuts there.
- It classifies each declaration as a derive, attribute or function-like macro.
- It compiles TypeScript scripts with `tsc` into `OUT_DIR`.
- It writes `src/lib.rs`. The file is a fixed header, which carries the runtime helper
  `run_node_macro`, followed by one proc-macro stub per declaration. At expansion time
  the helper runs the script under `node` and reads the macro's output back from `node`'s
  stdout, after a sentinel.

The model has seven modules:

- `Wrappers`: `Option` and `Result`.
- `Text`: string search, splitting and replacement; line structure; Rust's `{:?}`
  quoting of strings and of paths, with its inverse.
- `Paths`: Unix `PathBuf::join`, `Path::extension`, the compiled TypeScript path, and the
  directories derived from `OUT_DIR` and `CARGO_MANIFEST_DIR`.
- `Marker`: the marker regular expression, written as a grammar (`Shape`, `Matches`)
  and as a parser (`Locate`, `Match`, `Scan`). The two are proved to agree, including
  the engine's leftmost-first preferences. `\s` is modelled as the Unicode White_Space
  set (`IsSpace`).
- `JsMacros`: `MacroType`, `JsMacro`, the decision table, `try_from_file`,
  `compile_typescript` once `tsc` has run, and the stub generator `to_rust_macro`. The
  stub generator has an inverse that reads a declaration back from its stub.
- `Bridge`: the script `run_node_macro` hands to `node`, with its inverse, and what the
  helper makes of the finished process: sentinel framing, call-site errors, panics.
- `Registry`: `HEADER` line by line, the per-entry step, and the build itself. The
  build is a `LibFile` class whose text the methods append to. `AppendStubs` is the
  loop over the directory entries. It is proved against the specification function
  `Fold`, whose own properties are lemmas.

The environment is passed in as parameters:

- `DOCS_RS`, `OUT_DIR` and `CARGO_MANIFEST_DIR`.
- Opening the library file, and listing and reading the directory.
- Running `tsc` (`TscOutcome`) and `node` (`NodeOutcome`).

The directory listing is a sequence of `DirEntry` values in the directory's order. Each
one carries the entry's file name, what reading it gives, and what compiling it would
give.

The build truncates `src/lib.rs` before it scans anything, so after an error the file
holds the header and the stubs written so far. `Registry.Build` and
`Registry.AppendStubs` state exactly that text.

## Model

| member | source | states |
|---|---|---|
| Marker.MatchSound | build.rs:129-155 | whatever the parser reports at a position is a match of the marker grammar |
| Marker.LocateSound | build.rs:129-155 | the positions the parser finds lay out a match of the grammar with the captures it extracts |
| Marker.MatchLeftmostFirst | build.rs:129-155 | whenever the grammar admits some captures at a position, the parser reports a match there, and its captures are at least as preferred: same kind, the shortest name (cut at a ')'), the attributes clause taken when admissible, with the shortest list |
| Marker.FirstMarkerSpec | build.rs:151 | the search from a position returns the leftmost line start where the pattern matches, and none exists when it returns nothing |
| Marker.Scan | build.rs:129-161 | `regex.captures(contents)`: the captures of the match at the first line start where the pattern matches; no contract of its own, specified by ScanFirstMatch, MatchSound and MatchLeftmostFirst |
| Marker.ScanFirstMatch | build.rs:158-161 | a file yields captures exactly when some line start admits a match, and then they are the captures of a match at the first such line, with no earlier line start admitting any |
| Marker.BlankToEolIff | build.rs:148 | the final `\s*$` holds exactly when only blanks remain before a line break or the end of the text |
| Marker.ScanRender | build.rs:129-155 | a file that starts with a rendered marker line scans back to the captures it was rendered from, provided the kind is a word, the name and the attribute list are on one line and hold no ')', the line is followed by a line break or the end of the file, and no clause follows a clause-less line |
| Marker.ScanClauseOnNextLine | build.rs:141-148 | because `\s*` matches line breaks, an `attributes(..)` clause on the line after a clause-less marker is captured as that marker's own |
| Marker.ClauseOnNextLine | build.rs:141-148 | example: `derive(D)` followed by a line `attributes(x)` scans as a derive with attributes `x` |
| Marker.ScanCustomDerive | js-macros/custom_derive.ts:1 | the example's marker line scans to kind `derive`, name `SayHello`, attributes `hello_message` |
| Marker.ScanCustomAttribute | js-macros/custom_attribute.ts:1 | the example's marker line scans to kind `attribute`, name `say_hello`, no clause |
| Marker.ScanCustomFunction | js-macros/custom_function.ts:1 | the example's marker line scans to kind `function`, name `hello_world`, no clause |
| JsMacros.ScanOneLine | build.rs:140-146 | the captured name and attribute list contain no line break |
| JsMacros.Classify | build.rs:167-185 | the kind is accepted exactly for `derive`, or for `attribute`/`function` without a clause; the result's kind word is the captured one; a derive keeps the list verbatim or gets "" when it is absent; otherwise the error is the helper-attributes one for attribute/function and the unexpected-type one for any other kind |
| JsMacros.HelperAttributesErrorNames | build.rs:174-178 | the helper-attributes message names the kind and then the attribute text, at fixed places |
| JsMacros.UnexpectedTypeErrorNames | build.rs:179-184 | the unexpected-type message names the kind and ends by listing exactly derive, attribute, function |
| JsMacros.CompileTypescript | build.rs:232-273 | success exactly when tsc ran and succeeded, giving the compiled script path; a spawn error is passed on unchanged; a failed compilation reports tsc's stdout after "TS Compilation error:" |
| JsMacros.TryFromFile | build.rs:157-197 | no declaration exactly when the file has no marker; a classification error is returned as it is; a declaration carries the captured name, the classified type, and the compiled path for a `.ts` file or the file's own path otherwise; any other error comes from compiling a TypeScript file |
| JsMacros.TryFromFileIgnoresTsc | build.rs:187-190 | for a file that is not TypeScript the result does not depend on tsc |
| JsMacros.TryFromFileWellFormed | build.rs:157-165 | every declaration read from a file has its name and attribute list on one line |
| JsMacros.ToRustMacro | build.rs:199-229 | the stub text; no contract of its own, specified by StubLayout, OnePubFn and ReadToRustMacro |
| JsMacros.StubLayout | build.rs:199-229 | the stub of a well-formed declaration consists of exactly the six template lines |
| JsMacros.OnePubFn | build.rs:199-229 | of the six lines exactly the fourth declares a `pub fn` |
| JsMacros.ReadDeriveStub | build.rs:201-209 | a derive stub reads back to its name, attribute list and script path |
| JsMacros.ReadFunctionStub | build.rs:210-218 | a function-like stub reads back to its name and script path |
| JsMacros.ReadAttributeStub | build.rs:219-227 | an attribute stub, with its two parameters and `Some(args)`, reads back to its name and script path |
| JsMacros.ReadToRustMacro | build.rs:199-229 | reading a declaration back from its stub gives it exactly: registration, signature, bridge argument and quoted script path determine it |
| JsMacros.ToRustMacroInjective | build.rs:199-229 | two well-formed declarations with the same stub are equal |
| JsMacros.CustomScriptIsTypeScript | build.rs:187 | the three example scripts are TypeScript |
| JsMacros.DeclarationsFollow | js-macros/custom_derive.ts:1-3 | the text after an example's marker line cannot extend the match |
| JsMacros.CustomDeriveFile | js-macros/custom_derive.ts:1-3 | the example file declares the derive `SayHello` with attributes `hello_message`, run from its compiled script |
| JsMacros.CustomAttributeFile | js-macros/custom_attribute.ts:1-3 | the example file declares the attribute macro `say_hello`, run from its compiled script |
| JsMacros.CustomFunctionFile | js-macros/custom_function.ts:1-3 | the example file declares the function-like macro `hello_world`, run from its compiled script |
| Text.UnquoteQuote | build.rs:94-96 | `{:?}` quoting of a string reads back to the string |
| Text.UnquoteQuotePath | build.rs:206 | `{:?}` quoting of a path reads back to the path |
| Text.QuotePathOfPlain | build.rs:35 | a path without a single quote is quoted as the same text as a string would be |
| Text.QuotePathSingleQuote | build.rs:206 | a single quote is escaped in a quoted path and left as it is in a quoted string |
| Text.BeforeFirstSpec | build.rs:20-23 | the first piece of `split("target")` is the prefix before the first occurrence of "target" (no occurrence starts inside it, and one starts right after it when there is any), or all of the text when there is none |
| Text.BeforeFirstFree | build.rs:20-23 | the first piece of `split("target")` contains no "target" |
| Paths.JoinFileName | build.rs:234-238 | joining a plain file name onto a directory makes it the path's file name |
| Paths.IsTypeScriptIff | build.rs:187 | a file name has extension exactly `ts` iff it is longer than ".ts" and ends with ".ts" |
| Paths.CompiledNameEndsJs | build.rs:272 | a TypeScript file name is rewritten to a name of the same length ending in ".js" |
| Paths.CompiledNameHasNoTs | build.rs:272 | the rewrite replaces every ".ts" and leaves none |
| Paths.CompiledNameUnchanged | build.rs:272 | a name without ".ts" is left as it is |
| Paths.MacrosDir | build.rs:20-25 | the declarations directory; no contract of its own, specified by MacrosDirSpec |
| Paths.CompiledScriptPath | build.rs:272 | the compiled script path; no contract of its own, specified by CompiledNameEndsJs, CompiledNameHasNoTs and CompiledNameUnchanged |
| Paths.LibPath | build.rs:28-29 | `src/lib.rs` joined onto CARGO_MANIFEST_DIR; no contract of its own, used by Registry.Build |
| Paths.RerunDirective | build.rs:25-26 | the `cargo:rerun-if-changed=` line for the declarations directory; no contract of its own, used by Registry.Build |
| Paths.MacrosDirSpec | build.rs:20-25 | the declarations directory is `js-macros` joined onto the text of OUT_DIR before its first "target", or onto all of OUT_DIR when it has none |
| Bridge.NodeScript | build.rs:86-97 | the program handed to `node -e`; no contract of its own, specified by ReadNodeScript and AbsentArgumentsEmpty |
| Bridge.ReadNodeScript | build.rs:86-97 | the script given to `node` reads back to the macro input, the secondary input ("" when absent) and the script path |
| Bridge.AbsentArgumentsEmpty | build.rs:95 | an absent secondary input and an empty one give the same script |
| Bridge.RunNodeMacro | build.rs:98-118 | a failed run is a call-site error; tokens are produced exactly when the run succeeded with UTF-8 stdout that contains the sentinel |
| Bridge.FailedRunReported | build.rs:107-110 | a failed run reports node's stderr at the call site and expands to nothing |
| Bridge.MissingNodePanics | build.rs:100-102 | a missing `node` command panics with the message naming it |
| Bridge.SpawnErrorPanics | build.rs:104 | any other spawn error panics with the error's text |
| Bridge.NonUtf8OutputPanics | build.rs:112-113 | a successful run with stdout that is not UTF-8 panics |
| Bridge.MissingSentinelPanics | build.rs:112-116 | a successful run whose stdout lacks the sentinel panics |
| Bridge.FramedOutput | build.rs:112-116 | whatever the script logs before the sentinel, the result is the text after the first sentinel up to the next one |
| Bridge.OutputRoundTrip | build.rs:92-116 | when the macro output holds no sentinel, the helper gets back exactly the line the script printed after it |
| Registry.Header | build.rs:68-120 | the fixed header, line by line; no contract of its own, used by Registry.Build |
| Registry.Message | build.rs:35-57 | the `with_context` message of each error context (build.rs:35, 46, 50, 54, 57); no contract of its own, specified by MessageNamesPath and MessageIdentifiesContext |
| Registry.MessageNamesPath | build.rs:35-57 | a context's message is the source's words followed by the `{:?}`-quoted path, and that quoted tail reads back to the path |
| Registry.MessageIdentifiesContext | build.rs:35-57 | two contexts with the same message are the same: the message tells which step failed and on which path |
| Registry.Step | build.rs:48-56 | one turn of the loop: the entry's declaration, or the error with its context; no contract of its own, specified through FoldSucceeds and FoldFails |
| Registry.Fold | build.rs:47-63 | the progress of the loop over the entries; no contract of its own, specified by FoldStops, FoldSucceeds and FoldFails |
| Registry.FoldStops | build.rs:47-63 | once an entry fails, later entries change neither the declarations nor the error |
| Registry.FoldSucceeds | build.rs:47-63 | the loop ends without error exactly when every entry is read and parsed, and then it has declared what each entry gives, in directory order |
| Registry.FoldFails | build.rs:47-63 | on error, the error is the first failing entry's own error, with its context, and the declarations are those of the entries before it |
| Registry.FoldWellFormed | build.rs:47-63 | when the parser yields only well-formed declarations, so does the loop |
| Registry.AssembleWellFormed | build.rs:57-61 | every declaration the build writes has a stub that reads back to it |
| Registry.LibFile.Truncate | build.rs:30-35 | opening with truncation empties the library file |
| Registry.LibFile.Write | build.rs:40 | a write appends its text |
| Registry.AppendStubs | build.rs:47-63 | the loop appends to the library the rendering of each declaration `Fold` gives, in directory order; it succeeds exactly when `Fold` ends without error, and otherwise returns the error `Fold` stops at |
| Registry.Build | build.rs:14-66 | under DOCS_RS nothing is done; otherwise the rerun directive is printed; an open error leaves the file as it was; after that the file is the header, then the stubs up to the first error, and the result is that error (a directory error, with its context, when listing fails) |

## Left out

- Process spawning, exit codes and the bytes of stdout and stderr, for both `tsc`
  (build.rs:240-263) and `node` (build.rs:84-105). They are inputs. `from_utf8_lossy` is
  treated as already applied.
- The "No `tsc` command found in PATH" error at build.rs:258-259 is built and dropped.
  The model passes every spawn error on unchanged and has no separate missing-`tsc` case.
- Environment variables and the `build_script_var!` panics (build.rs:8-12). Their values
  are parameters.
- The `expect` at build.rs:23 is not modelled: `split(..).next()` always yields a piece,
  so it cannot fire.
- Write errors on the buffered writer (the "IO Error when writing js-macro lib file"
  context, build.rs:38-40 and 58-61). Writes are modelled as appends that do not fail.
- Flushing on drop is also left out.
- Parsing the helper's text into a `TokenStream` (build.rs:118), `emit_call_site_error!`,
  and `TokenStream::to_string`. These are compiler internals.
- `Bridge.NonUtf8OutputPanics`: `Result::expect` appends the `Utf8Error` to the panic
  message. The model gives the message without it, since stdout's bytes are not modelled.
- `Bridge.RunNodeMacro`: the result of a failed run is the call-site error. The empty
  token stream that is then returned is implicit in that case.
- `HEADER` (`Registry.Header`) is transcribed line by line, with no proof that it embeds
  `run_node_macro` exactly as `Bridge` models it. The literal is too large to compare
  cheaply.
- `\w` is restricted to ASCII letters, digits and '_'. Unicode word characters are left
  out.
- `{:?}` quoting escapes tab, carriage return, line feed, backslash, double quote and
  NUL, and, for a path, the single quote. Rust's other `\u{..}` escapes of control and
  unprintable characters, and the `\x..` escapes of a path's invalid UTF-8 bytes, are left
  out.
- Paths are Unix paths. `Path::file_name` of a path ending in '/' is not modelled, since
  directory entries never end in one.
- Windows separators and non-UTF-8 paths are not modelled either.
- `Paths.CompiledScriptPath` follows the code's replacement of every ".ts" by ".js" in the file
  name. Which file `tsc` writes for a name with an inner ".ts" (such as `a.tsx.ts`) is up
  to `tsc` and is not modelled.
- The directory iterator's order is a given sequence. Its concrete order is left out.
- The demo programs under `examples/` and the JavaScript semantics of the macro scripts
  are left out.
