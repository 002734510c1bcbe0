/**
 * The registry build (`main`, build.rs:14-66): the library file is truncated, the header
 * with the runtime helper is written, and then the stub of every declaration found in the
 * declarations directory is appended in the order the directory lists its entries,
 * stopping at the first error. The environment, the file system and `tsc` are inputs.
 */
module Registry {
  import opened Wrappers
  import opened Text
  import opened Paths
  import opened JsMacros

  /** The lines of `HEADER` (build.rs:68-120), counted from the empty line the byte string
      opens with; the header is these 52 lines, each followed by a line break. */
  const HeaderLines: seq<string> := [
    "",
    "#![doc = include_str!(\"../README.md\")]",
    "",
    "// AUTO-GENERATED LIB FILE - DON'T MODIFY",
    "",
    "extern crate proc_macro;",
    "",
    "use proc_macro::{LexError, TokenStream};",
    "use std::process::Command;",
    "use proc_macro_error::*;",
    "",
    "fn run_node_macro(",
    "    macro_input: TokenStream,",
    "    macro_args: Option<TokenStream>,",
    "    node_script_path: &str,",
    ") -> Result<TokenStream, LexError> {",
    "    let output = Command::new(\"node\")",
    "        .arg(\"-e\")",
    "        .arg(format!(",
    "            r\"",
    "                MACRO_INPUT = {:?};",
    "                MACRO_ARGUMENTS = {:?};",
    "                MACRO_OUTPUT = '';",
    "                require({:?});",
    "                console.log('MACRO_OUTPUT: ' + MACRO_OUTPUT);",
    "            \",",
    "            macro_input.to_string(),",
    "            macro_args.map(|a| a.to_string()).unwrap_or_default(),",
    "            node_script_path",
    "        ))",
    "        .output()",
    "        .unwrap_or_else(|e| {",
    "            if let std::io::ErrorKind::NotFound = e.kind() {",
    "                panic!(\"No `node` command found in PATH\");",
    "            }",
    "",
    "            panic!(\"IO Error running JS macro: {}\", e)",
    "        });",
    "",
    "    if !output.status.success() {",
    "        emit_call_site_error!(format!(\"Error occurred running JS macro:\\n{}\\n\", String::from_utf8_lossy(&output.stderr)));",
    "        return Ok(Default::default());",
    "    }",
    "",
    "    let macro_output = std::str::from_utf8(&output.stdout)",
    "        .expect(\"JS Macro had unexpected non-utf8 output\")",
    "        .split(\"MACRO_OUTPUT: \")",
    "        .nth(1)",
    "        .expect(\"JS Macro unexpectedly missing macro output\");",
    "",
    "    macro_output.parse()",
    "}" ]

  /** The header lines from `k` on, each followed by '\n'. */
  function HeaderFrom(k: nat): string
    decreases |HeaderLines| - k
  {
    if k >= |HeaderLines| then "" else HeaderLines[k] + "\n" + HeaderFrom(k + 1)
  }

  /** The index of the header's first line. It is a named constant rather than the literal
      0 so that the verifier unfolds the header one line at a time, only where a proof
      needs it. */
  const HeaderStart: nat := 0

  function Header(): string
  {
    HeaderFrom(HeaderStart)
  }

  /** A directory entry as the loop sees it: its file name with what reading it and
      compiling it would give, or the error the directory iterator reports instead. */
  datatype DirEntry =
    | Listed(fileName: string, contents: Result<string, string>, tsc: TscOutcome)
    | Unreadable(message: string)

  /** What failed, as the context `main` attaches to an error says it. */
  datatype Context =
    | OpeningLib(libPath: string)
    | ReadingDir(macrosDir: string)
    | ReadingFile(path: string)
    | ParsingFile(path: string)

  /** The path a context names. */
  function ContextPath(c: Context): string
  {
    match c
    case OpeningLib(p) => p
    case ReadingDir(d) => d
    case ReadingFile(p) => p
    case ParsingFile(p) => p
  }

  /** The words of a context's message before the quoted path. */
  function ContextWords(c: Context): string
  {
    match c
    case OpeningLib(_) => "IO Error when opening js-macro lib file "
    case ReadingDir(_) => "IO err when reading js-macros dir "
    case ReadingFile(_) => "IO err reading file "
    case ParsingFile(_) => "Failed parsing js-macro file "
  }

  /** The context's message (build.rs:35, 46, 50, 54 and 57): its words, then the path as
      `{:?}` writes a path. */
  function Message(c: Context): string
  {
    ContextWords(c) + QuotePath(ContextPath(c))
  }

  /** Where the four messages first differ: characters 0, 3 and 7 tell them apart. */
  lemma ContextWordsKey(c: Context)
    ensures var w := ContextWords(c);
      && |w| > 7
      && (c.ParsingFile? <==> w[0] == 'F')
      && (c.OpeningLib? <==> w[0] == 'I' && w[3] == 'E')
      && (c.ReadingDir? <==> w[0] == 'I' && w[3] == 'e' && w[7] == 'w')
      && (c.ReadingFile? <==> w[0] == 'I' && w[3] == 'e' && w[7] == 'r')
  {
  }

  /** The message an error is reported with identifies its context: which step failed and
      on which path. */
  lemma MessageIdentifiesContext(c: Context, c': Context)
    requires Message(c) == Message(c')
    ensures c == c'
  {
    var w, w' := ContextWords(c), ContextWords(c');
    var q, q' := QuotePath(ContextPath(c)), QuotePath(ContextPath(c'));
    ContextWordsKey(c);
    ContextWordsKey(c');
    assert Message(c)[0] == w[0] && Message(c)[3] == w[3] && Message(c)[7] == w[7];
    assert Message(c')[0] == w'[0] && Message(c')[3] == w'[3] && Message(c')[7] == w'[7];
    assert w == w';
    assert q == q' by {
      assert q == Message(c)[|w|..];
      assert q' == Message(c')[|w'|..];
    }
    UnquoteQuotePath(ContextPath(c));
    UnquoteQuotePath(ContextPath(c'));
  }

  /** The message ends with the path, quoted so that it reads back. */
  lemma MessageNamesPath(c: Context)
    ensures var m := Message(c); var n := |m| - |QuotePath(ContextPath(c))|;
      && 0 <= n && m[..n] == ContextWords(c) && Unquote(m[n..]) == Some(ContextPath(c))
  {
    var m := Message(c);
    var n := |m| - |QuotePath(ContextPath(c))|;
    assert m[n..] == QuotePath(ContextPath(c));
    UnquoteQuotePath(ContextPath(c));
  }

  /** An error with the context `main` attaches to it. */
  datatype BuildError = BuildError(context: Context, cause: string)

  /** What turns a declarations file into its declaration, given its path, its contents
      and what `tsc` does with it. */
  type Parser = (string, string, TscOutcome) -> Result<Option<JsMacro>, string>

  /** `JsMacro::try_from_file` for the build's output directory. */
  function ParserFor(outDir: string): Parser
  {
    (path: string, contents: string, tsc: TscOutcome) => TryFromFile(path, contents, outDir, tsc)
  }

  /** One turn of the loop (build.rs:48-62): the declaration an entry contributes, if any,
      or the error, with its context, that ends the build. */
  function Step(parse: Parser, macrosDir: string, e: DirEntry): Result<Option<JsMacro>, BuildError>
  {
    match e
    case Unreadable(m) => Err(BuildError(ReadingDir(macrosDir), m))
    case Listed(name, contents, tsc) =>
      var path := Join(macrosDir, name);
      match contents
      case Err(m) => Err(BuildError(ReadingFile(path), m))
      case Ok(text) =>
        match parse(path, text, tsc)
        case Err(m) => Err(BuildError(ParsingFile(path), m))
        case Ok(d) => Ok(d)
  }

  /** What the loop has done after some entries: the declarations written, in order, and
      the error it stopped at. */
  datatype Progress = Progress(declared: seq<JsMacro>, error: Option<BuildError>)

  /** The progress after one more entry: nothing changes once an error stopped the loop. */
  function Next(p: Progress, step: Result<Option<JsMacro>, BuildError>): Progress
  {
    if p.error.Some? then p
    else
      match step
      case Err(e) => Progress(p.declared, Some(e))
      case Ok(None) => p
      case Ok(Some(m)) => Progress(p.declared + [m], None)
  }

  /** The progress of the loop over `entries`, entry by entry. */
  function Fold(parse: Parser, macrosDir: string, entries: seq<DirEntry>): Progress
    decreases |entries|
  {
    if entries == [] then Progress([], None)
    else Next(Fold(parse, macrosDir, entries[..|entries| - 1]), Step(parse, macrosDir, entries[|entries| - 1]))
  }

  /** The progress of the build's loop. */
  function Assemble(macrosDir: string, outDir: string, entries: seq<DirEntry>): Progress
  {
    Fold(ParserFor(outDir), macrosDir, entries)
  }

  lemma FoldNext(parse: Parser, macrosDir: string, entries: seq<DirEntry>, i: nat)
    requires i < |entries|
    ensures Fold(parse, macrosDir, entries[..i + 1])
      == Next(Fold(parse, macrosDir, entries[..i]), Step(parse, macrosDir, entries[i]))
  {
    assert entries[..i + 1][..i] == entries[..i];
  }

  /** Once an entry fails, later entries change nothing. */
  lemma {:induction false} FoldStops(parse: Parser, macrosDir: string, entries: seq<DirEntry>, i: nat)
    requires i <= |entries| && Fold(parse, macrosDir, entries[..i]).error.Some?
    ensures Fold(parse, macrosDir, entries) == Fold(parse, macrosDir, entries[..i])
    decreases |entries| - i
  {
    if i < |entries| {
      FoldNext(parse, macrosDir, entries, i);
      FoldStops(parse, macrosDir, entries, i + 1);
    } else {
      assert entries[..i] == entries;
    }
  }

  /** The declarations the entries give, in order, ignoring errors: the reference the loop
      is measured against. */
  function Found(parse: Parser, macrosDir: string, entries: seq<DirEntry>): seq<JsMacro>
    decreases |entries|
  {
    if entries == [] then []
    else
      var rest := Found(parse, macrosDir, entries[..|entries| - 1]);
      match Step(parse, macrosDir, entries[|entries| - 1])
      case Ok(Some(m)) => rest + [m]
      case _ => rest
  }

  /** The loop ends without an error exactly when every entry is read and parsed, and
      then it has declared what every entry gives, in the directory's order. */
  lemma {:induction false} FoldSucceeds(parse: Parser, macrosDir: string, entries: seq<DirEntry>)
    ensures Fold(parse, macrosDir, entries).error.None? <==>
      forall k :: 0 <= k < |entries| ==> Step(parse, macrosDir, entries[k]).Ok?
    ensures Fold(parse, macrosDir, entries).error.None? ==>
      Fold(parse, macrosDir, entries).declared == Found(parse, macrosDir, entries)
    decreases |entries|
  {
    if entries != [] {
      var init := entries[..|entries| - 1];
      FoldSucceeds(parse, macrosDir, init);
      assert forall k :: 0 <= k < |init| ==> init[k] == entries[k];
    }
  }

  /** When the loop stops at an error, it is the error of the first entry that fails, `i`,
      and the declarations written are those of the entries before it. */
  lemma {:induction false} FoldFails(parse: Parser, macrosDir: string, entries: seq<DirEntry>) returns (i: nat)
    requires Fold(parse, macrosDir, entries).error.Some?
    ensures i < |entries| && FirstFailure(parse, macrosDir, entries, i)
    ensures Fold(parse, macrosDir, entries).error == Some(Step(parse, macrosDir, entries[i]).error)
    ensures Fold(parse, macrosDir, entries).declared == Found(parse, macrosDir, entries[..i])
    decreases |entries|
  {
    var init := entries[..|entries| - 1];
    assert forall k :: 0 <= k < |init| ==> init[k] == entries[k];
    if Fold(parse, macrosDir, init).error.Some? {
      i := FoldFails(parse, macrosDir, init);
      assert init[..i] == entries[..i];
    } else {
      FoldSucceeds(parse, macrosDir, init);
      i := |entries| - 1;
      assert entries[..i] == init;
    }
  }

  /** Entry `i` fails and none before it does. */
  predicate FirstFailure(parse: Parser, macrosDir: string, entries: seq<DirEntry>, i: nat)
    requires i < |entries|
  {
    && Step(parse, macrosDir, entries[i]).Err?
    && forall k :: 0 <= k < i ==> Step(parse, macrosDir, entries[k]).Ok?
  }

  /** Every declaration `parse` yields is well formed. */
  ghost predicate YieldsWellFormed(parse: Parser)
  {
    forall path: string, contents: string, tsc: TscOutcome ::
      parse(path, contents, tsc).Ok? && parse(path, contents, tsc).value.Some? ==>
        WellFormed(parse(path, contents, tsc).value.value)
  }

  /** A loop whose parser yields only well-formed declarations declares only those. */
  lemma {:induction false} FoldWellFormed(parse: Parser, macrosDir: string, entries: seq<DirEntry>)
    requires YieldsWellFormed(parse)
    ensures forall m :: m in Fold(parse, macrosDir, entries).declared ==> WellFormed(m)
    decreases |entries|
  {
    if entries != [] {
      FoldWellFormed(parse, macrosDir, entries[..|entries| - 1]);
    }
  }

  lemma ParserForWellFormed(outDir: string)
    ensures YieldsWellFormed(ParserFor(outDir))
  {
    forall path: string, contents: string, tsc: TscOutcome |
      ParserFor(outDir)(path, contents, tsc).Ok? && ParserFor(outDir)(path, contents, tsc).value.Some?
      ensures WellFormed(ParserFor(outDir)(path, contents, tsc).value.value)
    {
      TryFromFileWellFormed(path, contents, outDir, tsc);
    }
  }

  /** Every declaration the build writes comes from a file and so is well formed: its stub
      reads back to it. */
  lemma AssembleWellFormed(macrosDir: string, outDir: string, entries: seq<DirEntry>)
    ensures forall m :: m in Assemble(macrosDir, outDir, entries).declared ==> ReadStub(ToRustMacro(m)) == Some(m)
  {
    ParserForWellFormed(outDir);
    FoldWellFormed(ParserFor(outDir), macrosDir, entries);
    forall m | m in Assemble(macrosDir, outDir, entries).declared
      ensures ReadStub(ToRustMacro(m)) == Some(m)
    {
      ReadToRustMacro(m);
    }
  }

  /** What renders a declaration as library text. */
  type Renderer = JsMacro -> string

  /** The renderings of the declarations, in order. */
  function Rendered(render: Renderer, ms: seq<JsMacro>): string
    decreases |ms|
  {
    if ms == [] then "" else Rendered(render, ms[..|ms| - 1]) + render(ms[|ms| - 1])
  }

  lemma RenderedSnoc(render: Renderer, ms: seq<JsMacro>, m: JsMacro)
    ensures Rendered(render, ms + [m]) == Rendered(render, ms) + render(m)
  {
    assert (ms + [m])[..|ms|] == ms;
  }

  /** The stubs of the declarations, in order. */
  function Stubs(ms: seq<JsMacro>): string
  {
    Rendered(ToRustMacro, ms)
  }

  lemma AppendAssoc(a: string, b: string, c: string)
    ensures a + b + c == a + (b + c)
  {
  }

  lemma EmptyAppend(s: string)
    ensures "" + s == s
  {
  }

  /** The library file `src/lib.rs`. */
  class LibFile {
    var text: string

    constructor (text: string)
      ensures this.text == text
    {
      this.text := text;
    }

    /** Opening with `truncate(true)`. */
    method Truncate()
      modifies this
      ensures text == ""
    {
      text := "";
    }

    /** `write_all` through the buffered writer. */
    method Write(s: string)
      modifies this
      ensures text == old(text) + s
    {
      text := text + s;
    }
  }

  /** The loop of build.rs:47-63: each entry is checked, read and parsed in the directory's
      order, each error getting its context; the stub of each declaration is appended to
      the library, and the first error ends the loop. */
  method AppendStubs(parse: Parser, render: Renderer, macrosDir: string, entries: seq<DirEntry>, lib: LibFile)
    returns (r: Result<(), BuildError>)
    modifies lib
    ensures lib.text == old(lib.text) + Rendered(render, Fold(parse, macrosDir, entries).declared)
    ensures r.Ok? <==> Fold(parse, macrosDir, entries).error.None?
    ensures r.Err? ==> Fold(parse, macrosDir, entries).error == Some(r.error)
  {
    var declared: seq<JsMacro> := [];
    var i := 0;
    while i < |entries|
      invariant 0 <= i <= |entries|
      invariant Fold(parse, macrosDir, entries[..i]) == Progress(declared, None)
      invariant lib.text == old(lib.text) + Rendered(render, declared)
    {
      var e := entries[i];
      FoldNext(parse, macrosDir, entries, i);
      if e.Unreadable? {
        FoldStops(parse, macrosDir, entries, i + 1);
        return Err(BuildError(ReadingDir(macrosDir), e.message));
      }
      var path := Join(macrosDir, e.fileName);
      if e.contents.Err? {
        FoldStops(parse, macrosDir, entries, i + 1);
        return Err(BuildError(ReadingFile(path), e.contents.error));
      }
      var parsed := parse(path, e.contents.value, e.tsc);
      if parsed.Err? {
        FoldStops(parse, macrosDir, entries, i + 1);
        return Err(BuildError(ParsingFile(path), parsed.error));
      }
      if parsed.value.Some? {
        var m := parsed.value.value;
        lib.Write(render(m));
        RenderedSnoc(render, declared, m);
        AppendAssoc(old(lib.text), Rendered(render, declared), render(m));
        declared := declared + [m];
      }
      i := i + 1;
    }
    assert entries[..i] == entries;
    return Ok(());
  }

  /** build.rs:14-66. `docsRs` says whether DOCS_RS is set, `openError` is the error
      opening the library file gives, if any, and `listing` is what reading the
      declarations directory gives. The lines printed for cargo are returned. */
  method Build(docsRs: bool, outDir: string, manifestDir: string, openError: Option<string>,
               listing: Result<seq<DirEntry>, string>, lib: LibFile)
    returns (r: Result<(), BuildError>, printed: seq<string>)
    modifies lib
    ensures docsRs ==> r == Ok(()) && printed == [] && lib.text == old(lib.text)
    ensures !docsRs ==> printed == [RerunDirective(outDir)]
    ensures !docsRs && openError.Some? ==>
      r == Err(BuildError(OpeningLib(LibPath(manifestDir)), openError.value)) && lib.text == old(lib.text)
    ensures !docsRs && openError.None? && listing.Err? ==>
      r == Err(BuildError(ReadingDir(MacrosDir(outDir)), listing.error)) && lib.text == Header()
    ensures !docsRs && openError.None? && listing.Ok? ==>
      var p := Assemble(MacrosDir(outDir), outDir, listing.value);
      && lib.text == Header() + Stubs(p.declared)
      && (r.Ok? <==> p.error.None?)
      && (p.error.Some? ==> r == Err(p.error.value))
  {
    printed := [];
    if docsRs {
      return Ok(()), printed;
    }
    var macrosDir := MacrosDir(outDir);
    printed := [RerunDirective(outDir)];
    var libPath := LibPath(manifestDir);
    if openError.Some? {
      return Err(BuildError(OpeningLib(libPath), openError.value)), printed;
    }
    lib.Truncate();
    lib.Write(Header());
    assert lib.text == Header() by { EmptyAppend(Header()); }
    if listing.Err? {
      return Err(BuildError(ReadingDir(macrosDir), listing.error)), printed;
    }
    r := AppendStubs(ParserFor(outDir), ToRustMacro, macrosDir, listing.value, lib);
  }
}
