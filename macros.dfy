/**
 * A macro declaration read from a script file: the classification of the marker's
 * captures (build.rs:167-185), the TypeScript step of `try_from_file` (build.rs:187-196,
 * 232-273) and the Rust stub `to_rust_macro` writes for a declaration (build.rs:199-229).
 */
module JsMacros {
  import opened Wrappers
  import opened Text
  import opened Paths
  import opened Marker

  /** build.rs:275-279. */
  datatype MacroType = Derive(attributes: string) | Function | Attribute

  /** A declared macro: its name, the script `node` runs for it, and its kind. */
  datatype JsMacro = JsMacro(name: string, path: string, macroType: MacroType)

  /** The marker kind word that selects a macro type. */
  function KindWord(t: MacroType): string
  {
    match t
    case Derive(_) => "derive"
    case Function => "function"
    case Attribute => "attribute"
  }

  function HelperAttributesError(kind: string, attributes: string): string
  {
    "Macro type " + kind + " does not support helper attributes (" + attributes + ")"
  }

  function UnexpectedTypeError(kind: string): string
  {
    "Unexpected macro type: `" + kind + "`. Should be one of: derive, attribute, function"
  }

  /** The decision table on the captured kind and the optional attribute list. */
  function Classify(kind: string, attributes: Option<string>): (r: Result<MacroType, string>)
    ensures r.Ok? <==> kind == "derive" || ((kind == "attribute" || kind == "function") && attributes.None?)
    ensures r.Ok? ==> KindWord(r.value) == kind
    ensures r.Ok? && r.value.Derive? ==> r.value.attributes == attributes.GetOr("")
    ensures r.Err? && (kind == "attribute" || kind == "function") ==>
      attributes.Some? && r.error == HelperAttributesError(kind, attributes.value)
    ensures r.Err? && kind != "attribute" && kind != "function" ==> r.error == UnexpectedTypeError(kind)
  {
    match (kind, attributes)
    case ("derive", Some(a)) => Ok(Derive(a))
    case ("derive", None) => Ok(Derive(""))
    case ("attribute", None) => Ok(Attribute)
    case ("function", None) => Ok(Function)
    case (k, Some(a)) =>
      if k == "attribute" || k == "function" then Err(HelperAttributesError(k, a))
      else Err(UnexpectedTypeError(k))
    case (k, None) => Err(UnexpectedTypeError(k))
  }

  /** The helper-attributes error names the kind and then the attribute list. */
  lemma HelperAttributesErrorNames(kind: string, attributes: string)
    ensures var m := HelperAttributesError(kind, attributes);
      HasAt(m, 11, kind) && HasAt(m, 11 + |kind| + 37, attributes) && |m| == 11 + |kind| + 37 + |attributes| + 1
  {
    var m := HelperAttributesError(kind, attributes);
    var a := "Macro type " + kind;
    var b := a + " does not support helper attributes (";
    assert m == b + attributes + ")";
    assert m[11..11 + |kind|] == a[11..] == kind;
    assert m[|b|..|b| + |attributes|] == attributes;
  }

  /** The unexpected-kind error names the kind and ends with the three accepted kinds. */
  lemma UnexpectedTypeErrorNames(kind: string)
    ensures var m := UnexpectedTypeError(kind);
      && HasAt(m, 24, kind)
      && HasAt(m, 24 + |kind|, "`. Should be one of: derive, attribute, function")
      && |m| == 24 + |kind| + 48
  {
    var m := UnexpectedTypeError(kind);
    var a := "Unexpected macro type: `" + kind;
    assert m == a + "`. Should be one of: derive, attribute, function";
    assert m[24..24 + |kind|] == a[24..] == kind;
    assert m[|a|..|m|] == "`. Should be one of: derive, attribute, function";
  }

  /** What running `tsc` on a script gives: a spawn error, or its exit status and stdout. */
  datatype TscOutcome = SpawnFailed(message: string) | Exited(success: bool, stdout: string)

  /** build.rs:232-273 once the process has run: every spawn error is passed on as it is
      (the "No `tsc` command" error at build.rs:258-259 is built and dropped), a failed
      compilation reports tsc's stdout, and a success yields the compiled script's path. */
  function CompileTypescript(outDir: string, fileName: string, tsc: TscOutcome): (r: Result<string, string>)
    ensures r.Ok? <==> tsc.Exited? && tsc.success
    ensures r.Ok? ==> r.value == CompiledScriptPath(outDir, fileName)
    ensures tsc.SpawnFailed? ==> r == Err(tsc.message)
    ensures tsc.Exited? && !tsc.success ==> r == Err("TS Compilation error:\n" + tsc.stdout)
  {
    match tsc
    case SpawnFailed(e) => Err(e)
    case Exited(ok, out) =>
      if !ok then Err("TS Compilation error:\n" + out) else Ok(CompiledScriptPath(outDir, fileName))
  }

  /** build.rs:157-197: a file without a marker declares nothing; otherwise the captures
      are classified, and only then is a TypeScript script compiled and its path replaced
      by the compiled one. `tsc` is what compiling would give; it is not consulted for other
      files. */
  function TryFromFile(path: string, contents: string, outDir: string, tsc: TscOutcome)
    : (r: Result<Option<JsMacro>, string>)
    ensures r == Ok(None) <==> Scan(contents).None?
    ensures Scan(contents).Some? && Classify(Scan(contents).value.kind, Scan(contents).value.attributes).Err? ==>
      r == Err(Classify(Scan(contents).value.kind, Scan(contents).value.attributes).error)
    ensures r.Ok? && r.value.Some? ==>
      && Scan(contents).Some?
      && r.value.value.name == Scan(contents).value.name
      && Classify(Scan(contents).value.kind, Scan(contents).value.attributes) == Ok(r.value.value.macroType)
      && r.value.value.path ==
        (if IsTypeScript(LastComponent(path)) then CompiledScriptPath(outDir, LastComponent(path)) else path)
    ensures r.Err? && Scan(contents).Some? && Classify(Scan(contents).value.kind, Scan(contents).value.attributes).Ok? ==>
      IsTypeScript(LastComponent(path)) && CompileTypescript(outDir, LastComponent(path), tsc) == Err(r.error)
  {
    match Scan(contents)
    case None => Ok(None)
    case Some(c) =>
      match Classify(c.kind, c.attributes)
      case Err(e) => Err(e)
      case Ok(t) =>
        if IsTypeScript(LastComponent(path)) then
          match CompileTypescript(outDir, LastComponent(path), tsc)
          case Err(e) => Err(e)
          case Ok(js) => Ok(Some(JsMacro(c.name, js, t)))
        else Ok(Some(JsMacro(c.name, path, t)))
  }

  /** For a script that is not TypeScript, the outcome does not depend on `tsc`. */
  lemma TryFromFileIgnoresTsc(path: string, contents: string, outDir: string, tsc1: TscOutcome, tsc2: TscOutcome)
    requires !IsTypeScript(LastComponent(path))
    ensures TryFromFile(path, contents, outDir, tsc1) == TryFromFile(path, contents, outDir, tsc2)
  {
  }

  /** Every declaration read from a file has a name on one line and a classified type whose
      attribute list is on one line too, as the marker grammar allows no '\n' in them. */
  predicate WellFormed(m: JsMacro)
  {
    OneLine(m.name) && (m.macroType.Derive? ==> OneLine(m.macroType.attributes))
  }

  lemma TryFromFileWellFormed(path: string, contents: string, outDir: string, tsc: TscOutcome)
    requires TryFromFile(path, contents, outDir, tsc).Ok?
    requires TryFromFile(path, contents, outDir, tsc).value.Some?
    ensures WellFormed(TryFromFile(path, contents, outDir, tsc).value.value)
  {
    ScanOneLine(contents);
  }

  /** The captures of a scan stay on one line. */
  lemma ScanOneLine(t: string)
    requires Scan(t).Some?
    ensures OneLine(Scan(t).value.name)
    ensures Scan(t).value.attributes.Some? ==> OneLine(Scan(t).value.attributes.value)
  {
    ScanFirstMatch(t);
    var p := FirstMarker(t, 0).value;
    MatchesOneLine(t[p..], Scan(t).value);
  }

  lemma MatchesOneLine(s: string, c: Captures)
    requires Matches(s, c)
    ensures OneLine(c.name)
    ensures c.attributes.Some? ==> OneLine(c.attributes.value)
  {
    var n1, n2, n3 :| Shape(s, c, n1, n2, n3);
  }

  // ---------------------------------------------------------------------------------------
  // The Rust stub of a declaration

  /** The line that registers the stub with the compiler. */
  function Registration(m: JsMacro): string
  {
    match m.macroType
    case Derive(a) => "#[proc_macro_derive(" + m.name + ", attributes(" + a + "))]"
    case Function => "#[proc_macro]"
    case Attribute => "#[proc_macro_attribute]"
  }

  /** The parameters and return type of the stub function: an attribute macro also takes
      the attribute's arguments. */
  function Signature(t: MacroType): string
  {
    if t.Attribute? then "(args: TokenStream, " + InputSignature else "(" + InputSignature
  }

  const InputSignature: string := "input: TokenStream) -> TokenStream {"

  /** The argument passed to `run_node_macro` for the macro's secondary input. */
  function BridgeArgument(t: MacroType): string
  {
    if t.Attribute? then "Some(args)" else "None"
  }

  /** The six lines of a stub's template. */
  function StubLines(m: JsMacro): seq<string>
  {
    [ "#[proc_macro_error]",
      Indent + Registration(m),
      Indent + "#[allow(non_snake_case)] #[doc(hidden)]",
      Indent + "pub fn " + m.name + Signature(m.macroType),
      Indent + "    run_node_macro(input, " + BridgeArgument(m.macroType) + ", " + QuotePath(m.path) + ").unwrap()",
      Indent + "}" ]
  }

  /** build.rs:199-229: the `format!` templates, whose literals span these six lines. */
  function ToRustMacro(m: JsMacro): string
  {
    JoinLines(StubLines(m))
  }

  /** A stub has exactly the six template lines when the declaration is well formed. */
  lemma StubLayout(m: JsMacro)
    requires WellFormed(m)
    ensures Lines(ToRustMacro(m)) == StubLines(m)
  {
    StubLinesOneLine(m);
    LinesOfJoin(StubLines(m));
  }

  lemma StubLinesOneLine(m: JsMacro)
    requires WellFormed(m)
    ensures forall k :: 0 <= k < |StubLines(m)| ==> OneLine(StubLines(m)[k])
  {
    var ls := StubLines(m);
    FixedLinesOneLine();
    RegistrationOneLine(m);
    OneLineConcat(Indent, Registration(m));
    PubFnLineOneLine(m);
    CallLineOneLine(m);
  }

  lemma FixedLinesOneLine()
    ensures OneLine("#[proc_macro_error]")
    ensures OneLine(Indent + "#[allow(non_snake_case)] #[doc(hidden)]")
    ensures OneLine(Indent + "}")
    ensures OneLine(Indent)
  {
    assert OneLine("#[allow(non_snake_case)] #[doc(hidden)]");
    OneLineConcat(Indent, "#[allow(non_snake_case)] #[doc(hidden)]");
    OneLineConcat(Indent, "}");
  }

  lemma PubFnLineOneLine(m: JsMacro)
    requires OneLine(m.name)
    ensures OneLine(Indent + "pub fn " + m.name + Signature(m.macroType))
  {
    OneLineConcat(Indent, "pub fn ");
    OneLineConcat(Indent + "pub fn ", m.name);
    SignatureOneLine(m.macroType);
    OneLineConcat(Indent + "pub fn " + m.name, Signature(m.macroType));
  }

  lemma CallLineOneLine(m: JsMacro)
    ensures OneLine(Indent + "    run_node_macro(input, " + BridgeArgument(m.macroType) + ", " + QuotePath(m.path) + ").unwrap()")
  {
    var head := Indent + "    run_node_macro(input, ";
    OneLineConcat(Indent, "    run_node_macro(input, ");
    assert OneLine(BridgeArgument(m.macroType));
    OneLineConcat(head, BridgeArgument(m.macroType));
    OneLineConcat(head + BridgeArgument(m.macroType), ", ");
    QuotePathOneLine(m.path);
    OneLineConcat(head + BridgeArgument(m.macroType) + ", ", QuotePath(m.path));
    OneLineConcat(head + BridgeArgument(m.macroType) + ", " + QuotePath(m.path), ").unwrap()");
  }

  lemma RegistrationOneLine(m: JsMacro)
    requires WellFormed(m)
    ensures OneLine(Registration(m))
  {
    if m.macroType.Derive? {
      var a := m.macroType.attributes;
      OneLineConcat("#[proc_macro_derive(", m.name);
      OneLineConcat("#[proc_macro_derive(" + m.name, ", attributes(");
      OneLineConcat("#[proc_macro_derive(" + m.name + ", attributes(", a);
      OneLineConcat("#[proc_macro_derive(" + m.name + ", attributes(" + a, "))]");
    }
  }

  lemma SignatureOneLine(t: MacroType)
    ensures OneLine(Signature(t))
  {
    assert OneLine("(args: TokenStream, ");
    assert OneLine(InputSignature);
    OneLineConcat("(args: TokenStream, ", InputSignature);
    OneLineConcat("(", InputSignature);
  }

  /** Only the fourth line declares a function: the stub defines exactly one `pub fn`. */
  lemma OnePubFn(m: JsMacro)
    ensures forall k :: 0 <= k < 6 ==> (HasAt(StubLines(m)[k], 16, "pub fn ") <==> k == 3)
  {
    var ls := StubLines(m);
    assert ls[3] == Indent + "pub fn " + m.name + Signature(m.macroType);
    assert ls[3][16..23] == "pub fn ";
    assert |ls[0]| < 23;
    assert ls[1][16] == '#';
    assert ls[2][16] == '#';
    assert ls[4][16] == ' ';
    assert |ls[5]| < 23;
  }

  /** Reads a declaration back from a stub's text: the inverse of `ToRustMacro`. */
  function ReadStub(text: string): Option<JsMacro>
  {
    ReadStubLines(Lines(text))
  }

  function ReadStubLines(ls: seq<string>): Option<JsMacro>
  {
    if |ls| != 6 || ls[0] != "#[proc_macro_error]" || ls[2] != Indent + "#[allow(non_snake_case)] #[doc(hidden)]"
      || ls[5] != Indent + "}"
    then None
    else if ls[1] == Indent + "#[proc_macro]" then ReadStubBody(Function, ls)
    else if ls[1] == Indent + "#[proc_macro_attribute]" then ReadStubBody(Attribute, ls)
    else
      match Between(ls[3], Indent + "pub fn ", Signature(Function))
      case None => None
      case Some(name) =>
        match Between(ls[1], Indent + "#[proc_macro_derive(" + name + ", attributes(", "))]")
        case None => None
        case Some(a) => ReadStubBody(Derive(a), ls)
  }

  /** The name from the fourth line and the path from the fifth, for a known type. */
  function ReadStubBody(t: MacroType, ls: seq<string>): Option<JsMacro>
    requires |ls| == 6
  {
    match Between(ls[3], Indent + "pub fn ", Signature(t))
    case None => None
    case Some(name) =>
      match Between(ls[4], Indent + "    run_node_macro(input, " + BridgeArgument(t) + ", ", ").unwrap()")
      case None => None
      case Some(q) =>
        match Unquote(q)
        case None => None
        case Some(path) => Some(JsMacro(name, path, t))
  }

  lemma ReadStubBodyOf(m: JsMacro)
    ensures ReadStubBody(m.macroType, StubLines(m)) == Some(m)
  {
    BetweenOf(Indent + "pub fn ", m.name, Signature(m.macroType));
    BetweenOf(Indent + "    run_node_macro(input, " + BridgeArgument(m.macroType) + ", ", QuotePath(m.path), ").unwrap()");
    UnquoteQuotePath(m.path);
  }

  /** The template lines every stub shares. */
  lemma StubFrame(m: JsMacro)
    ensures var ls := StubLines(m);
      && |ls| == 6 && ls[0] == "#[proc_macro_error]"
      && ls[2] == Indent + "#[allow(non_snake_case)] #[doc(hidden)]" && ls[5] == Indent + "}"
  {
  }

  lemma ReadDeriveStub(m: JsMacro)
    requires m.macroType.Derive?
    ensures ReadStubLines(StubLines(m)) == Some(m)
  {
    var ls := StubLines(m);
    StubFrame(m);
    DeriveRegistrationLine(m);
    assert Signature(m.macroType) == Signature(Function);
    ReadStubBodyOf(m);
    BetweenOf(Indent + "pub fn ", m.name, Signature(Function));
  }

  /** The registration line of a derive stub is neither of the other two, and its helper
      attributes read back from it. */
  lemma DeriveRegistrationLine(m: JsMacro)
    requires m.macroType.Derive?
    ensures var l := StubLines(m)[1];
      && l != Indent + "#[proc_macro]" && l != Indent + "#[proc_macro_attribute]"
      && Between(l, Indent + "#[proc_macro_derive(" + m.name + ", attributes(", "))]") == Some(m.macroType.attributes)
  {
    var a := m.macroType.attributes;
    var pre := Indent + "#[proc_macro_derive(" + m.name + ", attributes(";
    var l := StubLines(m)[1];
    assert Registration(m) == "#[proc_macro_derive(" + m.name + ", attributes(" + a + "))]";
    Regroup(Indent, "#[proc_macro_derive(", m.name, ", attributes(", a, "))]");
    assert l == pre + a + "))]";
    BetweenOf(pre, a, "))]");
  }

  lemma Regroup(i: string, p: string, n: string, q: string, a: string, r: string)
    ensures i + (p + n + q + a + r) == (i + p + n + q) + a + r
  {
  }

  lemma ReadFunctionStub(m: JsMacro)
    requires m.macroType.Function?
    ensures ReadStubLines(StubLines(m)) == Some(m)
  {
    StubFrame(m);
    ReadStubBodyOf(m);
  }

  lemma ReadAttributeStub(m: JsMacro)
    requires m.macroType.Attribute?
    ensures ReadStubLines(StubLines(m)) == Some(m)
  {
    StubFrame(m);
    assert |StubLines(m)[1]| == 39;
    ReadStubBodyOf(m);
  }

  /** The stub determines the declaration: its name, its kind, its helper attributes and
      the path it passes to the bridge can all be read back from it. */
  lemma ReadToRustMacro(m: JsMacro)
    requires WellFormed(m)
    ensures ReadStub(ToRustMacro(m)) == Some(m)
  {
    StubLayout(m);
    match m.macroType
    case Derive(_) => ReadDeriveStub(m);
    case Function => ReadFunctionStub(m);
    case Attribute => ReadAttributeStub(m);
  }

  /** Two well-formed declarations with the same stub are the same declaration. */
  lemma ToRustMacroInjective(m1: JsMacro, m2: JsMacro)
    requires WellFormed(m1) && WellFormed(m2) && ToRustMacro(m1) == ToRustMacro(m2)
    ensures m1 == m2
  {
    ReadToRustMacro(m1);
    ReadToRustMacro(m2);
  }

  // ---------------------------------------------------------------------------------------
  // The example scripts of the repository

  /** What follows the marker line in each example script: an empty line, then the
      declarations of the bridge's globals. */
  lemma DeclarationsFollow(rest: string)
    ensures LineBreakOrEnd("\n\ndeclare" + rest) && !ClauseAhead("\n\ndeclare" + rest)
  {
    var u := "\n\ndeclare" + rest;
    assert u[..2] == "\n\n";
    NoClauseAhead(u, 2);
  }

  lemma CustomScriptIsTypeScript()
    ensures IsTypeScript("custom_derive.ts")
    ensures IsTypeScript("custom_attribute.ts")
    ensures IsTypeScript("custom_function.ts")
  {
    IsTypeScriptIff("custom_derive.ts");
    IsTypeScriptIff("custom_attribute.ts");
    IsTypeScriptIff("custom_function.ts");
  }

  /** js-macros/custom_derive.ts declares the derive macro `SayHello` with the helper
      attribute `hello_message`, run from its compiled script. */
  lemma CustomDeriveFile(path: string, rest: string, outDir: string, out: string)
    requires LastComponent(path) == "custom_derive.ts"
    ensures TryFromFile(path, "//! JS_MACRO: derive(SayHello) attributes(hello_message)" + ("\n\ndeclare" + rest),
        outDir, Exited(true, out))
      == Ok(Some(JsMacro("SayHello", CompiledScriptPath(outDir, "custom_derive.ts"), Derive("hello_message"))))
  {
    DeclarationsFollow(rest);
    ScanCustomDerive("\n\ndeclare" + rest);
    CustomScriptIsTypeScript();
  }

  /** js-macros/custom_attribute.ts declares the attribute macro `say_hello`. */
  lemma CustomAttributeFile(path: string, rest: string, outDir: string, out: string)
    requires LastComponent(path) == "custom_attribute.ts"
    ensures TryFromFile(path, "//! JS_MACRO: attribute(say_hello)" + ("\n\ndeclare" + rest), outDir, Exited(true, out))
      == Ok(Some(JsMacro("say_hello", CompiledScriptPath(outDir, "custom_attribute.ts"), Attribute)))
  {
    DeclarationsFollow(rest);
    ScanCustomAttribute("\n\ndeclare" + rest);
    CustomScriptIsTypeScript();
  }

  /** js-macros/custom_function.ts declares the function-like macro `hello_world`. */
  lemma CustomFunctionFile(path: string, rest: string, outDir: string, out: string)
    requires LastComponent(path) == "custom_function.ts"
    ensures TryFromFile(path, "//! JS_MACRO: function(hello_world)" + ("\n\ndeclare" + rest), outDir, Exited(true, out))
      == Ok(Some(JsMacro("hello_world", CompiledScriptPath(outDir, "custom_function.ts"), Function)))
  {
    DeclarationsFollow(rest);
    ScanCustomFunction("\n\ndeclare" + rest);
    CustomScriptIsTypeScript();
  }
}
