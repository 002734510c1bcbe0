/**
 * The runtime helper `run_node_macro` that the generated library carries in its header
 * (build.rs:79-119): the script handed to `node -e`, and what the helper makes of the
 * finished process. The process itself is an input: `NodeOutcome`.
 */
module Bridge {
  import opened Wrappers
  import opened Text

  /** What running `node` gave: a spawn error (`notFound` for a missing command), or the
      exit status with stdout (None when it is not valid UTF-8) and stderr. */
  datatype NodeOutcome =
    | NotStarted(notFound: bool, message: string)
    | Finished(success: bool, stdout: Option<string>, stderr: string)

  /** What the helper does: panic, report an error at the call site and expand to nothing,
      or hand back the text to be parsed as tokens. */
  datatype Expansion = Panic(message: string) | CallSiteError(message: string) | Tokens(text: string)

  /** The marker the script prints before the macro's output. */
  const Sentinel: string := "MACRO_OUTPUT: "

  /** The lines of the raw-string template at build.rs:87-93; an absent secondary input is
      passed as the empty string (build.rs:95). */
  function ScriptLines(input: string, args: Option<string>, scriptPath: string): seq<string>
  {
    [ "",
      Indent + "MACRO_INPUT = " + Quote(input) + ";",
      Indent + "MACRO_ARGUMENTS = " + Quote(args.GetOr("")) + ";",
      Indent + "MACRO_OUTPUT = '';",
      Indent + "require(" + Quote(scriptPath) + ");",
      Indent + "console.log('" + Sentinel + "' + MACRO_OUTPUT);",
      "            " ]
  }

  /** The program given to `node -e` (build.rs:86-97). */
  function NodeScript(input: string, args: Option<string>, scriptPath: string): string
  {
    JoinLines(ScriptLines(input, args, scriptPath))
  }

  /** Reads the three values back from the script: the inverse of `NodeScript`. */
  function ReadScript(script: string): Option<(string, string, string)>
  {
    var ls := Lines(script);
    if |ls| != 7 then None
    else
      match (QuotedBetween(ls[1], Indent + "MACRO_INPUT = ", ";"),
             QuotedBetween(ls[2], Indent + "MACRO_ARGUMENTS = ", ";"),
             QuotedBetween(ls[4], Indent + "require(", ");"))
      case (Some(i), Some(a), Some(p)) => Some((i, a, p))
      case _ => None
  }

  function QuotedBetween(line: string, pre: string, suf: string): Option<string>
  {
    match Between(line, pre, suf)
    case None => None
    case Some(q) => Unquote(q)
  }

  lemma QuotedBetweenOf(pre: string, x: string, suf: string)
    ensures QuotedBetween(pre + Quote(x) + suf, pre, suf) == Some(x)
  {
    BetweenOf(pre, Quote(x), suf);
    UnquoteQuote(x);
  }

  /** Four pieces without a line break make one line. */
  lemma OneLine4(a: string, b: string, c: string, d: string)
    requires OneLine(a) && OneLine(b) && OneLine(c) && OneLine(d)
    ensures OneLine(a + b + c + d)
  {
    OneLineConcat(a, b);
    OneLineConcat(a + b, c);
    OneLineConcat(a + b + c, d);
  }

  lemma ScriptLinesOneLine(input: string, args: Option<string>, scriptPath: string)
    ensures forall k :: 0 <= k < 7 ==> OneLine(ScriptLines(input, args, scriptPath)[k])
  {
    assert OneLine(Indent) && OneLine(";") && OneLine(");");
    assert OneLine("MACRO_INPUT = ") && OneLine("MACRO_ARGUMENTS = ") && OneLine("require(");
    assert OneLine("MACRO_OUTPUT = '';");
    assert OneLine("console.log('") && OneLine(Sentinel) && OneLine("' + MACRO_OUTPUT);");
    QuoteOneLine(input);
    QuoteOneLine(args.GetOr(""));
    QuoteOneLine(scriptPath);
    OneLine4(Indent, "MACRO_INPUT = ", Quote(input), ";");
    OneLine4(Indent, "MACRO_ARGUMENTS = ", Quote(args.GetOr("")), ";");
    OneLineConcat(Indent, "MACRO_OUTPUT = '';");
    OneLine4(Indent, "require(", Quote(scriptPath), ");");
    OneLine4(Indent, "console.log('", Sentinel, "' + MACRO_OUTPUT);");
  }

  /** The script hands `node` the macro's input, its secondary input (empty when absent)
      and the path of the macro script, each as a string literal that reads back exactly. */
  lemma ReadNodeScript(input: string, args: Option<string>, scriptPath: string)
    ensures ReadScript(NodeScript(input, args, scriptPath)) == Some((input, args.GetOr(""), scriptPath))
  {
    var ls := ScriptLines(input, args, scriptPath);
    ScriptLinesOneLine(input, args, scriptPath);
    LinesOfJoin(ls);
    QuotedBetweenOf(Indent + "MACRO_INPUT = ", input, ";");
    QuotedBetweenOf(Indent + "MACRO_ARGUMENTS = ", args.GetOr(""), ";");
    QuotedBetweenOf(Indent + "require(", scriptPath, ");");
  }

  /** A missing secondary input and an empty one give the same script. */
  lemma AbsentArgumentsEmpty(input: string, scriptPath: string)
    ensures NodeScript(input, None, scriptPath) == NodeScript(input, Some(""), scriptPath)
  {
  }

  /** build.rs:98-118: a spawn error panics, a failed run reports stderr at the call
      site, and a successful run yields the text after the first sentinel of stdout up to
      the next sentinel, if any, panicking when stdout is not UTF-8 or has no sentinel. */
  function RunNodeMacro(outcome: NodeOutcome): (r: Expansion)
    ensures outcome.Finished? && !outcome.success ==> r.CallSiteError?
    ensures r.Tokens? <==>
      (outcome.Finished? && outcome.success && outcome.stdout.Some? && Contains(outcome.stdout.value, Sentinel))
  {
    match outcome
    case NotStarted(notFound, e) =>
      if notFound then Panic("No `node` command found in PATH") else Panic("IO Error running JS macro: " + e)
    case Finished(ok, out, err) =>
      if !ok then CallSiteError("Error occurred running JS macro:\n" + err + "\n")
      else if out.None? then Panic("JS Macro had unexpected non-utf8 output")
      else
        assert SecondPiece(out.value, Sentinel).Some? <==> Contains(out.value, Sentinel) by {
          ContainsFind(out.value, Sentinel);
        }
        match SecondPiece(out.value, Sentinel)
        case None => Panic("JS Macro unexpectedly missing macro output")
        case Some(t) => Tokens(t)
  }

  lemma ContainsFind(s: string, pat: string)
    ensures Contains(s, pat) <==> Find(s, pat, 0).Some?
  {
    if Find(s, pat, 0).Some? {
      assert HasAt(s, Find(s, pat, 0).value, pat);
    }
  }

  /** No proper suffix of the sentinel starts it again, so it cannot overlap itself. */
  lemma SentinelAlone(logs: string, o: string, k: nat)
    requires !Contains(logs, Sentinel) && k < |logs|
    ensures !HasAt(logs + Sentinel + o, k, Sentinel)
  {
    var s := logs + Sentinel + o;
    assert s == logs + (Sentinel + o);
    if k + |Sentinel| <= |logs| {
      HasAtWithin(logs, Sentinel + o, k, Sentinel);
    } else if HasAt(s, k, Sentinel) {
      var j := |logs| - k;
      assert s[k..k + |Sentinel|][j] == s[|logs|];
      SentinelStartsOnce(j);
    }
  }

  /** The sentinel's first character occurs nowhere else in it. */
  lemma SentinelStartsOnce(j: nat)
    requires 1 <= j < |Sentinel|
    ensures Sentinel[j] != Sentinel[0]
  {
  }

  /** What the script prints before the sentinel cannot disturb the framing: the helper's
      result is what follows it, up to a later sentinel if there is one. */
  lemma FramedOutput(logs: string, o: string, stderr: string)
    requires !Contains(logs, Sentinel)
    ensures RunNodeMacro(Finished(true, Some(logs + Sentinel + o), stderr)) == Tokens(BeforeFirst(o, Sentinel))
  {
    var s := logs + Sentinel + o;
    forall k | 0 <= k < |logs| ensures !HasAt(s, k, Sentinel) { SentinelAlone(logs, o, k); }
    assert HasAt(s, |logs|, Sentinel) by { assert s[|logs|..|logs| + |Sentinel|] == Sentinel; }
    assert Find(s, Sentinel, 0) == Some(|logs|);
    assert s[|logs| + |Sentinel|..] == o;
  }

  /** The round trip of the framing: when the macro's output holds no sentinel, the helper
      gets back exactly the line `console.log` printed after it. */
  lemma OutputRoundTrip(logs: string, output: string, stderr: string)
    requires !Contains(logs, Sentinel) && !Contains(output + "\n", Sentinel)
    ensures RunNodeMacro(Finished(true, Some(logs + Sentinel + (output + "\n")), stderr)) == Tokens(output + "\n")
  {
    FramedOutput(logs, output + "\n", stderr);
    ContainsFind(output + "\n", Sentinel);
  }

  /** A failed run never panics: it is reported, with node's stderr, at the call site. */
  lemma FailedRunReported(stdout: Option<string>, stderr: string)
    ensures RunNodeMacro(Finished(false, stdout, stderr)) == CallSiteError("Error occurred running JS macro:\n" + stderr + "\n")
  {
  }

  /** A missing `node` command panics, naming the command. */
  lemma MissingNodePanics(message: string)
    ensures RunNodeMacro(NotStarted(true, message)) == Panic("No `node` command found in PATH")
  {
  }

  /** Any other spawn error panics with the error's text. */
  lemma SpawnErrorPanics(message: string)
    ensures RunNodeMacro(NotStarted(false, message)) == Panic("IO Error running JS macro: " + message)
  {
  }

  /** A successful run whose stdout is not UTF-8 panics. */
  lemma NonUtf8OutputPanics(stderr: string)
    ensures RunNodeMacro(Finished(true, None, stderr)) == Panic("JS Macro had unexpected non-utf8 output")
  {
  }

  /** A successful run whose stdout lacks the sentinel panics. */
  lemma MissingSentinelPanics(stdout: string, stderr: string)
    requires !Contains(stdout, Sentinel)
    ensures RunNodeMacro(Finished(true, Some(stdout), stderr)) == Panic("JS Macro unexpectedly missing macro output")
  {
    ContainsFind(stdout, Sentinel);
  }
}
