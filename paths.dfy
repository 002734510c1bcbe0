/**
 * The path arithmetic of build.rs on Unix paths: `PathBuf::join`, `Path::extension`,
 * the output location of a compiled TypeScript script, and the directories derived from
 * the build environment.
 */
module Paths {
  import opened Wrappers
  import opened Text

  /** `PathBuf::from(dir).join(name)` on Unix: an absolute `name` replaces `dir`; otherwise a
      '/' is put between them unless `dir` is empty or already ends with one. */
  function Join(dir: string, name: string): string
  {
    if name != [] && name[0] == '/' then name
    else if dir == [] || dir[|dir| - 1] == '/' then dir + name
    else dir + "/" + name
  }

  /** The text after the last '/' (all of `p` when it has none). */
  function LastComponent(p: string): string
    decreases |p|
  {
    if p == [] then []
    else if p[|p| - 1] == '/' then []
    else LastComponent(p[..|p| - 1]) + [p[|p| - 1]]
  }

  lemma {:induction false} LastComponentOfPlain(p: string)
    requires forall k :: 0 <= k < |p| ==> p[k] != '/'
    ensures LastComponent(p) == p
    decreases |p|
  {
    if p != [] {
      LastComponentOfPlain(p[..|p| - 1]);
      assert p[..|p| - 1] + [p[|p| - 1]] == p;
    }
  }

  lemma {:induction false} LastComponentAfterSlash(a: string, b: string)
    requires a != [] && a[|a| - 1] == '/'
    requires forall k :: 0 <= k < |b| ==> b[k] != '/'
    ensures LastComponent(a + b) == b
    decreases |b|
  {
    if b != [] {
      var b' := b[..|b| - 1];
      LastComponentAfterSlash(a, b');
      assert (a + b)[..|a + b| - 1] == a + b';
      assert b' + [b[|b| - 1]] == b;
    }
  }

  /** Joining a single non-empty component onto a directory makes it the path's file name. */
  lemma JoinFileName(dir: string, name: string)
    requires name != [] && forall k :: 0 <= k < |name| ==> name[k] != '/'
    ensures LastComponent(Join(dir, name)) == name
  {
    if dir == [] {
      assert Join(dir, name) == name;
      LastComponentOfPlain(name);
    } else if dir[|dir| - 1] == '/' {
      LastComponentAfterSlash(dir, name);
    } else {
      assert dir + "/" + name == (dir + "/") + name;
      LastComponentAfterSlash(dir + "/", name);
    }
  }

  /** The index of the last occurrence of `c`. */
  function LastIndexOf(s: string, c: char): (r: Option<nat>)
    ensures r.Some? ==> r.value < |s| && s[r.value] == c
    ensures r.Some? ==> forall k :: r.value < k < |s| ==> s[k] != c
    ensures r.None? ==> forall k :: 0 <= k < |s| ==> s[k] != c
    decreases |s|
  {
    if s == [] then None
    else if s[|s| - 1] == c then Some(|s| - 1)
    else LastIndexOf(s[..|s| - 1], c)
  }

  /** `Path::extension` of a path whose file name is `fileName`: the text after the last '.',
      except that a name whose only leading dot starts it (".ts") and ".." have none. */
  function Extension(fileName: string): Option<string>
  {
    if fileName == ".." then None
    else
      match LastIndexOf(fileName, '.')
      case None => None
      case Some(i) => if i == 0 then None else Some(fileName[i + 1..])
  }

  /** build.rs:187: the script is TypeScript when its extension is exactly "ts". */
  predicate IsTypeScript(fileName: string)
  {
    Extension(fileName) == Some("ts")
  }

  lemma IsTypeScriptIff(fileName: string)
    ensures IsTypeScript(fileName) <==> |fileName| > 3 && fileName[|fileName| - 3..] == ".ts"
  {
    var n := |fileName|;
    if n > 3 && fileName[n - 3..] == ".ts" {
      assert fileName[n - 3] == '.' && fileName[n - 2] == 't' && fileName[n - 1] == 's';
      assert LastIndexOf(fileName, '.') == Some(n - 3);
      assert fileName[n - 2..] == "ts";
    }
    if IsTypeScript(fileName) {
      var i := LastIndexOf(fileName, '.').value;
      assert i != 0 && fileName[i + 1..] == "ts";
      assert i == n - 3;
      assert fileName[n - 3..] == [fileName[i]] + fileName[i + 1..];
    }
  }

  /** build.rs:234-238, 272: `tsc` writes `<stem>.js` into OUT_DIR, and the script path
      becomes OUT_DIR joined with the file name with every ".ts" replaced by ".js". */
  function CompiledScriptPath(outDir: string, fileName: string): string
  {
    Join(outDir, ReplaceAll(fileName, ".ts", ".js"))
  }

  /** A TypeScript file name becomes a name ending in ".js". */
  lemma CompiledNameEndsJs(fileName: string)
    requires IsTypeScript(fileName)
    ensures var js := ReplaceAll(fileName, ".ts", ".js");
      |js| == |fileName| && js[|js| - 3..] == ".js"
  {
    var js := ReplaceAll(fileName, ".ts", ".js");
    var n := |fileName|;
    ReplaceTsPointwise(fileName);
    IsTypeScriptIff(fileName);
    assert fileName[n - 3] == '.' && fileName[n - 2] == 't' && fileName[n - 1] == 's';
    assert HasAt(fileName, n - 3, ".ts") by { assert fileName[n - 3..n] == fileName[n - 3..]; }
    assert js[n - 3] == TsToJsAt(fileName, n - 3) == '.';
    assert js[n - 2] == TsToJsAt(fileName, n - 2) == 'j';
    assert js[n - 1] == TsToJsAt(fileName, n - 1) == 's';
    assert js[n - 3..] == [js[n - 3], js[n - 2], js[n - 1]];
  }

  lemma NoTsInImage(f: string, js: string, i: nat)
    requires |js| == |f| && forall k :: 0 <= k < |f| ==> js[k] == TsToJsAt(f, k)
    requires i + 3 <= |f|
    ensures !HasAt(js, i, ".ts")
  {
    if js[i] == '.' && js[i + 1] == 't' {
      assert TsToJsAt(f, i) == '.' && TsToJsAt(f, i + 1) == 't';
      assert f[i] == '.' && f[i + 1] == 't' && !HasAt(f, i, ".ts");
      assert js[i + 2] == TsToJsAt(f, i + 2);
    }
    assert js[i..i + 3] == [js[i], js[i + 1], js[i + 2]];
  }

  /** No ".ts" survives the rewrite (".js" cannot form a new one). */
  lemma CompiledNameHasNoTs(fileName: string)
    ensures !Contains(ReplaceAll(fileName, ".ts", ".js"), ".ts")
  {
    var js := ReplaceAll(fileName, ".ts", ".js");
    ReplaceTsPointwise(fileName);
    forall i: nat | i <= |js|
      ensures !HasAt(js, i, ".ts")
    {
      if i + 3 <= |js| { NoTsInImage(fileName, js, i); }
    }
  }

  /** A name without ".ts" is kept as it is. */
  lemma CompiledNameUnchanged(fileName: string)
    requires !Contains(fileName, ".ts")
    ensures ReplaceAll(fileName, ".ts", ".js") == fileName
  {
    ReplaceAllAbsent(fileName, ".ts", ".js");
  }

  /** build.rs:20-25: the declarations directory is the part of OUT_DIR before the first
      "target" (all of OUT_DIR when it has none; `split(..).next()` never fails), joined with
      "js-macros". */
  function MacrosDir(outDir: string): string
  {
    Join(BeforeFirst(outDir, "target"), "js-macros")
  }

  lemma MacrosDirSpec(outDir: string)
    ensures exists root: string ::
      && MacrosDir(outDir) == Join(root, "js-macros")
      && |root| <= |outDir| && outDir[..|root|] == root
      && (forall k: nat :: k < |root| ==> !HasAt(outDir, k, "target"))
      && (Contains(outDir, "target") <==> HasAt(outDir, |root|, "target"))
      && (!Contains(outDir, "target") ==> root == outDir)
  {
    BeforeFirstSpec(outDir, "target");
    var root := BeforeFirst(outDir, "target");
    assert MacrosDir(outDir) == Join(root, "js-macros");
  }

  /** build.rs:28-29: the registry file. */
  function LibPath(manifestDir: string): string
  {
    Join(manifestDir, "src/lib.rs")
  }

  /** build.rs:26: the line printed for cargo. */
  function RerunDirective(outDir: string): string
  {
    "cargo:rerun-if-changed=" + MacrosDir(outDir)
  }
}
