/**
 * String operations of the Rust standard library that build.rs relies on:
 * substring search, `str::replace`, `str::split(..).next()/.nth(1)`, the `{:?}`
 * (Debug) quoting of strings and paths, and a line splitter used to state the
 * layout of generated text.
 */
module Text {
  import opened Wrappers

  /** The sixteen spaces that indent the continuation lines of the source's multi-line
      string templates. */
  const Indent: string := "                "

  /** `pat` occurs in `s` starting at index `i`. */
  predicate HasAt(s: string, i: nat, pat: string)
  {
    i + |pat| <= |s| && s[i..i + |pat|] == pat
  }

  /** An occurrence in the second piece of a concatenation, seen from the whole. */
  lemma HasAtShift(x: string, y: string, i: nat, pat: string)
    ensures HasAt(x + y, |x| + i, pat) <==> HasAt(y, i, pat)
  {
    if i + |pat| <= |y| {
      assert (x + y)[|x| + i..|x| + i + |pat|] == y[i..i + |pat|];
    }
  }

  /** An occurrence in the first piece of a concatenation, seen from the whole. */
  lemma HasAtPrefix(x: string, y: string, i: nat, pat: string)
    requires HasAt(x, i, pat)
    ensures HasAt(x + y, i, pat)
  {
    assert (x + y)[i..i + |pat|] == x[i..i + |pat|];
  }

  /** An occurrence that fits in the first piece of a concatenation is one of that piece. */
  lemma HasAtWithin(x: string, y: string, i: nat, pat: string)
    requires i + |pat| <= |x|
    ensures HasAt(x + y, i, pat) <==> HasAt(x, i, pat)
  {
    assert (x + y)[i..i + |pat|] == x[i..i + |pat|];
  }

  /** Where the four pieces of a concatenation lie in it. */
  lemma PiecesAt(w: string, x: string, y: string, z: string)
    ensures var t := w + (x + (y + z));
      && HasAt(t, 0, w) && HasAt(t, |w|, x) && HasAt(t, |w| + |x|, y) && HasAt(t, |w| + |x| + |y|, z)
      && |t| == |w| + |x| + |y| + |z|
  {
    var t := w + (x + (y + z));
    var u := x + (y + z);
    assert t[..|w|] == w;
    assert t[|w|..] == u;
    assert u[..|x|] == x;
    assert u[|x|..] == y + z;
    assert (y + z)[..|y|] == y;
    assert (y + z)[|y|..] == z;
    assert t[|w|..|w| + |x|] == x by { assert t[|w|..|w| + |x|] == u[..|x|]; }
    assert t[|w| + |x|..] == y + z by { assert t[|w| + |x|..] == u[|x|..]; }
    assert t[|w| + |x|..|w| + |x| + |y|] == y by {
      assert t[|w| + |x|..|w| + |x| + |y|] == (y + z)[..|y|];
    }
    assert t[|w| + |x| + |y|..] == z by { assert t[|w| + |x| + |y|..] == (y + z)[|y|..]; }
  }

  /** An occurrence inside an occurrence. */
  lemma HasAtInside(s: string, p: nat, t: string, i: nat, pat: string)
    requires HasAt(s, p, t) && HasAt(t, i, pat)
    ensures HasAt(s, p + i, pat)
  {
    var u := s[p..p + |t|];
    assert u == t;
    forall k | 0 <= k < |pat|
      ensures s[p + i + k] == pat[k]
    {
      assert u[i + k] == s[p + i + k];
      assert t[i..i + |pat|][k] == t[i + k];
    }
    assert s[p + i..p + i + |pat|] == pat;
  }

  predicate StartsWith(s: string, pat: string)
  {
    HasAt(s, 0, pat)
  }

  predicate Contains(s: string, pat: string)
  {
    exists i: nat | i <= |s| :: HasAt(s, i, pat)
  }

  /** The first index at or after `from` where `pat` occurs (Rust's `str::find` on a suffix). */
  function Find(s: string, pat: string, from: nat): (r: Option<nat>)
    requires from <= |s|
    ensures r.Some? ==> from <= r.value <= |s| && HasAt(s, r.value, pat)
    ensures r.Some? ==> forall k :: from <= k < r.value ==> !HasAt(s, k, pat)
    ensures r.None? ==> forall k :: from <= k ==> !HasAt(s, k, pat)
    decreases |s| - from
  {
    if HasAt(s, from, pat) then Some(from)
    else if from == |s| then None
    else Find(s, pat, from + 1)
  }

  /** `s.split(pat).next()`: the text before the first occurrence of `pat`, or all of `s`. */
  function BeforeFirst(s: string, pat: string): string
  {
    match Find(s, pat, 0)
    case Some(i) => s[..i]
    case None => s
  }

  /** The first piece of `split(pat)`: the text before the first occurrence of `pat`, or
      all of `s` when there is none. */
  lemma BeforeFirstSpec(s: string, pat: string)
    requires |pat| > 0
    ensures var b := BeforeFirst(s, pat);
      && s[..|b|] == b
      && (forall k: nat :: k < |b| ==> !HasAt(s, k, pat))
      && (Contains(s, pat) <==> HasAt(s, |b|, pat))
      && (!Contains(s, pat) ==> b == s)
  {
    var b := BeforeFirst(s, pat);
    var r := Find(s, pat, 0);
    assert |b| <= |s| && s[..|b|] == b;
    forall k: nat | k < |b|
      ensures !HasAt(s, k, pat)
    {
      assert r.Some? ==> k < r.value;
    }
    if Contains(s, pat) {
      var i: nat :| i <= |s| && HasAt(s, i, pat);
      assert r.Some?;
    } else {
      assert r.None?;
    }
  }

  /** The piece is free of `pat`, as the first piece of a split is. */
  lemma BeforeFirstFree(s: string, pat: string)
    requires |pat| > 0
    ensures !Contains(BeforeFirst(s, pat), pat)
  {
    var b := BeforeFirst(s, pat);
    BeforeFirstSpec(s, pat);
    forall k: nat | k <= |b| && HasAt(b, k, pat)
      ensures false
    {
      assert b[k..k + |pat|] == s[k..k + |pat|];
      assert HasAt(s, k, pat);
    }
  }

  /** `s.split(sep).nth(1)` for a non-empty separator: the text between the first and second
      occurrence of `sep` (or up to the end), or None when `sep` does not occur. */
  function SecondPiece(s: string, sep: string): Option<string>
    requires |sep| > 0
  {
    match Find(s, sep, 0)
    case None => None
    case Some(i) =>
      var rest := s[i + |sep|..];
      match Find(rest, sep, 0)
      case Some(j) => Some(rest[..j])
      case None => Some(rest)
  }

  /** `s.replace(from, to)`: every non-overlapping occurrence, scanning left to right. */
  function ReplaceAll(s: string, from: string, to: string): string
    requires |from| > 0
    decreases |s|
  {
    if |s| < |from| then s
    else if s[..|from|] == from then to + ReplaceAll(s[|from|..], from, to)
    else [s[0]] + ReplaceAll(s[1..], from, to)
  }

  /** Without an occurrence of `from` the replacement leaves the text alone. */
  lemma {:induction false} ReplaceAllAbsent(s: string, from: string, to: string)
    requires |from| > 0 && !Contains(s, from)
    ensures ReplaceAll(s, from, to) == s
    decreases |s|
  {
    if |s| >= |from| {
      assert !HasAt(s, 0, from);
      if Contains(s[1..], from) {
        var i: nat :| i <= |s[1..]| && HasAt(s[1..], i, from);
        assert i + 1 + |from| <= |s|;
        assert s[1..][i..i + |from|] == s[i + 1..i + 1 + |from|];
        assert HasAt(s, i + 1, from);
      }
      ReplaceAllAbsent(s[1..], from, to);
      assert [s[0]] + s[1..] == s;
    }
  }

  /** What `s.replace(".ts", ".js")` holds at index `k`: the 't' of every ".ts" becomes 'j'. */
  function TsToJsAt(s: string, k: nat): char
    requires k < |s|
  {
    if 0 < k && HasAt(s, k - 1, ".ts") then 'j' else s[k]
  }

  lemma TsToJsAtShift(s: string, n: nat, k: nat)
    requires 1 <= n <= 3 && n < k < |s|
    ensures TsToJsAt(s, k) == TsToJsAt(s[n..], k - n)
  {
    assert HasAt(s, k - 1, ".ts") <==> HasAt(s[n..], k - 1 - n, ".ts") by {
      if k + 2 <= |s| { assert s[k - 1..k + 2] == s[n..][k - 1 - n..k + 2 - n]; }
    }
  }

  /** Replacing ".ts" by ".js" turns exactly the 't' of every ".ts" into 'j' and keeps every
      other character: ".ts" cannot overlap itself, so all its occurrences are replaced. */
  lemma {:induction false} ReplaceTsPointwise(s: string)
    ensures var r := ReplaceAll(s, ".ts", ".js");
      |r| == |s| && forall k :: 0 <= k < |s| ==> r[k] == TsToJsAt(s, k)
    decreases |s|
  {
    if |s| < 3 {
    } else if s[..3] == ".ts" {
      ReplaceTsPointwise(s[3..]);
      ReplaceTsAtHead(s);
    } else {
      ReplaceTsPointwise(s[1..]);
      ReplaceTsPastHead(s);
    }
  }

  /** The step of `ReplaceTsPointwise` for a text starting with ".ts". */
  lemma ReplaceTsAtHead(s: string)
    requires |s| >= 3 && s[..3] == ".ts"
    requires var r := ReplaceAll(s[3..], ".ts", ".js");
      |r| == |s| - 3 && forall k :: 0 <= k < |s| - 3 ==> r[k] == TsToJsAt(s[3..], k)
    ensures var r := ReplaceAll(s, ".ts", ".js");
      |r| == |s| && forall k :: 0 <= k < |s| ==> r[k] == TsToJsAt(s, k)
  {
    var r := ReplaceAll(s, ".ts", ".js");
    var t := s[3..];
    assert HasAt(s, 0, ".ts");
    assert r == ".js" + ReplaceAll(t, ".ts", ".js");
    assert s[0] == '.' && s[1] == 't' && s[2] == 's';
    assert !HasAt(s, 2, ".ts");
    forall k | 0 <= k < |s|
      ensures r[k] == TsToJsAt(s, k)
    {
      if k > 3 { TsToJsAtShift(s, 3, k); }
    }
  }

  /** The step of `ReplaceTsPointwise` for a text not starting with ".ts". */
  lemma ReplaceTsPastHead(s: string)
    requires |s| >= 3 && s[..3] != ".ts"
    requires var r := ReplaceAll(s[1..], ".ts", ".js");
      |r| == |s| - 1 && forall k :: 0 <= k < |s| - 1 ==> r[k] == TsToJsAt(s[1..], k)
    ensures var r := ReplaceAll(s, ".ts", ".js");
      |r| == |s| && forall k :: 0 <= k < |s| ==> r[k] == TsToJsAt(s, k)
  {
    var r := ReplaceAll(s, ".ts", ".js");
    assert !HasAt(s, 0, ".ts");
    assert r == [s[0]] + ReplaceAll(s[1..], ".ts", ".js");
    forall k | 0 <= k < |s|
      ensures r[k] == TsToJsAt(s, k)
    {
      if k > 1 { TsToJsAtShift(s, 1, k); }
    }
  }

  /** Splits `s` at every '\n' (Rust's `s.split('\n')`). */
  function Lines(s: string): (ls: seq<string>)
    ensures |ls| > 0
    decreases |s|
  {
    match Find(s, "\n", 0)
    case None => [s]
    case Some(i) => [s[..i]] + Lines(s[i + 1..])
  }

  predicate OneLine(s: string)
  {
    forall k :: 0 <= k < |s| ==> s[k] != '\n'
  }

  lemma OneLineConcat(a: string, b: string)
    requires OneLine(a) && OneLine(b)
    ensures OneLine(a + b)
  {
    forall k | 0 <= k < |a + b|
      ensures (a + b)[k] != '\n'
    {
      if k >= |a| { assert (a + b)[k] == b[k - |a|]; }
    }
  }

  lemma LinesOfOneLine(s: string)
    requires OneLine(s)
    ensures Lines(s) == [s]
  {
    forall k | 0 <= k <= |s|
      ensures !HasAt(s, k, "\n")
    {
      if k < |s| { assert s[k..k + 1] == [s[k]]; }
    }
  }

  lemma LinesCons(a: string, b: string)
    requires OneLine(a)
    ensures Lines(a + "\n" + b) == [a] + Lines(b)
  {
    var s := a + "\n" + b;
    assert HasAt(s, |a|, "\n") by { assert s[|a|..|a| + 1] == "\n"; }
    forall k | 0 <= k < |a|
      ensures !HasAt(s, k, "\n")
    {
      assert s[k..k + 1] == [a[k]];
    }
    assert Find(s, "\n", 0) == Some(|a|);
    assert s[..|a|] == a;
    assert s[|a| + 1..] == b;
  }

  /** The lines of `ls` joined by '\n'. */
  function JoinLines(ls: seq<string>): string
    requires |ls| > 0
    decreases |ls|
  {
    if |ls| == 1 then ls[0] else ls[0] + "\n" + JoinLines(ls[1..])
  }

  /** Splitting undoes joining when no line holds a '\n'. */
  lemma {:induction false} LinesOfJoin(ls: seq<string>)
    requires |ls| > 0 && forall k :: 0 <= k < |ls| ==> OneLine(ls[k])
    ensures Lines(JoinLines(ls)) == ls
    decreases |ls|
  {
    if |ls| == 1 {
      LinesOfOneLine(ls[0]);
    } else {
      LinesOfJoin(ls[1..]);
      LinesCons(ls[0], JoinLines(ls[1..]));
      assert [ls[0]] + ls[1..] == ls;
    }
  }

  /** The text of `s` strictly between a leading `pre` and a trailing `suf`. */
  function Between(s: string, pre: string, suf: string): (r: Option<string>)
    ensures r.Some? <==> |pre| + |suf| <= |s| && StartsWith(s, pre) && s[|s| - |suf|..] == suf
    ensures r.Some? ==> pre + r.value + suf == s
  {
    if |pre| + |suf| <= |s| && s[..|pre|] == pre && s[|s| - |suf|..] == suf
    then
      assert pre + s[|pre|..|s| - |suf|] + suf == s;
      Some(s[|pre|..|s| - |suf|])
    else None
  }

  lemma BetweenOf(pre: string, x: string, suf: string)
    ensures Between(pre + x + suf, pre, suf) == Some(x)
  {
    var s := pre + x + suf;
    assert s[..|pre|] == pre;
    assert s[|s| - |suf|..] == suf;
    assert s[|pre|..|s| - |suf|] == x;
  }

  /** Rust's `char::escape_debug` restricted to the escapes modelled here. `{:?}` on a string
      leaves a single quote as it is; on a path (`Path`, `PathBuf`) it escapes it too, which
      is what `single` selects. */
  function EscapeChar(c: char, single: bool): string
  {
    if c == '\t' then "\\t"
    else if c == '\r' then "\\r"
    else if c == '\n' then "\\n"
    else if c == '\\' then "\\\\"
    else if c == '"' then "\\\""
    else if c == '\0' then "\\0"
    else if single && c == '\'' then "\\'"
    else [c]
  }

  function Escape(s: string, single: bool): string
    decreases |s|
  {
    if s == [] then [] else EscapeChar(s[0], single) + Escape(s[1..], single)
  }

  /** `format!("{:?}", s)` for a string. */
  function Quote(s: string): string
  {
    "\"" + Escape(s, false) + "\""
  }

  /** `format!("{:?}", p)` for a path. */
  function QuotePath(p: string): string
  {
    "\"" + Escape(p, true) + "\""
  }

  function UnescapeChar(c: char): Option<char>
  {
    if c == 't' then Some('\t')
    else if c == 'r' then Some('\r')
    else if c == 'n' then Some('\n')
    else if c == '\\' then Some('\\')
    else if c == '"' then Some('"')
    else if c == '0' then Some('\0')
    else if c == '\'' then Some('\'')
    else None
  }

  /** Reads back the body of a quoted literal; None on a malformed escape or a bare quote. */
  function Unescape(s: string): Option<string>
    decreases |s|
  {
    if s == [] then Some([])
    else if s[0] == '"' then None
    else if s[0] != '\\' then
      match Unescape(s[1..])
      case Some(t) => Some([s[0]] + t)
      case None => None
    else if |s| < 2 then None
    else
      match (UnescapeChar(s[1]), Unescape(s[2..]))
      case (Some(c), Some(t)) => Some([c] + t)
      case _ => None
  }

  function Unquote(q: string): Option<string>
  {
    if |q| >= 2 && q[0] == '"' && q[|q| - 1] == '"' then Unescape(q[1..|q| - 1]) else None
  }

  /** Reading back one escaped character. */
  lemma UnescapeCons(c: char, single: bool, rest: string, t: string)
    requires Unescape(rest) == Some(t)
    ensures Unescape(EscapeChar(c, single) + rest) == Some([c] + t)
  {
    var e := EscapeChar(c, single);
    if |e| == 2 {
      assert (e + rest)[2..] == rest;
      assert UnescapeChar(e[1]) == Some(c);
    } else {
      assert e == [c];
      assert (e + rest)[1..] == rest;
    }
  }

  lemma {:induction false} UnescapeEscape(s: string, single: bool)
    ensures Unescape(Escape(s, single)) == Some(s)
    decreases |s|
  {
    if s != [] {
      UnescapeEscape(s[1..], single);
      UnescapeCons(s[0], single, Escape(s[1..], single), s[1..]);
      assert [s[0]] + s[1..] == s;
    }
  }

  /** Quoting a string can be undone. */
  lemma UnquoteQuote(s: string)
    ensures Unquote(Quote(s)) == Some(s)
  {
    var q := Quote(s);
    assert q[1..|q| - 1] == Escape(s, false);
    UnescapeEscape(s, false);
  }

  /** Quoting a path can be undone, so two different paths never quote to the same literal. */
  lemma UnquoteQuotePath(p: string)
    ensures Unquote(QuotePath(p)) == Some(p)
  {
    var q := QuotePath(p);
    assert q[1..|q| - 1] == Escape(p, true);
    UnescapeEscape(p, true);
  }

  lemma {:induction false} EscapeWithoutSingleQuote(s: string)
    requires '\'' !in s
    ensures Escape(s, true) == Escape(s, false)
    decreases |s|
  {
    if s != [] {
      assert s[0] != '\'';
      EscapeWithoutSingleQuote(s[1..]);
    }
  }

  /** A path quotes as a string does unless it holds a single quote. */
  lemma QuotePathOfPlain(p: string)
    requires '\'' !in p
    ensures QuotePath(p) == Quote(p)
  {
    EscapeWithoutSingleQuote(p);
  }

  /** A single quote is escaped in a path, and kept as it is in a string. */
  lemma QuotePathSingleQuote()
    ensures QuotePath("'") == "\"\\'\"" && Quote("'") == "\"'\""
  {
    assert Escape("'", true) == EscapeChar('\'', true) + Escape([], true);
    assert Escape("'", false) == EscapeChar('\'', false) + Escape([], false);
  }

  lemma {:induction false} EscapeOneLine(s: string, single: bool)
    ensures OneLine(Escape(s, single))
    decreases |s|
  {
    if s != [] {
      EscapeOneLine(s[1..], single);
      assert Escape(s, single) == EscapeChar(s[0], single) + Escape(s[1..], single);
    }
  }

  lemma QuoteOneLine(s: string)
    ensures OneLine(Quote(s))
  {
    EscapeOneLine(s, false);
  }

  lemma QuotePathOneLine(p: string)
    ensures OneLine(QuotePath(p))
  {
    EscapeOneLine(p, true);
  }
}
