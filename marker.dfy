/**
 * The declaration marker of a macro script (build.rs:129-155), written out as a parser
 * instead of a regular-expression engine.
 *
 * The pattern is compiled in multi-line mode, so it is anchored at the start of any line
 * and its final anchor holds at the end of the text or just before a '\n'. It reads: the
 * characters `//!`, blanks, `JS_MACRO:`, blanks, the macro kind (a run of word
 * characters), '(', the name (any characters but '\n', as few as possible), ')', blanks,
 * optionally `attributes(` with an attribute list (as few characters as possible) and ')',
 * and finally blanks up to the end of the line. A blank is any white-space character,
 * INCLUDING '\n', so the blanks after `//!`, after `JS_MACRO:` and after the name's ')' may
 * run over line ends. The match reported is the leftmost one and, among those, the first
 * in the pattern's preference order: the shortest name, the clause present rather than
 * absent, the shortest attribute list.
 *
 * `Shape` and `Matches` state the grammar by positions; `Locate` and `Match` compute the
 * reported match at one position; `MatchSound` and `MatchLeftmostFirst` connect the two,
 * and `ScanFirstMatch` lifts them to the search over the whole file.
 */
module Marker {
  import opened Wrappers
  import opened Text

  /** A blank: one of the Unicode White_Space characters. */
  predicate IsSpace(c: char)
  {
    ('\t' <= c <= '\r') || c == ' ' || c == '\U{0085}' || c == '\U{00A0}' || c == '\U{1680}'
    || ('\U{2000}' <= c <= '\U{200A}') || c == '\U{2028}' || c == '\U{2029}'
    || c == '\U{202F}' || c == '\U{205F}' || c == '\U{3000}'
  }

  /** A word character, restricted to ASCII letters, digits and '_'. */
  predicate IsWordChar(c: char)
  {
    ('a' <= c <= 'z') || ('A' <= c <= 'Z') || ('0' <= c <= '9') || c == '_'
  }

  predicate Blank(s: string)
  {
    forall k :: 0 <= k < |s| ==> IsSpace(s[k])
  }

  /** `s` consists of word characters (possibly none). */
  predicate WordChars(s: string)
  {
    forall k :: 0 <= k < |s| ==> IsWordChar(s[k])
  }

  predicate Word(s: string)
  {
    |s| > 0 && WordChars(s)
  }

  /** The final anchor holds after blanks at the start of `s`: blanks, then the end of the
      text or a '\n'. */
  ghost predicate LineEnd(s: string)
  {
    exists n :: 0 <= n <= |s| && Blank(s[..n]) && (n == |s| || s[n] == '\n')
  }

  /** The three capture groups of a match. */
  datatype Captures = Captures(kind: string, name: string, attributes: Option<string>)

  // ---------------------------------------------------------------------------------------
  // The grammar

  /** `s` is laid out as the pattern reads it, with `n1`, `n2` and `n3` blanks after `//!`,
      after `JS_MACRO:` and after the name's ')', and with the captures `c`. */
  ghost predicate Shape(s: string, c: Captures, n1: nat, n2: nat, n3: nat)
  {
    var i1 := 3 + n1;
    var i2 := i1 + 9 + n2;
    var j := i2 + |c.kind|;
    var e := j + 1 + |c.name|;
    var q := e + 1 + n3;
    && q <= |s| && HasAt(s, 0, "//!") && Blank(s[3..i1]) && HasAt(s, i1, "JS_MACRO:")
    && Blank(s[i1 + 9..i2]) && Word(c.kind) && s[i2..j] == c.kind && s[j] == '('
    && OneLine(c.name) && s[j + 1..e] == c.name && s[e] == ')' && Blank(s[e + 1..q])
    && ClauseShape(s, q, c.attributes)
  }

  /** The optional clause at `q` and the end of the line, for the given capture. */
  ghost predicate ClauseShape(s: string, q: nat, attributes: Option<string>)
    requires q <= |s|
  {
    match attributes
    case None => LineEnd(s[q..])
    case Some(a) =>
      var e := q + 11 + |a|;
      && e < |s| && HasAt(s, q, "attributes(") && OneLine(a) && s[q + 11..e] == a && s[e] == ')'
      && LineEnd(s[e + 1..])
  }

  /** The pattern matches at the start of `s` with captures `c`, for some choice of blanks. */
  ghost predicate Matches(s: string, c: Captures)
  {
    exists n1: nat, n2: nat, n3: nat :: Shape(s, c, n1, n2, n3)
  }

  // ---------------------------------------------------------------------------------------
  // The parser

  /** Greedy blanks from `i`. */
  function SkipSpace(s: string, i: nat): (j: nat)
    requires i <= |s|
    ensures i <= j <= |s|
    decreases |s| - i
  {
    if i < |s| && IsSpace(s[i]) then SkipSpace(s, i + 1) else i
  }

  /** The end of the run of word characters starting at `i`. */
  function SkipWord(s: string, i: nat): (j: nat)
    requires i <= |s|
    ensures i <= j <= |s|
    decreases |s| - i
  {
    if i < |s| && IsWordChar(s[i]) then SkipWord(s, i + 1) else i
  }

  /** The end of the line holding position `k`: the first '\n' at or after `k`, or the end
      of the text. */
  function EndOfLine(s: string, k: nat): (r: nat)
    requires k <= |s|
    ensures k <= r <= |s|
    decreases |s| - k
  {
    if k == |s| || s[k] == '\n' then k else EndOfLine(s, k + 1)
  }

  /** The final anchor after blanks at position `i`: the rest of the line is blank. */
  function BlankToEol(s: string, i: nat): bool
    requires i <= |s|
    decreases |s| - i
  {
    i == |s| || s[i] == '\n' || (IsSpace(s[i]) && BlankToEol(s, i + 1))
  }

  /** A ')' at `e` that can close the attribute list: the rest of its line is blank. */
  predicate ClosesAttributes(s: string, e: nat)
  {
    e < |s| && s[e] == ')' && BlankToEol(s, e + 1)
  }

  /** The lazy attribute list from `k`: the first ')' on the line that can close it. */
  function AttrClose(s: string, k: nat): (r: Option<nat>)
    requires k <= |s|
    ensures r.Some? ==> k <= r.value < |s|
    decreases |s| - k
  {
    if k == |s| || s[k] == '\n' then None
    else if ClosesAttributes(s, k) then Some(k)
    else AttrClose(s, k + 1)
  }

  /** How the text after the name's ')' completes the match: without the clause, or with
      an attribute list `s[start..end]`. */
  datatype Tail = Plain | WithClause(start: nat, end: nat)

  /** Blanks, the optional clause and the final anchor, from `q`; the clause is tried
      first, and only after the longest run of blanks (no shorter run can be followed by
      `attributes(`). */
  function TailAt(s: string, q: nat): (r: Option<Tail>)
    requires q <= |s|
    ensures r.Some? && r.value.WithClause? ==> q + 11 <= r.value.start <= r.value.end < |s|
  {
    var w := SkipSpace(s, q);
    if HasAt(s, w, "attributes(") && AttrClose(s, w + 11).Some? then
      Some(WithClause(w + 11, AttrClose(s, w + 11).value))
    else if BlankToEol(s, q) then Some(Plain)
    else None
  }

  /** A ')' at `e` that can close the name: the rest of the pattern matches after it. */
  predicate ClosesName(s: string, e: nat)
  {
    e < |s| && s[e] == ')' && TailAt(s, e + 1).Some?
  }

  /** The lazy name from `k`: the first ')' on the line after which the rest matches. */
  function NameClose(s: string, k: nat): (r: Option<(nat, Tail)>)
    requires k <= |s|
    ensures r.Some? ==> k <= r.value.0 < |s|
    ensures r.Some? && r.value.1.WithClause? ==>
      r.value.0 + 12 <= r.value.1.start <= r.value.1.end < |s|
    decreases |s| - k
  {
    if k == |s| || s[k] == '\n' then None
    else if ClosesName(s, k) then Some((k, TailAt(s, k + 1).value))
    else NameClose(s, k + 1)
  }

  /** Where the captures lie: the kind is `s[kindStart..kindEnd]`, the name runs from
      `kindEnd + 1` to `nameEnd`, and the tail says where the attribute list is. */
  datatype Spans = Spans(kindStart: nat, kindEnd: nat, nameEnd: nat, tail: Tail)

  /** The pattern's match anchored at the start of `s`, as positions. */
  function Locate(s: string): (r: Option<Spans>)
    ensures r.Some? ==> r.value.kindStart < r.value.kindEnd < r.value.nameEnd < |s|
    ensures r.Some? && r.value.tail.WithClause? ==>
      r.value.nameEnd < r.value.tail.start <= r.value.tail.end < |s|
  {
    if !StartsWith(s, "//!") then None
    else
      var i1 := SkipSpace(s, 3);
      if !HasAt(s, i1, "JS_MACRO:") then None
      else
        var i2 := SkipSpace(s, i1 + 9);
        var j := SkipWord(s, i2);
        if j == i2 || j == |s| || s[j] != '(' then None
        else
          var r := NameClose(s, j + 1);
          if r.None? then None else Some(Spans(i2, j, r.value.0, r.value.1))
  }

  /** The captured texts at the given positions. */
  function Extract(s: string, sp: Spans): Captures
    requires sp.kindStart < sp.kindEnd < sp.nameEnd < |s|
    requires sp.tail.WithClause? ==> sp.nameEnd < sp.tail.start <= sp.tail.end < |s|
  {
    Captures(s[sp.kindStart..sp.kindEnd], s[sp.kindEnd + 1..sp.nameEnd],
      if sp.tail.WithClause? then Some(s[sp.tail.start..sp.tail.end]) else None)
  }

  /** The pattern's match anchored at the start of `s`, with its captures. */
  function Match(s: string): Option<Captures>
  {
    match Locate(s)
    case None => None
    case Some(sp) => Some(Extract(s, sp))
  }

  /** The start of the text or just after a '\n'. */
  predicate LineStart(t: string, p: nat)
    requires p <= |t|
  {
    p == 0 || t[p - 1] == '\n'
  }

  /** The leftmost line start at or after `p` where the pattern matches. */
  function FirstMarker(t: string, p: nat): (r: Option<nat>)
    requires p <= |t|
    ensures r.Some? ==> p <= r.value <= |t|
    decreases |t| - p
  {
    if LineStart(t, p) && Match(t[p..]).Some? then Some(p)
    else if p == |t| then None
    else FirstMarker(t, p + 1)
  }

  /** `regex.captures(contents)` (build.rs:158): the captures of the first match, if any. */
  function Scan(t: string): Option<Captures>
  {
    match FirstMarker(t, 0)
    case None => None
    case Some(p) => Match(t[p..])
  }

  // ---------------------------------------------------------------------------------------
  // What each step of the parser computes

  lemma {:induction false} SkipSpaceSpec(s: string, i: nat)
    requires i <= |s|
    ensures var j := SkipSpace(s, i); Blank(s[i..j]) && (j == |s| || !IsSpace(s[j]))
    decreases |s| - i
  {
    if i < |s| && IsSpace(s[i]) {
      SkipSpaceSpec(s, i + 1);
      var j := SkipSpace(s, i + 1);
      assert s[i..j] == [s[i]] + s[i + 1..j];
    }
  }

  lemma {:induction false} SkipWordSpec(s: string, i: nat)
    requires i <= |s|
    ensures var j := SkipWord(s, i); WordChars(s[i..j]) && (j == |s| || !IsWordChar(s[j]))
    decreases |s| - i
  {
    if i < |s| && IsWordChar(s[i]) {
      SkipWordSpec(s, i + 1);
      var j := SkipWord(s, i + 1);
      assert s[i..j] == [s[i]] + s[i + 1..j];
    }
  }

  /** Blanks are skipped exactly up to the first non-blank. */
  lemma SkipSpaceTo(s: string, i: nat, n: nat)
    requires i <= n <= |s| && Blank(s[i..n]) && (n == |s| || !IsSpace(s[n]))
    ensures SkipSpace(s, i) == n
  {
    SkipSpaceSpec(s, i);
    var j := SkipSpace(s, i);
    assert forall k :: i <= k < n ==> IsSpace(s[k]) by {
      assert forall k :: i <= k < n ==> s[k] == s[i..n][k - i];
    }
    assert forall k :: i <= k < j ==> IsSpace(s[k]) by {
      assert forall k :: i <= k < j ==> s[k] == s[i..j][k - i];
    }
  }

  /** Word characters are skipped exactly up to the first other character. */
  lemma SkipWordTo(s: string, i: nat, n: nat)
    requires i <= n <= |s| && WordChars(s[i..n]) && (n == |s| || !IsWordChar(s[n]))
    ensures SkipWord(s, i) == n
  {
    SkipWordSpec(s, i);
    var j := SkipWord(s, i);
    assert forall k :: i <= k < n ==> IsWordChar(s[k]) by {
      assert forall k :: i <= k < n ==> s[k] == s[i..n][k - i];
    }
    assert forall k :: i <= k < j ==> IsWordChar(s[k]) by {
      assert forall k :: i <= k < j ==> s[k] == s[i..j][k - i];
    }
  }

  /** Skipping blanks in a suffix skips the same blanks in the whole text. */
  lemma SkipSpaceShift(s: string, i: nat)
    requires i <= |s|
    ensures SkipSpace(s, i) == i + SkipSpace(s[i..], 0)
  {
    var u := s[i..];
    var m := SkipSpace(u, 0);
    SkipSpaceSpec(u, 0);
    assert s[i..i + m] == u[0..m];
    if i + m < |s| { assert s[i + m] == u[m]; }
    SkipSpaceTo(s, i, i + m);
  }

  lemma {:induction false} EndOfLineSpec(s: string, k: nat)
    requires k <= |s|
    ensures var r := EndOfLine(s, k); OneLine(s[k..r]) && (r == |s| || s[r] == '\n')
    decreases |s| - k
  {
    if k < |s| && s[k] != '\n' {
      EndOfLineSpec(s, k + 1);
      var r := EndOfLine(s, k + 1);
      assert s[k..r] == [s[k]] + s[k + 1..r];
    }
  }

  /** A range lies within one line exactly when it ends no later than the line does. */
  lemma WithinLine(s: string, k: nat, e: nat)
    requires k <= e <= |s|
    ensures OneLine(s[k..e]) <==> e <= EndOfLine(s, k)
    ensures OneLine(s[k..e]) && e < |s| && s[e] != '\n' ==> e < EndOfLine(s, k)
  {
    EndOfLineSpec(s, k);
    var r := EndOfLine(s, k);
    if OneLine(s[k..e]) {
      assert forall i :: k <= i < e ==> s[i] == s[k..e][i - k];
    }
    if e <= r {
      assert forall i :: 0 <= i < e - k ==> s[k..e][i] == s[k..r][i];
    }
  }

  /** The attribute list closes at the first ')' of the line whose rest is blank. */
  lemma {:induction false} AttrCloseSpec(s: string, k: nat)
    requires k <= |s|
    ensures var r := AttrClose(s, k);
      && (r.Some? ==> r.value < EndOfLine(s, k) && ClosesAttributes(s, r.value))
      && (r.Some? ==> forall e :: k <= e < r.value ==> !ClosesAttributes(s, e))
      && (r.None? ==> forall e :: k <= e < EndOfLine(s, k) ==> !ClosesAttributes(s, e))
    decreases |s| - k
  {
    if k == |s| || s[k] == '\n' {
    } else if ClosesAttributes(s, k) {
      assert AttrClose(s, k) == Some(k);
    } else {
      AttrCloseSpec(s, k + 1);
      assert AttrClose(s, k) == AttrClose(s, k + 1);
      assert EndOfLine(s, k) == EndOfLine(s, k + 1);
    }
  }

  /** The name closes at the first ')' of the line after which the rest of the pattern
      matches, and the tail reported is the one found there. */
  lemma {:induction false} NameCloseSpec(s: string, k: nat)
    requires k <= |s|
    ensures var r := NameClose(s, k);
      && (r.Some? ==> r.value.0 < EndOfLine(s, k) && ClosesName(s, r.value.0))
      && (r.Some? ==> TailAt(s, r.value.0 + 1) == Some(r.value.1))
      && (r.Some? ==> forall e :: k <= e < r.value.0 ==> !ClosesName(s, e))
      && (r.None? ==> forall e :: k <= e < EndOfLine(s, k) ==> !ClosesName(s, e))
    decreases |s| - k
  {
    if k == |s| || s[k] == '\n' {
    } else if ClosesName(s, k) {
      assert NameClose(s, k) == Some((k, TailAt(s, k + 1).value));
    } else {
      NameCloseSpec(s, k + 1);
      NameCloseNext(s, k);
    }
  }

  /** Past a character of the line that does not close the name, the search goes on. */
  lemma NameCloseNext(s: string, k: nat)
    requires k < |s| && s[k] != '\n' && !ClosesName(s, k)
    ensures NameClose(s, k) == NameClose(s, k + 1) && EndOfLine(s, k) == EndOfLine(s, k + 1)
  {
  }

  lemma {:induction false} BlankToEolIff(s: string, i: nat)
    requires i <= |s|
    ensures BlankToEol(s, i) <==> LineEnd(s[i..])
    decreases |s| - i
  {
    if i == |s| || s[i] == '\n' {
      assert Blank(s[i..][..0]);
    } else {
      BlankToEolIff(s, i + 1);
      assert s[i..] == [s[i]] + s[i + 1..];
      LineEndCons(s[i], s[i + 1..]);
    }
  }

  /** A line end behind a character other than '\n' is one behind a blank. */
  lemma LineEndCons(c: char, u: string)
    requires c != '\n'
    ensures LineEnd([c] + u) <==> IsSpace(c) && LineEnd(u)
  {
    var v := [c] + u;
    if IsSpace(c) && LineEnd(u) {
      var n :| 0 <= n <= |u| && Blank(u[..n]) && (n == |u| || u[n] == '\n');
      assert v[..n + 1] == [c] + u[..n];
      assert Blank(v[..n + 1]);
      assert n + 1 == |v| || v[n + 1] == '\n';
    }
    if LineEnd(v) {
      var n :| 0 <= n <= |v| && Blank(v[..n]) && (n == |v| || v[n] == '\n');
      assert n > 0;
      assert IsSpace(v[..n][0]);
      assert u[..n - 1] == v[1..n];
      assert Blank(u[..n - 1]);
      assert n - 1 == |u| || u[n - 1] == '\n';
    }
  }

  /** Blanks in front of a line end are part of it. */
  lemma LineEndFrom(s: string, p: nat, q: nat)
    requires p <= q <= |s| && Blank(s[p..q]) && LineEnd(s[q..])
    ensures LineEnd(s[p..])
  {
    var x := s[q..];
    var n :| 0 <= n <= |x| && Blank(x[..n]) && (n == |x| || x[n] == '\n');
    assert s[p..][..q - p + n] == s[p..q] + x[..n];
    assert Blank(s[p..][..q - p + n]);
    assert q - p + n == |s[p..]| || s[p..][q - p + n] == '\n';
  }

  /** The leftmost line start where the pattern matches. */
  lemma {:induction false} FirstMarkerSpec(t: string, p: nat)
    requires p <= |t|
    ensures var r := FirstMarker(t, p);
      && (r.Some? ==> LineStart(t, r.value) && Match(t[r.value..]).Some?)
      && (r.Some? ==> forall q :: p <= q < r.value && LineStart(t, q) ==> Match(t[q..]).None?)
      && (r.None? ==> forall q :: p <= q <= |t| && LineStart(t, q) ==> Match(t[q..]).None?)
    decreases |t| - p
  {
    if LineStart(t, p) && Match(t[p..]).Some? {
      assert FirstMarker(t, p) == Some(p);
    } else if p < |t| {
      FirstMarkerSpec(t, p + 1);
      FirstMarkerNext(t, p);
      var r := FirstMarker(t, p);
      forall q | p <= q <= |t| && (r.Some? ==> q < r.value) && LineStart(t, q)
        ensures Match(t[q..]).None?
      {
        if q == p {
          assert !Match(t[p..]).Some?;
        }
      }
    }
  }

  /** Past a position where no marker line starts, the search goes on. */
  lemma FirstMarkerNext(t: string, p: nat)
    requires p < |t| && !(LineStart(t, p) && Match(t[p..]).Some?)
    ensures FirstMarker(t, p) == FirstMarker(t, p + 1)
  {
  }

  // ---------------------------------------------------------------------------------------
  // The parser against the grammar

  /** The parser's first steps, by position: blanks, `JS_MACRO:`, blanks, a word, '('. */
  lemma HeadAt(s: string, i1: nat, i2: nat, j: nat)
    requires 3 <= i1 && i1 + 9 <= i2 < j < |s|
    requires Blank(s[3..i1]) && HasAt(s, i1, "JS_MACRO:") && Blank(s[i1 + 9..i2])
    requires Word(s[i2..j]) && s[j] == '('
    ensures SkipSpace(s, 3) == i1 && SkipSpace(s, i1 + 9) == i2 && SkipWord(s, i2) == j
  {
    assert s[i1] == s[i1..i1 + 9][0];
    SkipSpaceTo(s, 3, i1);
    assert s[i2] == s[i2..j][0];
    SkipSpaceTo(s, i1 + 9, i2);
    SkipWordTo(s, i2, j);
  }

  /** The head of a text of the grammar's shape is read the same way by the parser. */
  lemma AnatomyHead(s: string, c: Captures, n1: nat, n2: nat, n3: nat)
    requires Shape(s, c, n1, n2, n3)
    ensures var i1 := 3 + n1;
      var i2 := i1 + 9 + n2;
      var j := i2 + |c.kind|;
      SkipSpace(s, 3) == i1 && SkipSpace(s, i1 + 9) == i2 && SkipWord(s, i2) == j
  {
    var i1 := 3 + n1;
    var i2 := i1 + 9 + n2;
    HeadAt(s, i1, i2, i2 + |c.kind|);
  }

  /** A clause found by position: blanks from `q` to `w`, `attributes(` at `w`, and a ')' at
      `e` on the same line with a blank rest of line. The parser takes a clause starting at
      `w + 11` and ending at `e` or at an earlier ')'. */
  lemma ClauseAt(s: string, q: nat, w: nat, e: nat)
    requires q <= w && w + 11 <= e < |s|
    requires Blank(s[q..w]) && HasAt(s, w, "attributes(") && OneLine(s[w + 11..e])
    requires s[e] == ')' && LineEnd(s[e + 1..])
    ensures TailAt(s, q).Some? && TailAt(s, q).value.WithClause?
    ensures TailAt(s, q).value.start == w + 11 && TailAt(s, q).value.end <= e
  {
    BlankToEolIff(s, e + 1);
    WithinLine(s, w + 11, e);
    AttrCloseSpec(s, w + 11);
    assert s[w] == s[w..w + 11][0];
    SkipSpaceTo(s, q, w);
    assert ClosesAttributes(s, e);
  }

  /** After the name's ')' of a text of the grammar's shape the rest of the pattern
      matches; with a clause, the parser takes a clause of its own that starts at the same
      place and ends at the same ')' or an earlier one. */
  lemma AnatomyTail(s: string, e: nat, n3: nat, attributes: Option<string>)
    requires e + 1 + n3 <= |s| && s[e] == ')' && Blank(s[e + 1..e + 1 + n3])
    requires ClauseShape(s, e + 1 + n3, attributes)
    ensures ClosesName(s, e)
    ensures var start := e + 1 + n3 + 11;
      attributes.Some? ==>
        && TailAt(s, e + 1).Some? && TailAt(s, e + 1).value.WithClause?
        && TailAt(s, e + 1).value.start == start
        && TailAt(s, e + 1).value.end <= start + |attributes.value|
  {
    var q := e + 1 + n3;
    match attributes {
      case None =>
        LineEndFrom(s, e + 1, q);
        BlankToEolIff(s, e + 1);
      case Some(a) =>
        ClauseAt(s, e + 1, q, q + 11 + |a|);
    }
  }

  /** The name ends at the first ')' on the line that can close it. */
  lemma NameCloseBy(s: string, k: nat, e: nat)
    requires k <= e < |s| && OneLine(s[k..e]) && ClosesName(s, e)
    ensures NameClose(s, k).Some? && NameClose(s, k).value.0 <= e
  {
    WithinLine(s, k, e);
    NameCloseSpec(s, k);
  }

  /** What the parser makes of the part after the name's '(' at `k - 1`, when the
      grammar admits a name ending at `e` followed by `n3` blanks and the given clause: it
      ends the name at `e` or at an earlier ')', and when it ends it at `e` and a clause is
      admissible it takes a clause at the same place ending at the same ')' or earlier. */
  lemma TailSteps(s: string, k: nat, e: nat, n3: nat, attributes: Option<string>)
    requires k <= e && e + 1 + n3 <= |s| && OneLine(s[k..e]) && s[e] == ')'
    requires Blank(s[e + 1..e + 1 + n3]) && ClauseShape(s, e + 1 + n3, attributes)
    ensures NameClose(s, k).Some?
    ensures var r := NameClose(s, k).value;
      && r.0 <= e && (r.0 < e ==> s[r.0] == ')')
      && (r.0 == e && attributes.Some? ==>
            var start := e + 1 + n3 + 11;
            && r.1.WithClause? && r.1.start == start && r.1.end <= start + |attributes.value|
            && (r.1.end < start + |attributes.value| ==> s[r.1.end] == ')'))
  {
    AnatomyTail(s, e, n3, attributes);
    NameCloseBy(s, k, e);
    NameCloseFound(s, k);
    if NameClose(s, k).value.0 == e && attributes.Some? {
      ClauseSteps(s, k, e, n3, attributes.value);
    }
  }

  /** `TailSteps` when the name ends at `e` and a clause is admissible there. */
  lemma ClauseSteps(s: string, k: nat, e: nat, n3: nat, a: string)
    requires k <= e && e + 1 + n3 <= |s|
    requires NameClose(s, k).Some? && NameClose(s, k).value.0 == e
    requires TailAt(s, e + 1) == Some(NameClose(s, k).value.1)
    requires var start := e + 1 + n3 + 11;
      && TailAt(s, e + 1).Some? && TailAt(s, e + 1).value.WithClause?
      && TailAt(s, e + 1).value.start == start
      && TailAt(s, e + 1).value.end <= start + |a|
    ensures var r := NameClose(s, k).value; var start := e + 1 + n3 + 11;
      && r.1.WithClause? && r.1.start == start && r.1.end <= start + |a|
      && (r.1.end < start + |a| ==> s[r.1.end] == ')')
  {
    var t := TailAt(s, e + 1).value;
    assert AttrClose(s, t.start) == Some(t.end);
    AttrCloseFound(s, t.start);
  }

  /** The ')' the lazy name stops at closes it, with the tail taken after it. */
  lemma {:induction false} NameCloseFound(s: string, k: nat)
    requires k <= |s| && NameClose(s, k).Some?
    ensures s[NameClose(s, k).value.0] == ')'
    ensures TailAt(s, NameClose(s, k).value.0 + 1) == Some(NameClose(s, k).value.1)
    decreases |s| - k
  {
    if !ClosesName(s, k) {
      NameCloseFound(s, k + 1);
    }
  }

  /** The lazy attribute list stops at a ')'. */
  lemma {:induction false} AttrCloseFound(s: string, k: nat)
    requires k <= |s| && AttrClose(s, k).Some?
    ensures s[AttrClose(s, k).value] == ')'
    decreases |s| - k
  {
    if !ClosesAttributes(s, k) {
      AttrCloseFound(s, k + 1);
    }
  }

  /** The parser's result once its steps are known. */
  lemma MatchBy(s: string, i1: nat, i2: nat, j: nat)
    requires HasAt(s, 0, "//!") && SkipSpace(s, 3) == i1 && HasAt(s, i1, "JS_MACRO:")
    requires SkipSpace(s, i1 + 9) == i2 && SkipWord(s, i2) == j && i2 < j < |s| && s[j] == '('
    requires NameClose(s, j + 1).Some?
    ensures var r := NameClose(s, j + 1).value;
      && Locate(s) == Some(Spans(i2, j, r.0, r.1))
      && Match(s) == Some(Extract(s, Spans(i2, j, r.0, r.1)))
  {
  }

  /** Leftmost-first preference of captures `c` over other admissible captures `c'` at
      the same position: the same kind, the shortest name, and for the same name the clause
      whenever one is admissible, with the shortest attribute list. */
  predicate Prefers(c: Captures, c': Captures)
  {
    && c.kind == c'.kind
    && CutAtParen(c.name, c'.name)
    && (c.name == c'.name && c'.attributes.Some? ==>
          c.attributes.Some? && CutAtParen(c.attributes.value, c'.attributes.value))
  }

  /** `x` is `y`, or `y` cut just before one of its ')' characters. */
  predicate CutAtParen(x: string, y: string)
  {
    x == y || (|x| < |y| && y[..|x|] == x && y[|x|] == ')')
  }

  /** Stopping at `e0` instead of `e` cuts `s[a..e]` at a ')'. */
  lemma CutAt(s: string, a: nat, e0: nat, e: nat, y: string)
    requires a <= e0 <= e <= |s| && s[a..e] == y && (e0 < e ==> s[e0] == ')')
    ensures CutAtParen(s[a..e0], y)
  {
    assert s[a..e0] == y[..e0 - a];
    if e0 < e {
      assert y[e0 - a] == s[e0];
    }
  }

  /** The captures at positions where the name closes at `e` or at an earlier ')', and the
      clause, when taken at the same ')', at its end or at an earlier ')'. */
  lemma ExtractCut(s: string, i2: nat, j: nat, n3: nat, c': Captures, r: (nat, Tail))
    requires i2 < j < r.0 < |s| && s[i2..j] == c'.kind
    requires r.1.WithClause? ==> r.0 < r.1.start <= r.1.end < |s|
    requires j + 1 + |c'.name| <= |s| && s[j + 1..j + 1 + |c'.name|] == c'.name
    requires var e := j + 1 + |c'.name|; var start := e + 1 + n3 + 11;
      c'.attributes.Some? ==> (start + |c'.attributes.value| <= |s|
        && s[start..start + |c'.attributes.value|] == c'.attributes.value)
    requires var e := j + 1 + |c'.name|;
      && r.0 <= e && (r.0 < e ==> s[r.0] == ')')
      && (r.0 == e && c'.attributes.Some? ==>
            var start := e + 1 + n3 + 11;
            && r.1.WithClause? && r.1.start == start && r.1.end <= start + |c'.attributes.value|
            && (r.1.end < start + |c'.attributes.value| ==> s[r.1.end] == ')'))
    ensures Prefers(Extract(s, Spans(i2, j, r.0, r.1)), c')
  {
    var e := j + 1 + |c'.name|;
    CutAt(s, j + 1, r.0, e, c'.name);
    var c := Extract(s, Spans(i2, j, r.0, r.1));
    if c.name == c'.name && c'.attributes.Some? {
      assert r.0 == e;
      var start := e + 1 + n3 + 11;
      CutAt(s, start, r.1.end, start + |c'.attributes.value|, c'.attributes.value);
    }
  }

  /** The parser's result against captures the grammar admits, once its steps are known. */
  lemma MatchOfSteps(s: string, i1: nat, i2: nat, j: nat, n3: nat, c': Captures)
    requires HasAt(s, 0, "//!") && SkipSpace(s, 3) == i1 && HasAt(s, i1, "JS_MACRO:")
    requires SkipSpace(s, i1 + 9) == i2 && SkipWord(s, i2) == j && i2 < j < |s| && s[j] == '('
    requires s[i2..j] == c'.kind && j + 1 + |c'.name| <= |s| && s[j + 1..j + 1 + |c'.name|] == c'.name
    requires var e := j + 1 + |c'.name|; var start := e + 1 + n3 + 11;
      c'.attributes.Some? ==> (start + |c'.attributes.value| <= |s|
        && s[start..start + |c'.attributes.value|] == c'.attributes.value)
    requires NameClose(s, j + 1).Some?
    requires var r := NameClose(s, j + 1).value; var e := j + 1 + |c'.name|;
      && r.0 <= e && (r.0 < e ==> s[r.0] == ')')
      && (r.0 == e && c'.attributes.Some? ==>
            var start := e + 1 + n3 + 11;
            && r.1.WithClause? && r.1.start == start && r.1.end <= start + |c'.attributes.value|
            && (r.1.end < start + |c'.attributes.value| ==> s[r.1.end] == ')'))
    ensures Match(s).Some? && Prefers(Match(s).value, c')
  {
    MatchBy(s, i1, i2, j);
    ExtractCut(s, i2, j, n3, c', NameClose(s, j + 1).value);
  }

  /** The grammar's layout by positions: `//!` and blanks up to `i1`, `JS_MACRO:` and blanks
      up to `i2`, the kind up to its '(' at `j`, the name up to its ')', `n3` blanks and the
      clause. */
  ghost predicate Layout(s: string, c': Captures, i1: nat, i2: nat, j: nat, n3: nat)
  {
    && 3 <= i1 && i1 + 9 <= i2 && j == i2 + |c'.kind| && j + 2 + |c'.name| + n3 <= |s|
    && HasAt(s, 0, "//!") && Blank(s[3..i1]) && HasAt(s, i1, "JS_MACRO:")
    && Blank(s[i1 + 9..i2]) && Word(c'.kind) && s[i2..j] == c'.kind && s[j] == '('
    && (var e := j + 1 + |c'.name|;
        && OneLine(c'.name) && s[j + 1..e] == c'.name && s[e] == ')' && Blank(s[e + 1..e + 1 + n3])
        && ClauseShape(s, e + 1 + n3, c'.attributes))
    && (var e := j + 1 + |c'.name|; var start := e + 1 + n3 + 11;
        c'.attributes.Some? ==> (start + |c'.attributes.value| <= |s|
          && s[start..start + |c'.attributes.value|] == c'.attributes.value))
  }

  /** Leftmost-first priority at one position, for a layout given by its positions. */
  lemma MatchOfLayout(s: string, c': Captures, i1: nat, i2: nat, j: nat, n3: nat)
    requires Layout(s, c', i1, i2, j, n3)
    ensures Match(s).Some? && Prefers(Match(s).value, c')
  {
    HeadAt(s, i1, i2, j);
    TailSteps(s, j + 1, j + 1 + |c'.name|, n3, c'.attributes);
    MatchOfSteps(s, i1, i2, j, n3, c');
  }

  /** A layout of the grammar, by positions. */
  lemma LayoutOfShape(s: string, c': Captures, n1: nat, n2: nat, n3: nat)
    requires Shape(s, c', n1, n2, n3)
    ensures var i2 := 3 + n1 + 9 + n2; Layout(s, c', 3 + n1, i2, i2 + |c'.kind|, n3)
  {
  }

  /** Leftmost-first priority at one position: whenever the grammar admits captures `c'`,
      the parser reports a match, and its captures are preferred to `c'`. */
  lemma MatchLeftmostFirst(s: string, c': Captures)
    requires Matches(s, c')
    ensures Match(s).Some? && Prefers(Match(s).value, c')
  {
    var n1: nat, n2: nat, n3: nat :| Shape(s, c', n1, n2, n3);
    MatchOfShape(s, c', n1, n2, n3);
  }

  /** Leftmost-first priority at one position, for one layout of the grammar. */
  lemma MatchOfShape(s: string, c': Captures, n1: nat, n2: nat, n3: nat)
    requires Shape(s, c', n1, n2, n3)
    ensures Match(s).Some? && Prefers(Match(s).value, c')
  {
    var i2 := 3 + n1 + 9 + n2;
    LayoutOfShape(s, c', n1, n2, n3);
    MatchOfLayout(s, c', 3 + n1, i2, i2 + |c'.kind|, n3);
  }

  /** The markers a successful `Locate` found. */
  lemma LocateHead(s: string)
    requires Locate(s).Some?
    ensures HasAt(s, 0, "//!") && HasAt(s, SkipSpace(s, 3), "JS_MACRO:") && SkipSpace(s, 3) + 9 <= |s|
  {
  }

  /** The kind a successful `Locate` found: the word after the blanks, followed by '('. */
  lemma LocateKind(s: string)
    requires Locate(s).Some?
    ensures var sp := Locate(s).value;
      && sp.kindStart == SkipSpace(s, SkipSpace(s, 3) + 9) && sp.kindEnd == SkipWord(s, sp.kindStart)
      && s[sp.kindEnd] == '('
  {
  }

  /** The name and tail a successful `Locate` found: the name ends at a ')' on its line,
      and the tail is the one that follows it. */
  lemma LocateName(s: string)
    requires Locate(s).Some?
    ensures var sp := Locate(s).value;
      && sp.nameEnd < EndOfLine(s, sp.kindEnd + 1) && s[sp.nameEnd] == ')'
      && TailAt(s, sp.nameEnd + 1) == Some(sp.tail)
  {
    NameCloseSpec(s, Locate(s).value.kindEnd + 1);
  }

  lemma MatchOfLocate(s: string)
    requires Locate(s).Some?
    ensures Match(s) == Some(Extract(s, Locate(s).value))
  {
  }

  /** The tail the parser found is one the grammar admits, after `n3` blanks. */
  lemma ClauseOfTail(s: string, sp: Spans) returns (n3: nat)
    requires sp.kindStart < sp.kindEnd < sp.nameEnd < |s|
    requires sp.tail.WithClause? ==> sp.nameEnd < sp.tail.start <= sp.tail.end < |s|
    requires TailAt(s, sp.nameEnd + 1) == Some(sp.tail)
    ensures sp.nameEnd + 1 + n3 <= |s| && Blank(s[sp.nameEnd + 1..sp.nameEnd + 1 + n3])
    ensures ClauseShape(s, sp.nameEnd + 1 + n3, Extract(s, sp).attributes)
  {
    if sp.tail.Plain? {
      n3 := 0;
      PlainTail(s, sp);
    } else {
      n3 := ClauseTail(s, sp);
    }
  }

  /** `ClauseOfTail` when the line ends after the name. */
  lemma PlainTail(s: string, sp: Spans)
    requires sp.kindStart < sp.kindEnd < sp.nameEnd < |s| && sp.tail.Plain?
    requires TailAt(s, sp.nameEnd + 1) == Some(sp.tail)
    ensures Blank(s[sp.nameEnd + 1..sp.nameEnd + 1])
    ensures ClauseShape(s, sp.nameEnd + 1, Extract(s, sp).attributes)
  {
    BlankToEolIff(s, sp.nameEnd + 1);
    assert Blank(s[sp.nameEnd + 1..sp.nameEnd + 1]);
  }

  /** `ClauseOfTail` when the parser took a clause. */
  lemma ClauseTail(s: string, sp: Spans) returns (n3: nat)
    requires sp.kindStart < sp.kindEnd < sp.nameEnd < |s| && sp.tail.WithClause?
    requires sp.nameEnd < sp.tail.start <= sp.tail.end < |s|
    requires TailAt(s, sp.nameEnd + 1) == Some(sp.tail)
    ensures sp.nameEnd + 1 + n3 <= |s| && Blank(s[sp.nameEnd + 1..sp.nameEnd + 1 + n3])
    ensures ClauseShape(s, sp.nameEnd + 1 + n3, Extract(s, sp).attributes)
  {
    var w := SkipSpace(s, sp.nameEnd + 1);
    n3 := w - sp.nameEnd - 1;
    ClauseWith(s, sp.nameEnd + 1, w, sp.tail.end);
  }

  /** A clause the parser took after the blanks from `q` to `w`, closing at `end`. */
  lemma ClauseWith(s: string, q: nat, w: nat, end: nat)
    requires q <= |s| && SkipSpace(s, q) == w && HasAt(s, w, "attributes(")
    requires AttrClose(s, w + 11) == Some(end)
    ensures Blank(s[q..w]) && w + 11 <= end < |s|
    ensures ClauseShape(s, w, Some(s[w + 11..end]))
  {
    SkipSpaceSpec(s, q);
    AttrCloseSpec(s, w + 11);
    BlankToEolIff(s, end + 1);
    WithinLine(s, w + 11, end);
  }

  /** The head the parser found is one the grammar admits. */
  lemma HeadOfSteps(s: string, i1: nat, i2: nat, j: nat, e: nat)
    requires HasAt(s, 0, "//!") && SkipSpace(s, 3) == i1 && HasAt(s, i1, "JS_MACRO:")
    requires i1 + 9 <= |s| && SkipSpace(s, i1 + 9) == i2 && SkipWord(s, i2) == j
    requires i2 < j < e < |s| && e < EndOfLine(s, j + 1)
    ensures Blank(s[3..i1]) && Blank(s[i1 + 9..i2]) && Word(s[i2..j]) && OneLine(s[j + 1..e])
  {
    SkipSpaceSpec(s, 3);
    SkipSpaceSpec(s, i1 + 9);
    SkipWordSpec(s, i2);
    WithinLine(s, j + 1, e);
  }

  /** Positions laid out as the grammar asks. */
  lemma ShapeOfSpans(s: string, i1: nat, sp: Spans, n3: nat)
    requires HasAt(s, 0, "//!") && 3 <= i1 && HasAt(s, i1, "JS_MACRO:") && i1 + 9 <= sp.kindStart
    requires sp.kindStart < sp.kindEnd < sp.nameEnd < |s| && s[sp.kindEnd] == '('
    requires sp.tail.WithClause? ==> sp.nameEnd < sp.tail.start <= sp.tail.end < |s|
    requires Blank(s[3..i1]) && Blank(s[i1 + 9..sp.kindStart]) && Word(s[sp.kindStart..sp.kindEnd])
    requires OneLine(s[sp.kindEnd + 1..sp.nameEnd]) && s[sp.nameEnd] == ')'
    requires sp.nameEnd + 1 + n3 <= |s| && Blank(s[sp.nameEnd + 1..sp.nameEnd + 1 + n3])
    requires ClauseShape(s, sp.nameEnd + 1 + n3, Extract(s, sp).attributes)
    ensures Matches(s, Extract(s, sp))
  {
    assert Shape(s, Extract(s, sp), i1 - 3, sp.kindStart - i1 - 9, n3);
  }

  /** Positions found by the parser's steps lay out a match of the grammar. */
  lemma ShapeOfSteps(s: string, i1: nat, sp: Spans)
    requires HasAt(s, 0, "//!") && SkipSpace(s, 3) == i1 && HasAt(s, i1, "JS_MACRO:") && i1 + 9 <= |s|
    requires sp.kindStart == SkipSpace(s, i1 + 9) && sp.kindEnd == SkipWord(s, sp.kindStart)
    requires sp.kindStart < sp.kindEnd < sp.nameEnd < |s| && s[sp.kindEnd] == '('
    requires sp.tail.WithClause? ==> sp.nameEnd < sp.tail.start <= sp.tail.end < |s|
    requires sp.nameEnd < EndOfLine(s, sp.kindEnd + 1) && s[sp.nameEnd] == ')'
    requires TailAt(s, sp.nameEnd + 1) == Some(sp.tail)
    ensures Matches(s, Extract(s, sp))
  {
    HeadOfSteps(s, i1, sp.kindStart, sp.kindEnd, sp.nameEnd);
    var n3 := ClauseOfTail(s, sp);
    ShapeOfSpans(s, i1, sp, n3);
  }

  /** Whatever the parser reports is a match of the grammar. */
  lemma MatchSound(s: string)
    requires Match(s).Some?
    ensures Matches(s, Match(s).value)
  {
    MatchOfLocate(s);
    LocateSound(s);
  }

  /** The positions `Locate` reports lay out a match of the grammar. */
  lemma LocateSound(s: string)
    requires Locate(s).Some?
    ensures Matches(s, Extract(s, Locate(s).value))
  {
    LocateHead(s);
    LocateKind(s);
    LocateName(s);
    ShapeOfSteps(s, SkipSpace(s, 3), Locate(s).value);
  }

  /** `regex.captures` on a whole file: it reports a match exactly when some line start
      admits one, and then the captures of the parser's match at the FIRST such line. */
  lemma ScanFirstMatch(t: string)
    ensures Scan(t).Some? <==> exists p: nat, c :: p <= |t| && LineStart(t, p) && Matches(t[p..], c)
    ensures Scan(t).Some? ==>
      var p := FirstMarker(t, 0).value;
      && Matches(t[p..], Scan(t).value)
      && forall q: nat, c :: q < p && LineStart(t, q) ==> !Matches(t[q..], c)
  {
    FirstMarkerSpec(t, 0);
    var r := FirstMarker(t, 0);
    if r.Some? {
      var p := r.value;
      MatchSound(t[p..]);
      forall q: nat, c | q < p && LineStart(t, q)
        ensures !Matches(t[q..], c)
      {
        if Matches(t[q..], c) { MatchLeftmostFirst(t[q..], c); }
      }
    } else {
      forall p: nat, c | p <= |t| && LineStart(t, p)
        ensures !Matches(t[p..], c)
      {
        if Matches(t[p..], c) { MatchLeftmostFirst(t[p..], c); }
      }
    }
  }

  // ---------------------------------------------------------------------------------------
  // Rendering a marker

  predicate NoParen(s: string)
  {
    forall k :: 0 <= k < |s| ==> s[k] != ')'
  }

  /** Captures a marker line can carry unchanged: a word kind, and a name and attribute
      list that stay on one line and hold no ')'. */
  predicate Renderable(c: Captures)
  {
    && Word(c.kind) && OneLine(c.name) && NoParen(c.name)
    && (c.attributes.Some? ==> OneLine(c.attributes.value) && NoParen(c.attributes.value))
  }

  function RenderedClause(attributes: Option<string>): string
  {
    match attributes
    case None => ""
    case Some(a) => ClauseText(' ', a)
  }

  /** The clause after the blank `sep`. */
  function ClauseText(sep: char, a: string): string
  {
    [sep] + ("attributes(" + (a + ")"))
  }

  /** The marker line in the form the examples use, e.g.
      `//! JS_MACRO: derive(SayHello) attributes(hello_message)` (js-macros/custom_derive.ts:1). */
  function Render(c: Captures): string
  {
    "//! JS_MACRO: " + (c.kind + ("(" + (c.name + (")" + RenderedClause(c.attributes)))))
  }

  /** A cut of a name without ')' is the name itself. */
  lemma CutNoParen(x: string, y: string)
    requires CutAtParen(x, y) && NoParen(y)
    ensures x == y
  {
  }

  /** The fixed start of a rendered line. */
  lemma RenderPrefix(r: string)
    ensures var s := "//! JS_MACRO: " + r;
      HasAt(s, 0, "//!") && HasAt(s, 3, " ") && HasAt(s, 4, "JS_MACRO:") && HasAt(s, 13, " ")
  {
    var a := "//! JS_MACRO: ";
    assert a[0..3] == "//!" && a[3..4] == " " && a[4..13] == "JS_MACRO:" && a[13..14] == " ";
    HasAtPrefix(a, r, 0, "//!");
    HasAtPrefix(a, r, 3, " ");
    HasAtPrefix(a, r, 4, "JS_MACRO:");
    HasAtPrefix(a, r, 13, " ");
  }

  /** Where the name's ')' and the clause lie in `")" + t`, and in front of them the name. */
  lemma RenderNameOn(name: string, t: string)
    ensures var r := name + (")" + t); var e := |name|;
      HasAt(r, 0, name) && HasAt(r, e, ")") && HasAt(r, e + 1, t) && |r| == e + 1 + |t|
  {
    assert HasAt(t, 0, t);
    HasAtPrefix(")", t, 0, ")");
    HasAtShift(")", t, 0, t);
    HasAtPrefix(name, ")" + t, 0, name);
    HasAtShift(name, ")" + t, 0, ")");
    HasAtShift(name, ")" + t, 1, t);
  }

  /** Where the kind, the name and the clause lie after the fixed start. */
  lemma RenderBody(c: Captures)
    ensures var r := c.kind + ("(" + (c.name + (")" + RenderedClause(c.attributes))));
      var j := |c.kind|; var e := j + 1 + |c.name|; var t := RenderedClause(c.attributes);
      && HasAt(r, 0, c.kind) && HasAt(r, j, "(") && HasAt(r, j + 1, c.name) && HasAt(r, e, ")")
      && HasAt(r, e + 1, t) && |r| == e + 1 + |t|
  {
    var t := RenderedClause(c.attributes);
    var r3 := c.name + (")" + t);
    RenderNameOn(c.name, t);
    RenderParenOn(c.kind, r3, c.name, t);
  }

  /** Where the kind and its '(' lie in front of a text `r3`. */
  lemma RenderParenOn(kind: string, r3: string, name: string, t: string)
    requires var e := |name|;
      HasAt(r3, 0, name) && HasAt(r3, e, ")") && HasAt(r3, e + 1, t) && |r3| == e + 1 + |t|
    ensures var r := kind + ("(" + r3); var j := |kind|; var e := |name|;
      && HasAt(r, 0, kind) && HasAt(r, j, "(") && HasAt(r, j + 1, name)
      && HasAt(r, j + 1 + e, ")") && HasAt(r, j + 1 + e + 1, t) && |r| == j + 1 + e + 1 + |t|
  {
    var r2 := "(" + r3;
    var e := |name|;
    HasAtPrefix("(", r3, 0, "(");
    HasAtShift("(", r3, 0, name);
    HasAtShift("(", r3, e, ")");
    HasAtShift("(", r3, e + 1, t);
    HasAtPrefix(kind, r2, 0, kind);
    HasAtShift(kind, r2, 0, "(");
    HasAtShift(kind, r2, 1, name);
    HasAtShift(kind, r2, 1 + e, ")");
    HasAtShift(kind, r2, 1 + e + 1, t);
  }

  /** Where the pieces of a rendered line lie. */
  lemma RenderPieces(c: Captures)
    ensures var s := Render(c); var j := 14 + |c.kind|; var e := j + 1 + |c.name|;
      && HasAt(s, 0, "//!") && HasAt(s, 3, " ") && HasAt(s, 4, "JS_MACRO:") && HasAt(s, 13, " ")
      && HasAt(s, 14, c.kind) && HasAt(s, j, "(") && HasAt(s, j + 1, c.name) && HasAt(s, e, ")")
      && HasAt(s, e + 1, RenderedClause(c.attributes)) && |s| == e + 1 + |RenderedClause(c.attributes)|
  {
    var a := "//! JS_MACRO: ";
    var r := c.kind + ("(" + (c.name + (")" + RenderedClause(c.attributes))));
    var j := |c.kind|;
    var e := j + 1 + |c.name|;
    RenderPrefix(r);
    RenderBody(c);
    HasAtShift(a, r, 0, c.kind);
    HasAtShift(a, r, j, "(");
    HasAtShift(a, r, j + 1, c.name);
    HasAtShift(a, r, e, ")");
    HasAtShift(a, r, e + 1, RenderedClause(c.attributes));
  }

  /** Text that can follow a marker line: nothing, or the rest of the file after a line
      break. */
  predicate LineBreakOrEnd(u: string)
  {
    u == [] || u[0] == '\n'
  }

  /** A line whose pieces lie where a rendered line has them, with the clause `t` after the
      blank `sep`, laid out as the grammar asks. */
  lemma LayoutOfPieces(s: string, c: Captures, t: string, sep: char)
    requires Renderable(c) && IsSpace(sep)
    requires t == if c.attributes.Some? then ClauseText(sep, c.attributes.value) else ""
    requires var j := 14 + |c.kind|; var e := j + 1 + |c.name|;
      && HasAt(s, 0, "//!") && HasAt(s, 3, " ") && HasAt(s, 4, "JS_MACRO:") && HasAt(s, 13, " ")
      && HasAt(s, 14, c.kind) && HasAt(s, j, "(") && HasAt(s, j + 1, c.name) && HasAt(s, e, ")")
      && HasAt(s, e + 1, t) && LineBreakOrEnd(s[e + 1 + |t|..])
    ensures var j := 14 + |c.kind|;
      Layout(s, c, 4, 14, j, if c.attributes.Some? then 1 else 0)
  {
    var j := 14 + |c.kind|;
    var e := j + 1 + |c.name|;
    HeadOfPieces(s, c.kind, c.name);
    PlainEnd(s, e + 1 + |t|);
    match c.attributes {
      case None =>
      case Some(a) =>
        ClauseOfRender(s, e + 1, sep, a);
    }
  }

  /** The single characters of the pieces of a rendered head. */
  lemma HeadOfPieces(s: string, kind: string, name: string)
    requires var j := 14 + |kind|; var e := j + 1 + |name|;
      && HasAt(s, 3, " ") && HasAt(s, 13, " ") && HasAt(s, j, "(") && HasAt(s, e, ")")
    ensures var j := 14 + |kind|; var e := j + 1 + |name|;
      && Blank(s[3..4]) && Blank(s[13..14]) && s[j] == '(' && s[e] == ')'
  {
    var j := 14 + |kind|;
    var e := j + 1 + |name|;
    assert s[3] == s[3..4][0];
    assert s[13] == s[13..14][0];
    assert s[j] == s[j..j + 1][0];
    assert s[e] == s[e..e + 1][0];
  }

  /** Nothing but a line break or the end of the text after position `q`. */
  lemma PlainEnd(s: string, q: nat)
    requires q <= |s| && LineBreakOrEnd(s[q..])
    ensures Blank(s[q..q]) && LineEnd(s[q..])
  {
    assert Blank(s[q..][..0]);
  }

  /** The pieces of a rendered line, with the rest of a file after it. */
  lemma RenderPiecesBefore(c: Captures, u: string)
    ensures var s := Render(c) + u;
      var j := 14 + |c.kind|; var e := j + 1 + |c.name|; var t := RenderedClause(c.attributes);
      && HasAt(s, 0, "//!") && HasAt(s, 3, " ") && HasAt(s, 4, "JS_MACRO:") && HasAt(s, 13, " ")
      && HasAt(s, 14, c.kind) && HasAt(s, j, "(") && HasAt(s, j + 1, c.name) && HasAt(s, e, ")")
      && HasAt(s, e + 1, t) && s[e + 1 + |t|..] == u
  {
    var r := Render(c);
    var j := 14 + |c.kind|;
    var e := j + 1 + |c.name|;
    RenderPieces(c);
    HasAtPrefix(r, u, 0, "//!");
    HasAtPrefix(r, u, 3, " ");
    HasAtPrefix(r, u, 4, "JS_MACRO:");
    HasAtPrefix(r, u, 13, " ");
    HasAtPrefix(r, u, 14, c.kind);
    HasAtPrefix(r, u, j, "(");
    HasAtPrefix(r, u, j + 1, c.name);
    HasAtPrefix(r, u, e, ")");
    HasAtPrefix(r, u, e + 1, RenderedClause(c.attributes));
  }

  /** A rendered line followed by the rest of a file, laid out as the grammar asks. */
  lemma RenderLayout(c: Captures, u: string)
    requires Renderable(c) && LineBreakOrEnd(u)
    ensures var j := 14 + |c.kind|;
      Layout(Render(c) + u, c, 4, 14, j, if c.attributes.Some? then 1 else 0)
  {
    RenderPiecesBefore(c, u);
    LayoutOfPieces(Render(c) + u, c, RenderedClause(c.attributes), ' ');
  }

  /** Where the pieces of a clause lie. */
  lemma ClauseTextPieces(sep: char, a: string)
    ensures var t := ClauseText(sep, a);
      && HasAt(t, 0, [sep]) && HasAt(t, 1, "attributes(") && HasAt(t, 12, a) && HasAt(t, 12 + |a|, ")")
      && |t| == 13 + |a|
  {
    PiecesAt([sep], "attributes(", a, ")");
  }

  /** A clause after a blank, read by position, before a line break or the end. */
  lemma ClauseOfRender(s: string, p: nat, sep: char, a: string)
    requires IsSpace(sep) && OneLine(a) && HasAt(s, p, ClauseText(sep, a)) && p + 13 + |a| <= |s|
    requires LineEnd(s[p + 13 + |a|..])
    ensures Blank(s[p..p + 1]) && ClauseShape(s, p + 1, Some(a))
    ensures s[p + 12..p + 12 + |a|] == a
  {
    var t := ClauseText(sep, a);
    ClauseTextPieces(sep, a);
    HasAtInside(s, p, t, 0, [sep]);
    HasAtInside(s, p, t, 1, "attributes(");
    HasAtInside(s, p, t, 12, a);
    HasAtInside(s, p, t, 12 + |a|, ")");
    var e := p + 12 + |a|;
    assert s[e] == s[e..e + 1][0];
    assert s[p] == s[p..p + 1][0];
  }

  /** The kind and name the parser reads from a rendered line are the rendered ones, and
      so is a rendered clause. */
  lemma RenderHead(c: Captures, u: string)
    requires Renderable(c) && LineBreakOrEnd(u)
    ensures Match(Render(c) + u).Some?
    ensures var m := Match(Render(c) + u).value;
      m.kind == c.kind && m.name == c.name && (c.attributes.Some? ==> m.attributes == c.attributes)
  {
    var j := 14 + |c.kind|;
    RenderLayout(c, u);
    MatchOfLayout(Render(c) + u, c, 4, 14, j, if c.attributes.Some? then 1 else 0);
    var m := Match(Render(c) + u).value;
    CutNoParen(m.name, c.name);
    if c.attributes.Some? {
      CutNoParen(m.attributes.value, c.attributes.value);
    }
  }

  /** After blanks, `u` starts with the clause's keyword. */
  predicate ClauseAhead(u: string)
  {
    HasAt(u, SkipSpace(u, 0), "attributes(")
  }

  /** Text whose first non-blank character is not the keyword's 'a' starts no clause. */
  lemma NoClauseAhead(u: string, n: nat)
    requires n < |u| && Blank(u[..n]) && !IsSpace(u[n]) && u[n] != 'a'
    ensures !ClauseAhead(u)
  {
    assert u[0..n] == u[..n];
    SkipSpaceTo(u, 0, n);
  }

  /** The tail right after a rendered line without a clause: a clause is only read when the
      following text starts with the keyword after blanks. */
  lemma TailAfterRender(r: string, u: string)
    requires !ClauseAhead(u)
    ensures TailAt(r + u, |r|).Some? ==> TailAt(r + u, |r|).value.Plain?
  {
    var s := r + u;
    SkipSpaceShift(s, |r|);
    assert s[|r|..] == u;
    HasAtShift(r, u, SkipSpace(u, 0), "attributes(");
  }

  /** A line laid out without a clause, whose name's ')' ends its first part `r`: the parser
      reads no clause when the text `u` after `r` does not start one. */
  lemma PlainOfLayout(r: string, u: string, c: Captures)
    requires var j := 14 + |c.kind|;
      Layout(r + u, c, 4, 14, j, 0) && |r| == j + 2 + |c.name| && !ClauseAhead(u)
    requires Match(r + u).Some? && Match(r + u).value.name == c.name
    ensures Match(r + u).value.attributes.None?
  {
    HeadAt(r + u, 4, 14, 14 + |c.kind|);
    PlainSteps(r, u, 14 + |c.kind|, |c.name|);
  }

  /** The parser's steps on a line whose kind ends at `j` and whose name, of length `n`, ends
      the first part `r`: no clause is read when the text `u` after `r` does not start one. */
  lemma PlainSteps(r: string, u: string, j: nat, n: nat)
    requires 14 <= j && |r| == j + 2 + n && !ClauseAhead(u)
    requires SkipSpace(r + u, 3) == 4 && SkipSpace(r + u, 13) == 14 && SkipWord(r + u, 14) == j
    requires Match(r + u).Some? && |Match(r + u).value.name| == n
    ensures Match(r + u).value.attributes.None?
  {
    var s := r + u;
    LocateKind(s);
    LocateName(s);
    MatchOfLocate(s);
    TailAfterRender(r, u);
  }

  /** Without a clause, the parser reads none, provided the next line does not start one. */
  lemma RenderPlain(c: Captures, u: string)
    requires Renderable(c) && c.attributes.None? && LineBreakOrEnd(u) && !ClauseAhead(u)
    ensures Match(Render(c) + u).Some? && Match(Render(c) + u).value.attributes.None?
  {
    RenderLayout(c, u);
    RenderHead(c, u);
    RenderPieces(c);
    PlainOfLayout(Render(c), u, c);
  }

  /** Reading back a file that starts with a rendered marker line gives the captures it
      was rendered from. */
  lemma ScanRender(c: Captures, u: string)
    requires Renderable(c) && LineBreakOrEnd(u)
    requires c.attributes.None? ==> !ClauseAhead(u)
    ensures Scan(Render(c) + u) == Some(c)
  {
    var t := Render(c) + u;
    RenderHead(c, u);
    if c.attributes.None? {
      RenderPlain(c, u);
    }
    assert t[0..] == t;
    assert FirstMarker(t, 0) == Some(0);
  }

  // ---------------------------------------------------------------------------------------
  // The marker lines of the example macros

  /** A rendered line is its part up to the name's ')' followed by the clause. */
  lemma RenderSplit(c: Captures)
    ensures Render(c) == "//! JS_MACRO: " + (c.kind + ("(" + (c.name + ")"))) + RenderedClause(c.attributes)
  {
    var t := RenderedClause(c.attributes);
    assert c.name + (")" + t) == c.name + ")" + t;
    assert "(" + (c.name + ")" + t) == "(" + (c.name + ")") + t;
    assert c.kind + ("(" + (c.name + ")") + t) == c.kind + ("(" + (c.name + ")")) + t;
  }

  /** The marker line of js-macros/custom_derive.ts. */
  lemma RenderCustomDerive()
    ensures Render(Captures("derive", "SayHello", Some("hello_message")))
      == "//! JS_MACRO: derive(SayHello) attributes(hello_message)"
  {
    RenderSplit(Captures("derive", "SayHello", Some("hello_message")));
    CustomDeriveHead();
    CustomDeriveClause();
    CustomDeriveJoin();
  }

  lemma CustomDeriveJoin()
    ensures "//! JS_MACRO: derive(SayHello)" + " attributes(hello_message)"
      == "//! JS_MACRO: derive(SayHello) attributes(hello_message)"
  {
  }

  lemma CustomDeriveHead()
    ensures "//! JS_MACRO: " + ("derive" + ("(" + ("SayHello" + ")"))) == "//! JS_MACRO: derive(SayHello)"
  {
  }

  lemma CustomDeriveClause()
    ensures RenderedClause(Some("hello_message")) == " attributes(hello_message)"
  {
    CustomDeriveWords();
    assert [' '] + "attributes(hello_message)" == " attributes(hello_message)";
  }

  lemma CustomDeriveWords()
    ensures "attributes(" + ("hello_message" + ")") == "attributes(hello_message)"
  {
  }

  /** js-macros/custom_derive.ts, whatever follows its first line. */
  lemma ScanCustomDerive(u: string)
    requires LineBreakOrEnd(u)
    ensures Scan("//! JS_MACRO: derive(SayHello) attributes(hello_message)" + u)
      == Some(Captures("derive", "SayHello", Some("hello_message")))
  {
    RenderCustomDerive();
    ScanRender(Captures("derive", "SayHello", Some("hello_message")), u);
  }

  /** js-macros/custom_attribute.ts, when its next line does not start a clause. */
  lemma ScanCustomAttribute(u: string)
    requires LineBreakOrEnd(u) && !ClauseAhead(u)
    ensures Scan("//! JS_MACRO: attribute(say_hello)" + u) == Some(Captures("attribute", "say_hello", None))
  {
    var c := Captures("attribute", "say_hello", None);
    RenderCustomAttribute();
    CustomAttributeRenderable();
    ScanRender(c, u);
  }

  lemma RenderCustomAttribute()
    ensures Render(Captures("attribute", "say_hello", None)) == "//! JS_MACRO: attribute(say_hello)"
  {
    assert RenderedClause(None) == "";
  }

  lemma CustomAttributeRenderable()
    ensures Renderable(Captures("attribute", "say_hello", None))
  {
    assert Word("attribute");
  }

  /** js-macros/custom_function.ts, when its next line does not start a clause. */
  lemma ScanCustomFunction(u: string)
    requires LineBreakOrEnd(u) && !ClauseAhead(u)
    ensures Scan("//! JS_MACRO: function(hello_world)" + u) == Some(Captures("function", "hello_world", None))
  {
    var c := Captures("function", "hello_world", None);
    RenderCustomFunction();
    CustomFunctionRenderable();
    ScanRender(c, u);
  }

  lemma RenderCustomFunction()
    ensures Render(Captures("function", "hello_world", None)) == "//! JS_MACRO: function(hello_world)"
  {
    assert RenderedClause(None) == "";
  }

  lemma CustomFunctionRenderable()
    ensures Renderable(Captures("function", "hello_world", None))
  {
    assert Word("function");
  }

  /** The layout of a marker line without a clause followed by a clause on the next line. */
  lemma NextLineLayout(c: Captures, a: string)
    requires Renderable(c) && c.attributes.None? && OneLine(a) && NoParen(a)
    ensures var s := Render(c) + ClauseText('\n', a);
      Layout(s, Captures(c.kind, c.name, Some(a)), 4, 14, 14 + |c.kind|, 1)
  {
    var c' := Captures(c.kind, c.name, Some(a));
    NextLinePieces(c, a);
    assert Renderable(c');
    LayoutOfPieces(Render(c) + ClauseText('\n', a), c', ClauseText('\n', a), '\n');
  }

  /** Where the pieces of a marker line without a clause lie, when a clause follows on the
      next line. */
  lemma NextLinePieces(c: Captures, a: string)
    requires c.attributes.None?
    ensures var w := ClauseText('\n', a); var s := Render(c) + w;
      var j := 14 + |c.kind|; var e := j + 1 + |c.name|;
      && HasAt(s, 0, "//!") && HasAt(s, 3, " ") && HasAt(s, 4, "JS_MACRO:") && HasAt(s, 13, " ")
      && HasAt(s, 14, c.kind) && HasAt(s, j, "(") && HasAt(s, j + 1, c.name) && HasAt(s, e, ")")
      && HasAt(s, e + 1, w) && LineBreakOrEnd(s[e + 1 + |w|..])
  {
    var w := ClauseText('\n', a);
    var s := Render(c) + w;
    var e := 14 + |c.kind| + 1 + |c.name|;
    RenderPiecesBefore(c, w);
    assert |RenderedClause(c.attributes)| == 0;
    SuffixAt(s, e + 1, w);
  }

  /** A suffix lies at its position and is followed by nothing. */
  lemma SuffixAt(s: string, i: nat, w: string)
    requires i <= |s| && s[i..] == w
    ensures HasAt(s, i, w) && s[i + |w|..] == []
  {
    assert s[i..i + |w|] == s[i..];
  }

  /** `\s*` before the clause also matches line breaks, so a clause on the line after a
      marker line without one is read as the marker's own. */
  lemma ScanClauseOnNextLine(c: Captures, a: string)
    requires Renderable(c) && c.attributes.None? && OneLine(a) && NoParen(a)
    ensures Scan(Render(c) + ClauseText('\n', a)) == Some(Captures(c.kind, c.name, Some(a)))
  {
    var t := Render(c) + ClauseText('\n', a);
    var c' := Captures(c.kind, c.name, Some(a));
    NextLineLayout(c, a);
    MatchOfLayout(t, c', 4, 14, 14 + |c.kind|, 1);
    CutNoParen(Match(t).value.name, c.name);
    CutNoParen(Match(t).value.attributes.value, a);
    assert t[0..] == t;
    assert FirstMarker(t, 0) == Some(0);
  }

  /** For instance `//! JS_MACRO: derive(D)` followed by a line `attributes(x)`. */
  lemma ClauseOnNextLine()
    ensures Scan("//! JS_MACRO: derive(D)\nattributes(x)") == Some(Captures("derive", "D", Some("x")))
  {
    var c := Captures("derive", "D", None);
    assert "//! JS_MACRO: derive(D)\nattributes(x)" == Render(c) + ClauseText('\n', "x");
    ScanClauseOnNextLine(c, "x");
  }
}
