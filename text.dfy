/**
 * The string operations of Python's standard library that the two scripts rely on,
 * stated over `seq<char>`: strip/lstrip/rstrip, startswith/endswith, the `in`
 * substring test, `find`, `split` on one character, `splitlines()`, `join`, ASCII `lower()` and
 * `textwrap.dedent`.
 */
module Text {

  datatype Option<T> = None | Some(value: T)

  /**
   * The characters `str.strip()` removes: those `str.isspace()` accepts, that is the
   * ASCII controls tab to carriage return and file to unit separator, the space, and
   * the Unicode separators.
   */
  predicate IsSpace(c: char) {
    ('\t' <= c <= '\r') || ('\U{1C}' <= c <= ' ') || c == '\U{85}' || c == '\U{A0}'
    || c == '\U{1680}' || ('\U{2000}' <= c <= '\U{200A}') || c == '\U{2028}' || c == '\U{2029}'
    || c == '\U{202F}' || c == '\U{205F}' || c == '\U{3000}'
  }

  /** Every character of `s` is whitespace. */
  predicate AllSpace(s: string) {
    forall i :: 0 <= i < |s| ==> IsSpace(s[i])
  }

  /** `not s.strip()` */
  predicate IsBlank(s: string) {
    |Strip(s)| == 0
  }

  /** `s` has no leading and no trailing whitespace. */
  predicate IsStripped(s: string) {
    |s| == 0 || (!IsSpace(s[0]) && !IsSpace(s[|s| - 1]))
  }

  /** `s.lstrip()` */
  function LStrip(s: string): (r: string)
    ensures |r| <= |s|
    ensures |r| == 0 || !IsSpace(r[0])
  {
    if |s| > 0 && IsSpace(s[0]) then LStrip(s[1..]) else s
  }

  /** `lstrip` removes only whitespace. */
  lemma {:induction false} LStripRemovesSpace(s: string)
    ensures LStrip(s) == s[|s| - |LStrip(s)|..]
    ensures forall i :: 0 <= i < |s| - |LStrip(s)| ==> IsSpace(s[i])
  {
    if |s| > 0 && IsSpace(s[0]) {
      LStripRemovesSpace(s[1..]);
      assert forall i :: 1 <= i < |s| ==> s[i] == s[1..][i - 1];
    }
  }

  /** `s.rstrip()` */
  function RStrip(s: string): (r: string)
    ensures |r| <= |s|
    ensures |r| == 0 || !IsSpace(r[|r| - 1])
  {
    if |s| > 0 && IsSpace(s[|s| - 1]) then RStrip(s[..|s| - 1]) else s
  }

  /** `rstrip` removes only whitespace. */
  lemma {:induction false} RStripRemovesSpace(s: string)
    ensures RStrip(s) == s[..|RStrip(s)|]
    ensures forall i :: |RStrip(s)| <= i < |s| ==> IsSpace(s[i])
  {
    if |s| > 0 && IsSpace(s[|s| - 1]) {
      RStripRemovesSpace(s[..|s| - 1]);
      assert forall i :: 0 <= i < |s| - 1 ==> s[i] == s[..|s| - 1][i];
    }
  }

  /** `s.strip()` */
  function Strip(s: string): (r: string)
    ensures IsStripped(r) && |r| <= |s|
  {
    RStripRemovesSpace(LStrip(s));
    RStrip(LStrip(s))
  }

  /** `Strip(s)` is the slice of `s` starting at `a`, with only whitespace around it. */
  lemma StripBounds(s: string) returns (a: nat)
    ensures a + |Strip(s)| <= |s| && Strip(s) == s[a..a + |Strip(s)|]
    ensures forall i :: 0 <= i < a ==> IsSpace(s[i])
    ensures forall i :: a + |Strip(s)| <= i < |s| ==> IsSpace(s[i])
  {
    LStripRemovesSpace(s);
    a := |s| - |LStrip(s)|;
    RStripInside(s, a);
  }

  /** `rstrip` of the slice of `s` from `a` is a slice of `s` with only whitespace after it. */
  lemma RStripInside(s: string, a: nat)
    requires a <= |s|
    ensures a + |RStrip(s[a..])| <= |s| && RStrip(s[a..]) == s[a..a + |RStrip(s[a..])|]
    ensures forall i :: a + |RStrip(s[a..])| <= i < |s| ==> IsSpace(s[i])
  {
    var l := s[a..];
    var r := RStrip(l);
    RStripRemovesSpace(l);
    assert r == l[..|r|] == s[a..a + |r|];
    forall i | a + |r| <= i < |s| ensures IsSpace(s[i]) {
      assert s[i] == l[i - a];
    }
  }

  lemma BlankIffAllSpace(s: string)
    ensures IsBlank(s) <==> AllSpace(s)
  {
    var a := StripBounds(s);
    if !AllSpace(s) {
      var k :| 0 <= k < |s| && !IsSpace(s[k]);
      assert a <= k < a + |Strip(s)|;
    }
  }

  lemma StripOfStripped(s: string)
    requires IsStripped(s)
    ensures Strip(s) == s
  {
  }

  /** A stripped string that `Strip` leaves unchanged is kept when surrounded by whitespace. */
  lemma StripPadded(pre: string, s: string, post: string)
    requires AllSpace(pre) && AllSpace(post) && IsStripped(s)
    ensures Strip(pre + s + post) == s
  {
    if |s| == 0 {
      assert AllSpace(pre + s + post);
      BlankIffAllSpace(pre + s + post);
    } else {
      var t := pre + s + post;
      LStripDrops(pre, s + post);
      assert pre + (s + post) == t;
      assert LStrip(t) == s + post;
      RStripDrops(s, post);
    }
  }

  lemma {:induction false} LStripDrops(pre: string, s: string)
    requires AllSpace(pre) && (|s| == 0 || !IsSpace(s[0]))
    ensures LStrip(pre + s) == s
  {
    if |pre| > 0 {
      assert (pre + s)[1..] == pre[1..] + s;
      LStripDrops(pre[1..], s);
    }
  }

  lemma {:induction false} RStripDrops(s: string, post: string)
    requires AllSpace(post) && (|s| == 0 || !IsSpace(s[|s| - 1]))
    ensures RStrip(s + post) == s
  {
    if |post| > 0 {
      assert (s + post)[..|s + post| - 1] == s + post[..|post| - 1];
      RStripDrops(s, post[..|post| - 1]);
    }
  }

  predicate StartsWith(s: string, prefix: string) {
    |prefix| <= |s| && s[..|prefix|] == prefix
  }

  predicate EndsWith(s: string, suffix: string) {
    |suffix| <= |s| && s[|s| - |suffix|..] == suffix
  }

  /** Python's `sub in s`. */
  predicate Contains(s: string, sub: string)
    decreases |s|
  {
    StartsWith(s, sub) || (|s| > 0 && Contains(s[1..], sub))
  }

  /** Text holds itself, with anything after it. */
  lemma ContainsFront(x: string, b: string)
    ensures Contains(x + b, x)
  {
    assert (x + b)[..|x|] == x;
  }

  /** Text holding `x` still holds it with anything written before it. */
  lemma {:induction false} ContainsAfter(a: string, s: string, x: string)
    requires Contains(s, x)
    ensures Contains(a + s, x)
    decreases |a|
  {
    if |a| > 0 {
      assert (a + s)[1..] == a[1..] + s;
      ContainsAfter(a[1..], s, x);
    } else {
      assert a + s == s;
    }
  }

  /** Text holding `x` still holds it with anything written after it. */
  lemma {:induction false} ContainsBefore(s: string, b: string, x: string)
    requires Contains(s, x)
    ensures Contains(s + b, x)
    decreases |s|
  {
    if StartsWith(s, x) {
      assert (s + b)[..|x|] == s[..|x|];
    } else {
      assert (s + b)[1..] == s[1..] + b;
      ContainsBefore(s[1..], b, x);
    }
  }

  /** Text written between two others is held by the whole. */
  lemma ContainsMiddle(a: string, x: string, b: string)
    ensures Contains(a + x + b, x)
  {
    ContainsFront(x, b);
    ContainsAfter(a, x + b, x);
    assert a + (x + b) == a + x + b;
  }

  /** What a part of a text holds, the text holds. */
  lemma {:induction false} ContainsTrans(s: string, x: string, y: string)
    requires Contains(s, x) && Contains(x, y)
    ensures Contains(s, y)
    decreases |s|
  {
    if StartsWith(s, x) {
      assert s == x + s[|x|..];
      ContainsBefore(x, s[|x|..], y);
    } else {
      ContainsTrans(s[1..], x, y);
      assert s == [s[0]] + s[1..];
      ContainsAfter([s[0]], s[1..], y);
    }
  }

  /** Index of the first `c` in `s`, or `|s|` when there is none. */
  function Find(s: string, c: char): (i: nat)
    ensures i <= |s|
    ensures i < |s| ==> s[i] == c
  {
    if |s| == 0 then 0 else if s[0] == c then 0 else 1 + Find(s[1..], c)
  }

  /** `Find` gives the first occurrence, and finds one whenever there is one. */
  lemma {:induction false} FindFirst(s: string, c: char)
    ensures forall j :: 0 <= j < Find(s, c) ==> s[j] != c
    ensures Find(s, c) < |s| <==> c in s
  {
    if |s| > 0 && s[0] != c {
      FindFirst(s[1..], c);
      assert forall j :: 1 <= j < |s| ==> s[j] == s[1..][j - 1];
      assert c in s <==> c in s[1..];
    }
  }

  /** ASCII `str.lower()` on one character. */
  function LowerChar(c: char): char {
    if 'A' <= c <= 'Z' then (c as int - 'A' as int + 'a' as int) as char else c
  }

  /** ASCII `str.lower()`. */
  function Lower(s: string): (r: string)
    ensures |r| == |s|
  {
    if |s| == 0 then [] else [LowerChar(s[0])] + Lower(s[1..])
  }

  /** `sep.join(parts)` */
  function Join(sep: string, parts: seq<string>): string {
    if |parts| == 0 then ""
    else if |parts| == 1 then parts[0]
    else parts[0] + sep + Join(sep, parts[1..])
  }

  lemma {:induction false} JoinEmpty(sep: string, parts: seq<string>)
    ensures Join(sep, parts) == "" <==> (forall i :: 0 <= i < |parts| ==> parts[i] == "") && (sep == "" || |parts| <= 1)
  {
    if |parts| > 1 {
      JoinEmpty(sep, parts[1..]);
      assert forall i :: 1 <= i < |parts| ==> parts[i] == parts[1..][i - 1];
    }
  }

  /** A non-space character of one part is also in the joined string. */
  lemma {:induction false} JoinKeepsNonBlank(sep: string, parts: seq<string>, k: nat)
    requires k < |parts| && !AllSpace(parts[k])
    ensures !AllSpace(Join(sep, parts))
  {
    if |parts| > 1 {
      var j := Join(sep, parts);
      if k == 0 {
        var p :| 0 <= p < |parts[0]| && !IsSpace(parts[0][p]);
        assert j[p] == parts[0][p];
      } else {
        JoinKeepsNonBlank(sep, parts[1..], k - 1);
        var rest := Join(sep, parts[1..]);
        var p :| 0 <= p < |rest| && !IsSpace(rest[p]);
        assert j[|parts[0]| + |sep| + p] == rest[p];
      }
    }
  }

  /** The joined string holds every part. */
  lemma {:induction false} JoinHas(sep: string, parts: seq<string>, k: nat)
    requires k < |parts|
    ensures Contains(Join(sep, parts), parts[k])
  {
    if |parts| == 1 {
      ContainsFront(parts[0], "");
      assert parts[0] + "" == parts[0];
    } else if k == 0 {
      ContainsFront(parts[0], sep + Join(sep, parts[1..]));
      assert parts[0] + (sep + Join(sep, parts[1..])) == Join(sep, parts);
    } else {
      JoinHas(sep, parts[1..], k - 1);
      ContainsAfter(parts[0] + sep, Join(sep, parts[1..]), parts[k]);
    }
  }

  /** Splits `s` at every `c`: Python's `s.split(c)`. */
  function Split(s: string, c: char): (parts: seq<string>)
    ensures |parts| >= 1
    decreases |s|
  {
    var i := Find(s, c);
    if i == |s| then [s] else [s[..i]] + Split(s[i + 1..], c)
  }

  /** Joining the pieces of a split with the separator gives the text back. */
  lemma {:induction false} JoinSplit(s: string, c: char)
    ensures Join([c], Split(s, c)) == s
    decreases |s|
  {
    var i := Find(s, c);
    if i < |s| {
      var rest := Split(s[i + 1..], c);
      var parts := [s[..i]] + rest;
      assert Split(s, c) == parts;
      assert parts[0] == s[..i] && parts[1..] == rest;
      assert Join([c], parts) == s[..i] + [c] + Join([c], rest);
      JoinSplit(s[i + 1..], c);
      assert s == s[..i] + [c] + s[i + 1..];
    }
  }

  /** A text that does not end in a newline is its lines joined by newlines. */
  lemma SplitLinesRejoin(s: string)
    requires |s| == 0 || s[|s| - 1] != '\n'
    ensures Join("\n", SplitLines(s)) == s
  {
    if |s| > 0 {
      JoinSplit(s, '\n');
      assert "\n" == ['\n'];
    }
  }

  /**
   * `s.splitlines()` with `\n` as the only line break: a final `\n` ends the last
   * line rather than starting an empty one, and the empty string has no lines.
   */
  function SplitLines(s: string): (lines: seq<string>)
  {
    if |s| == 0 then []
    else
      var parts := Split(s, '\n');
      if s[|s| - 1] == '\n' then parts[..|parts| - 1] else parts
  }

  predicate NoNewline(s: string) {
    forall j :: 0 <= j < |s| ==> s[j] != '\n'
  }

  lemma {:induction false} SplitOfJoin(lines: seq<string>)
    requires |lines| >= 1
    requires forall i :: 0 <= i < |lines| ==> NoNewline(lines[i])
    ensures Split(Join("\n", lines), '\n') == lines
  {
    var s := Join("\n", lines);
    if |lines| == 1 {
      assert Find(s, '\n') == |s|;
    } else {
      assert s == lines[0] + "\n" + Join("\n", lines[1..]);
      assert Find(s, '\n') == |lines[0]| by {
        FindAfter(lines[0], Join("\n", lines[1..]));
      }
      assert s[..|lines[0]|] == lines[0];
      assert s[|lines[0]| + 1..] == Join("\n", lines[1..]);
      SplitOfJoin(lines[1..]);
    }
  }

  lemma FindAfter(a: string, b: string)
    requires NoNewline(a)
    ensures Find(a + "\n" + b, '\n') == |a|
  {
    var s := a + "\n" + b;
    FindFirst(s, '\n');
    assert forall j :: 0 <= j < |a| ==> s[j] == a[j];
    assert s[|a|] == '\n';
  }

  /** Joining lines with `\n` and splitting them again gives the lines back. */
  lemma SplitLinesOfJoin(lines: seq<string>)
    requires forall i :: 0 <= i < |lines| ==> NoNewline(lines[i])
    requires |lines| > 0 ==> lines[|lines| - 1] != ""
    ensures SplitLines(Join("\n", lines)) == lines
  {
    if |lines| > 0 {
      var s := Join("\n", lines);
      SplitOfJoin(lines);
      var last := lines[|lines| - 1];
      var c := JoinLast(lines);
      assert c != '\n';
    }
  }

  lemma {:induction false} JoinLast(lines: seq<string>) returns (c: char)
    requires |lines| >= 1 && lines[|lines| - 1] != ""
    ensures |Join("\n", lines)| > 0
    ensures c == Join("\n", lines)[|Join("\n", lines)| - 1]
    ensures c == lines[|lines| - 1][|lines[|lines| - 1]| - 1]
  {
    if |lines| > 1 {
      var rest := lines[1..];
      assert rest[|rest| - 1] == lines[|lines| - 1];
      var j := Join("\n", rest);
      c := JoinLast(rest);
      assert Join("\n", lines) == lines[0] + "\n" + j;
    } else {
      c := lines[0][|lines[0]| - 1];
    }
  }

  // ---------------------------------------------------------------------------
  // textwrap.dedent, for text already split into lines without `\n`

  /** The whitespace `textwrap.dedent` recognises. */
  predicate IsIndentChar(c: char) {
    c == ' ' || c == '\t'
  }

  /** The line consists only of spaces and tabs (possibly none at all). */
  predicate IsIndentOnly(s: string) {
    forall i :: 0 <= i < |s| ==> IsIndentChar(s[i])
  }

  /** The leading spaces and tabs of `s`. */
  function Indent(s: string): (r: string)
    ensures |r| <= |s| && r == s[..|r|]
    ensures |r| < |s| ==> !IsIndentChar(s[|r|])
  {
    if |s| > 0 && IsIndentChar(s[0]) then [s[0]] + Indent(s[1..]) else []
  }

  lemma {:induction false} IndentOnlySpaces(s: string)
    ensures IsIndentOnly(Indent(s))
  {
    if |s| > 0 && IsIndentChar(s[0]) {
      IndentOnlySpaces(s[1..]);
    }
  }

  /** The longest common prefix of two strings. */
  function CommonPrefix(a: string, b: string): (r: string)
    ensures |r| <= |a| && |r| <= |b| && r == a[..|r|] && r == b[..|r|]
    ensures |r| < |a| && |r| < |b| ==> a[|r|] != b[|r|]
  {
    if |a| > 0 && |b| > 0 && a[0] == b[0] then [a[0]] + CommonPrefix(a[1..], b[1..]) else []
  }

  /**
   * The margin `textwrap.dedent` removes: the longest common prefix of the indents of
   * the lines that hold something besides spaces and tabs; `None` when there is no
   * such line.
   */
  function Margin(lines: seq<string>): (m: Option<string>)
  {
    if |lines| == 0 then None
    else
      var rest := Margin(lines[1..]);
      if IsIndentOnly(lines[0]) then rest
      else if rest.None? then Some(Indent(lines[0]))
      else Some(CommonPrefix(Indent(lines[0]), rest.value))
  }

  /** There is a margin exactly when some line has more than spaces and tabs. */
  predicate HasText(lines: seq<string>) {
    exists i :: 0 <= i < |lines| && !IsIndentOnly(lines[i])
  }

  /** `p` begins the indent of every line that has more than spaces and tabs. */
  predicate CommonIndent(lines: seq<string>, p: string) {
    forall i :: 0 <= i < |lines| && !IsIndentOnly(lines[i]) ==> StartsWith(Indent(lines[i]), p)
  }

  /** The margin is made of spaces and tabs and begins the indent of every text line. */
  lemma {:induction false} MarginFacts(lines: seq<string>)
    ensures Margin(lines).Some? <==> HasText(lines)
    ensures Margin(lines).Some? ==> IsIndentOnly(Margin(lines).value)
    ensures Margin(lines).Some? ==> CommonIndent(lines, Margin(lines).value)
  {
    if |lines| > 0 {
      var rest := lines[1..];
      MarginFacts(rest);
      assert forall i :: 1 <= i < |lines| ==> lines[i] == rest[i - 1];
      if !IsIndentOnly(lines[0]) {
        IndentOnlySpaces(lines[0]);
        assert HasText(lines);
      } else if HasText(lines) {
        var i :| 0 <= i < |lines| && !IsIndentOnly(lines[i]);
        assert !IsIndentOnly(rest[i - 1]);
      }
      if HasText(rest) {
        var j :| 0 <= j < |rest| && !IsIndentOnly(rest[j]);
        assert !IsIndentOnly(lines[j + 1]);
      }
    }
  }

  /** The margin is the longest common indent: every common indent begins it. */
  lemma {:induction false} MarginLongest(lines: seq<string>, p: string)
    requires Margin(lines).Some? && CommonIndent(lines, p)
    ensures StartsWith(Margin(lines).value, p)
  {
    var rest := lines[1..];
    assert CommonIndent(rest, p) by {
      forall i | 0 <= i < |rest| && !IsIndentOnly(rest[i]) ensures StartsWith(Indent(rest[i]), p) {
        assert rest[i] == lines[i + 1];
      }
    }
    if IsIndentOnly(lines[0]) {
      MarginLongest(rest, p);
    } else if Margin(rest).Some? {
      MarginLongest(rest, p);
      CommonPrefixLongest(Indent(lines[0]), Margin(rest).value, p);
    }
  }

  /** A prefix of both strings begins their longest common prefix. */
  lemma {:induction false} CommonPrefixLongest(a: string, b: string, p: string)
    requires StartsWith(a, p) && StartsWith(b, p)
    ensures StartsWith(CommonPrefix(a, b), p)
  {
    if |p| > 0 {
      assert a[0] == p[0] && b[0] == p[0];
      assert a[1..][..|p| - 1] == p[1..] && b[1..][..|p| - 1] == p[1..];
      CommonPrefixLongest(a[1..], b[1..], p[1..]);
      var r := CommonPrefix(a, b);
      assert r == [a[0]] + CommonPrefix(a[1..], b[1..]);
      assert r[..|p|] == [a[0]] + CommonPrefix(a[1..], b[1..])[..|p| - 1];
    }
  }

  /**
   * `textwrap.dedent`: lines made only of spaces and tabs become empty, and the margin
   * is removed from every other line.
   */
  function Dedent(lines: seq<string>): (r: seq<string>)
    ensures |r| == |lines|
  {
    MarginFacts(lines);
    var m := Margin(lines);
    seq(|lines|, i requires 0 <= i < |lines| =>
      if IsIndentOnly(lines[i]) then "" else lines[i][|m.value|..])
  }

  /**
   * Each dedented line is the original line with a prefix of `k` spaces and tabs
   * removed.
   */
  lemma DedentDropsIndent(lines: seq<string>, i: nat) returns (k: nat)
    requires i < |lines|
    ensures k <= |lines[i]| && IsIndentOnly(lines[i][..k]) && Dedent(lines)[i] == lines[i][k..]
    ensures IsIndentOnly(lines[i]) ==> k == |lines[i]|
    ensures !IsIndentOnly(lines[i]) ==> Margin(lines).Some? && k == |Margin(lines).value|
  {
    MarginFacts(lines);
    if IsIndentOnly(lines[i]) {
      k := |lines[i]|;
      assert lines[i][..k] == lines[i];
    } else {
      var m := Margin(lines).value;
      k := |m|;
      assert lines[i][..k] == m;
    }
  }

  /** Dedenting never turns a line holding a non-whitespace character into a blank one. */
  lemma DedentKeepsNonBlank(lines: seq<string>, i: nat)
    requires i < |lines| && !AllSpace(lines[i])
    ensures !AllSpace(Dedent(lines)[i])
  {
    var k := DedentDropsIndent(lines, i);
    var p :| 0 <= p < |lines[i]| && !IsSpace(lines[i][p]);
    forall q | 0 <= q < k ensures IsIndentChar(lines[i][q]) {
      assert lines[i][..k][q] == lines[i][q];
    }
    assert Dedent(lines)[i][p - k] == lines[i][p];
  }
}
