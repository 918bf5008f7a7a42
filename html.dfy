/**
 * The two library operations the page generator builds its markup with: `html.escape`
 * (with `quote=True`) and `str.replace`, which fills a template's placeholders.
 */
module Html {
  import opened Text

  // ---------------------------------------------------------------------------
  // html.escape

  /** The entity `html.escape` writes for one character. */
  function EscapeChar(c: char): string {
    if c == '&' then "&amp;"
    else if c == '<' then "&lt;"
    else if c == '>' then "&gt;"
    else if c == '"' then "&quot;"
    else if c == '\'' then "&#x27;"
    else [c]
  }

  /** `html.escape(s)`: every `&`, `<`, `>`, `"` and `'` replaced by its entity. */
  function Escape(s: string): (r: string)
    ensures |r| >= |s|
  {
    if |s| == 0 then "" else EscapeChar(s[0]) + Escape(s[1..])
  }

  /** The characters markup gives a meaning to. */
  predicate IsMarkupChar(c: char) {
    c == '<' || c == '>' || c == '"' || c == '\''
  }

  /** Escaping maps the empty string, and only it, to the empty string. */
  lemma EscapeEmpty(s: string)
    ensures |Escape(s)| == 0 <==> |s| == 0
  {
  }

  /** Escaping works character by character, so it distributes over concatenation. */
  lemma {:induction false} EscapeConcat(a: string, b: string)
    ensures Escape(a + b) == Escape(a) + Escape(b)
  {
    if |a| > 0 {
      var ab := a + b;
      assert ab[0] == a[0] && ab[1..] == a[1..] + b;
      EscapeConcat(a[1..], b);
      var e, x, y := EscapeChar(a[0]), Escape(a[1..]), Escape(b);
      calc {
        Escape(ab);
        e + Escape(a[1..] + b);
        e + (x + y);
        { AppendAssoc(e, x, y); }
        (e + x) + y;
      }
    } else {
      assert a + b == b;
    }
  }

  /** String concatenation is associative. */
  lemma AppendAssoc(x: string, y: string, z: string)
    ensures x + (y + z) == (x + y) + z
  {
  }

  /** An escaped string can stand inside an attribute value or an element. */
  lemma {:induction false} EscapeSafe(s: string)
    ensures forall i :: 0 <= i < |Escape(s)| ==> !IsMarkupChar(Escape(s)[i])
  {
    if |s| > 0 {
      EscapeSafe(s[1..]);
      var e := EscapeChar(s[0]);
      forall i | 0 <= i < |Escape(s)| ensures !IsMarkupChar(Escape(s)[i]) {
        if i >= |e| {
          assert Escape(s)[i] == Escape(s[1..])[i - |e|];
        }
      }
    }
  }

  /** No entity holds a brace. */
  lemma EscapeCharLacksBrace(c: char)
    requires c != '{'
    ensures '{' !in EscapeChar(c)
  {
  }

  /** Escaping brings in no brace: the entities hold none. */
  lemma {:induction false} EscapeLacksBrace(s: string)
    requires '{' !in s
    ensures '{' !in Escape(s)
  {
    if |s| > 0 {
      EscapeLacksBrace(s[1..]);
      EscapeCharLacksBrace(s[0]);
    }
  }

  /** A character that has an entity makes the escaped text longer: escaping then changes it. */
  lemma {:induction false} EscapeGrows(s: string, k: nat)
    requires k < |s| && |EscapeChar(s[k])| > 1
    ensures |Escape(s)| > |s|
  {
    if k > 0 {
      assert s[1..][k - 1] == s[k];
      EscapeGrows(s[1..], k - 1);
    }
  }

  /** The entities `Escape` writes, read back; any other character stands for itself. */
  function Unescape(t: string): string
    decreases |t|
  {
    if |t| == 0 then ""
    else if t[0] != '&' then [t[0]] + Unescape(t[1..])
    else if |t| >= 5 && t[1] == 'a' && t[2] == 'm' && t[3] == 'p' && t[4] == ';' then "&" + Unescape(t[5..])
    else if |t| >= 4 && t[1] == 'l' && t[2] == 't' && t[3] == ';' then "<" + Unescape(t[4..])
    else if |t| >= 4 && t[1] == 'g' && t[2] == 't' && t[3] == ';' then ">" + Unescape(t[4..])
    else if |t| >= 6 && t[1] == 'q' && t[2] == 'u' && t[3] == 'o' && t[4] == 't' && t[5] == ';' then "\"" + Unescape(t[6..])
    else if |t| >= 6 && t[1] == '#' && t[2] == 'x' && t[3] == '2' && t[4] == '7' && t[5] == ';' then "'" + Unescape(t[6..])
    else "&" + Unescape(t[1..])
  }

  /** Reading back the entity of a character gives the character. */
  lemma UnescapeStep(c: char, rest: string)
    ensures Unescape(EscapeChar(c) + rest) == [c] + Unescape(rest)
  {
    var t := EscapeChar(c) + rest;
    assert t[|EscapeChar(c)|..] == rest;
  }

  /** Escaping loses nothing: the original text can be read back from the markup. */
  lemma {:induction false} EscapeRoundTrip(s: string)
    ensures Unescape(Escape(s)) == s
  {
    if |s| > 0 {
      UnescapeStep(s[0], Escape(s[1..]));
      EscapeRoundTrip(s[1..]);
    }
  }

  // ---------------------------------------------------------------------------
  // str.replace

  /** `rep` before, between and after the characters of `s`: `s.replace("", rep)`. */
  function Interleave(s: string, rep: string): string {
    if |s| == 0 then rep else rep + [s[0]] + Interleave(s[1..], rep)
  }

  /**
   * `s.replace(pat, rep)`: every occurrence of `pat`, found from left to right without
   * overlapping, replaced by `rep`.
   */
  function ReplaceAll(s: string, pat: string, rep: string): string
    decreases |s|
  {
    if |pat| == 0 then Interleave(s, rep)
    else if |s| == 0 then ""
    else if StartsWith(s, pat) then rep + ReplaceAll(s[|pat|..], pat, rep)
    else [s[0]] + ReplaceAll(s[1..], pat, rep)
  }

  /** An occurrence at the front is replaced, and the rest after it. */
  lemma ReplaceMatch(s: string, pat: string, rep: string)
    requires |pat| > 0 && StartsWith(s, pat)
    ensures ReplaceAll(s, pat, rep) == rep + ReplaceAll(s[|pat|..], pat, rep)
  {
  }

  /** A front character that begins no occurrence is kept. */
  lemma ReplaceNoMatch(s: string, pat: string, rep: string)
    requires |pat| > 0 && |s| > 0 && !StartsWith(s, pat)
    ensures ReplaceAll(s, pat, rep) == [s[0]] + ReplaceAll(s[1..], pat, rep)
  {
  }

  /**
   * Text in which no occurrence of the pattern can begin (it lacks the pattern's first
   * character) passes through unchanged, and what follows it is replaced as usual.
   */
  lemma {:induction false} ReplaceSkips(pre: string, rest: string, pat: string, rep: string)
    requires |pat| > 0 && pat[0] !in pre
    ensures ReplaceAll(pre + rest, pat, rep) == pre + ReplaceAll(rest, pat, rep)
  {
    if |pre| > 0 {
      assert (pre + rest)[0] == pre[0];
      if |pat| <= |pre + rest| {
        assert (pre + rest)[..|pat|][0] == pre[0];
      }
      assert !StartsWith(pre + rest, pat);
      assert (pre + rest)[1..] == pre[1..] + rest;
      ReplaceNoMatch(pre + rest, pat, rep);
      ReplaceSkips(pre[1..], rest, pat, rep);
      var r := ReplaceAll(rest, pat, rep);
      AppendAssoc([pre[0]], pre[1..], r);
      assert [pre[0]] + pre[1..] == pre;
    } else {
      assert pre + rest == rest;
    }
  }

  /** Without the pattern's first character, the text is left as it is. */
  lemma ReplaceAbsent(s: string, pat: string, rep: string)
    requires |pat| > 0 && pat[0] !in s
    ensures ReplaceAll(s, pat, rep) == s
  {
    ReplaceSkips(s, "", pat, rep);
    assert s + "" == s;
  }

  /**
   * A template holding its placeholder once, with no other text where an occurrence
   * could begin, gets the value in the placeholder's place.
   */
  lemma FillTemplate(pre: string, pat: string, post: string, rep: string)
    requires |pat| > 0 && pat[0] !in pre && pat[0] !in post
    ensures ReplaceAll(pre + pat + post, pat, rep) == pre + rep + post
  {
    ReplaceSkips(pre, pat + post, pat, rep);
    assert pre + pat + post == pre + (pat + post);
    assert (pat + post)[..|pat|] == pat;
    assert (pat + post)[|pat|..] == post;
    ReplaceAbsent(post, pat, rep);
  }

  /**
   * A last character that the pattern does not contain is never part of a replaced
   * occurrence, so the result is not empty and still ends with it.
   */
  lemma {:induction false} ReplaceKeepsLast(s: string, pat: string, rep: string)
    requires |pat| > 0 && |s| > 0 && s[|s| - 1] !in pat
    ensures |ReplaceAll(s, pat, rep)| > 0
    ensures ReplaceAll(s, pat, rep)[|ReplaceAll(s, pat, rep)| - 1] == s[|s| - 1]
    decreases |s|
  {
    if StartsWith(s, pat) {
      assert s[..|pat|][|pat| - 1] == s[|pat| - 1];
      var t := s[|pat|..];
      assert t[|t| - 1] == s[|s| - 1];
      ReplaceMatch(s, pat, rep);
      ReplaceKeepsLast(t, pat, rep);
      var r := ReplaceAll(t, pat, rep);
      assert (rep + r)[|rep + r| - 1] == r[|r| - 1];
    } else {
      ReplaceNoMatch(s, pat, rep);
      if |s| > 1 {
        var t := s[1..];
        assert t[|t| - 1] == s[|s| - 1];
        ReplaceKeepsLast(t, pat, rep);
        var r := ReplaceAll(t, pat, rep);
        assert ([s[0]] + r)[|[s[0]] + r| - 1] == r[|r| - 1];
      } else {
        assert s[1..] == "";
      }
    }
  }

  // ---------------------------------------------------------------------------
  // Filling one placeholder after another

  /** A placeholder such as `{{TITLE}}`: two braces, then text without a brace. */
  predicate IsPlaceholder(p: string) {
    |p| >= 3 && p[0] == '{' && p[1] == '{' && forall j :: 2 <= j < |p| ==> p[j] != '{'
  }

  /** Text whose character `k` differs from that of the pattern does not start with it. */
  lemma NotStartsWith(s: string, pat: string, k: nat)
    requires k < |s| && k < |pat| && s[k] != pat[k]
    ensures !StartsWith(s, pat)
  {
    if |pat| <= |s| {
      assert s[..|pat|][k] == s[k];
    }
  }

  /** A different placeholder in front is kept, and what follows it is replaced as usual. */
  lemma ReplaceSkipsPlaceholder(q: string, rest: string, pat: string, rep: string)
    requires IsPlaceholder(q) && IsPlaceholder(pat) && q[2] != pat[2]
    ensures ReplaceAll(q + rest, pat, rep) == q + ReplaceAll(rest, pat, rep)
  {
    var s, s1, s2 := q + rest, q[1..] + rest, q[2..] + rest;
    assert s[1..] == s1 && s1[1..] == s2 && s[2] == q[2] && s1[1] == q[2];
    NotStartsWith(s, pat, 2);
    NotStartsWith(s1, pat, 1);
    ReplaceNoMatch(s, pat, rep);
    ReplaceNoMatch(s1, pat, rep);
    ReplaceSkips(q[2..], rest, pat, rep);
    var r := ReplaceAll(rest, pat, rep);
    calc {
      ReplaceAll(s, pat, rep);
      [q[0]] + ([q[1]] + (q[2..] + r));
      { assert [q[0]] + ([q[1]] + q[2..]) == q; AppendAssoc([q[1]], q[2..], r); AppendAssoc([q[0]], [q[1]] + q[2..], r); }
      q + r;
    }
  }

  /**
   * No occurrence of `pat` can run from `u` into `r`: the last character of `u` is
   * not one an occurrence can go on from, or the first of `r` is not one it can go on to.
   */
  predicate NoStraddle(u: string, r: string, pat: string) {
    (|u| > 0 && |pat| > 0 && u[|u| - 1] !in pat[..|pat| - 1]) || (|r| > 0 && |pat| > 0 && r[0] !in pat[1..])
  }

  /** Where no occurrence straddles the boundary, `u + r` starts with `pat` just when `u` does. */
  lemma StartsAgree(u: string, r: string, pat: string)
    requires |u| > 0 && |pat| > 0 && NoStraddle(u, r, pat)
    ensures StartsWith(u + r, pat) == StartsWith(u, pat)
  {
    var s := u + r;
    if |pat| <= |u| {
      assert s[..|pat|] == u[..|pat|];
    } else if |u| > 0 && u[|u| - 1] !in pat[..|pat| - 1] {
      assert pat[..|pat| - 1][|u| - 1] == pat[|u| - 1];
      NotStartsWith(s, pat, |u| - 1);
    } else {
      assert pat[1..][|u| - 1] == pat[|u|];
      NotStartsWith(s, pat, |u|);
    }
  }

  /** Dropping a proper prefix of `u` keeps the boundary free of straddling occurrences. */
  lemma TailNoStraddle(u: string, r: string, pat: string, k: nat)
    requires 0 < k < |u| && NoStraddle(u, r, pat)
    ensures NoStraddle(u[k..], r, pat)
  {
    assert u[k..][|u| - k - 1] == u[|u| - 1];
  }

  /** Where no occurrence can straddle the boundary, each side is replaced on its own. */
  lemma {:induction false} ReplaceSplit(u: string, r: string, pat: string, rep: string)
    requires |pat| > 0 && NoStraddle(u, r, pat)
    ensures ReplaceAll(u + r, pat, rep) == ReplaceAll(u, pat, rep) + ReplaceAll(r, pat, rep)
    decreases |u|
  {
    if |u| == 0 {
      assert u + r == r;
    } else {
      var k, head := ReplaceHead(u, r, pat, rep);
      var u' := u[k..];
      if k < |u| {
        TailNoStraddle(u, r, pat, k);
        ReplaceSplit(u', r, pat, rep);
      } else {
        assert u' + r == r;
      }
      AppendAssoc(head, ReplaceAll(u', pat, rep), ReplaceAll(r, pat, rep));
    }
  }

  /** The first step of `str.replace` is the same on `u + r` as on `u`. */
  lemma ReplaceHead(u: string, r: string, pat: string, rep: string) returns (k: nat, head: string)
    requires |u| > 0 && |pat| > 0 && NoStraddle(u, r, pat)
    ensures 0 < k <= |u|
    ensures ReplaceAll(u + r, pat, rep) == head + ReplaceAll(u[k..] + r, pat, rep)
    ensures ReplaceAll(u, pat, rep) == head + ReplaceAll(u[k..], pat, rep)
  {
    StartsAgree(u, r, pat);
    if StartsWith(u, pat) {
      k, head := |pat|, rep;
      ReplaceMatch(u, pat, rep);
      ReplaceMatchBefore(u, r, pat, rep);
    } else {
      k, head := 1, [u[0]];
      ReplaceNoMatch(u, pat, rep);
      ReplaceNoMatchBefore(u, r, pat, rep);
    }
  }

  /** An occurrence at the front of `u` is replaced first in `u + r` too. */
  lemma ReplaceMatchBefore(u: string, r: string, pat: string, rep: string)
    requires |pat| > 0 && StartsWith(u, pat)
    ensures ReplaceAll(u + r, pat, rep) == rep + ReplaceAll(u[|pat|..] + r, pat, rep)
  {
    assert (u + r)[..|pat|] == u[..|pat|];
    assert (u + r)[|pat|..] == u[|pat|..] + r;
    ReplaceMatch(u + r, pat, rep);
  }

  /** Without an occurrence at the front of `u + r`, its first character is kept. */
  lemma ReplaceNoMatchBefore(u: string, r: string, pat: string, rep: string)
    requires |pat| > 0 && |u| > 0 && !StartsWith(u + r, pat)
    ensures ReplaceAll(u + r, pat, rep) == [u[0]] + ReplaceAll(u[1..] + r, pat, rep)
  {
    assert (u + r)[1..] == u[1..] + r;
    ReplaceNoMatch(u + r, pat, rep);
  }

  /** Where no occurrence straddles either boundary, the three parts are replaced on their own. */
  lemma ReplaceAround(u: string, x: string, w: string, pat: string, rep: string)
    requires |pat| > 0 && NoStraddle(u, x + w, pat) && NoStraddle(x, w, pat)
    ensures ReplaceAll(u + x + w, pat, rep)
      == ReplaceAll(u, pat, rep) + ReplaceAll(x, pat, rep) + ReplaceAll(w, pat, rep)
  {
    AppendAssoc(u, x, w);
    ReplaceSplit(u, x + w, pat, rep);
    ReplaceSplit(x, w, pat, rep);
    AppendAssoc(ReplaceAll(u, pat, rep), ReplaceAll(x, pat, rep), ReplaceAll(w, pat, rep));
  }

  /**
   * A placeholder standing between `h` and `t`, which neither ends nor starts like
   * a piece of it, becomes `rep`, and the text on each side is replaced on its own.
   */
  lemma FillPlaceholder(h: string, pat: string, t: string, rep: string)
    requires |pat| > 0 && |h| > 0 && |t| > 0
    requires h[|h| - 1] !in pat[..|pat| - 1] && t[0] !in pat[1..]
    ensures ReplaceAll(h + pat + t, pat, rep) == ReplaceAll(h, pat, rep) + rep + ReplaceAll(t, pat, rep)
  {
    ReplaceAround(h, pat, t, pat, rep);
    ReplaceMatch(pat, pat, rep);
    assert pat[|pat|..] == "" && rep + "" == rep;
  }

  /** Such a filled placeholder holds its value. */
  lemma FillPlaceholderHolds(h: string, pat: string, t: string, rep: string)
    requires |pat| > 0 && |h| > 0 && |t| > 0
    requires h[|h| - 1] !in pat[..|pat| - 1] && t[0] !in pat[1..]
    ensures Contains(ReplaceAll(h + pat + t, pat, rep), rep)
  {
    FillPlaceholder(h, pat, t, rep);
    ContainsMiddle(ReplaceAll(h, pat, rep), rep, ReplaceAll(t, pat, rep));
  }

  /**
   * An attribute `pre + pat + post` standing between `h` and `t` gets `rep` for its
   * placeholder, and the text on each side is replaced on its own.
   */
  lemma FillBetween(h: string, pre: string, pat: string, post: string, t: string, rep: string)
    requires |pat| > 0 && |pre| > 0 && |post| > 0 && pat[0] !in pre && pat[0] !in post
    requires pre[0] !in pat[1..] && post[|post| - 1] !in pat[..|pat| - 1]
    ensures ReplaceAll(h + (pre + pat + post) + t, pat, rep)
      == ReplaceAll(h, pat, rep) + (pre + rep + post) + ReplaceAll(t, pat, rep)
  {
    var x := pre + pat + post;
    assert (x + t)[0] == pre[0] && x[|x| - 1] == post[|post| - 1];
    ReplaceAround(h, x, t, pat, rep);
    FillTemplate(pre, pat, post, rep);
  }

  /**
   * An attribute `pre + q + post` whose placeholder is another one than `pat` is kept
   * whole between `h` and `t`.
   */
  lemma KeepBetween(h: string, pre: string, q: string, post: string, t: string, pat: string, rep: string)
    requires IsPlaceholder(q) && IsPlaceholder(pat) && q[2] != pat[2]
    requires |pre| > 0 && |post| > 0 && pat[0] !in pre && pat[0] !in post
    requires pre[0] !in pat[1..] && post[|post| - 1] !in pat[..|pat| - 1]
    ensures ReplaceAll(h + (pre + q + post) + t, pat, rep)
      == ReplaceAll(h, pat, rep) + (pre + q + post) + ReplaceAll(t, pat, rep)
  {
    var x := pre + q + post;
    assert (x + t)[0] == pre[0] && x[|x| - 1] == post[|post| - 1];
    ReplaceAround(h, x, t, pat, rep);
    KeepSlot(pre, q, post, pat, rep);
  }

  /** An attribute whose placeholder is another one than `pat` is kept whole. */
  lemma KeepSlot(pre: string, q: string, post: string, pat: string, rep: string)
    requires IsPlaceholder(q) && IsPlaceholder(pat) && q[2] != pat[2]
    requires pat[0] !in pre && pat[0] !in post
    ensures ReplaceAll(pre + q + post, pat, rep) == pre + q + post
  {
    AppendAssoc(pre, q, post);
    ReplaceSkips(pre, q + post, pat, rep);
    ReplaceSkipsPlaceholder(q, post, pat, rep);
    ReplaceAbsent(post, pat, rep);
  }

  /** A first character that does not begin the pattern is kept in front. */
  lemma ReplaceKeepsFirst(s: string, pat: string, rep: string)
    requires |pat| > 0 && |s| > 0 && s[0] != pat[0]
    ensures |ReplaceAll(s, pat, rep)| > 0 && ReplaceAll(s, pat, rep)[0] == s[0]
  {
    NotStartsWith(s, pat, 0);
    ReplaceNoMatch(s, pat, rep);
  }

  /** `s` is `u + x + w` for the two texts returned. */
  lemma {:induction false} ContainsSplit(s: string, x: string) returns (u: string, w: string)
    requires Contains(s, x)
    ensures s == u + x + w
    decreases |s|
  {
    if StartsWith(s, x) {
      u, w := "", s[|x|..];
      assert s == s[..|x|] + s[|x|..];
    } else {
      var u', w' := ContainsSplit(s[1..], x);
      u, w := [s[0]] + u', w';
      assert s == [s[0]] + s[1..];
    }
  }

  /**
   * Text without the pattern's first character, which starts with a character the
   * pattern does not hold, is still in the text after `str.replace`.
   */
  lemma ContainsSurvives(s: string, x: string, pat: string, rep: string)
    requires Contains(s, x) && |x| > 0 && |pat| > 0 && pat[0] !in x && x[0] !in pat
    ensures Contains(ReplaceAll(s, pat, rep), x)
  {
    var u, w := ContainsSplit(s, x);
    assert x[0] !in pat[1..];
    AppendAssoc(u, x, w);
    ReplaceSplit(u, x + w, pat, rep);
    ReplaceSkips(x, w, pat, rep);
    ContainsMiddle(ReplaceAll(u, pat, rep), x, ReplaceAll(w, pat, rep));
    AppendAssoc(ReplaceAll(u, pat, rep), x, ReplaceAll(w, pat, rep));
  }
}
