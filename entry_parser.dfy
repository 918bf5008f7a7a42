/**
 * The reader of portfolio entry files (`content.yaml`): a line-indexed scanner over a
 * small subset of YAML. Top-level lines are `key: value`; a value that opens with a
 * double quote is a (possibly multi-line) quoted block, an empty value opens a list of
 * `- key: value` items indented by two spaces whose further pairs are indented by four,
 * and any other value is a scalar. Blank lines, `#` comments and lines that are none of
 * these are skipped.
 *
 * Each scanning routine of the script is a method with its loop, proved equal to a
 * specification function; the properties of the grammar are lemmas about those
 * functions.
 */
module EntryParser {
  import opened Text

  /** One list item: a dictionary from sub-key to cleaned scalar. */
  type Item = map<string, string>

  /** What a top-level key maps to: text (scalars and quoted blocks) or a list of items. */
  datatype Value = Str(text: string) | Items(items: seq<Item>)

  // ---------------------------------------------------------------------------
  // Line classification

  /** `not stripped or stripped.startswith("#")` */
  predicate IsSkippable(line: string) {
    var t := Strip(line);
    |t| == 0 || t[0] == '#'
  }

  /** A line that holds a comment: stripped, it starts with `#`. */
  predicate IsComment(line: string) {
    var t := Strip(line);
    |t| != 0 && t[0] == '#'
  }

  /** `":" in s` */
  predicate HasColon(s: string) {
    Find(s, ':') < |s|
  }

  /** A line that introduces a top-level key. */
  predicate IsKeyLine(line: string) {
    !IsSkippable(line) && HasColon(line)
  }

  /** `key, value = line.split(":", 1)`, then `key.strip()`. */
  function KeyOf(line: string): string {
    Strip(line[..Find(line, ':')])
  }

  /** `key, value = line.split(":", 1)`, then `value.lstrip()`. */
  function ValueOf(line: string): string
    requires HasColon(line)
  {
    LStrip(line[Find(line, ':') + 1..])
  }

  /** `s[1:]` */
  function Drop1(s: string): string {
    if |s| == 0 then [] else s[1..]
  }

  /** `s[:-1]` */
  function DropLast(s: string): string {
    if |s| == 0 then [] else s[..|s| - 1]
  }

  // ---------------------------------------------------------------------------
  // _clean_scalar

  /** Both ends are a double quote, and there are at least two characters. */
  predicate IsQuoted(t: string) {
    |t| >= 2 && t[0] == '"' && t[|t| - 1] == '"'
  }

  /**
   * `_clean_scalar`: strips the value, removes one pair of surrounding double quotes
   * when there is one, and strips again.
   */
  function CleanScalar(value: string): (r: string)
    ensures IsStripped(r)
    ensures |r| <= |value|
  {
    var t := Strip(value);
    if IsQuoted(t) then Strip(t[1..|t| - 1]) else t
  }

  /** A stripped value that is not wrapped in quotes comes back unchanged. */
  lemma CleanScalarPlain(value: string)
    requires IsStripped(value) && !IsQuoted(value)
    ensures CleanScalar(value) == value
  {
    StripOfStripped(value);
  }

  /**
   * Exactly one pair of quotes is removed, whatever whitespace surrounds them, and the
   * text inside is stripped.
   */
  lemma CleanScalarQuoted(pre: string, s: string, post: string)
    requires AllSpace(pre) && AllSpace(post)
    ensures CleanScalar(pre + "\"" + s + "\"" + post) == Strip(s)
  {
    var q := "\"" + s + "\"";
    assert pre + "\"" + s + "\"" + post == pre + q + post;
    StripPadded(pre, q, post);
    assert q[1..|q| - 1] == s;
  }

  // ---------------------------------------------------------------------------
  // _parse_quoted_block

  /** `t.endswith('"') and not t.endswith('\\"')` */
  predicate EndsWithUnescapedQuote(t: string) {
    EndsWith(t, "\"") && !EndsWith(t, "\\\"")
  }

  /** A line that closes a multi-line quoted block (a comment line never does). */
  predicate IsClosingLine(line: string) {
    var t := Strip(line);
    |t| != 0 && t[0] != '#' && EndsWithUnescapedQuote(t)
  }

  /**
   * The loop of `_parse_quoted_block` from line `i` on, with the pieces gathered so far:
   * a blank line adds an empty piece, a comment line adds nothing, the first closing line
   * adds its right-stripped text without the final quote and ends the block, and any
   * other line adds its right-stripped text. The result is the pieces and the index of
   * the first line after the block.
   */
  function QuotedLines(lines: seq<string>, i: nat, pieces: seq<string>): (r: (seq<string>, nat))
    ensures i <= r.1 && (r.1 <= |lines| || r.1 == i)
    decreases |lines| - i
  {
    if i >= |lines| then (pieces, i)
    else if IsBlank(lines[i]) then QuotedLines(lines, i + 1, pieces + [""])
    else if IsComment(lines[i]) then QuotedLines(lines, i + 1, pieces)
    else if EndsWithUnescapedQuote(Strip(lines[i])) then (pieces + [DropLast(RStrip(lines[i]))], i + 1)
    else QuotedLines(lines, i + 1, pieces + [RStrip(lines[i])])
  }

  /** The pieces after a line that does not close the block. */
  function NextPieces(line: string, pieces: seq<string>): seq<string> {
    if IsBlank(line) then pieces + [""]
    else if IsComment(line) then pieces
    else pieces + [RStrip(line)]
  }

  /** A line that does not close the block adds its piece and the scan goes on. */
  lemma QuotedLinesSkip(lines: seq<string>, i: nat, pieces: seq<string>)
    requires i < |lines| && !IsClosingLine(lines[i])
    ensures QuotedLines(lines, i, pieces) == QuotedLines(lines, i + 1, NextPieces(lines[i], pieces))
  {
  }

  /** A closing line adds its last piece and ends the scan just after it. */
  lemma QuotedLinesClose(lines: seq<string>, i: nat, pieces: seq<string>)
    requires i < |lines| && IsClosingLine(lines[i])
    ensures QuotedLines(lines, i, pieces) == (pieces + [DropLast(RStrip(lines[i]))], i + 1)
  {
  }

  /** At the end of the file the scan stops with the pieces it has. */
  lemma QuotedLinesDone(lines: seq<string>, i: nat, pieces: seq<string>)
    requires i >= |lines|
    ensures QuotedLines(lines, i, pieces) == (pieces, i)
  {
  }

  /** Where the scan from line `i` stops: just after the first closing line, or at the end. */
  function QuotedEnd(lines: seq<string>, i: nat): nat
    decreases |lines| - i
  {
    if i >= |lines| then i
    else if IsClosingLine(lines[i]) then i + 1
    else QuotedEnd(lines, i + 1)
  }

  /** The index `QuotedLines` returns does not depend on the pieces: it is `QuotedEnd`. */
  lemma {:induction false} QuotedLinesEnd(lines: seq<string>, i: nat, pieces: seq<string>)
    ensures QuotedLines(lines, i, pieces).1 == QuotedEnd(lines, i)
    decreases |lines| - i
  {
    if i < |lines| {
      if IsClosingLine(lines[i]) {
        QuotedLinesClose(lines, i, pieces);
      } else {
        QuotedLinesSkip(lines, i, pieces);
        QuotedLinesEnd(lines, i + 1, NextPieces(lines[i], pieces));
      }
    }
  }

  /**
   * `_parse_quoted_block(lines, idx, current)`: the block's raw text and the index of
   * the first line after it. A value that closes on its own line ends there; otherwise
   * the text after the opening quote is the first piece (when not empty) and the
   * following lines are scanned by `QuotedLines`.
   */
  function QuotedBlock(lines: seq<string>, idx: nat, current: string): (r: (string, nat))
    ensures idx < r.1
    ensures idx < |lines| ==> r.1 <= |lines|
  {
    var text := Drop1(current);
    if EndsWithUnescapedQuote(text) then (text[..|text| - 1], idx + 1)
    else
      var q := QuotedLines(lines, idx + 1, if |text| > 0 then [text] else []);
      (Join("\n", q.0), q.1)
  }

  /** A value that does not close on its own line is joined from the scan after it. */
  lemma QuotedBlockOpen(lines: seq<string>, idx: nat, current: string)
    requires !EndsWithUnescapedQuote(Drop1(current))
    ensures var t := Drop1(current);
      var q := QuotedLines(lines, idx + 1, if |t| > 0 then [t] else []);
      QuotedBlock(lines, idx, current) == (Join("\n", q.0), q.1)
  {
  }

  /**
   * One line of the loop of `_parse_quoted_block`: the pieces after it, and whether it
   * closes the block.
   */
  method QuotedStep(segment: string, pieces: seq<string>) returns (after: seq<string>, closes: bool)
    ensures closes == IsClosingLine(segment)
    ensures closes ==> after == pieces + [DropLast(RStrip(segment))]
    ensures !closes ==> after == NextPieces(segment, pieces)
  {
    var stripped := Strip(segment);
    if |stripped| == 0 {
      return pieces + [""], false;
    }
    if stripped[0] == '#' {
      return pieces, false;
    }
    if EndsWithUnescapedQuote(stripped) {
      return pieces + [DropLast(RStrip(segment))], true;
    }
    return pieces + [RStrip(segment)], false;
  }

  /** The loop of `_parse_quoted_block`, from line `start` on with the first pieces. */
  method ScanQuotedLines(lines: seq<string>, start: nat, first: seq<string>) returns (pieces: seq<string>, next: nat)
    ensures (pieces, next) == QuotedLines(lines, start, first)
  {
    pieces, next := first, start;
    while next < |lines|
      invariant start <= next
      invariant QuotedLines(lines, start, first) == QuotedLines(lines, next, pieces)
      decreases |lines| - next
    {
      var after, closes := QuotedStep(lines[next], pieces);
      if closes {
        QuotedLinesClose(lines, next, pieces);
        return after, next + 1;
      }
      QuotedLinesSkip(lines, next, pieces);
      pieces, next := after, next + 1;
    }
    QuotedLinesDone(lines, next, pieces);
  }

  method ParseQuotedBlock(lines: seq<string>, idx: nat, current: string) returns (text: string, next: nat)
    ensures (text, next) == QuotedBlock(lines, idx, current)
  {
    var t := Drop1(current);
    if EndsWithUnescapedQuote(t) {
      return t[..|t| - 1], idx + 1;
    }
    var first: seq<string> := [];
    if |t| > 0 {
      first := first + [t];
    }
    assert first == if |t| > 0 then [t] else [];
    var pieces;
    pieces, next := ScanQuotedLines(lines, idx + 1, first);
    QuotedBlockOpen(lines, idx, current);
    text := Join("\n", pieces);
  }

  // ---------------------------------------------------------------------------
  // _parse_list_block

  /** A line that ends a list block: not blank, not a comment, not indented by two spaces. */
  predicate IsListEnd(line: string) {
    !IsSkippable(line) && !StartsWith(line, "  ")
  }

  /** `if ":" in s: k, v = s.split(":", 1); entry[k.strip()] = _clean_scalar(v)` */
  function AddPair(entry: Item, s: string): (r: Item)
    ensures entry.Keys <= r.Keys
  {
    if HasColon(s) then
      var c := Find(s, ':');
      entry[Strip(s[..c]) := CleanScalar(s[c + 1..])]
    else entry
  }

  /**
   * The inner loop of `_parse_list_block`: the pairs on the lines indented by four
   * spaces that follow an item's `-` line, and the index where they stop.
   */
  function DetailBlock(lines: seq<string>, i: nat, entry: Item): (r: (Item, nat))
    ensures i <= r.1 && (r.1 <= |lines| || r.1 == i)
    ensures r.1 < |lines| ==> !IsSkippable(lines[r.1]) && !StartsWith(lines[r.1], "    ")
    ensures forall j :: i <= j < r.1 && j < |lines| ==> IsSkippable(lines[j]) || StartsWith(lines[j], "    ")
    ensures entry.Keys <= r.0.Keys
    decreases |lines| - i
  {
    if i >= |lines| then (entry, i)
    else if IsSkippable(lines[i]) then DetailBlock(lines, i + 1, entry)
    else if !StartsWith(lines[i], "    ") then (entry, i)
    else DetailBlock(lines, i + 1, AddPair(entry, Strip(lines[i])))
  }

  /** A line indented by four spaces stores its pair and the block goes on. */
  lemma DetailBlockPair(lines: seq<string>, i: nat, entry: Item)
    requires i < |lines| && !IsSkippable(lines[i]) && StartsWith(lines[i], "    ")
    ensures DetailBlock(lines, i, entry) == DetailBlock(lines, i + 1, AddPair(entry, Strip(lines[i])))
  {
  }

  /** The block stops at the end of the file and at a line not indented by four spaces. */
  lemma DetailBlockEnd(lines: seq<string>, i: nat, entry: Item)
    requires i < |lines| ==> !IsSkippable(lines[i]) && !StartsWith(lines[i], "    ")
    ensures DetailBlock(lines, i, entry) == (entry, i)
  {
  }

  /**
   * The item a `-` line starts (given stripped), before its detail lines: the pair
   * written after the dash, if there is one.
   */
  function ItemHead(stripped: string): Item {
    AddPair(map[], Strip(Drop1(stripped)))
  }

  /** The start of an item in `_parse_list_block`. */
  method ParseItemHead(stripped: string) returns (entry: Item)
    ensures entry == ItemHead(stripped)
  {
    entry := map[];
    var inline := Strip(Drop1(stripped));
    if |inline| > 0 && HasColon(inline) {
      var c := Find(inline, ':');
      entry := entry[Strip(inline[..c]) := CleanScalar(inline[c + 1..])];
    }
  }

  /** A list item starts here: indented by two spaces, stripped it begins with `-`. */
  predicate IsDashLine(line: string) {
    var t := Strip(line);
    |t| != 0 && t[0] == '-'
  }

  /**
   * The outer loop of `_parse_list_block` from line `i` on, with the items gathered so
   * far: blank and comment lines are passed over, a line not indented by two spaces ends
   * the list, a `-` line starts an item that takes its detail lines, and any other
   * indented line is passed over. The result is the items and the index of the line that
   * ends the list (or the end of the file).
   */
  function ListItems(lines: seq<string>, i: nat, items: seq<Item>): (r: (seq<Item>, nat))
    ensures i <= r.1 && (r.1 <= |lines| || r.1 == i)
    decreases |lines| - i
  {
    if i >= |lines| then (items, i)
    else if IsSkippable(lines[i]) then ListItems(lines, i + 1, items)
    else if !StartsWith(lines[i], "  ") then (items, i)
    else if IsDashLine(lines[i]) then
      var d := DetailBlock(lines, i + 1, ItemHead(Strip(lines[i])));
      ListItems(lines, d.1, items + [d.0])
    else ListItems(lines, i + 1, items)
  }

  /** A blank or comment line is passed over. */
  lemma ListItemsSkip(lines: seq<string>, i: nat, items: seq<Item>)
    requires i < |lines| && IsSkippable(lines[i])
    ensures ListItems(lines, i, items) == ListItems(lines, i + 1, items)
  {
  }

  /** A line that ends the list ends the scan there. */
  lemma ListItemsEnd(lines: seq<string>, i: nat, items: seq<Item>)
    requires i < |lines| && IsListEnd(lines[i])
    ensures ListItems(lines, i, items) == (items, i)
  {
  }

  /** A `-` line adds the item it starts and the scan goes on after its detail lines. */
  lemma ListItemsDash(lines: seq<string>, i: nat, items: seq<Item>)
    requires i < |lines| && !IsSkippable(lines[i]) && StartsWith(lines[i], "  ") && IsDashLine(lines[i])
    ensures var d := DetailBlock(lines, i + 1, ItemHead(Strip(lines[i])));
      ListItems(lines, i, items) == ListItems(lines, d.1, items + [d.0])
  {
  }

  /** Any other indented line is passed over. */
  lemma ListItemsOther(lines: seq<string>, i: nat, items: seq<Item>)
    requires i < |lines| && !IsSkippable(lines[i]) && StartsWith(lines[i], "  ") && !IsDashLine(lines[i])
    ensures ListItems(lines, i, items) == ListItems(lines, i + 1, items)
  {
  }

  /** `_parse_list_block(lines, idx)` */
  function ListBlock(lines: seq<string>, idx: nat): (r: (seq<Item>, nat))
    ensures idx <= r.1 && (r.1 <= |lines| || r.1 == idx)
  {
    ListItems(lines, idx, [])
  }

  method ParseListBlock(lines: seq<string>, idx: nat) returns (items: seq<Item>, next: nat)
    ensures (items, next) == ListBlock(lines, idx)
  {
    items := [];
    next := idx;
    while next < |lines|
      invariant idx <= next
      invariant ListItems(lines, idx, []) == ListItems(lines, next, items)
      decreases |lines| - next
    {
      var line := lines[next];
      var stripped := Strip(line);
      if |stripped| == 0 || stripped[0] == '#' {
        ListItemsSkip(lines, next, items);
        next := next + 1;
        continue;
      }
      if !StartsWith(line, "  ") {
        ListItemsEnd(lines, next, items);
        break;
      }
      if stripped[0] == '-' {
        ListItemsDash(lines, next, items);
        var entry := ParseItemHead(stripped);
        entry, next := ParseItemDetails(lines, next + 1, entry);
        items := items + [entry];
      } else {
        ListItemsOther(lines, next, items);
        next := next + 1;
      }
    }
    assert ListItems(lines, next, items) == (items, next);
  }

  /** The inner loop of `_parse_list_block`, which adds the detail pairs to `entry`. */
  method ParseItemDetails(lines: seq<string>, idx: nat, entry: Item) returns (item: Item, next: nat)
    ensures (item, next) == DetailBlock(lines, idx, entry)
  {
    item := entry;
    next := idx;
    while next < |lines|
      invariant idx <= next
      invariant DetailBlock(lines, idx, entry) == DetailBlock(lines, next, item)
      decreases |lines| - next
    {
      var detail := lines[next];
      var strippedDetail := Strip(detail);
      if |strippedDetail| == 0 || strippedDetail[0] == '#' {
        next := next + 1;
        continue;
      }
      if !StartsWith(detail, "    ") {
        break;
      }
      if HasColon(strippedDetail) {
        var c := Find(strippedDetail, ':');
        item := item[Strip(strippedDetail[..c]) := CleanScalar(strippedDetail[c + 1..])];
      }
      next := next + 1;
    }
  }

  // ---------------------------------------------------------------------------
  // _normalize_multiline

  /** The number of blank lines at the front. */
  function LeadingBlanks(lines: seq<string>): (k: nat)
    ensures k <= |lines|
    ensures k < |lines| ==> !IsBlank(lines[k])
  {
    if |lines| > 0 && IsBlank(lines[0]) then 1 + LeadingBlanks(lines[1..]) else 0
  }

  /** The number of blank lines at the back. */
  function TrailingBlanks(lines: seq<string>): (k: nat)
    ensures k <= |lines|
    ensures k < |lines| ==> !IsBlank(lines[|lines| - 1 - k])
  {
    if |lines| > 0 && IsBlank(lines[|lines| - 1]) then 1 + TrailingBlanks(lines[..|lines| - 1]) else 0
  }

  /** Only blank lines are counted at the front. */
  lemma {:induction false} LeadingBlanksAreBlank(lines: seq<string>)
    ensures forall i :: 0 <= i < LeadingBlanks(lines) ==> IsBlank(lines[i])
  {
    if |lines| > 0 && IsBlank(lines[0]) {
      LeadingBlanksAreBlank(lines[1..]);
      assert forall i :: 1 <= i < |lines| ==> lines[i] == lines[1..][i - 1];
    }
  }

  /** Only blank lines are counted at the back. */
  lemma {:induction false} TrailingBlanksAreBlank(lines: seq<string>)
    ensures forall i :: |lines| - TrailingBlanks(lines) <= i < |lines| ==> IsBlank(lines[i])
  {
    if |lines| > 0 && IsBlank(lines[|lines| - 1]) {
      TrailingBlanksAreBlank(lines[..|lines| - 1]);
      assert forall i :: 0 <= i < |lines| - 1 ==> lines[i] == lines[..|lines| - 1][i];
    }
  }

  /** The lines without the blank ones at either end. */
  function TrimBlankLines(lines: seq<string>): seq<string> {
    var front := lines[LeadingBlanks(lines)..];
    front[..|front| - TrailingBlanks(front)]
  }

  /**
   * `_normalize_multiline(text)`: the lines of `text` without leading and trailing blank
   * lines, dedented, joined and stripped; `""` when every line is blank.
   */
  function Normalized(text: string): (r: string)
    ensures IsStripped(r)
  {
    var lines := TrimBlankLines(SplitLines(text));
    if |lines| == 0 then "" else Strip(Join("\n", Dedent(lines)))
  }

  /** What the two popping loops leave is the text's lines without blank ones at either end. */
  lemma TrimmedByLoops(all: seq<string>, front: seq<string>, lines: seq<string>)
    requires front == all[LeadingBlanks(all)..]
    requires |lines| <= |front| && lines == front[..|lines|]
    requires TrailingBlanks(front) + |lines| == |front| + TrailingBlanks(lines)
    requires !(|lines| > 0 && IsBlank(lines[|lines| - 1]))
    ensures TrimBlankLines(all) == lines
  {
  }

  method NormalizeMultiline(text: string) returns (r: string)
    ensures r == Normalized(text)
  {
    var lines := SplitLines(text);
    ghost var all := lines;
    ghost var k := 0;
    while |lines| > 0 && IsBlank(lines[0])
      invariant k <= |all| && lines == all[k..]
      invariant LeadingBlanks(all) == k + LeadingBlanks(lines)
      decreases |lines|
    {
      assert LeadingBlanks(lines) == 1 + LeadingBlanks(lines[1..]);
      assert all[k + 1..] == lines[1..];
      lines := lines[1..];
      k := k + 1;
    }
    ghost var front := lines;
    assert LeadingBlanks(lines) == 0 && front == all[LeadingBlanks(all)..];
    while |lines| > 0 && IsBlank(lines[|lines| - 1])
      invariant |lines| <= |front| && lines == front[..|lines|]
      invariant TrailingBlanks(front) + |lines| == |front| + TrailingBlanks(lines)
      decreases |lines|
    {
      assert TrailingBlanks(lines) == 1 + TrailingBlanks(lines[..|lines| - 1]);
      assert front[..|lines| - 1] == lines[..|lines| - 1];
      lines := lines[..|lines| - 1];
    }
    TrimmedByLoops(all, front, lines);
    if |lines| == 0 {
      return "";
    }
    r := Strip(Join("\n", Dedent(lines)));
  }

  // ---------------------------------------------------------------------------
  // parse_simple_yaml

  /** One top-level `key: value` found on line `line`. */
  datatype Binding = Binding(line: nat, key: string, value: Value)

  /**
   * The bindings `parse_simple_yaml` meets from line `idx` on, in order; the block
   * values consume the lines they span.
   */
  function Bindings(lines: seq<string>, idx: nat): seq<Binding>
    decreases |lines| - idx
  {
    if idx >= |lines| then []
    else
      var line := lines[idx];
      if !IsKeyLine(line) then Bindings(lines, idx + 1)
      else
        var key := KeyOf(line);
        var value := ValueOf(line);
        if |value| > 0 && value[0] == '"' then
          var q := QuotedBlock(lines, idx, value);
          [Binding(idx, key, Str(Normalized(q.0)))] + Bindings(lines, q.1)
        else if |value| == 0 then
          var l := ListBlock(lines, idx + 1);
          [Binding(idx, key, Items(l.0))] + Bindings(lines, l.1)
        else
          [Binding(idx, key, Str(CleanScalar(value)))] + Bindings(lines, idx + 1)
  }

  /** Stores the bindings into `data` in order, a later one replacing an earlier one. */
  function Apply(data: map<string, Value>, bs: seq<Binding>): map<string, Value>
    decreases |bs|
  {
    if |bs| == 0 then data else Apply(data[bs[0].key := bs[0].value], bs[1..])
  }

  /** `parse_simple_yaml(source)` */
  function Parse(source: string): map<string, Value> {
    Apply(map[], Bindings(SplitLines(source), 0))
  }

  /** Applying a binding first and then the rest. */
  lemma ApplyCons(data: map<string, Value>, b: Binding, rest: seq<Binding>)
    ensures Apply(data, [b] + rest) == Apply(data[b.key := b.value], rest)
  {
    assert ([b] + rest)[1..] == rest;
  }

  method ParseSimpleYaml(source: string) returns (data: map<string, Value>)
    ensures data == Parse(source)
  {
    var lines := SplitLines(source);
    data := map[];
    var idx: nat := 0;
    while idx < |lines|
      invariant Apply(data, Bindings(lines, idx)) == Parse(source)
      decreases |lines| - idx
    {
      var line := lines[idx];
      var stripped := Strip(line);
      if |stripped| == 0 || stripped[0] == '#' {
        idx := idx + 1;
        continue;
      }
      if !HasColon(line) {
        idx := idx + 1;
        continue;
      }
      var c := Find(line, ':');
      var key := Strip(line[..c]);
      var value := LStrip(line[c + 1..]);
      assert IsKeyLine(line) && key == KeyOf(line) && value == ValueOf(line);
      if |value| > 0 && value[0] == '"' {
        var text, after := ParseQuotedBlock(lines, idx, value);
        var normalized := NormalizeMultiline(text);
        ApplyCons(data, Binding(idx, key, Str(normalized)), Bindings(lines, after));
        data := data[key := Str(normalized)];
        idx := after;
        continue;
      }
      if |value| == 0 {
        idx := idx + 1;
        var items, after := ParseListBlock(lines, idx);
        ApplyCons(data, Binding(idx - 1, key, Items(items)), Bindings(lines, after));
        data := data[key := Items(items)];
        idx := after;
        continue;
      }
      ApplyCons(data, Binding(idx, key, Str(CleanScalar(value))), Bindings(lines, idx + 1));
      data := data[key := Str(CleanScalar(value))];
      idx := idx + 1;
    }
  }
}
