/**
 * Properties of the entry-file grammar, stated about the specification functions of
 * `EntryParser` (and so, through their `ensures`, about the scanning methods).
 */
module EntryProperties {
  import opened Text
  import opened EntryParser

  // ---------------------------------------------------------------------------
  // Quoted blocks

  /** A multi-line quoted block does not run past a closing line. */
  lemma QuotedLinesNoEarlyClose(lines: seq<string>, i: nat, pieces: seq<string>)
    ensures forall j :: i <= j < QuotedLines(lines, i, pieces).1 - 1 && j < |lines| ==> !IsClosingLine(lines[j])
  {
    QuotedLinesEnd(lines, i, pieces);
    QuotedEndNoEarlyClose(lines, i);
  }

  lemma {:induction false} QuotedEndNoEarlyClose(lines: seq<string>, i: nat)
    ensures forall j :: i <= j < QuotedEnd(lines, i) - 1 && j < |lines| ==> !IsClosingLine(lines[j])
    decreases |lines| - i
  {
    if i < |lines| && !IsClosingLine(lines[i]) {
      QuotedEndNoEarlyClose(lines, i + 1);
    }
  }

  /**
   * A multi-line quoted block that stops before the end of the file stops just after a
   * closing line; with `QuotedLinesNoEarlyClose`, that is the first closing line at or
   * after `i`.
   */
  lemma QuotedLinesEndsAtClose(lines: seq<string>, i: nat, pieces: seq<string>)
    ensures QuotedLines(lines, i, pieces).1 < |lines| ==>
      i < QuotedLines(lines, i, pieces).1 && IsClosingLine(lines[QuotedLines(lines, i, pieces).1 - 1])
  {
    QuotedLinesEnd(lines, i, pieces);
    QuotedEndAtClose(lines, i);
  }

  lemma QuotedEndAtClose(lines: seq<string>, i: nat)
    ensures QuotedEnd(lines, i) < |lines| ==> i < QuotedEnd(lines, i) && IsClosingLine(lines[QuotedEnd(lines, i) - 1])
  {
    var e := QuotedEnd(lines, i);
    if e < |lines| {
      QuotedEndClosing(lines, i, e);
    }
  }

  lemma {:induction false} QuotedEndClosing(lines: seq<string>, i: nat, e: nat)
    requires e == QuotedEnd(lines, i) && e < |lines|
    ensures i < e && IsClosingLine(lines[e - 1])
    decreases |lines| - i
  {
    assert i < |lines|;
    if IsClosingLine(lines[i]) {
      assert lines[e - 1] == lines[i];
    } else {
      QuotedEndClosing(lines, i + 1, e);
    }
  }

  /** The pieces gathered before the scan are kept in front, in order. */
  lemma {:induction false} QuotedLinesKeepsPieces(lines: seq<string>, i: nat, pieces: seq<string>)
    ensures |pieces| <= |QuotedLines(lines, i, pieces).0|
    ensures QuotedLines(lines, i, pieces).0[..|pieces|] == pieces
    decreases |lines| - i
  {
    if i < |lines| {
      if IsClosingLine(lines[i]) {
        QuotedLinesClose(lines, i, pieces);
        assert (pieces + [DropLast(RStrip(lines[i]))])[..|pieces|] == pieces;
      } else {
        var p := NextPieces(lines[i], pieces);
        QuotedLinesSkip(lines, i, pieces);
        QuotedLinesKeepsPieces(lines, i + 1, p);
        var r := QuotedLines(lines, i + 1, p).0;
        assert p[..|pieces|] == pieces;
        assert r[..|pieces|] == r[..|p|][..|pieces|];
      }
    }
  }


  /** A value that opens and closes its quotes on the key's own line is that line's text. */
  lemma QuotedBlockInline(lines: seq<string>, idx: nat, s: string)
    requires EndsWithUnescapedQuote(s + "\"")
    ensures QuotedBlock(lines, idx, "\"" + s + "\"") == (s, idx + 1)
  {
    assert Drop1("\"" + s + "\"") == s + "\"";
    assert (s + "\"")[..|s|] == s;
  }

  // ---------------------------------------------------------------------------
  // List blocks

  /** A line indented by four spaces is indented by two. */
  lemma FourSpacesIndentTwo(line: string)
    requires StartsWith(line, "    ")
    ensures StartsWith(line, "  ")
  {
    assert line[..2] == line[..4][..2];
  }

  /**
   * A list block is the longest run of lines from `i` that do not end a list: it stops
   * at the first line that is neither blank, a comment, nor indented by two spaces
   * (or at the end of the file). The items gathered before are kept in front.
   */
  lemma ListItemsStops(lines: seq<string>, i: nat, items: seq<Item>)
    ensures forall j :: i <= j < ListItems(lines, i, items).1 && j < |lines| ==> !IsListEnd(lines[j])
    ensures ListItems(lines, i, items).1 < |lines| ==> IsListEnd(lines[ListItems(lines, i, items).1])
    ensures i < |lines| ==> ListItems(lines, i, items).1 <= |lines|
    ensures |items| <= |ListItems(lines, i, items).0|
    ensures ListItems(lines, i, items).0[..|items|] == items
  {
    ListItemsStopsAtEnd(lines, i, items);
    ListItemsKeepsItems(lines, i, items);
  }

  /** The index part of `ListItemsStops`. */
  lemma {:induction false} ListItemsStopsAtEnd(lines: seq<string>, i: nat, items: seq<Item>)
    ensures forall j :: i <= j < ListItems(lines, i, items).1 && j < |lines| ==> !IsListEnd(lines[j])
    ensures ListItems(lines, i, items).1 < |lines| ==> IsListEnd(lines[ListItems(lines, i, items).1])
    decreases |lines| - i
  {
    if i < |lines| {
      var line := lines[i];
      if IsSkippable(line) {
        ListItemsSkip(lines, i, items);
        ListItemsStopsAtEnd(lines, i + 1, items);
      } else if !StartsWith(line, "  ") {
        ListItemsEnd(lines, i, items);
      } else if IsDashLine(line) {
        ListItemsDash(lines, i, items);
        var d := DetailBlock(lines, i + 1, ItemHead(Strip(line)));
        ListItemsStopsAtEnd(lines, d.1, items + [d.0]);
        DetailLinesContinue(lines, i + 1, ItemHead(Strip(line)));
      } else {
        ListItemsOther(lines, i, items);
        ListItemsStopsAtEnd(lines, i + 1, items);
      }
    }
  }

  /** The detail lines of an item do not end the list. */
  lemma DetailLinesContinue(lines: seq<string>, i: nat, entry: Item)
    ensures forall j :: i <= j < DetailBlock(lines, i, entry).1 && j < |lines| ==> !IsListEnd(lines[j])
  {
    var d := DetailBlock(lines, i, entry);
    forall j | i <= j < d.1 && j < |lines| ensures !IsListEnd(lines[j]) {
      if StartsWith(lines[j], "    ") {
        FourSpacesIndentTwo(lines[j]);
      }
    }
  }

  /** The items part of `ListItemsStops`: the items gathered before are kept in front. */
  lemma {:induction false} ListItemsKeepsItems(lines: seq<string>, i: nat, items: seq<Item>)
    ensures |items| <= |ListItems(lines, i, items).0|
    ensures ListItems(lines, i, items).0[..|items|] == items
    decreases |lines| - i
  {
    if i < |lines| {
      var line := lines[i];
      if IsSkippable(line) {
        ListItemsSkip(lines, i, items);
        ListItemsKeepsItems(lines, i + 1, items);
      } else if !StartsWith(line, "  ") {
        ListItemsEnd(lines, i, items);
      } else if IsDashLine(line) {
        ListItemsDash(lines, i, items);
        var d := DetailBlock(lines, i + 1, ItemHead(Strip(line)));
        ListItemsKeepsItems(lines, d.1, items + [d.0]);
        var r := ListItems(lines, d.1, items + [d.0]).0;
        assert r[..|items|] == r[..|items| + 1][..|items|];
        assert (items + [d.0])[..|items|] == items;
      } else {
        ListItemsOther(lines, i, items);
        ListItemsKeepsItems(lines, i + 1, items);
      }
    }
  }

  // ---------------------------------------------------------------------------
  // Multi-line values

  /** When every line is blank, all of them are counted as leading blanks. */
  lemma {:induction false} AllBlankLeading(lines: seq<string>)
    requires forall i :: 0 <= i < |lines| ==> IsBlank(lines[i])
    ensures LeadingBlanks(lines) == |lines|
  {
    if |lines| > 0 {
      AllBlankLeading(lines[1..]);
    }
  }

  /**
   * `_normalize_multiline` gives the empty string exactly when every line of the text
   * is blank (this includes the text with no lines at all).
   */
  lemma NormalizedEmptyIffBlank(text: string)
    ensures |Normalized(text)| == 0 <==> forall i :: 0 <= i < |SplitLines(text)| ==> IsBlank(SplitLines(text)[i])
  {
    var all := SplitLines(text);
    if forall i :: 0 <= i < |all| ==> IsBlank(all[i]) {
      AllBlankLeading(all);
    } else {
      var j :| 0 <= j < |all| && !IsBlank(all[j]);
      LeadingBlanksAreBlank(all);
      var front := all[LeadingBlanks(all)..];
      assert front[0] == all[LeadingBlanks(all)];
      TrailingBlanksAreBlank(front);
      var lines := front[..|front| - TrailingBlanks(front)];
      assert lines == TrimBlankLines(all);
      assert lines[0] == front[0];
      BlankIffAllSpace(lines[0]);
      DedentKeepsNonBlank(lines, 0);
      JoinKeepsNonBlank("\n", Dedent(lines), 0);
      BlankIffAllSpace(Join("\n", Dedent(lines)));
    }
  }

  /** A single stripped line of text is its own normalized form. */
  lemma NormalizedSingleLine(s: string)
    requires NoNewline(s) && IsStripped(s)
    ensures Normalized(s) == s
  {
    if |s| > 0 {
      assert Find(s, '\n') == |s| by {
        FindFirst(s, '\n');
      }
      assert SplitLines(s) == [s];
      BlankIffAllSpace(s);
      assert !IsBlank(s);
      assert TrimBlankLines([s]) == [s];
      assert Indent(s) == [];
      assert Margin([s]) == Some([]);
      assert Dedent([s]) == [s];
      StripOfStripped(s);
    }
  }

  // ---------------------------------------------------------------------------
  // Top-level bindings

  /**
   * The value a key line at `i` binds: a quoted block when the value opens with a
   * double quote, the list starting on the next line when it is empty, and the cleaned
   * scalar otherwise.
   */
  predicate DispatchedValue(lines: seq<string>, i: nat, v: Value)
    requires i < |lines| && HasColon(lines[i])
  {
    var value := ValueOf(lines[i]);
    if |value| > 0 && value[0] == '"' then v == Str(Normalized(QuotedBlock(lines, i, value).0))
    else if |value| == 0 then v == Items(ListBlock(lines, i + 1).0)
    else v == Str(CleanScalar(value))
  }

  /** Binding `b` comes from a key line at or after `idx`, with that line's key and value. */
  predicate FromKeyLine(lines: seq<string>, idx: nat, b: Binding) {
    idx <= b.line < |lines| && IsKeyLine(lines[b.line]) &&
    b.key == KeyOf(lines[b.line]) && DispatchedValue(lines, b.line, b.value)
  }

  /**
   * Every binding comes from a key line (so blank lines, comment lines and lines without
   * a colon never produce a key), with the trimmed text before the first colon as its
   * key and the value chosen by the form of the text after it.
   */
  lemma {:induction false} BindingsFromKeyLines(lines: seq<string>, idx: nat)
    ensures forall k :: 0 <= k < |Bindings(lines, idx)| ==> FromKeyLine(lines, idx, Bindings(lines, idx)[k])
    decreases |lines| - idx
  {
    if idx < |lines| {
      var line := lines[idx];
      if !IsKeyLine(line) {
        BindingsFromKeyLines(lines, idx + 1);
      } else {
        var bs := Bindings(lines, idx);
        var value := ValueOf(line);
        var next := if |value| > 0 && value[0] == '"' then QuotedBlock(lines, idx, value).1
          else if |value| == 0 then ListBlock(lines, idx + 1).1
          else idx + 1;
        assert bs[1..] == Bindings(lines, next);
        BindingsFromKeyLines(lines, next);
        assert FromKeyLine(lines, idx, bs[0]);
        forall k | 1 <= k < |bs| ensures FromKeyLine(lines, idx, bs[k]) {
          assert bs[k] == Bindings(lines, next)[k - 1];
        }
      }
    }
  }

  /** The bindings come in the order of their lines, each on a line of its own. */
  lemma {:induction false} BindingsIncreasing(lines: seq<string>, idx: nat)
    ensures forall k :: 0 <= k < |Bindings(lines, idx)| ==> idx <= Bindings(lines, idx)[k].line
    ensures forall k, m :: 0 <= k < m < |Bindings(lines, idx)| ==> Bindings(lines, idx)[k].line < Bindings(lines, idx)[m].line
    decreases |lines| - idx
  {
    if idx < |lines| {
      var line := lines[idx];
      if !IsKeyLine(line) {
        BindingsIncreasing(lines, idx + 1);
      } else {
        var bs := Bindings(lines, idx);
        var value := ValueOf(line);
        var next := if |value| > 0 && value[0] == '"' then QuotedBlock(lines, idx, value).1
          else if |value| == 0 then ListBlock(lines, idx + 1).1
          else idx + 1;
        assert idx < next;
        assert bs[1..] == Bindings(lines, next);
        BindingsIncreasing(lines, next);
        forall k | 1 <= k < |bs| ensures next <= bs[k].line {
          assert bs[k] == Bindings(lines, next)[k - 1];
        }
      }
    }
  }

  /** The keys of the result are those of `data` and those of the bindings. */
  lemma {:induction false} ApplyKeys(data: map<string, Value>, bs: seq<Binding>, key: string)
    ensures key in Apply(data, bs) <==> key in data || exists j :: 0 <= j < |bs| && bs[j].key == key
    decreases |bs|
  {
    if |bs| > 0 {
      ApplyKeys(data[bs[0].key := bs[0].value], bs[1..], key);
      if exists j :: 0 <= j < |bs[1..]| && bs[1..][j].key == key {
        var j :| 0 <= j < |bs[1..]| && bs[1..][j].key == key;
        assert bs[j + 1].key == key;
      }
      if exists j :: 0 <= j < |bs| && bs[j].key == key {
        var j :| 0 <= j < |bs| && bs[j].key == key;
        if j > 0 {
          assert bs[1..][j - 1].key == key;
        }
      }
    }
  }

  /** A key that no binding names keeps its value in `data`. */
  lemma {:induction false} ApplyUntouched(data: map<string, Value>, bs: seq<Binding>, key: string)
    requires key in data
    requires forall j :: 0 <= j < |bs| ==> bs[j].key != key
    ensures key in Apply(data, bs) && Apply(data, bs)[key] == data[key]
    decreases |bs|
  {
    if |bs| > 0 {
      ApplyUntouched(data[bs[0].key := bs[0].value], bs[1..], key);
    }
  }

  /** A repeated key keeps the last value bound to it. */
  lemma {:induction false} ApplyLastWins(data: map<string, Value>, bs: seq<Binding>, j: nat)
    requires j < |bs|
    requires forall m :: j < m < |bs| ==> bs[m].key != bs[j].key
    ensures bs[j].key in Apply(data, bs) && Apply(data, bs)[bs[j].key] == bs[j].value
    decreases |bs|
  {
    if j == 0 {
      ApplyUntouched(data[bs[0].key := bs[0].value], bs[1..], bs[0].key);
    } else {
      ApplyLastWins(data[bs[0].key := bs[0].value], bs[1..], j - 1);
    }
  }

  // ---------------------------------------------------------------------------
  // Documents of plain scalars

  /** A key that can be written on a line of its own: no colon, no newline, not a comment. */
  predicate PlainKey(k: string) {
    |k| > 0 && IsStripped(k) && NoNewline(k) && k[0] != '#' && ':' !in k
  }

  /** A scalar that reads back as itself: no surrounding space, no newline, no opening quote. */
  predicate PlainValue(v: string) {
    |v| > 0 && IsStripped(v) && NoNewline(v) && v[0] != '"'
  }

  predicate PlainPairs(pairs: seq<(string, string)>) {
    forall i :: 0 <= i < |pairs| ==> PlainKey(pairs[i].0) && PlainValue(pairs[i].1)
  }

  /** The line `key: value`. */
  function PairLine(k: string, v: string): string {
    k + ": " + v
  }

  /** One `key: value` line per pair, in order. */
  function PairLines(pairs: seq<(string, string)>): (lines: seq<string>)
    ensures |lines| == |pairs|
  {
    seq(|pairs|, i requires 0 <= i < |pairs| => PairLine(pairs[i].0, pairs[i].1))
  }

  /** The dictionary the pairs describe, a later pair replacing an earlier one. */
  function Table(data: map<string, Value>, pairs: seq<(string, string)>): map<string, Value>
    decreases |pairs|
  {
    if |pairs| == 0 then data else Table(data[pairs[0].0 := Str(pairs[0].1)], pairs[1..])
  }

  /** A `key: value` line with a plain key and value is read as exactly that pair. */
  lemma PairLineParts(k: string, v: string)
    requires PlainKey(k) && PlainValue(v)
    ensures NoNewline(PairLine(k, v)) && |PairLine(k, v)| > 0 && IsStripped(PairLine(k, v))
    ensures IsKeyLine(PairLine(k, v))
    ensures KeyOf(PairLine(k, v)) == k && ValueOf(PairLine(k, v)) == v
    ensures CleanScalar(v) == v
  {
    var line := PairLine(k, v);
    PairLineText(k, v);
    PairLineSplit(k, v);
    StripOfStripped(line);
    StripOfStripped(k);
    LStripDrops(" ", v);
    CleanScalarPlain(v);
  }

  /** A `key: value` line is one line of text with no surrounding space. */
  lemma PairLineText(k: string, v: string)
    requires PlainKey(k) && PlainValue(v)
    ensures NoNewline(PairLine(k, v)) && |PairLine(k, v)| > 0 && IsStripped(PairLine(k, v))
  {
    var line := PairLine(k, v);
    assert line[0] == k[0] && line[|line| - 1] == v[|v| - 1];
    forall j | 0 <= j < |line| ensures line[j] != '\n' {
      if j < |k| {
        assert line[j] == k[j];
      } else if j >= |k| + 2 {
        assert line[j] == v[j - |k| - 2];
      }
    }
  }

  /** The first colon of a `key: value` line is the one after the key. */
  lemma PairLineSplit(k: string, v: string)
    requires PlainKey(k) && PlainValue(v)
    ensures var line := PairLine(k, v);
      Find(line, ':') == |k| && line[..|k|] == k && line[|k| + 1..] == " " + v
  {
    var line := PairLine(k, v);
    assert Find(line, ':') == |k| by {
      FindFirst(line, ':');
      assert line[|k|] == ':';
      assert forall j :: 0 <= j < |k| ==> line[j] == k[j];
    }
    assert line[..|k|] == k;
    assert line[|k| + 1..] == " " + v;
  }

  lemma {:induction false} PairBindings(pairs: seq<(string, string)>, i: nat, data: map<string, Value>)
    requires PlainPairs(pairs) && i <= |pairs|
    ensures Apply(data, Bindings(PairLines(pairs), i)) == Table(data, pairs[i..])
    decreases |pairs| - i
  {
    var lines := PairLines(pairs);
    if i < |pairs| {
      var k := pairs[i].0;
      var v := pairs[i].1;
      PairLineParts(k, v);
      assert lines[i] == PairLine(k, v);
      var b := Binding(i, k, Str(v));
      assert Bindings(lines, i) == [b] + Bindings(lines, i + 1);
      ApplyCons(data, b, Bindings(lines, i + 1));
      PairBindings(pairs, i + 1, data[k := Str(v)]);
      assert pairs[i..][1..] == pairs[i + 1..];
    }
  }

  /**
   * Writing plain pairs one per line and parsing the text gives back the dictionary
   * they describe.
   */
  lemma PlainDocumentRoundTrip(pairs: seq<(string, string)>)
    requires PlainPairs(pairs)
    ensures Parse(Join("\n", PairLines(pairs))) == Table(map[], pairs)
  {
    var lines := PairLines(pairs);
    forall i | 0 <= i < |lines| ensures NoNewline(lines[i]) && |lines[i]| > 0 {
      PairLineParts(pairs[i].0, pairs[i].1);
    }
    SplitLinesOfJoin(lines);
    PairBindings(pairs, 0, map[]);
    assert pairs[0..] == pairs;
  }

  // ---------------------------------------------------------------------------
  // Documents with list blocks

  /** The item a run of pairs describes, a later pair replacing an earlier one. */
  function Fold(entry: Item, pairs: seq<(string, string)>): Item
    decreases |pairs|
  {
    if |pairs| == 0 then entry else Fold(entry[pairs[0].0 := pairs[0].1], pairs[1..])
  }

  /** A stripped `key: value` with a plain key and value stores exactly that pair. */
  lemma AddPairPlain(entry: Item, k: string, v: string)
    requires PlainKey(k) && PlainValue(v)
    ensures AddPair(entry, PairLine(k, v)) == entry[k := v]
  {
    var line := PairLine(k, v);
    PairLineParts(k, v);
    assert line[Find(line, ':') + 1..] == " " + v + "";
    StripPadded(" ", v, "");
    CleanScalarPlain(v);
  }

  /** The detail line `    key: value` of an item. */
  function DetailLine(k: string, v: string): string {
    "    " + PairLine(k, v)
  }

  /** The line `  - key: value` that starts an item. */
  function ItemLine(k: string, v: string): string {
    "  - " + PairLine(k, v)
  }

  /** The line `  -` that starts an item with no pair of its own. */
  const BareItemLine := "  -"

  lemma DetailLineParts(k: string, v: string)
    requires PlainKey(k) && PlainValue(v)
    ensures NoNewline(DetailLine(k, v)) && |DetailLine(k, v)| > 0
    ensures Strip(DetailLine(k, v)) == PairLine(k, v)
    ensures !IsSkippable(DetailLine(k, v)) && StartsWith(DetailLine(k, v), "    ")
  {
    PairLineParts(k, v);
    IndentedShape("    ", PairLine(k, v));
  }

  /** A one-line text that does not start a comment, indented by spaces, strips back to itself. */
  lemma IndentedShape(pad: string, t: string)
    requires AllSpace(pad) && |t| > 0 && IsStripped(t) && NoNewline(t) && t[0] != '#'
    requires forall j :: 0 <= j < |pad| ==> pad[j] == ' '
    ensures NoNewline(pad + t) && Strip(pad + t) == t && !IsSkippable(pad + t)
    ensures StartsWith(pad + t, pad)
  {
    var line := pad + t;
    assert line == pad + t + "";
    StripPadded(pad, t, "");
    assert line[..|pad|] == pad;
    forall j | 0 <= j < |line| ensures line[j] != '\n' {
      if j < |pad| {
        assert line[j] == pad[j];
      } else {
        assert line[j] == t[j - |pad|];
      }
    }
  }

  /** A `  - key: value` line starts an item holding that one pair. */
  lemma ItemLineParts(k: string, v: string)
    requires PlainKey(k) && PlainValue(v)
    ensures NoNewline(ItemLine(k, v)) && |ItemLine(k, v)| > 0
    ensures !IsSkippable(ItemLine(k, v)) && StartsWith(ItemLine(k, v), "  ")
    ensures !StartsWith(ItemLine(k, v), "    ") && IsDashLine(ItemLine(k, v))
    ensures ItemHead(Strip(ItemLine(k, v))) == map[k := v]
  {
    var t := PairLine(k, v);
    PairLineParts(k, v);
    DashShape(t);
    AddPairPlain(map[], k, v);
  }

  /** The line `  - t`, for a stripped one-line `t`: a dash line whose inline text is `t`. */
  lemma DashShape(t: string)
    requires |t| > 0 && IsStripped(t) && NoNewline(t)
    ensures var line := "  - " + t;
      NoNewline(line) && !IsSkippable(line) && StartsWith(line, "  ")
      && !StartsWith(line, "    ") && IsDashLine(line)
      && Strip(line) == "- " + t && Strip(Drop1(Strip(line))) == t
  {
    var d := "- " + t;
    assert d[0] == '-' && d[|d| - 1] == t[|t| - 1];
    forall j | 0 <= j < |d| ensures d[j] != '\n' {
      if j >= 2 {
        assert d[j] == t[j - 2];
      }
    }
    IndentedShape("  ", d);
    var line := "  - " + t;
    assert line == "  " + d;
    assert line[2] == '-';
    assert !StartsWith(line, "    ") by {
      if |line| >= 4 {
        assert line[..4][2] == '-';
      }
    }
    assert Drop1(d) == " " + t + "";
    StripPadded(" ", t, "");
  }

  /** A bare `  -` line starts an empty item. */
  lemma BareItemLineParts()
    ensures !IsSkippable(BareItemLine) && StartsWith(BareItemLine, "  ")
    ensures !StartsWith(BareItemLine, "    ") && IsDashLine(BareItemLine)
    ensures ItemHead(Strip(BareItemLine)) == map[]
  {
    assert BareItemLine == "  " + "-" + "";
    StripPadded("  ", "-", "");
    assert BareItemLine[..2] == "  ";
    assert Drop1("-") == "";
  }

  /** A `-` line carrying a plain pair starts the item holding that pair alone. */
  lemma ItemHeadOfPair(k: string, v: string)
    requires PlainKey(k) && PlainValue(v)
    ensures ItemHead("- " + PairLine(k, v)) == map[k := v]
  {
    DashShape(PairLine(k, v));
    ItemLineParts(k, v);
  }

  /** A `-` line with no colon after the dash, a bare `-` among them, starts an empty item. */
  lemma ItemHeadWithoutPair(rest: string)
    requires forall j :: 0 <= j < |rest| ==> rest[j] != ':'
    ensures ItemHead("-" + rest) == map[]
  {
    assert Drop1("-" + rest) == rest;
    var inline := Strip(rest);
    var a := StripBounds(rest);
    forall j | 0 <= j < |inline|
      ensures inline[j] != ':'
    {
      assert inline[j] == rest[a + j];
    }
  }

  /** Line `e`, if there is one, is neither blank, a comment, nor indented by four spaces. */
  predicate EndsDetails(lines: seq<string>, e: nat) {
    e < |lines| ==> !IsSkippable(lines[e]) && !StartsWith(lines[e], "    ")
  }

  /** Line `e`, if there is one, ends a list. */
  predicate EndsList(lines: seq<string>, e: nat) {
    e < |lines| ==> IsListEnd(lines[e])
  }

  /** A detail line written from a plain pair stores that pair and the block goes on. */
  lemma DetailStepPlain(lines: seq<string>, i: nat, entry: Item, k: string, v: string)
    requires PlainKey(k) && PlainValue(v) && i < |lines| && lines[i] == DetailLine(k, v)
    ensures DetailBlock(lines, i, entry) == DetailBlock(lines, i + 1, entry[k := v])
  {
    DetailLineParts(k, v);
    AddPairPlain(entry, k, v);
    DetailBlockPair(lines, i, entry);
  }

  /**
   * Detail lines written from plain pairs, followed by a line that is not a detail line
   * (or by the end of the file), store their pairs in order, a later one replacing an
   * earlier one, and the block stops right after them.
   */
  lemma {:induction false} DetailBlockPlain(lines: seq<string>, i: nat, entry: Item, pairs: seq<(string, string)>, end: nat)
    requires PlainPairs(pairs) && end == i + |pairs| <= |lines|
    requires forall j :: 0 <= j < |pairs| ==> lines[i + j] == DetailLine(pairs[j].0, pairs[j].1)
    requires EndsDetails(lines, end)
    ensures DetailBlock(lines, i, entry) == (Fold(entry, pairs), end)
    decreases |pairs|
  {
    if |pairs| == 0 {
      DetailBlockEnd(lines, i, entry);
    } else {
      var k, v := pairs[0].0, pairs[0].1;
      DetailStepPlain(lines, i, entry, k, v);
      var rest := pairs[1..];
      assert forall j :: 0 <= j < |rest| ==> rest[j] == pairs[j + 1];
      assert forall j :: 0 <= j < |rest| ==> lines[i + 1 + j] == DetailLine(rest[j].0, rest[j].1) by {
        forall j | 0 <= j < |rest| ensures lines[i + 1 + j] == DetailLine(rest[j].0, rest[j].1) {
          assert lines[i + (j + 1)] == DetailLine(pairs[j + 1].0, pairs[j + 1].1);
        }
      }
      DetailBlockPlain(lines, i + 1, entry[k := v], rest, end);
    }
  }

  /** The detail lines of the pairs, in order. */
  function DetailLines(pairs: seq<(string, string)>): (lines: seq<string>)
    ensures |lines| == |pairs|
  {
    seq(|pairs|, j requires 0 <= j < |pairs| => DetailLine(pairs[j].0, pairs[j].1))
  }

  /**
   * The lines of an item holding the pairs: the first pair after the dash, the others on
   * detail lines; an item with no pairs is a bare dash.
   */
  function ItemLines(pairs: seq<(string, string)>): (lines: seq<string>)
    ensures |lines| == if |pairs| == 0 then 1 else |pairs|
  {
    if |pairs| == 0 then [BareItemLine]
    else [ItemLine(pairs[0].0, pairs[0].1)] + DetailLines(pairs[1..])
  }

  /** Every item is made of plain pairs. */
  predicate PlainItems(items: seq<seq<(string, string)>>)
    decreases |items|
  {
    |items| == 0 || (PlainPairs(items[0]) && PlainItems(items[1..]))
  }

  /** The lines of the items, one after another. */
  function ListLines(items: seq<seq<(string, string)>>): seq<string>
    decreases |items|
  {
    if |items| == 0 then [] else ItemLines(items[0]) + ListLines(items[1..])
  }

  /** The item each run of pairs describes. */
  function ItemMaps(items: seq<seq<(string, string)>>): (r: seq<Item>)
    ensures |r| == |items|
    decreases |items|
  {
    if |items| == 0 then [] else [Fold(map[], items[0])] + ItemMaps(items[1..])
  }

  /** Lines `i` to `i + |block| - 1` of `lines` are `block`. */
  predicate LinesFrom(lines: seq<string>, i: nat, block: seq<string>) {
    i + |block| <= |lines| && forall j :: 0 <= j < |block| ==> lines[i + j] == block[j]
  }

  lemma LinesFromAt(lines: seq<string>, i: nat, block: seq<string>, j: nat)
    requires LinesFrom(lines, i, block) && j < |block|
    ensures lines[i + j] == block[j]
  {
  }

  lemma LinesFromSplit(lines: seq<string>, i: nat, a: seq<string>, b: seq<string>)
    requires LinesFrom(lines, i, a + b)
    ensures LinesFrom(lines, i, a) && LinesFrom(lines, i + |a|, b)
  {
    forall j | 0 <= j < |a| ensures lines[i + j] == a[j] {
      assert (a + b)[j] == a[j];
    }
    forall j | 0 <= j < |b| ensures lines[i + |a| + j] == b[j] {
      assert (a + b)[|a| + j] == b[j];
      assert lines[i + (|a| + j)] == (a + b)[|a| + j];
    }
  }

  /** Every line from `i` on is where it is. */
  lemma LinesFromRest(lines: seq<string>, i: nat)
    requires i <= |lines|
    ensures LinesFrom(lines, i, lines[i..])
  {
  }

  /** The first line of an item starts it, with the item's first pair if it has one. */
  lemma ItemStart(pairs: seq<(string, string)>)
    requires PlainPairs(pairs)
    ensures var line := ItemLines(pairs)[0];
      !IsSkippable(line) && StartsWith(line, "  ") && !StartsWith(line, "    ") && IsDashLine(line)
    ensures |pairs| == 0 ==> ItemHead(Strip(ItemLines(pairs)[0])) == map[]
    ensures |pairs| > 0 ==> ItemHead(Strip(ItemLines(pairs)[0])) == map[pairs[0].0 := pairs[0].1]
  {
    if |pairs| == 0 {
      BareItemLineParts();
    } else {
      ItemLineParts(pairs[0].0, pairs[0].1);
    }
  }

  /** A line that ends a list is not a detail line either. */
  lemma ListEndNotDetail(line: string)
    requires IsListEnd(line)
    ensures !IsSkippable(line) && !StartsWith(line, "    ")
  {
    if StartsWith(line, "    ") {
      FourSpacesIndentTwo(line);
    }
  }

  /**
   * The detail lines of an item written from plain pairs, followed by a line that is not
   * a detail line (or by the end of the file), complete the item to exactly its pairs.
   */
  lemma ItemDetailsPlain(lines: seq<string>, i: nat, p: seq<(string, string)>, n: nat)
    requires PlainPairs(p) && LinesFrom(lines, i, ItemLines(p)) && n == i + |ItemLines(p)|
    requires EndsDetails(lines, n)
    ensures DetailBlock(lines, i + 1, ItemHead(Strip(lines[i]))) == (Fold(map[], p), n)
  {
    if |p| == 0 {
      BareItemDetails(lines, i, n);
    } else {
      ItemHeadPlain(lines, i, p);
      PairItemDetails(lines, i, p, n);
    }
  }

  lemma BareItemDetails(lines: seq<string>, i: nat, n: nat)
    requires LinesFrom(lines, i, [BareItemLine]) && n == i + 1 && EndsDetails(lines, n)
    ensures DetailBlock(lines, i + 1, ItemHead(Strip(lines[i]))) == (map[], n)
  {
    LinesFromAt(lines, i, [BareItemLine], 0);
    BareItemLineParts();
    DetailBlockEnd(lines, n, map[]);
  }

  /** The first line of an item with pairs holds its first pair. */
  lemma ItemHeadPlain(lines: seq<string>, i: nat, p: seq<(string, string)>)
    requires |p| > 0 && PlainPairs(p) && LinesFrom(lines, i, ItemLines(p))
    ensures ItemHead(Strip(lines[i])) == map[][p[0].0 := p[0].1]
  {
    LinesFromAt(lines, i, ItemLines(p), 0);
    ItemStart(p);
    assert map[p[0].0 := p[0].1] == map[][p[0].0 := p[0].1];
  }

  /** The detail lines of an item with pairs add its other pairs to its first. */
  lemma PairItemDetails(lines: seq<string>, i: nat, p: seq<(string, string)>, n: nat)
    requires |p| > 0 && PlainPairs(p) && LinesFrom(lines, i, ItemLines(p)) && n == i + |ItemLines(p)|
    requires EndsDetails(lines, n)
    ensures DetailBlock(lines, i + 1, map[][p[0].0 := p[0].1]) == (Fold(map[], p), n)
  {
    var ds := p[1..];
    assert PlainPairs(ds) by {
      assert forall j :: 0 <= j < |ds| ==> ds[j] == p[j + 1];
    }
    DetailLinesFrom(lines, i, p);
    var head := map[][p[0].0 := p[0].1];
    DetailBlockPlain(lines, i + 1, head, ds, n);
    assert Fold(map[], p) == Fold(head, ds);
  }

  /** After its first line, an item's lines are the detail lines of its other pairs. */
  lemma DetailLinesFrom(lines: seq<string>, i: nat, p: seq<(string, string)>)
    requires |p| > 0 && LinesFrom(lines, i, ItemLines(p))
    ensures i + 1 + |p[1..]| == i + |ItemLines(p)| <= |lines|
    ensures forall j :: 0 <= j < |p[1..]| ==> lines[i + 1 + j] == DetailLine(p[1..][j].0, p[1..][j].1)
  {
    var own, ds := ItemLines(p), p[1..];
    assert own == [ItemLine(p[0].0, p[0].1)] + DetailLines(ds);
    forall j | 0 <= j < |ds| ensures lines[i + 1 + j] == DetailLine(ds[j].0, ds[j].1) {
      LinesFromAt(lines, i, own, 1 + j);
      assert own[1 + j] == DetailLines(ds)[j];
    }
  }

  /**
   * An item written from plain pairs, followed by a line that is not one of its detail
   * lines (or by the end of the file), adds one item holding those pairs, and the scan
   * goes on right after it.
   */
  lemma ItemStepPlain(lines: seq<string>, i: nat, acc: seq<Item>, p: seq<(string, string)>, n: nat)
    requires PlainPairs(p) && LinesFrom(lines, i, ItemLines(p)) && n == i + |ItemLines(p)|
    requires EndsDetails(lines, n)
    ensures ListItems(lines, i, acc) == ListItems(lines, n, acc + [Fold(map[], p)])
  {
    ItemStartAt(lines, i, p);
    ListItemsDash(lines, i, acc);
    ItemDetailsPlain(lines, i, p, n);
  }

  lemma ItemStartAt(lines: seq<string>, i: nat, p: seq<(string, string)>)
    requires PlainPairs(p) && LinesFrom(lines, i, ItemLines(p))
    ensures i < |lines| && !IsSkippable(lines[i]) && StartsWith(lines[i], "  ") && IsDashLine(lines[i])
  {
    LinesFromAt(lines, i, ItemLines(p), 0);
    ItemStart(p);
  }

  /** The line after an item, when there is one, is not one of the item's detail lines. */
  lemma ItemFollowed(lines: seq<string>, i: nat, rest: seq<seq<(string, string)>>, end: nat)
    requires PlainItems(rest) && LinesFrom(lines, i, ListLines(rest)) && end == i + |ListLines(rest)|
    requires EndsList(lines, end)
    ensures EndsDetails(lines, i)
  {
    if i < |lines| {
      if |rest| > 0 {
        ItemStart(rest[0]);
        assert ListLines(rest) == ItemLines(rest[0]) + ListLines(rest[1..]);
        LinesFromAt(lines, i, ListLines(rest), 0);
      } else {
        ListEndNotDetail(lines[i]);
      }
    }
  }

  lemma ListLinesCons(items: seq<seq<(string, string)>>)
    requires |items| > 0
    ensures ListLines(items) == ItemLines(items[0]) + ListLines(items[1..])
  {
  }

  /**
   * From line `i`, with the items `acc` gathered so far, each item takes `scan` from the
   * end of one item to the end of the next, adding that item, and `scan` stops at `end`.
   */
  ghost predicate Chained(scan: (nat, seq<Item>) -> (seq<Item>, nat), i: nat, acc: seq<Item>,
                          items: seq<seq<(string, string)>>, end: nat)
    decreases |items|
  {
    if |items| == 0 then i == end && scan(i, acc) == (acc, i)
    else
      var n, m := i + |ItemLines(items[0])|, Fold(map[], items[0]);
      scan(i, acc) == scan(n, acc + [m]) && Chained(scan, n, acc + [m], items[1..], end)
  }

  lemma ItemMapsCons(acc: seq<Item>, items: seq<seq<(string, string)>>)
    requires |items| > 0
    ensures acc + [Fold(map[], items[0])] + ItemMaps(items[1..]) == acc + ItemMaps(items)
  {
    assert ItemMaps(items) == [Fold(map[], items[0])] + ItemMaps(items[1..]);
  }

  lemma {:induction false} ChainScan(scan: (nat, seq<Item>) -> (seq<Item>, nat), i: nat, acc: seq<Item>,
                                     items: seq<seq<(string, string)>>, end: nat)
    requires Chained(scan, i, acc, items, end)
    ensures scan(i, acc) == (acc + ItemMaps(items), end)
    decreases |items|
  {
    if |items| == 0 {
      assert acc + ItemMaps(items) == acc;
    } else {
      var n, m := i + |ItemLines(items[0])|, Fold(map[], items[0]);
      ChainScan(scan, n, acc + [m], items[1..], end);
      ItemMapsCons(acc, items);
    }
  }

  /** The lines of several items are the first item's lines, then the lines of the others. */
  lemma LaidOutCons(lines: seq<string>, i: nat, items: seq<seq<(string, string)>>, end: nat)
    requires |items| > 0 && LinesFrom(lines, i, ListLines(items)) && end == i + |ListLines(items)|
    ensures LinesFrom(lines, i, ItemLines(items[0]))
    ensures LinesFrom(lines, i + |ItemLines(items[0])|, ListLines(items[1..]))
    ensures end == i + |ItemLines(items[0])| + |ListLines(items[1..])|
  {
    var a, b := ItemLines(items[0]), ListLines(items[1..]);
    ListLinesCons(items);
    LinesFromSplit(lines, i, a, b);
  }

  /** `scan` is the list scan of `lines`. */
  ghost predicate ScansList(scan: (nat, seq<Item>) -> (seq<Item>, nat), lines: seq<string>) {
    forall j, a {:trigger ListItems(lines, j, a)} :: scan(j, a) == ListItems(lines, j, a)
  }

  /** One item of plain pairs takes `scan` to the line after it. */
  lemma ItemStepScan(scan: (nat, seq<Item>) -> (seq<Item>, nat), lines: seq<string>, i: nat,
                     acc: seq<Item>, p: seq<(string, string)>, n: nat)
    requires ScansList(scan, lines)
    requires PlainPairs(p) && LinesFrom(lines, i, ItemLines(p)) && n == i + |ItemLines(p)|
    requires EndsDetails(lines, n)
    ensures scan(i, acc) == scan(n, acc + [Fold(map[], p)])
  {
    ItemStepPlain(lines, i, acc, p, n);
  }

  /** With no items left, the list scan stops at once. */
  lemma ChainEnd(scan: (nat, seq<Item>) -> (seq<Item>, nat), lines: seq<string>, i: nat,
                 acc: seq<Item>, items: seq<seq<(string, string)>>, end: nat)
    requires ScansList(scan, lines)
    requires |items| == 0 && end == i + |ListLines(items)| && EndsList(lines, end)
    ensures Chained(scan, i, acc, items, end)
  {
    if i < |lines| {
      ListItemsEnd(lines, i, acc);
    } else {
      assert ListItems(lines, i, acc) == (acc, i);
    }
  }

  /** Items laid out as lines from plain pairs take the list scan from one item to the next. */
  lemma {:induction false} LaidOut(scan: (nat, seq<Item>) -> (seq<Item>, nat), lines: seq<string>, i: nat,
                                   acc: seq<Item>, items: seq<seq<(string, string)>>, end: nat)
    requires ScansList(scan, lines)
    requires PlainItems(items) && LinesFrom(lines, i, ListLines(items)) && end == i + |ListLines(items)|
    requires EndsList(lines, end)
    ensures Chained(scan, i, acc, items, end)
    decreases |items|
  {
    if |items| == 0 {
      ChainEnd(scan, lines, i, acc, items, end);
    } else {
      var n := LaidOutNext(lines, i, items, end);
      var acc' := acc + [Fold(map[], items[0])];
      LaidOut(scan, lines, n, acc', items[1..], end);
      LaidOutStep(scan, lines, i, acc, items, n, acc', end);
    }
  }

  /** The first of several laid-out items ends at a line `n`, where the others are laid out. */
  lemma LaidOutNext(lines: seq<string>, i: nat, items: seq<seq<(string, string)>>, end: nat) returns (n: nat)
    requires |items| > 0 && PlainItems(items) && LinesFrom(lines, i, ListLines(items))
    requires end == i + |ListLines(items)| && EndsList(lines, end)
    ensures n == i + |ItemLines(items[0])| && PlainItems(items[1..])
    ensures LinesFrom(lines, i, ItemLines(items[0])) && EndsDetails(lines, n)
    ensures LinesFrom(lines, n, ListLines(items[1..])) && end == n + |ListLines(items[1..])|
  {
    n := i + |ItemLines(items[0])|;
    LaidOutCons(lines, i, items, end);
    ItemFollowed(lines, n, items[1..], end);
  }

  /** The first item takes `scan` to the next, whose chain goes on from there. */
  lemma LaidOutStep(scan: (nat, seq<Item>) -> (seq<Item>, nat), lines: seq<string>, i: nat,
                    acc: seq<Item>, items: seq<seq<(string, string)>>, n: nat, acc': seq<Item>, end: nat)
    requires ScansList(scan, lines) && |items| > 0 && PlainItems(items)
    requires LinesFrom(lines, i, ItemLines(items[0]))
    requires n == i + |ItemLines(items[0])| && acc' == acc + [Fold(map[], items[0])]
    requires EndsDetails(lines, n) && Chained(scan, n, acc', items[1..], end)
    ensures Chained(scan, i, acc, items, end)
  {
    ItemStepScan(scan, lines, i, acc, items[0], n);
    ChainedCons(scan, i, acc, items, n, acc', end);
  }

  /** A step from the first item to the next, then a chain from there, is a chain. */
  lemma ChainedCons(scan: (nat, seq<Item>) -> (seq<Item>, nat), i: nat, acc: seq<Item>,
                    items: seq<seq<(string, string)>>, n: nat, acc': seq<Item>, end: nat)
    requires |items| > 0 && n == i + |ItemLines(items[0])| && acc' == acc + [Fold(map[], items[0])]
    requires scan(i, acc) == scan(n, acc') && Chained(scan, n, acc', items[1..], end)
    ensures Chained(scan, i, acc, items, end)
  {
  }

  /**
   * Items written from plain pairs, followed by a line that ends the list (or by the end
   * of the file), are read back as one item each, holding its pairs, and the list stops
   * right after them.
   */
  lemma ListItemsPlain(lines: seq<string>, i: nat, acc: seq<Item>, items: seq<seq<(string, string)>>, end: nat)
    requires PlainItems(items) && LinesFrom(lines, i, ListLines(items)) && end == i + |ListLines(items)|
    requires EndsList(lines, end)
    ensures ListItems(lines, i, acc) == (acc + ItemMaps(items), end)
  {
    var scan := (j: nat, a: seq<Item>) => ListItems(lines, j, a);
    LaidOut(scan, lines, i, acc, items, end);
    ChainScan(scan, i, acc, items, end);
  }

  /** A top-level entry of a document: a `key: value` pair, or a `key:` line and its list. */
  datatype Field = Scalar(key: string, value: string) | List(key: string, items: seq<seq<(string, string)>>)

  predicate PlainField(f: Field) {
    PlainKey(f.key) && match f
      case Scalar(_, v) => PlainValue(v)
      case List(_, items) => PlainItems(items)
  }

  predicate PlainFields(fields: seq<Field>)
    decreases |fields|
  {
    |fields| == 0 || (PlainField(fields[0]) && PlainFields(fields[1..]))
  }

  /** The line `key:` that opens a list. */
  function ListHeader(k: string): string {
    k + ":"
  }

  function FieldLines(f: Field): (lines: seq<string>)
    ensures |lines| > 0
  {
    match f
      case Scalar(k, v) => [PairLine(k, v)]
      case List(k, items) => [ListHeader(k)] + ListLines(items)
  }

  /** The lines of the fields, one after another. */
  function DocLines(fields: seq<Field>): seq<string>
    decreases |fields|
  {
    if |fields| == 0 then [] else FieldLines(fields[0]) + DocLines(fields[1..])
  }

  /** The dictionary the fields describe, a later field replacing an earlier one. */
  function DocTable(data: map<string, Value>, fields: seq<Field>): map<string, Value>
    decreases |fields|
  {
    if |fields| == 0 then data else DocTable(data[fields[0].key := FieldValue(fields[0])], fields[1..])
  }

  /** The value a field stores: its scalar, or the item each of its runs of pairs describes. */
  function FieldValue(f: Field): Value {
    match f
      case Scalar(_, v) => Str(v)
      case List(_, items) => Items(ItemMaps(items))
  }

  /** A `key:` line with a plain key opens a block value for that key. */
  lemma ListHeaderParts(k: string)
    requires PlainKey(k)
    ensures NoNewline(ListHeader(k)) && |ListHeader(k)| > 0
    ensures IsKeyLine(ListHeader(k)) && KeyOf(ListHeader(k)) == k && ValueOf(ListHeader(k)) == ""
    ensures IsListEnd(ListHeader(k))
  {
    var line := ListHeader(k);
    assert line[0] == k[0] && line[|line| - 1] == ':';
    StripOfStripped(line);
    assert Find(line, ':') == |k| by {
      FindFirst(line, ':');
      assert forall j :: 0 <= j < |k| ==> line[j] == k[j];
    }
    assert line[..|k|] == k;
    StripOfStripped(k);
    assert line[|k| + 1..] == "";
    assert !StartsWith(line, "  ") by {
      assert |line| < 2 || line[..2][0] == k[0];
    }
    forall j | 0 <= j < |line| ensures line[j] != '\n' {
      if j < |k| {
        assert line[j] == k[j];
      }
    }
  }

  /** A `key: value` line with a plain key and value ends a list before it. */
  lemma PairLineEndsList(k: string, v: string)
    requires PlainKey(k) && PlainValue(v)
    ensures IsListEnd(PairLine(k, v))
  {
    var line := PairLine(k, v);
    PairLineParts(k, v);
    StripOfStripped(line);
    assert line[0] == k[0];
    assert !StartsWith(line, "  ") by {
      assert line[..2][0] == k[0];
    }
  }

  /** The first line of a field ends any list before it. */
  lemma FieldStartsAfterList(f: Field)
    requires PlainField(f)
    ensures IsListEnd(FieldLines(f)[0])
  {
    match f
      case Scalar(k, v) => PairLineEndsList(k, v);
      case List(k, _) => ListHeaderParts(k);
  }

  /** A list header followed by its plain items binds the key to those items. */
  lemma ListFieldBinding(lines: seq<string>, i: nat, k: string, items: seq<seq<(string, string)>>, end: nat)
    requires PlainKey(k) && PlainItems(items)
    requires i < |lines| && lines[i] == ListHeader(k)
    requires LinesFrom(lines, i + 1, ListLines(items)) && end == i + 1 + |ListLines(items)|
    requires EndsList(lines, end)
    ensures Bindings(lines, i) == [Binding(i, k, Items(ItemMaps(items)))] + Bindings(lines, end)
  {
    ListHeaderParts(k);
    ListItemsPlain(lines, i + 1, [], items, end);
    assert [] + ItemMaps(items) == ItemMaps(items);
  }

  /** A plain `key: value` line binds the key to the value. */
  lemma ScalarFieldBinding(lines: seq<string>, i: nat, k: string, v: string)
    requires PlainKey(k) && PlainValue(v)
    requires i < |lines| && lines[i] == PairLine(k, v)
    ensures Bindings(lines, i) == [Binding(i, k, Str(v))] + Bindings(lines, i + 1)
  {
    PairLineParts(k, v);
  }

  /** The lines of several fields are the first field's lines, then the lines of the others. */
  lemma FieldLayout(lines: seq<string>, i: nat, fields: seq<Field>)
    requires |fields| > 0 && LinesFrom(lines, i, DocLines(fields))
    requires i + |DocLines(fields)| == |lines|
    ensures LinesFrom(lines, i, FieldLines(fields[0]))
    ensures LinesFrom(lines, i + |FieldLines(fields[0])|, DocLines(fields[1..]))
    ensures i + |FieldLines(fields[0])| + |DocLines(fields[1..])| == |lines|
  {
    var a, b := FieldLines(fields[0]), DocLines(fields[1..]);
    assert DocLines(fields) == a + b;
    LinesFromSplit(lines, i, a, b);
  }

  /**
   * The lines of a field, followed by a line that ends any list (or by the end of the
   * file), bind the field's key to its value, and the bindings go on after its last line.
   */
  lemma FieldBinding(lines: seq<string>, i: nat, f: Field)
    requires PlainField(f) && LinesFrom(lines, i, FieldLines(f))
    requires EndsList(lines, i + |FieldLines(f)|)
    ensures Bindings(lines, i) == [Binding(i, f.key, FieldValue(f))] + Bindings(lines, i + |FieldLines(f)|)
  {
    if f.Scalar? {
      ScalarFieldAt(lines, i, f);
    } else {
      ListFieldAt(lines, i, f, i + |FieldLines(f)|);
    }
  }

  /** The line after a field, if any, starts the next field and so ends any list. */
  lemma NextField(lines: seq<string>, n: nat, rest: seq<Field>)
    requires PlainFields(rest) && LinesFrom(lines, n, DocLines(rest)) && n + |DocLines(rest)| == |lines|
    ensures EndsList(lines, n)
  {
    if n < |lines| {
      FieldStartsAfterList(rest[0]);
      LinesFromAt(lines, n, DocLines(rest), 0);
      assert DocLines(rest) == FieldLines(rest[0]) + DocLines(rest[1..]);
    }
  }

  lemma ScalarFieldAt(lines: seq<string>, i: nat, f: Field)
    requires f.Scalar? && PlainField(f) && LinesFrom(lines, i, FieldLines(f))
    ensures Bindings(lines, i) == [Binding(i, f.key, FieldValue(f))] + Bindings(lines, i + 1)
  {
    LinesFromAt(lines, i, FieldLines(f), 0);
    ScalarFieldBinding(lines, i, f.key, f.value);
  }

  lemma ListFieldAt(lines: seq<string>, i: nat, f: Field, n: nat)
    requires f.List? && PlainField(f) && LinesFrom(lines, i, FieldLines(f))
    requires n == i + |FieldLines(f)| && EndsList(lines, n)
    ensures Bindings(lines, i) == [Binding(i, f.key, FieldValue(f))] + Bindings(lines, n)
  {
    LinesFromSplit(lines, i, [ListHeader(f.key)], ListLines(f.items));
    LinesFromAt(lines, i, [ListHeader(f.key)], 0);
    ListFieldBinding(lines, i, f.key, f.items, n);
  }

  /**
   * From line `i`, each field's lines give `bind` one binding, of the field's key to its
   * value, before the bindings of the fields after it; at `end` there are none.
   */
  ghost predicate FieldSteps(bind: nat -> seq<Binding>, i: nat, fields: seq<Field>, end: nat)
    decreases |fields|
  {
    if |fields| == 0 then i == end && bind(i) == []
    else
      var n := i + |FieldLines(fields[0])|;
      bind(i) == [Binding(i, fields[0].key, FieldValue(fields[0]))] + bind(n)
      && FieldSteps(bind, n, fields[1..], end)
  }

  lemma {:induction false} ApplySteps(bind: nat -> seq<Binding>, i: nat, data: map<string, Value>, fields: seq<Field>, end: nat)
    requires FieldSteps(bind, i, fields, end)
    ensures Apply(data, bind(i)) == DocTable(data, fields)
    decreases |fields|
  {
    if |fields| > 0 {
      var f, n := fields[0], i + |FieldLines(fields[0])|;
      ApplyCons(data, Binding(i, f.key, FieldValue(f)), bind(n));
      ApplySteps(bind, n, data[f.key := FieldValue(f)], fields[1..], end);
    }
  }

  /** `bind` gives the bindings the parser reads from each line of `lines` on. */
  ghost predicate BindsLines(bind: nat -> seq<Binding>, lines: seq<string>) {
    forall j {:trigger Bindings(lines, j)} :: bind(j) == Bindings(lines, j)
  }

  /** Fields laid out as lines give the parser's bindings one field at a time. */
  lemma {:induction false} DocLaidOut(bind: nat -> seq<Binding>, lines: seq<string>, i: nat, fields: seq<Field>)
    requires BindsLines(bind, lines)
    requires PlainFields(fields) && LinesFrom(lines, i, DocLines(fields))
    requires i + |DocLines(fields)| == |lines|
    ensures FieldSteps(bind, i, fields, |lines|)
    decreases |fields|, 1
  {
    if |fields| == 0 {
      DocEnd(bind, lines, i);
    } else {
      DocLaidOutCons(bind, lines, i, fields);
    }
  }

  lemma {:induction false} DocLaidOutCons(bind: nat -> seq<Binding>, lines: seq<string>, i: nat, fields: seq<Field>)
    requires BindsLines(bind, lines)
    requires |fields| > 0 && PlainFields(fields) && LinesFrom(lines, i, DocLines(fields))
    requires i + |DocLines(fields)| == |lines|
    ensures FieldSteps(bind, i, fields, |lines|)
    decreases |fields|, 0
  {
    var n, rest := i + |FieldLines(fields[0])|, fields[1..];
    DocStep(bind, lines, i, fields, n);
    DocLaidOut(bind, lines, n, rest);
  }

  /** Past the last line there are no bindings. */
  lemma DocEnd(bind: nat -> seq<Binding>, lines: seq<string>, i: nat)
    requires BindsLines(bind, lines)
    requires i == |lines|
    ensures bind(i) == []
  {
    assert Bindings(lines, i) == [];
  }

  /** The lines of one field give `bind` its binding before the bindings after it. */
  lemma FieldStepBind(bind: nat -> seq<Binding>, lines: seq<string>, i: nat, f: Field, n: nat)
    requires BindsLines(bind, lines)
    requires PlainField(f) && LinesFrom(lines, i, FieldLines(f)) && n == i + |FieldLines(f)|
    requires EndsList(lines, n)
    ensures bind(i) == [Binding(i, f.key, FieldValue(f))] + bind(n)
  {
    FieldBinding(lines, i, f);
  }

  /** The first field's lines give its binding, and the other fields are laid out after them. */
  lemma DocStep(bind: nat -> seq<Binding>, lines: seq<string>, i: nat, fields: seq<Field>, n: nat)
    requires BindsLines(bind, lines)
    requires |fields| > 0 && PlainFields(fields) && LinesFrom(lines, i, DocLines(fields))
    requires i + |DocLines(fields)| == |lines| && n == i + |FieldLines(fields[0])|
    ensures bind(i) == [Binding(i, fields[0].key, FieldValue(fields[0]))] + bind(n)
    ensures PlainFields(fields[1..]) && LinesFrom(lines, n, DocLines(fields[1..]))
    ensures n + |DocLines(fields[1..])| == |lines|
  {
    var f, rest := fields[0], fields[1..];
    FieldLayout(lines, i, fields);
    NextField(lines, n, rest);
    FieldStepBind(bind, lines, i, f, n);
  }

  lemma DocBindings(lines: seq<string>, fields: seq<Field>)
    requires PlainFields(fields) && LinesFrom(lines, 0, DocLines(fields))
    requires |DocLines(fields)| == |lines|
    ensures Apply(map[], Bindings(lines, 0)) == DocTable(map[], fields)
  {
    var bind := (j: nat) => Bindings(lines, j);
    DocLaidOut(bind, lines, 0, fields);
    ApplySteps(bind, 0, map[], fields, |lines|);
  }

  /** Every line of a document is one line of text, and none is empty. */
  predicate Writable(lines: seq<string>) {
    forall j :: 0 <= j < |lines| ==> NoNewline(lines[j]) && |lines[j]| > 0
  }

  lemma WritableConcat(a: seq<string>, b: seq<string>)
    requires Writable(a) && Writable(b)
    ensures Writable(a + b)
  {
    forall j | 0 <= j < |a + b| ensures NoNewline((a + b)[j]) && |(a + b)[j]| > 0 {
      if j < |a| {
        assert (a + b)[j] == a[j];
      } else {
        assert (a + b)[j] == b[j - |a|];
      }
    }
  }

  lemma ItemLinesWritable(pairs: seq<(string, string)>)
    requires PlainPairs(pairs)
    ensures Writable(ItemLines(pairs))
  {
    var lines := ItemLines(pairs);
    forall j | 0 <= j < |lines| ensures NoNewline(lines[j]) && |lines[j]| > 0 {
      if |pairs| == 0 {
        assert lines[j] == BareItemLine;
      } else if j == 0 {
        ItemLineParts(pairs[0].0, pairs[0].1);
      } else {
        assert lines[j] == DetailLines(pairs[1..])[j - 1];
        assert pairs[1..][j - 1] == pairs[j];
        DetailLineParts(pairs[j].0, pairs[j].1);
      }
    }
  }

  lemma {:induction false} ListLinesWritable(items: seq<seq<(string, string)>>)
    requires PlainItems(items)
    ensures Writable(ListLines(items))
    decreases |items|
  {
    if |items| > 0 {
      ItemLinesWritable(items[0]);
      ListLinesWritable(items[1..]);
      WritableConcat(ItemLines(items[0]), ListLines(items[1..]));
    }
  }

  lemma FieldLinesWritable(f: Field)
    requires PlainField(f)
    ensures Writable(FieldLines(f))
  {
    match f
      case Scalar(k, v) =>
        PairLineParts(k, v);
      case List(k, items) =>
        ListHeaderParts(k);
        ListLinesWritable(items);
        WritableConcat([ListHeader(k)], ListLines(items));
  }

  lemma {:induction false} DocLinesWritable(fields: seq<Field>)
    requires PlainFields(fields)
    ensures Writable(DocLines(fields))
    decreases |fields|
  {
    if |fields| > 0 {
      FieldLinesWritable(fields[0]);
      DocLinesWritable(fields[1..]);
      WritableConcat(FieldLines(fields[0]), DocLines(fields[1..]));
    }
  }

  /**
   * Writing plain fields as lines (a list field as its `key:` line, then a `  - ` line per
   * item and a four-space line for each further pair) and parsing the text gives back the
   * dictionary they describe: a scalar for each pair and, for each list, one item per `-`
   * line holding its pairs, a later pair or field replacing an earlier one.
   */
  lemma DocumentRoundTrip(fields: seq<Field>)
    requires PlainFields(fields)
    ensures Parse(Join("\n", DocLines(fields))) == DocTable(map[], fields)
  {
    var lines := DocLines(fields);
    DocLinesWritable(fields);
    SplitLinesOfJoin(lines);
    LinesFromRest(lines, 0);
    assert lines[0..] == lines;
    DocBindings(lines, fields);
  }
}
