/**
 * The decisions the page generator takes when it turns one parsed entry into a card:
 * the description's paragraphs, the first list item holding a key, the paper button or
 * status badge, the row of links, and the gallery of figures with their alt text. The
 * markup templates are the script's own constants; `str.replace` fills them.
 */
module PageRender {
  import opened Text
  import opened Html
  import opened EntryParser

  // ---------------------------------------------------------------------------
  // Templates

  /** `CARD_TEMPLATE`, up to its gallery placeholder. */
  const CardHead: string :=
    "          <article class=\"portfolio-card\">\n"
    + "            <h3>{{TITLE}}</h3>\n"

  /** `CARD_TEMPLATE` after its gallery placeholder. */
  const CardTail: string :=
    "\n{{DESCRIPTION}}\n"
    + "{{LINKS}}\n"
    + "          </article>"

  /** `CARD_TEMPLATE` */
  const CardTemplate: string := CardHead + "{{GALLERY}}" + CardTail

  const GalleryOpen: string := "            <div class=\"portfolio-card__gallery\">\n"
  const GalleryClose: string := "\n            </div>"

  /** `GALLERY_TEMPLATE` */
  const GalleryTemplate: string := GalleryOpen + "{{FIGURES}}" + GalleryClose

  /** `FIGURE_TEMPLATE` up to the image's alt attribute. */
  const FigureHead: string :=
    "              <figure class=\"portfolio-card__figure\">\n"
    + "                <img src=\"{{SRC}}\" "

  /** The alt attribute of `FIGURE_TEMPLATE`, holding its placeholder. */
  const AltSlot: string := "alt=\"" + "{{ALT}}" + "\""

  /** `FIGURE_TEMPLATE` after the image's alt attribute. */
  const FigureTail: string :=
    ">\n"
    + "{{CAPTION}}\n"
    + "              </figure>"

  /** `FIGURE_TEMPLATE` */
  const FigureTemplate: string := FigureHead + AltSlot + FigureTail

  const CaptionOpen: string := "                <figcaption>"
  const CaptionClose: string := "</figcaption>"

  /** `FIGURE_CAPTION_TEMPLATE` */
  const FigureCaptionTemplate: string := CaptionOpen + "{{TEXT}}" + CaptionClose

  const DescriptionOpen: string :=
    "            <details class=\"portfolio-card__details\">\n"
    + "              <summary class=\"portfolio-card__summary\">Project overview</summary>\n"
    + "              <div class=\"portfolio-card__description\">\n"
  const DescriptionClose: string :=
    "\n"
    + "              </div>\n"
    + "            </details>"

  /** `DESCRIPTION_TEMPLATE` */
  const DescriptionTemplate: string := DescriptionOpen + "{{CONTENT}}" + DescriptionClose

  const LinksOpen: string := "            <div class=\"portfolio-card__links\">\n"
  const LinksClose: string := "\n            </div>"

  /** `LINKS_TEMPLATE` */
  const LinksTemplate: string := LinksOpen + "{{ITEMS}}" + LinksClose

  const PaperButtonOpen: string := "<a class=\"button button--doc\" href=\""
  const PaperButtonClose: string :=
    "\" target=\"_blank\" rel=\"noopener\">\n"
    + "                  <span class=\"button__icon\" aria-hidden=\"true\">\n"
    + "                    <svg viewBox=\"0 0 32 32\" role=\"img\" focusable=\"false\">\n"
    + "                      <path d=\"M9 3h11l7 7v15a4 4 0 0 1-4 4H9a4 4 0 0 1-4-4V7a4 4 0 0 1 4-4z\" fill=\"none\" stroke=\"currentColor\" stroke-width=\"2\" stroke-linejoin=\"round\"/>\n"
    + "                      <path d=\"M20 3v8h7\" fill=\"none\" stroke=\"currentColor\" stroke-width=\"2\" stroke-linejoin=\"round\"/>\n"
    + "                      <rect x=\"9\" y=\"19\" width=\"14\" height=\"8\" rx=\"1.6\" fill=\"currentColor\"/>\n"
    + "                      <text x=\"16\" y=\"25\" text-anchor=\"middle\" font-family=\"Inter, 'Segoe UI', sans-serif\" font-size=\"7\" font-weight=\"700\" fill=\"#ffffff\">PDF</text>\n"
    + "                    </svg>\n"
    + "                  </span>\n"
    + "                  <span class=\"button__label\">Read Paper</span>\n"
    + "                </a>"

  /** `PAPER_BUTTON_TEMPLATE` */
  const PaperButtonTemplate: string := PaperButtonOpen + "{{URL}}" + PaperButtonClose

  const VideoButtonOpen: string := "<a class=\"button button--video\" href=\""
  const VideoButtonClose: string :=
    "\" target=\"_blank\" rel=\"noopener\">\n"
    + "                  <span class=\"button__label\">Watch Video</span>\n"
    + "                </a>"

  /** `VIDEO_BUTTON_TEMPLATE` */
  const VideoButtonTemplate: string := VideoButtonOpen + "{{URL}}" + VideoButtonClose

  const BadgeOpen: string := "<span class=\"badge badge--status\">"
  const BadgeClose: string := "</span>"

  /** `STATUS_BADGE_TEMPLATE` */
  const StatusBadgeTemplate: string := BadgeOpen + "{{STATUS}}" + BadgeClose

  /** Every template closes with `>`, a character none of the placeholders contains. */
  predicate EndsWithTag(t: string) {
    |t| > 0 && t[|t| - 1] == '>'
  }

  /** Filling a placeholder of a template that ends with a tag never empties it. */
  lemma FilledNotEmpty(t: string, pat: string, rep: string)
    requires EndsWithTag(t) && |pat| > 0 && pat[0] == '{' && '>' !in pat
    ensures EndsWithTag(ReplaceAll(t, pat, rep))
  {
    ReplaceKeepsLast(t, pat, rep);
  }

  /** Each template closes with a tag. */
  lemma TemplatesEndWithTag()
    ensures EndsWithTag(CardTemplate) && EndsWithTag(GalleryTemplate) && EndsWithTag(FigureTemplate)
    ensures EndsWithTag(FigureCaptionTemplate) && EndsWithTag(DescriptionTemplate)
    ensures EndsWithTag(LinksTemplate) && EndsWithTag(PaperButtonTemplate)
    ensures EndsWithTag(VideoButtonTemplate) && EndsWithTag(StatusBadgeTemplate)
  {
    TagAfter(CardHead + "{{GALLERY}}", CardTail);
    TagAfter(GalleryOpen + "{{FIGURES}}", GalleryClose);
    TagAfter(FigureHead + AltSlot, FigureTail);
    TagAfter(CaptionOpen + "{{TEXT}}", CaptionClose);
    TagAfter(DescriptionOpen + "{{CONTENT}}", DescriptionClose);
    TagAfter(LinksOpen + "{{ITEMS}}", LinksClose);
    TagAfter(PaperButtonOpen + "{{URL}}", PaperButtonClose);
    TagAfter(VideoButtonOpen + "{{URL}}", VideoButtonClose);
    TagAfter(BadgeOpen + "{{STATUS}}", BadgeClose);
  }

  /** Text ending with a tag still does with anything written before it. */
  lemma TagAfter(a: string, b: string)
    requires EndsWithTag(b)
    ensures EndsWithTag(a + b)
  {
    assert (a + b)[|a + b| - 1] == b[|b| - 1];
  }

  // ---------------------------------------------------------------------------
  // split_paragraphs

  /** The buffer as one paragraph, appended to `out` when it holds any line. */
  function Flush(buffer: seq<string>, out: seq<string>): seq<string> {
    if |buffer| > 0 then out + [Join(" ", buffer)] else out
  }

  /**
   * The loop of `split_paragraphs` from line `i` on: a blank line ends the paragraph
   * being gathered, any other line joins it stripped, and the end of the text ends it.
   */
  function ParagraphScan(lines: seq<string>, i: nat, buffer: seq<string>, out: seq<string>): seq<string>
    decreases |lines| - i
  {
    if i >= |lines| then Flush(buffer, out)
    else if IsBlank(lines[i]) then ParagraphScan(lines, i + 1, [], Flush(buffer, out))
    else ParagraphScan(lines, i + 1, buffer + [Strip(lines[i])], out)
  }

  /** The paragraphs `split_paragraphs(text)` yields, in order. */
  function Paragraphs(text: string): seq<string> {
    ParagraphScan(SplitLines(text), 0, [], [])
  }

  /** `split_paragraphs(text)`, with the yielded paragraphs collected in a sequence. */
  method SplitParagraphs(text: string) returns (paragraphs: seq<string>)
    ensures paragraphs == Paragraphs(text)
  {
    var lines := SplitLines(text);
    var buffer: seq<string> := [];
    paragraphs := [];
    for i := 0 to |lines|
      invariant ParagraphScan(lines, 0, [], []) == ParagraphScan(lines, i, buffer, paragraphs)
    {
      var line := lines[i];
      if |Strip(line)| == 0 {
        if |buffer| > 0 {
          paragraphs := paragraphs + [Join(" ", buffer)];
          buffer := [];
        }
        continue;
      }
      buffer := buffer + [Strip(line)];
    }
    if |buffer| > 0 {
      paragraphs := paragraphs + [Join(" ", buffer)];
    }
  }

  /** Each string is non-empty and has no surrounding whitespace. */
  predicate AllFilled(parts: seq<string>) {
    forall i :: 0 <= i < |parts| ==> |parts[i]| > 0 && IsStripped(parts[i])
  }

  /** Joining filled parts with a space gives a filled string. */
  lemma {:induction false} JoinFilled(parts: seq<string>)
    requires |parts| > 0 && AllFilled(parts)
    ensures |Join(" ", parts)| > 0 && IsStripped(Join(" ", parts))
  {
    if |parts| > 1 {
      var rest := parts[1..];
      JoinFilled(rest);
      var j := Join(" ", parts);
      assert j == parts[0] + " " + Join(" ", rest);
      assert j[0] == parts[0][0];
      assert j[|j| - 1] == Join(" ", rest)[|Join(" ", rest)| - 1];
    }
  }

  lemma {:induction false} ParagraphScanFilled(lines: seq<string>, i: nat, buffer: seq<string>, out: seq<string>)
    requires AllFilled(buffer) && AllFilled(out)
    ensures AllFilled(ParagraphScan(lines, i, buffer, out))
    decreases |lines| - i
  {
    if |buffer| > 0 {
      JoinFilled(buffer);
    }
    if i < |lines| {
      if IsBlank(lines[i]) {
        ParagraphScanFilled(lines, i + 1, [], Flush(buffer, out));
      } else {
        ParagraphScanFilled(lines, i + 1, buffer + [Strip(lines[i])], out);
      }
    }
  }

  /**
   * No paragraph is empty, and none has leading or trailing whitespace: each is its
   * stripped lines joined by single spaces.
   */
  lemma ParagraphsFilled(text: string)
    ensures AllFilled(Paragraphs(text))
  {
    ParagraphScanFilled(SplitLines(text), 0, [], []);
  }

  /** The scan never drops a paragraph already found or being gathered. */
  lemma {:induction false} ParagraphScanGrows(lines: seq<string>, i: nat, buffer: seq<string>, out: seq<string>)
    ensures |ParagraphScan(lines, i, buffer, out)| >= |Flush(buffer, out)|
    decreases |lines| - i
  {
    if i < |lines| {
      if IsBlank(lines[i]) {
        ParagraphScanGrows(lines, i + 1, [], Flush(buffer, out));
      } else {
        ParagraphScanGrows(lines, i + 1, buffer + [Strip(lines[i])], out);
      }
    }
  }

  // Paragraph layout: groups of lines separated by one empty line.

  /** A line that `split_paragraphs` keeps as it is. */
  predicate PlainLine(l: string) {
    |l| > 0 && IsStripped(l) && NoNewline(l)
  }

  /** Non-empty groups of plain lines. */
  predicate PlainGroups(groups: seq<seq<string>>) {
    forall i :: 0 <= i < |groups| ==>
      |groups[i]| > 0 && (forall j :: 0 <= j < |groups[i]| ==> PlainLine(groups[i][j]))
  }

  /** The groups' lines, with one empty line between consecutive groups. */
  function Layout(groups: seq<seq<string>>): seq<string>
    decreases |groups|
  {
    if |groups| == 0 then []
    else if |groups| == 1 then groups[0]
    else groups[0] + [""] + Layout(groups[1..])
  }

  /** Each group as one paragraph. */
  function JoinedGroups(groups: seq<seq<string>>): (r: seq<string>)
    ensures |r| == |groups|
  {
    seq(|groups|, i requires 0 <= i < |groups| => Join(" ", groups[i]))
  }

  /** Lines `i` onwards of `lines` begin with the plain lines `g`. */
  predicate GroupAt(lines: seq<string>, i: nat, g: seq<string>) {
    i + |g| <= |lines| && forall k :: 0 <= k < |g| ==> lines[i + k] == g[k] && PlainLine(g[k])
  }

  /** Reading one group of plain lines adds them, unchanged, to the paragraph being gathered. */
  lemma {:induction false} ScanGroup(lines: seq<string>, i: nat, g: seq<string>, buffer: seq<string>, out: seq<string>)
    requires GroupAt(lines, i, g)
    ensures ParagraphScan(lines, i, buffer, out) == ParagraphScan(lines, i + |g|, buffer + g, out)
    decreases |g|
  {
    if |g| > 0 {
      var g', b' := g[1..], buffer + [g[0]];
      GroupStep(lines, i, g, buffer, out, g', b');
      ScanGroup(lines, i + 1, g', b', out);
    } else {
      assert buffer + g == buffer;
    }
  }

  /** The first line of a group joins the paragraph, and the rest of the group follows. */
  lemma GroupStep(lines: seq<string>, i: nat, g: seq<string>, buffer: seq<string>, out: seq<string>,
                  g': seq<string>, b': seq<string>)
    requires GroupAt(lines, i, g) && |g| > 0 && g' == g[1..] && b' == buffer + [g[0]]
    ensures ParagraphScan(lines, i, buffer, out) == ParagraphScan(lines, i + 1, b', out)
    ensures GroupAt(lines, i + 1, g') && i + 1 + |g'| == i + |g| && b' + g' == buffer + g
  {
    ScanLine(lines, i, g[0], buffer, out);
    forall k | 0 <= k < |g'| ensures lines[i + 1 + k] == g'[k] && PlainLine(g'[k]) {
      assert g'[k] == g[k + 1];
    }
  }

  /** A plain line joins the paragraph being gathered as it is. */
  lemma ScanLine(lines: seq<string>, i: nat, l: string, buffer: seq<string>, out: seq<string>)
    requires i < |lines| && lines[i] == l && PlainLine(l)
    ensures ParagraphScan(lines, i, buffer, out) == ParagraphScan(lines, i + 1, buffer + [l], out)
  {
    StripOfStripped(l);
    BlankIffAllSpace(l);
    assert !IsSpace(l[0]);
  }

  /** A group of plain lines followed by an empty line gives one paragraph, its lines joined by spaces. */
  lemma ScanGroupBreak(lines: seq<string>, i: nat, g: seq<string>, out: seq<string>)
    requires |g| > 0 && i + |g| < |lines| && lines[i + |g|] == ""
    requires forall k :: 0 <= k < |g| ==> lines[i + k] == g[k] && PlainLine(g[k])
    ensures ParagraphScan(lines, i, [], out) == ParagraphScan(lines, i + |g| + 1, [], out + [Join(" ", g)])
  {
    ScanGroup(lines, i, g, [], out);
    assert [] + g == g;
    assert IsBlank(lines[i + |g|]);
  }

  /** The first of plain groups laid out from line `i` is followed by an empty line. */
  lemma FirstGroupAt(lines: seq<string>, i: nat, groups: seq<seq<string>>)
    requires |groups| > 1 && PlainGroups(groups) && LinesAt(lines, i, Layout(groups))
    ensures |groups[0]| > 0 && i + |groups[0]| < |lines| && lines[i + |groups[0]|] == ""
    ensures forall k :: 0 <= k < |groups[0]| ==> lines[i + k] == groups[0][k] && PlainLine(groups[0][k])
    ensures LinesAt(lines, i + |groups[0]| + 1, Layout(groups[1..])) && PlainGroups(groups[1..])
  {
    LayoutConsAt(lines, i, groups);
    PlainGroupsTail(groups);
  }

  /** Lines `i` onwards of `lines` are exactly `l`. */
  predicate LinesAt(lines: seq<string>, i: nat, l: seq<string>) {
    i + |l| == |lines| && forall k :: 0 <= k < |l| ==> lines[i + k] == l[k]
  }

  lemma JoinedGroupsCons(groups: seq<seq<string>>)
    requires |groups| > 0
    ensures JoinedGroups(groups) == [Join(" ", groups[0])] + JoinedGroups(groups[1..])
  {
  }

  lemma PlainGroupsTail(groups: seq<seq<string>>)
    requires |groups| > 0 && PlainGroups(groups)
    ensures PlainGroups(groups[1..])
  {
    assert forall i :: 0 <= i < |groups| - 1 ==> groups[1..][i] == groups[i + 1];
  }

  /** After the first of several groups come an empty line and the layout of the rest. */
  lemma LayoutConsAt(lines: seq<string>, i: nat, groups: seq<seq<string>>)
    requires |groups| > 1 && LinesAt(lines, i, Layout(groups))
    ensures forall k :: 0 <= k < |groups[0]| ==> lines[i + k] == groups[0][k]
    ensures lines[i + |groups[0]|] == ""
    ensures LinesAt(lines, i + |groups[0]| + 1, Layout(groups[1..]))
  {
    var g, l, rest := groups[0], Layout(groups), Layout(groups[1..]);
    assert l == g + [""] + rest;
    forall k | 0 <= k < |g| ensures lines[i + k] == g[k] {
      assert l[k] == g[k];
    }
    assert l[|g|] == "";
    forall k | 0 <= k < |rest| ensures lines[i + |g| + 1 + k] == rest[k] {
      assert l[|g| + 1 + k] == rest[k];
    }
  }

  lemma {:induction false} ScanLayout(lines: seq<string>, i: nat, groups: seq<seq<string>>, out: seq<string>)
    requires PlainGroups(groups) && LinesAt(lines, i, Layout(groups))
    ensures ParagraphScan(lines, i, [], out) == out + JoinedGroups(groups)
    decreases |groups|
  {
    if |groups| == 0 {
      assert JoinedGroups(groups) == [];
      assert out + [] == out;
    } else if |groups| == 1 {
      ScanOneGroup(lines, i, groups, out);
    } else {
      var g := groups[0];
      var out' := out + [Join(" ", g)];
      FirstGroupAt(lines, i, groups);
      ScanGroupBreak(lines, i, g, out);
      ScanLayout(lines, i + |g| + 1, groups[1..], out');
      JoinedGroupsCons(groups);
      assert out' + JoinedGroups(groups[1..]) == out + JoinedGroups(groups);
    }
  }

  /** A single group laid out up to the end of the lines gives one paragraph. */
  lemma ScanOneGroup(lines: seq<string>, i: nat, groups: seq<seq<string>>, out: seq<string>)
    requires |groups| == 1 && PlainGroups(groups) && LinesAt(lines, i, Layout(groups))
    ensures ParagraphScan(lines, i, [], out) == out + JoinedGroups(groups)
  {
    var g := groups[0];
    assert Layout(groups) == g;
    assert GroupAt(lines, i, g);
    ScanGroup(lines, i, g, [], out);
    assert [] + g == g;
    assert JoinedGroups(groups) == [Join(" ", g)];
  }

  /** The lines of a layout have no newline nor surrounding whitespace, and the last one is not empty. */
  lemma {:induction false} LayoutLines(groups: seq<seq<string>>)
    requires PlainGroups(groups)
    ensures forall k :: 0 <= k < |Layout(groups)| ==> NoNewline(Layout(groups)[k]) && IsStripped(Layout(groups)[k])
    ensures |groups| > 0 ==> |Layout(groups)| > 0 && Layout(groups)[|Layout(groups)| - 1] != ""
    decreases |groups|
  {
    if |groups| > 1 {
      var rest := groups[1..];
      assert forall i :: 0 <= i < |rest| ==> rest[i] == groups[i + 1];
      LayoutLines(rest);
      var l := Layout(groups);
      var g := groups[0];
      forall k | 0 <= k < |l| ensures NoNewline(l[k]) && IsStripped(l[k]) {
        if k < |g| {
          assert l[k] == g[k];
        } else if k > |g| {
          assert l[k] == Layout(rest)[k - |g| - 1];
        }
      }
      assert l[|l| - 1] == Layout(rest)[|Layout(rest)| - 1];
    } else if |groups| == 1 {
      assert groups[0][|groups[0]| - 1] != "";
    }
  }

  /**
   * Text written as groups of lines separated by one empty line splits back into one
   * paragraph per group, its lines joined by single spaces.
   */
  lemma ParagraphsOfLayout(groups: seq<seq<string>>)
    requires PlainGroups(groups)
    ensures Paragraphs(Join("\n", Layout(groups))) == JoinedGroups(groups)
  {
    LayoutLines(groups);
    SplitLinesOfJoin(Layout(groups));
    ScanLayout(Layout(groups), 0, groups, []);
    assert [] + JoinedGroups(groups) == JoinedGroups(groups);
  }

  // ---------------------------------------------------------------------------
  // format_description

  /** The element one paragraph becomes: its text escaped inside `<p>`. */
  function ParagraphElement(p: string): string {
    "<p>" + Escape(p) + "</p>"
  }

  /** The element of every part, in order. */
  function Elements(parts: seq<string>): (r: seq<string>)
    ensures |r| == |parts|
  {
    if |parts| == 0 then [] else [ParagraphElement(parts[0])] + Elements(parts[1..])
  }

  /** The comprehension of `format_description`: the element of each part that is not blank, stripped. */
  function ParagraphMarkup(parts: seq<string>): seq<string>
  {
    if |parts| == 0 then []
    else if IsBlank(parts[0]) then ParagraphMarkup(parts[1..])
    else [ParagraphElement(Strip(parts[0]))] + ParagraphMarkup(parts[1..])
  }

  /** `format_description(text)`: blank text gives nothing, other text its paragraphs' elements, one per line. */
  function FormatDescription(text: string): string {
    var t := Strip(text);
    if |t| == 0 then "" else Join("\n", ParagraphMarkup(Paragraphs(t)))
  }

  /** The filter of the comprehension drops nothing from filled parts, and the strip changes nothing. */
  lemma {:induction false} MarkupOfFilled(parts: seq<string>)
    requires AllFilled(parts)
    ensures ParagraphMarkup(parts) == Elements(parts)
  {
    if |parts| > 0 {
      var p, rest := parts[0], parts[1..];
      StripOfStripped(p);
      FilledTail(parts, rest);
      MarkupOfFilled(rest);
    }
  }

  lemma FilledTail(parts: seq<string>, rest: seq<string>)
    requires AllFilled(parts) && |parts| > 0 && rest == parts[1..]
    ensures AllFilled(rest)
  {
    assert forall i :: 0 <= i < |rest| ==> rest[i] == parts[i + 1];
  }


  /** Text that starts with a character other than whitespace has a first line that is not blank. */
  lemma FirstLineNotBlank(t: string)
    requires |t| > 0 && !IsSpace(t[0])
    ensures |SplitLines(t)| > 0 && !IsBlank(SplitLines(t)[0])
  {
    var i := Find(t, '\n');
    FindFirst(t, '\n');
    var parts := Split(t, '\n');
    assert i > 0;
    assert parts[0] == t[..i];
    if i < |t| {
      assert |parts| >= 2;
    }
    assert SplitLines(t)[0] == t[..i];
    assert t[..i][0] == t[0];
    BlankIffAllSpace(t[..i]);
  }

  /** Text that starts with a character other than whitespace has at least one paragraph. */
  lemma ParagraphsNotEmpty(t: string)
    requires |t| > 0 && !IsSpace(t[0])
    ensures |Paragraphs(t)| > 0
  {
    FirstLineNotBlank(t);
    var lines := SplitLines(t);
    assert [] + [Strip(lines[0])] == [Strip(lines[0])];
    ParagraphScanGrows(lines, 1, [Strip(lines[0])], []);
  }

  /** The description is the elements of the stripped text's paragraphs, one per line. */
  lemma FormatDescriptionParagraphs(text: string)
    ensures FormatDescription(text) == Join("\n", Elements(Paragraphs(Strip(text))))
  {
    var t := Strip(text);
    ParagraphsFilled(t);
    MarkupOfFilled(Paragraphs(t));
    if |t| == 0 {
      assert SplitLines(t) == [];
      assert Paragraphs(t) == [];
    }
  }

  /** The description is empty exactly when the text is blank. */
  lemma FormatDescriptionEmpty(text: string)
    ensures |FormatDescription(text)| == 0 <==> IsBlank(text)
  {
    var t := Strip(text);
    if |t| > 0 {
      ParagraphsNotEmpty(t);
      var ps := Paragraphs(t);
      ParagraphsFilled(t);
      MarkupOfFilled(ps);
      var ms := ParagraphMarkup(ps);
      assert ms[0] == ParagraphElement(ps[0]);
      JoinEmpty("\n", ms);
    }
  }

  /** The first character of a layout is the first character of its first line. */
  lemma LayoutFirst(groups: seq<seq<string>>)
    requires PlainGroups(groups) && |groups| > 0
    ensures |Layout(groups)| > 0 && Layout(groups)[0] == groups[0][0]
  {
  }

  /** Text laid out from groups of plain lines has no surrounding whitespace. */
  lemma LayoutStripped(groups: seq<seq<string>>)
    requires PlainGroups(groups)
    ensures IsStripped(Join("\n", Layout(groups)))
  {
    var l := Layout(groups);
    if |groups| > 0 {
      LayoutFirst(groups);
      LayoutLines(groups);
      var c := JoinLast(l);
      var text := Join("\n", l);
      assert text[0] == l[0][0];
    } else {
      assert Join("\n", l) == "";
    }
  }

  /**
   * A description written as groups of lines separated by one empty line becomes one
   * element per group, holding the group's lines joined by single spaces.
   */
  lemma DescriptionOfLayout(groups: seq<seq<string>>)
    requires PlainGroups(groups)
    ensures FormatDescription(Join("\n", Layout(groups))) == Join("\n", Elements(JoinedGroups(groups)))
  {
    var text := Join("\n", Layout(groups));
    LayoutStripped(groups);
    StripOfStripped(text);
    FormatDescriptionParagraphs(text);
    ParagraphsOfLayout(groups);
  }

  // ---------------------------------------------------------------------------
  // first_dict_with_key and the card's fields

  /** `first_dict_with_key(items, key)`: the first item holding `key`, or the empty item. */
  function FirstWithKey(items: seq<Item>, key: string): Item {
    if |items| == 0 then map[]
    else if key in items[0] then items[0]
    else FirstWithKey(items[1..], key)
  }

  /** The item found is the first that holds the key; when none does, the result is empty. */
  lemma {:induction false} FirstWithKeyIsFirst(items: seq<Item>, key: string) returns (j: nat)
    ensures j <= |items|
    ensures forall i :: 0 <= i < j ==> key !in items[i]
    ensures j < |items| ==> key in items[j] && FirstWithKey(items, key) == items[j]
    ensures j == |items| ==> FirstWithKey(items, key) == map[]
  {
    if |items| == 0 || key in items[0] {
      j := 0;
    } else {
      var k := FirstWithKeyIsFirst(items[1..], key);
      j := k + 1;
      forall i | 0 < i < j ensures key !in items[i] {
        assert items[i] == items[1..][i - 1];
      }
    }
  }

  /** The loop of `first_dict_with_key`, returning at the first item holding the key. */
  method FirstDictWithKey(items: seq<Item>, key: string) returns (r: Item)
    ensures r == FirstWithKey(items, key)
  {
    for i := 0 to |items|
      invariant FirstWithKey(items, key) == FirstWithKey(items[i..], key)
    {
      assert items[i..][1..] == items[i + 1..];
      if key in items[i] {
        return items[i];
      }
    }
    assert |items[|items|..]| == 0;
    return map[];
  }

  /** `item.get(key, "")` */
  function ItemValue(item: Item, key: string): string {
    if key in item then item[key] else ""
  }

  /** Python's truth value of a parsed value: a non-empty text or a non-empty list. */
  predicate Truthy(v: Value) {
    match v
    case Str(s) => |s| > 0
    case Items(l) => |l| > 0
  }

  /**
   * `data.get(key) or []` when only its dictionaries matter: a text value is iterated
   * character by character, and no character is a dictionary.
   */
  function ItemsOf(data: map<string, Value>, key: string): seq<Item> {
    if key in data && data[key].Items? then data[key].items else []
  }

  /** The status of the first paper item holding one, or nothing. */
  function CardStatus(data: map<string, Value>): string {
    ItemValue(FirstWithKey(ItemsOf(data, "paper"), "status"), "status")
  }

  /** The url of the first paper item holding one, or nothing. */
  function CardPaperUrl(data: map<string, Value>): string {
    ItemValue(FirstWithKey(ItemsOf(data, "paper"), "url"), "url")
  }

  /**
   * The video url: a non-empty `video` text is the url itself and a non-empty `video`
   * list gives none; otherwise the url of the first `videos` item holding one.
   */
  function CardVideoUrl(data: map<string, Value>): string {
    if "video" in data && Truthy(data["video"]) then
      match data["video"]
      case Str(s) => s
      case Items(_) => ""
    else ItemValue(FirstWithKey(ItemsOf(data, "videos"), "url"), "url")
  }

  /**
   * The card's status is that of its first paper item holding a `status`, and its paper
   * url that of its first paper item holding a `url`; each is empty when no item has one.
   */
  lemma CardPaperFields(data: map<string, Value>) returns (s: nat, u: nat)
    ensures var items := ItemsOf(data, "paper");
      && s <= |items| && (forall i :: 0 <= i < s ==> "status" !in items[i])
      && (s < |items| ==> "status" in items[s])
      && CardStatus(data) == (if s < |items| then items[s]["status"] else "")
      && u <= |items| && (forall i :: 0 <= i < u ==> "url" !in items[i])
      && (u < |items| ==> "url" in items[u])
      && CardPaperUrl(data) == (if u < |items| then items[u]["url"] else "")
  {
    var items := ItemsOf(data, "paper");
    s := FirstWithKeyIsFirst(items, "status");
    u := FirstWithKeyIsFirst(items, "url");
  }

  /**
   * A non-empty `video` text is the video url and a non-empty `video` list gives none;
   * otherwise the url is that of the first `videos` item holding one, or empty.
   */
  lemma CardVideoFields(data: map<string, Value>) returns (v: nat)
    ensures "video" in data && data["video"].Str? && |data["video"].text| > 0 ==> CardVideoUrl(data) == data["video"].text
    ensures "video" in data && data["video"].Items? && |data["video"].items| > 0 ==> CardVideoUrl(data) == ""
    ensures var videos := ItemsOf(data, "videos");
      && v <= |videos| && (forall i :: 0 <= i < v ==> "url" !in videos[i])
      && (v < |videos| ==> "url" in videos[v])
      && (!("video" in data && Truthy(data["video"])) ==>
            CardVideoUrl(data) == if v < |videos| then videos[v]["url"] else "")
  {
    v := FirstWithKeyIsFirst(ItemsOf(data, "videos"), "url");
  }

  // ---------------------------------------------------------------------------
  // Buttons, badge and the row of links

  /** `render_paper_button(url)` */
  function RenderPaperButton(url: string): string {
    if |url| == 0 then "" else ReplaceAll(PaperButtonTemplate, "{{URL}}", Escape(url))
  }

  /** `render_video_button(url)` */
  function RenderVideoButton(url: string): string {
    if |url| == 0 then "" else ReplaceAll(VideoButtonTemplate, "{{URL}}", Escape(url))
  }

  /** `render_status_badge(status)` */
  function RenderStatusBadge(status: string): string {
    ReplaceAll(StatusBadgeTemplate, "{{STATUS}}", Escape(Strip(status)))
  }

  /** A button exists exactly when there is a url, and it then ends with `>`. */
  lemma ButtonsShape(url: string)
    ensures |RenderPaperButton(url)| == 0 <==> |url| == 0
    ensures |RenderVideoButton(url)| == 0 <==> |url| == 0
    ensures |url| > 0 ==> EndsWithTag(RenderPaperButton(url)) && EndsWithTag(RenderVideoButton(url))
  {
    if |url| > 0 {
      TemplatesEndWithTag();
      FilledNotEmpty(PaperButtonTemplate, "{{URL}}", Escape(url));
      FilledNotEmpty(VideoButtonTemplate, "{{URL}}", Escape(url));
    }
  }

  /** The badge always ends with `>`, even for an empty status. */
  lemma StatusBadgeShape(status: string)
    ensures EndsWithTag(RenderStatusBadge(status))
  {
    TemplatesEndWithTag();
    FilledNotEmpty(StatusBadgeTemplate, "{{STATUS}}", Escape(Strip(status)));
  }

  /** A button holds its url, escaped. */
  lemma ButtonsHoldUrl(url: string)
    requires |url| > 0
    ensures Contains(RenderPaperButton(url), Escape(url)) && Contains(RenderVideoButton(url), Escape(url))
  {
    ButtonEnds();
    ButtonHoldsUrl(PaperButtonOpen, PaperButtonClose, Escape(url));
    ButtonHoldsUrl(VideoButtonOpen, VideoButtonClose, Escape(url));
  }

  /** A button template whose url placeholder is quoted holds the url it is filled with. */
  lemma ButtonHoldsUrl(open: string, close: string, url: string)
    requires |open| > 0 && open[|open| - 1] == '"' && |close| > 0 && close[0] == '"'
    ensures Contains(ReplaceAll(open + "{{URL}}" + close, "{{URL}}", url), url)
  {
    var pat := "{{URL}}";
    assert pat[..|pat| - 1] == "{{URL}" && pat[1..] == "{URL}}";
    FillPlaceholderHolds(open, pat, close, url);
  }

  /** The quotes around the url of both buttons. */
  lemma ButtonEnds()
    ensures |PaperButtonOpen| > 0 && PaperButtonOpen[|PaperButtonOpen| - 1] == '"'
    ensures |PaperButtonClose| > 0 && PaperButtonClose[0] == '"'
    ensures |VideoButtonOpen| > 0 && VideoButtonOpen[|VideoButtonOpen| - 1] == '"'
    ensures |VideoButtonClose| > 0 && VideoButtonClose[0] == '"'
  {
  }

  /** The badge holds the status, stripped and escaped. */
  lemma StatusBadgeHoldsStatus(status: string)
    ensures Contains(RenderStatusBadge(status), Escape(Strip(status)))
  {
    assert BadgeOpen[|BadgeOpen| - 1] == '>' && BadgeClose[0] == '<';
    BadgeHoldsStatus(BadgeOpen, BadgeClose, Escape(Strip(status)));
  }

  /** A badge template whose status placeholder stands between two tags holds the status. */
  lemma BadgeHoldsStatus(open: string, close: string, status: string)
    requires |open| > 0 && open[|open| - 1] == '>' && |close| > 0 && close[0] == '<'
    ensures Contains(ReplaceAll(open + "{{STATUS}}" + close, "{{STATUS}}", status), status)
  {
    var pat := "{{STATUS}}";
    assert pat[..|pat| - 1] == "{{STATUS}" && pat[1..] == "{STATUS}}";
    FillPlaceholderHolds(open, pat, close, status);
  }

  /** The comprehension of `render_links`: the components that are not empty, in order. */
  function NonEmpty(parts: seq<string>): seq<string> {
    if |parts| == 0 then []
    else if |parts[0]| == 0 then NonEmpty(parts[1..])
    else [parts[0]] + NonEmpty(parts[1..])
  }

  /** The filter keeps exactly the non-empty parts: none of the empty ones, all of the others. */
  lemma {:induction false} NonEmptyKeeps(parts: seq<string>)
    ensures forall i :: 0 <= i < |NonEmpty(parts)| ==> |NonEmpty(parts)[i]| > 0
    ensures |NonEmpty(parts)| == 0 <==> forall i :: 0 <= i < |parts| ==> |parts[i]| == 0
    ensures (forall i :: 0 <= i < |parts| ==> |parts[i]| > 0) ==> NonEmpty(parts) == parts
  {
    if |parts| > 0 {
      var rest := parts[1..];
      assert forall i :: 0 <= i < |rest| ==> rest[i] == parts[i + 1];
      NonEmptyKeeps(rest);
    }
  }

  /** `render_links(components)` */
  function RenderLinks(components: seq<string>): string {
    var items := NonEmpty(components);
    if |items| == 0 then "" else ReplaceAll(LinksTemplate, "{{ITEMS}}", Join("\n", items))
  }

  /** The row of links is empty exactly when every component is, and otherwise ends with `>`. */
  lemma RenderLinksShape(components: seq<string>)
    ensures |RenderLinks(components)| == 0 <==> forall i :: 0 <= i < |components| ==> |components[i]| == 0
    ensures |RenderLinks(components)| > 0 ==> EndsWithTag(RenderLinks(components))
  {
    NonEmptyKeeps(components);
    if |NonEmpty(components)| > 0 {
      TemplatesEndWithTag();
      FilledNotEmpty(LinksTemplate, "{{ITEMS}}", Join("\n", NonEmpty(components)));
    }
  }

  /** A non-empty component is among those the filter keeps. */
  lemma {:induction false} NonEmptyHas(parts: seq<string>, i: nat)
    requires i < |parts| && |parts[i]| > 0
    ensures parts[i] in NonEmpty(parts)
  {
    if i > 0 {
      assert parts[1..][i - 1] == parts[i];
      NonEmptyHas(parts[1..], i - 1);
    }
  }

  /** The row of links holds every non-empty component. */
  lemma RenderLinksHold(components: seq<string>, i: nat)
    requires i < |components| && |components[i]| > 0
    ensures Contains(RenderLinks(components), components[i])
  {
    var items := NonEmpty(components);
    NonEmptyHas(components, i);
    var k :| 0 <= k < |items| && items[k] == components[i];
    var joined, pat := Join("\n", items), "{{ITEMS}}";
    assert pat[..|pat| - 1] == "{{ITEMS}" && pat[1..] == "{ITEMS}}";
    assert LinksOpen[|LinksOpen| - 1] == '\n' && LinksClose[0] == '\n';
    FillPlaceholderHolds(LinksOpen, pat, LinksClose, joined);
    JoinHas("\n", items, k);
    ContainsTrans(RenderLinks(components), joined, components[i]);
  }

  /** The status that lets the paper button replace the badge. */
  predicate ShowsPaper(status: string, paperUrl: string) {
    Lower(status) == "accepted" && |paperUrl| > 0
  }

  /** `[paper_button, status_badge, video_button]` as `render_card` chooses them. */
  function LinkButtons(status: string, paperUrl: string, videoUrl: string): (r: seq<string>)
    ensures |r| == 3
  {
    var accepted := ShowsPaper(status, paperUrl);
    [ if accepted then RenderPaperButton(paperUrl) else "",
      if !accepted && |status| > 0 then RenderStatusBadge(status) else "",
      RenderVideoButton(videoUrl) ]
  }

  /**
   * An accepted paper with a url gets the paper button; any other non-empty status gets
   * the badge instead; never both; the video button follows its url alone.
   */
  lemma LinkChoice(status: string, paperUrl: string, videoUrl: string)
    ensures var r := LinkButtons(status, paperUrl, videoUrl);
      && (|r[0]| > 0 <==> ShowsPaper(status, paperUrl))
      && (|r[1]| > 0 <==> !ShowsPaper(status, paperUrl) && |status| > 0)
      && !(|r[0]| > 0 && |r[1]| > 0)
      && (|r[2]| > 0 <==> |videoUrl| > 0)
  {
    ButtonsShape(paperUrl);
    ButtonsShape(videoUrl);
    StatusBadgeShape(status);
  }

  /** The card's row of links. */
  function CardLinks(data: map<string, Value>): string {
    RenderLinks(LinkButtons(CardStatus(data), CardPaperUrl(data), CardVideoUrl(data)))
  }

  /** A card has links exactly when its paper has a status or it has a video url. */
  lemma CardLinksEmpty(data: map<string, Value>)
    ensures |CardLinks(data)| == 0 <==> |CardStatus(data)| == 0 && |CardVideoUrl(data)| == 0
  {
    var status, url, video := CardStatus(data), CardPaperUrl(data), CardVideoUrl(data);
    var r := LinkButtons(status, url, video);
    LinkChoice(status, url, video);
    RenderLinksShape(r);
    if ShowsPaper(status, url) {
      assert |Lower(status)| == 8;
    }
    assert |RenderLinks(r)| == 0 <==> |r[0]| == 0 && |r[1]| == 0 && |r[2]| == 0;
  }

  // ---------------------------------------------------------------------------
  // render_gallery

  /** `html.escape(caption_raw) if caption_raw else ""` */
  function CaptionHtml(captionRaw: string): string {
    if |captionRaw| > 0 then Escape(captionRaw) else ""
  }

  /** `caption_html or html.escape(fallback_title)` */
  function AltText(captionHtml: string, fallbackTitle: string): string {
    if |captionHtml| > 0 then captionHtml else Escape(fallbackTitle)
  }

  /** A reader of the alt attribute gets back the caption, or the fallback title when there is none. */
  lemma AltRoundTrip(captionRaw: string, fallbackTitle: string)
    ensures Unescape(AltText(CaptionHtml(captionRaw), fallbackTitle))
      == if |captionRaw| > 0 then captionRaw else fallbackTitle
  {
    EscapeRoundTrip(captionRaw);
    EscapeRoundTrip(fallbackTitle);
    EscapeEmpty(captionRaw);
  }

  /** An image is shown when its `src` is not empty. */
  predicate HasSrc(image: Item) {
    |ItemValue(image, "src")| > 0
  }

  /**
   * The figure of one image. `relPath` stands for the path of the image relative to the
   * site root, written with `/`, which the script computes from the entry's directory.
   */
  function FigureMarkup(image: Item, relPath: string -> string, fallbackTitle: string): string {
    var imgSrc := Escape(relPath(ItemValue(image, "src")));
    var captionHtml := CaptionHtml(ItemValue(image, "caption"));
    var alt := AltText(captionHtml, fallbackTitle);
    var figure := ReplaceAll(ReplaceAll(FigureTemplate, "{{SRC}}", imgSrc), "{{ALT}}", alt);
    if |captionHtml| > 0 then
      ReplaceAll(figure, "{{CAPTION}}", ReplaceAll(FigureCaptionTemplate, "{{TEXT}}", captionHtml))
    else ReplaceAll(figure, "{{CAPTION}}", "")
  }

  /** Filling the three placeholders of a figure keeps the template's closing tag. */
  lemma FigureFillKeepsTag(t: string, imgSrc: string, alt: string, caption: string)
    requires EndsWithTag(t)
    ensures EndsWithTag(ReplaceAll(ReplaceAll(ReplaceAll(t, "{{SRC}}", imgSrc), "{{ALT}}", alt), "{{CAPTION}}", caption))
  {
    FilledNotEmpty(t, "{{SRC}}", imgSrc);
    var f1 := ReplaceAll(t, "{{SRC}}", imgSrc);
    FilledNotEmpty(f1, "{{ALT}}", alt);
    FilledNotEmpty(ReplaceAll(f1, "{{ALT}}", alt), "{{CAPTION}}", caption);
  }

  /** Every figure ends with `>`. */
  lemma FigureShape(image: Item, relPath: string -> string, fallbackTitle: string)
    ensures EndsWithTag(FigureMarkup(image, relPath, fallbackTitle))
  {
    var imgSrc := Escape(relPath(ItemValue(image, "src")));
    var captionHtml := CaptionHtml(ItemValue(image, "caption"));
    var alt := AltText(captionHtml, fallbackTitle);
    TemplatesEndWithTag();
    FigureFillKeepsTag(FigureTemplate, imgSrc, alt, ReplaceAll(FigureCaptionTemplate, "{{TEXT}}", captionHtml));
    FigureFillKeepsTag(FigureTemplate, imgSrc, alt, "");
  }

  /** The alt attribute of an image, as the figure template writes it. */
  function AltAttribute(alt: string): string {
    "alt=\"" + alt + "\""
  }

  /**
   * Filling a figure puts the alt text, whole, into the template's alt attribute: it is
   * not touched by the source filled before it, and, holding no brace, not by the caption after.
   */
  lemma FigureShowsAlt(imgSrc: string, alt: string, caption: string)
    requires '{' !in alt
    ensures Contains(ReplaceAll(ReplaceAll(ReplaceAll(FigureTemplate, "{{SRC}}", imgSrc), "{{ALT}}", alt),
      "{{CAPTION}}", caption), AltAttribute(alt))
  {
    var src, slot, cap, open, close := "{{SRC}}", "{{ALT}}", "{{CAPTION}}", "alt=\"", "\"";
    assert src[1..] == "{SRC}}" && src[..|src| - 1] == "{{SRC}";
    KeepBetween(FigureHead, open, slot, close, FigureTail, src, imgSrc);
    var h1, t1 := ReplaceAll(FigureHead, src, imgSrc), ReplaceAll(FigureTail, src, imgSrc);
    assert slot[1..] == "{ALT}}" && slot[..|slot| - 1] == "{{ALT}";
    FillBetween(h1, open, slot, close, t1, alt);
    var h2, t2 := ReplaceAll(h1, slot, alt), ReplaceAll(t1, slot, alt);
    var x := AltAttribute(alt);
    ContainsMiddle(h2, x, t2);
    AltAttributeShape(alt);
    ContainsSurvives(h2 + x + t2, x, cap, caption);
  }

  /** The alt attribute starts with `a` and holds a brace only where its text does. */
  lemma AltAttributeShape(alt: string)
    requires '{' !in alt
    ensures |AltAttribute(alt)| > 0 && AltAttribute(alt)[0] == 'a' && '{' !in AltAttribute(alt)
    ensures 'a' !in "{{CAPTION}}" && 'a' !in "{{DESCRIPTION}}" && 'a' !in "{{LINKS}}"
  {
  }

  /** The figure of an image carries its alt text, whole, unless that text holds a brace. */
  lemma FigureMarkupShowsAlt(image: Item, relPath: string -> string, fallbackTitle: string)
    requires '{' !in AltText(CaptionHtml(ItemValue(image, "caption")), fallbackTitle)
    ensures Contains(FigureMarkup(image, relPath, fallbackTitle),
      AltAttribute(AltText(CaptionHtml(ItemValue(image, "caption")), fallbackTitle)))
  {
    var imgSrc := Escape(relPath(ItemValue(image, "src")));
    var captionHtml := CaptionHtml(ItemValue(image, "caption"));
    var alt := AltText(captionHtml, fallbackTitle);
    FigureShowsAlt(imgSrc, alt, ReplaceAll(FigureCaptionTemplate, "{{TEXT}}", captionHtml));
    FigureShowsAlt(imgSrc, alt, "");
  }

  /** The loop of `render_gallery` from image `i` on, with the figures gathered so far. */
  function FigureScan(images: seq<Item>, i: nat, relPath: string -> string, fallbackTitle: string, figures: seq<string>): seq<string>
    decreases |images| - i
  {
    if i >= |images| then figures
    else if !HasSrc(images[i]) then FigureScan(images, i + 1, relPath, fallbackTitle, figures)
    else FigureScan(images, i + 1, relPath, fallbackTitle, figures + [FigureMarkup(images[i], relPath, fallbackTitle)])
  }

  /** The figures of a gallery: one per image with a `src`, in order. */
  function Figures(images: seq<Item>, relPath: string -> string, fallbackTitle: string): seq<string> {
    FigureScan(images, 0, relPath, fallbackTitle, [])
  }

  /** `render_gallery(images, entry_dir, fallback_title)` */
  function Gallery(images: seq<Item>, relPath: string -> string, fallbackTitle: string): string {
    var figures := Figures(images, relPath, fallbackTitle);
    if |figures| == 0 then "" else ReplaceAll(GalleryTemplate, "{{FIGURES}}", Join("\n", figures))
  }

  /** `render_gallery`, loop and all. */
  method RenderGallery(images: seq<Item>, relPath: string -> string, fallbackTitle: string) returns (html: string)
    ensures html == Gallery(images, relPath, fallbackTitle)
  {
    var figures: seq<string> := [];
    for i := 0 to |images|
      invariant FigureScan(images, 0, relPath, fallbackTitle, []) == FigureScan(images, i, relPath, fallbackTitle, figures)
    {
      var image := images[i];
      var srcValue := ItemValue(image, "src");
      if |srcValue| == 0 {
        continue;
      }
      var imgSrc := Escape(relPath(srcValue));
      var captionRaw := ItemValue(image, "caption");
      var captionHtml := if |captionRaw| > 0 then Escape(captionRaw) else "";
      var altText := if |captionHtml| > 0 then captionHtml else Escape(fallbackTitle);
      var figure := ReplaceAll(ReplaceAll(FigureTemplate, "{{SRC}}", imgSrc), "{{ALT}}", altText);
      if |captionHtml| > 0 {
        figure := ReplaceAll(figure, "{{CAPTION}}", ReplaceAll(FigureCaptionTemplate, "{{TEXT}}", captionHtml));
      } else {
        figure := ReplaceAll(figure, "{{CAPTION}}", "");
      }
      assert figure == FigureMarkup(image, relPath, fallbackTitle);
      figures := figures + [figure];
    }
    if |figures| == 0 {
      return "";
    }
    html := ReplaceAll(GalleryTemplate, "{{FIGURES}}", Join("\n", figures));
  }

  /** The number of images from `i` on that have a `src`. */
  function CountWithSrc(images: seq<Item>, i: nat): nat
    decreases |images| - i
  {
    if i >= |images| then 0 else (if HasSrc(images[i]) then 1 else 0) + CountWithSrc(images, i + 1)
  }

  /** The scan adds one figure per image with a `src`. */
  lemma {:induction false} FigureScanCount(images: seq<Item>, i: nat, relPath: string -> string, fallbackTitle: string, figures: seq<string>)
    ensures |FigureScan(images, i, relPath, fallbackTitle, figures)| == |figures| + CountWithSrc(images, i)
    decreases |images| - i
  {
    if i < |images| {
      if HasSrc(images[i]) {
        FigureScanCount(images, i + 1, relPath, fallbackTitle, figures + [FigureMarkup(images[i], relPath, fallbackTitle)]);
      } else {
        FigureScanCount(images, i + 1, relPath, fallbackTitle, figures);
      }
    }
  }

  /** A gallery exists exactly when some image has a `src`, and it then ends with `>`. */
  lemma GalleryShape(images: seq<Item>, relPath: string -> string, fallbackTitle: string)
    ensures |Figures(images, relPath, fallbackTitle)| == CountWithSrc(images, 0)
    ensures |Gallery(images, relPath, fallbackTitle)| == 0 <==> CountWithSrc(images, 0) == 0
    ensures |Gallery(images, relPath, fallbackTitle)| > 0 ==> EndsWithTag(Gallery(images, relPath, fallbackTitle))
  {
    FigureScanCount(images, 0, relPath, fallbackTitle, []);
    TemplatesEndWithTag();
    GalleryFill(GalleryTemplate, Figures(images, relPath, fallbackTitle));
  }

  /** The gallery markup of any template that ends with a tag. */
  lemma GalleryFill(t: string, figures: seq<string>)
    requires EndsWithTag(t)
    ensures var g := if |figures| == 0 then "" else ReplaceAll(t, "{{FIGURES}}", Join("\n", figures));
      (|g| == 0 <==> |figures| == 0) && (|g| > 0 ==> EndsWithTag(g))
  {
    if |figures| > 0 {
      FilledNotEmpty(t, "{{FIGURES}}", Join("\n", figures));
    }
  }

  /** The scan keeps the figures gathered before it, in front. */
  lemma {:induction false} FigureScanExtends(images: seq<Item>, i: nat, relPath: string -> string, fallbackTitle: string, figures: seq<string>)
    ensures figures <= FigureScan(images, i, relPath, fallbackTitle, figures)
    decreases |images| - i
  {
    if i < |images| {
      var next := if HasSrc(images[i]) then figures + [FigureMarkup(images[i], relPath, fallbackTitle)] else figures;
      FigureScanExtends(images, i + 1, relPath, fallbackTitle, next);
    }
  }

  /** Every image from `i` on that has a `src` has its figure among those scanned. */
  lemma {:induction false} FigureScanHas(images: seq<Item>, i: nat, relPath: string -> string, fallbackTitle: string, figures: seq<string>, j: nat)
    requires i <= j < |images| && HasSrc(images[j])
    ensures FigureMarkup(images[j], relPath, fallbackTitle) in FigureScan(images, i, relPath, fallbackTitle, figures)
    decreases |images| - i
  {
    if !HasSrc(images[i]) {
      FigureScanHas(images, i + 1, relPath, fallbackTitle, figures, j);
    } else {
      var next := figures + [FigureMarkup(images[i], relPath, fallbackTitle)];
      if i == j {
        FigureScanExtends(images, i + 1, relPath, fallbackTitle, next);
        assert next[|figures|] in next;
      } else {
        FigureScanHas(images, i + 1, relPath, fallbackTitle, next, j);
      }
    }
  }

  /** The filled gallery template holds the joined figures. */
  lemma GalleryHoldsFigures(joined: string)
    ensures Contains(ReplaceAll(GalleryTemplate, "{{FIGURES}}", joined), joined)
  {
    var pat := "{{FIGURES}}";
    assert GalleryOpen[|GalleryOpen| - 1] == '\n' && GalleryClose[0] == '\n';
    assert pat[..|pat| - 1] == "{{FIGURES}" && pat[1..] == "{FIGURES}}";
    FillPlaceholder(GalleryOpen, pat, GalleryClose, joined);
    ContainsMiddle(ReplaceAll(GalleryOpen, pat, joined), joined, ReplaceAll(GalleryClose, pat, joined));
  }

  /** The gallery holds the figure of every image that has a `src`. */
  lemma GalleryHas(images: seq<Item>, relPath: string -> string, fallbackTitle: string, j: nat)
    requires j < |images| && HasSrc(images[j])
    ensures Contains(Gallery(images, relPath, fallbackTitle), FigureMarkup(images[j], relPath, fallbackTitle))
  {
    var figures := Figures(images, relPath, fallbackTitle);
    var f := FigureMarkup(images[j], relPath, fallbackTitle);
    FigureScanHas(images, 0, relPath, fallbackTitle, [], j);
    var k :| 0 <= k < |figures| && figures[k] == f;
    var joined := Join("\n", figures);
    GalleryHoldsFigures(joined);
    JoinHas("\n", figures, k);
    ContainsTrans(ReplaceAll(GalleryTemplate, "{{FIGURES}}", joined), joined, f);
  }

  // ---------------------------------------------------------------------------
  // render_card

  /**
   * `data.get("title", "Untitled")`, or `None` when the title is a list, which
   * `html.escape` cannot take.
   */
  function CardTitle(data: map<string, Value>): Option<string> {
    if "title" !in data then Some("Untitled")
    else match data["title"]
      case Str(s) => Some(s)
      case Items(_) => None
  }

  /** `data.get("description", "")`, or `None` when it is a list, which has no `strip`. */
  function CardDescriptionText(data: map<string, Value>): Option<string> {
    if "description" !in data then Some("")
    else match data["description"]
      case Str(s) => Some(s)
      case Items(_) => None
  }

  /**
   * `data.get("images") or []`, or `None` when it is a non-empty text, whose characters
   * have no `get`.
   */
  function CardImages(data: map<string, Value>): Option<seq<Item>> {
    if "images" !in data then Some([])
    else match data["images"]
      case Str(s) => if |s| == 0 then Some([]) else None
      case Items(l) => Some(l)
  }

  /** The description inside its template, or nothing when the description is empty. */
  function DescriptionBlock(text: string): string {
    var d := FormatDescription(text);
    if |d| > 0 then ReplaceAll(DescriptionTemplate, "{{CONTENT}}", d) else ""
  }

  /** There is a description block exactly when the description is not blank, and it then ends with `>`. */
  lemma DescriptionBlockShape(text: string)
    ensures |DescriptionBlock(text)| == 0 <==> IsBlank(text)
    ensures |DescriptionBlock(text)| > 0 ==> EndsWithTag(DescriptionBlock(text))
  {
    FormatDescriptionEmpty(text);
    if |FormatDescription(text)| > 0 {
      TemplatesEndWithTag();
      FilledNotEmpty(DescriptionTemplate, "{{CONTENT}}", FormatDescription(text));
    }
  }

  /** The description block holds the formatted description. */
  lemma DescriptionBlockHolds(text: string)
    ensures Contains(DescriptionBlock(text), FormatDescription(text))
  {
    var d, pat := FormatDescription(text), "{{CONTENT}}";
    if |d| > 0 {
      assert pat[..|pat| - 1] == "{{CONTENT}" && pat[1..] == "{CONTENT}}";
      assert DescriptionOpen[|DescriptionOpen| - 1] == '\n' && DescriptionClose[0] == '\n';
      FillPlaceholderHolds(DescriptionOpen, pat, DescriptionClose, d);
    } else {
      assert StartsWith(DescriptionBlock(text), d);
    }
  }

  /**
   * The card of one entry, where `galleryTitle` turns the title into the fallback the
   * gallery escapes for alt text; `None` where the script raises on a value of the
   * wrong kind.
   */
  function RenderCardWith(data: map<string, Value>, relPath: string -> string, galleryTitle: string -> string): Option<string> {
    match (CardTitle(data), CardDescriptionText(data), CardImages(data))
    case (Some(title), Some(text), Some(images)) =>
      var card := ReplaceAll(CardTemplate, "{{TITLE}}", Escape(title));
      var card := ReplaceAll(card, "{{GALLERY}}", Gallery(images, relPath, galleryTitle(title)));
      var card := ReplaceAll(card, "{{DESCRIPTION}}", DescriptionBlock(text));
      Some(ReplaceAll(card, "{{LINKS}}", CardLinks(data)))
    case _ => None
  }

  /** `render_card(data)` as written: the gallery gets the title already escaped. */
  function RenderCardAsWritten(data: map<string, Value>, relPath: string -> string): Option<string> {
    RenderCardWith(data, relPath, Escape)
  }

  /** `render_card(data)` with the gallery given the title itself, which it escapes once. */
  function RenderCard(data: map<string, Value>, relPath: string -> string): Option<string> {
    RenderCardWith(data, relPath, t => t)
  }

  /** Filling the four placeholders of a card keeps the template's closing tag. */
  lemma CardFillKeepsTag(t: string, title: string, gallery: string, description: string, links: string)
    requires EndsWithTag(t)
    ensures EndsWithTag(ReplaceAll(ReplaceAll(ReplaceAll(ReplaceAll(t, "{{TITLE}}", title),
      "{{GALLERY}}", gallery), "{{DESCRIPTION}}", description), "{{LINKS}}", links))
  {
    FilledNotEmpty(t, "{{TITLE}}", title);
    var c1 := ReplaceAll(t, "{{TITLE}}", title);
    FilledNotEmpty(c1, "{{GALLERY}}", gallery);
    var c2 := ReplaceAll(c1, "{{GALLERY}}", gallery);
    FilledNotEmpty(c2, "{{DESCRIPTION}}", description);
    FilledNotEmpty(ReplaceAll(c2, "{{DESCRIPTION}}", description), "{{LINKS}}", links);
  }

  /** A card is rendered unless the title or description is a list or the images are a non-empty text. */
  lemma RenderCardRendered(data: map<string, Value>, relPath: string -> string, galleryTitle: string -> string)
    ensures RenderCardWith(data, relPath, galleryTitle).Some?
      <==> CardTitle(data).Some? && CardDescriptionText(data).Some? && CardImages(data).Some?
  {
  }

  /** A rendered card ends with `>`. */
  lemma RenderCardShape(data: map<string, Value>, relPath: string -> string, galleryTitle: string -> string)
    requires RenderCardWith(data, relPath, galleryTitle).Some?
    ensures EndsWithTag(RenderCardWith(data, relPath, galleryTitle).value)
  {
    var title := CardTitle(data).value;
    var gallery := Gallery(CardImages(data).value, relPath, galleryTitle(title));
    var description := DescriptionBlock(CardDescriptionText(data).value);
    TemplatesEndWithTag();
    CardFillKeepsTag(CardTemplate, Escape(title), gallery, description, CardLinks(data));
  }

  /** The title and gallery placeholders differ after their braces. */
  lemma CardPlaceholders()
    ensures IsPlaceholder("{{TITLE}}") && IsPlaceholder("{{GALLERY}}")
    ensures "{{TITLE}}"[2] != "{{GALLERY}}"[2]
  {
  }

  /** Filling the title leaves the gallery placeholder between the two filled halves. */
  lemma CardTitleFill(title: string)
    ensures ReplaceAll(CardTemplate, "{{TITLE}}", title)
      == ReplaceAll(CardHead, "{{TITLE}}", title) + "{{GALLERY}}" + ReplaceAll(CardTail, "{{TITLE}}", title)
  {
    var t, g := "{{TITLE}}", "{{GALLERY}}";
    assert CardHead[|CardHead| - 1] == '\n' && CardTail[0] == '\n';
    assert t[..|t| - 1] == "{{TITLE}" && t[1..] == "{TITLE}}";
    ReplaceAround(CardHead, g, CardTail, t, title);
    CardPlaceholders();
    ReplaceSkipsPlaceholder(g, "", t, title);
    assert g + "" == g;
  }

  /** After the title, filling the gallery puts it, whole, between the two halves. */
  lemma CardGalleryFill(title: string, gallery: string)
    ensures var a, b := ReplaceAll(CardHead, "{{TITLE}}", title), ReplaceAll(CardTail, "{{TITLE}}", title);
      ReplaceAll(ReplaceAll(CardTemplate, "{{TITLE}}", title), "{{GALLERY}}", gallery)
      == ReplaceAll(a, "{{GALLERY}}", gallery) + gallery + ReplaceAll(b, "{{GALLERY}}", gallery)
  {
    var t, g := "{{TITLE}}", "{{GALLERY}}";
    CardTitleFill(title);
    assert CardHead[|CardHead| - 1] == '\n' && CardTail[0] == '\n';
    ReplaceKeepsLast(CardHead, t, title);
    ReplaceKeepsFirst(CardTail, t, title);
    assert g[..|g| - 1] == "{{GALLERY}" && g[1..] == "{GALLERY}}";
    FillPlaceholder(ReplaceAll(CardHead, t, title), g, ReplaceAll(CardTail, t, title), gallery);
  }

  /**
   * Alt text of the gallery that holds no brace is still in the filled card: the
   * description and links filled after the gallery leave it alone.
   */
  lemma CardKeepsAlt(title: string, gallery: string, description: string, links: string, alt: string)
    requires Contains(gallery, AltAttribute(alt)) && '{' !in alt
    ensures Contains(ReplaceAll(ReplaceAll(ReplaceAll(ReplaceAll(CardTemplate, "{{TITLE}}", title),
      "{{GALLERY}}", gallery), "{{DESCRIPTION}}", description), "{{LINKS}}", links), AltAttribute(alt))
  {
    var x := AltAttribute(alt);
    CardGalleryFill(title, gallery);
    var a, b := ReplaceAll(CardHead, "{{TITLE}}", title), ReplaceAll(CardTail, "{{TITLE}}", title);
    var a2, b2 := ReplaceAll(a, "{{GALLERY}}", gallery), ReplaceAll(b, "{{GALLERY}}", gallery);
    ContainsMiddle(a2, gallery, b2);
    ContainsTrans(a2 + gallery + b2, gallery, x);
    AltAttributeShape(alt);
    var c2 := a2 + gallery + b2;
    ContainsSurvives(c2, x, "{{DESCRIPTION}}", description);
    ContainsSurvives(ReplaceAll(c2, "{{DESCRIPTION}}", description), x, "{{LINKS}}", links);
  }

  /**
   * A rendered card shows every image that has a `src` with its alt text, whole,
   * unless that text holds a brace; escaped text holds no `"`, so the attribute ends
   * where the text does.
   */
  lemma CardShowsAlt(data: map<string, Value>, relPath: string -> string, galleryTitle: string -> string, j: nat)
    requires RenderCardWith(data, relPath, galleryTitle).Some?
    requires j < |CardImages(data).value| && HasSrc(CardImages(data).value[j])
    requires '{' !in AltText(CaptionHtml(ItemValue(CardImages(data).value[j], "caption")), galleryTitle(CardTitle(data).value))
    ensures Contains(RenderCardWith(data, relPath, galleryTitle).value,
      AltAttribute(AltText(CaptionHtml(ItemValue(CardImages(data).value[j], "caption")), galleryTitle(CardTitle(data).value))))
  {
    var title, images := CardTitle(data).value, CardImages(data).value;
    var alt := AltText(CaptionHtml(ItemValue(images[j], "caption")), galleryTitle(title));
    var gallery := Gallery(images, relPath, galleryTitle(title));
    FigureMarkupShowsAlt(images[j], relPath, galleryTitle(title));
    GalleryHas(images, relPath, galleryTitle(title), j);
    ContainsTrans(gallery, FigureMarkup(images[j], relPath, galleryTitle(title)), AltAttribute(alt));
    CardKeepsAlt(Escape(title), gallery, DescriptionBlock(CardDescriptionText(data).value), CardLinks(data), alt);
  }

  /**
   * With the title escaped once, a card's alt text reads back as the image's caption,
   * or as the card's title when the image has none.
   */
  lemma RenderCardAlt(data: map<string, Value>, relPath: string -> string, j: nat)
    requires RenderCard(data, relPath).Some?
    requires j < |CardImages(data).value| && HasSrc(CardImages(data).value[j])
    requires '{' !in ItemValue(CardImages(data).value[j], "caption") && '{' !in CardTitle(data).value
    ensures var caption, title := ItemValue(CardImages(data).value[j], "caption"), CardTitle(data).value;
      var alt := AltText(CaptionHtml(caption), title);
      Contains(RenderCard(data, relPath).value, AltAttribute(alt))
      && Unescape(alt) == if |caption| > 0 then caption else title
  {
    var caption, title := ItemValue(CardImages(data).value[j], "caption"), CardTitle(data).value;
    EscapeLacksBrace(caption);
    EscapeLacksBrace(title);
    CardShowsAlt(data, relPath, t => t, j);
    AltRoundTrip(caption, title);
  }

  /**
   * As written, an image without a caption in a card whose title holds `&` shows the
   * title escaped twice, which reads back as the escaped title, not the title.
   */
  lemma RenderCardAsWrittenAlt(data: map<string, Value>, relPath: string -> string, j: nat, k: nat)
    requires RenderCardAsWritten(data, relPath).Some?
    requires j < |CardImages(data).value| && HasSrc(CardImages(data).value[j])
    requires ItemValue(CardImages(data).value[j], "caption") == ""
    requires '{' !in CardTitle(data).value && k < |CardTitle(data).value| && CardTitle(data).value[k] == '&'
    ensures var title := CardTitle(data).value;
      Contains(RenderCardAsWritten(data, relPath).value, AltAttribute(Escape(Escape(title))))
      && Unescape(Escape(Escape(title))) != title
  {
    var title := CardTitle(data).value;
    EscapeLacksBrace(title);
    EscapeLacksBrace(Escape(title));
    CardShowsAlt(data, relPath, Escape, j);
    EscapedFallbackAlt(title, k);
  }

  /**
   * As written, the alt text of an image without a caption escapes the title twice, so a
   * title holding `&` (such as `A & B`) reads back as its escaped form, not as itself.
   */
  lemma EscapedFallbackAlt(title: string, k: nat)
    requires k < |title| && title[k] == '&'
    ensures Unescape(AltText(CaptionHtml(""), Escape(title))) == Escape(title)
    ensures Escape(title) != title
  {
    EscapeRoundTrip(Escape(title));
    EscapeGrows(title, k);
  }

  /** The example of the double escape: `A & B`. */
  lemma EscapedFallbackAltExample()
    ensures Unescape(AltText(CaptionHtml(""), Escape("A & B"))) != "A & B"
  {
    EscapedFallbackAlt("A & B", 2);
  }
}
