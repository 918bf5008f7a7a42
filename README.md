# Portfolio scripts, modelled in Dafny

Two maintenance scripts of a personal website are modelled here.

`scripts/generate_portfolio.py` reads one small YAML-like `content.yaml` per portfolio
entry and turns each entry into the markup of a card. The model covers:

- the line scanner `parse_simple_yaml` and its helpers for scalars, multi-line quoted
  values and indented lists;
- the paragraph splitter and description formatter;
- the choice between a paper button and a status badge;
- the row of links;
- the image gallery and its alt text;
- the card assembly itself.

`scripts/fix_aspect_ratio.py` pads the thumbnails the page shows. The model covers:

- the collection of `img` sources by the HTML parser callback;
- the filter and dedupe of the local image paths;
- the padding of a non-square image onto a transparent square canvas;
- the counting loop of `main`.

Each loop of the scripts is a Dafny `method` with a `while` or `for` loop. The method is
proved equal to a specification function, which is written to follow the loop step by
step. The properties the scripts promise are then proved as lemmas about those functions.

`_ImageCollector` is a `class` whose `sources` field its handlers append to. The canvas
of `_pad_to_square` is an `array2` of RGBA pixels, filled by a paste loop. Python
strings are `seq<char>`, and dictionaries are `map`s.

Files:

- `text.dfy` (module `Text`) holds the string operations the scripts rely on:
  - `strip`, `lstrip` and `rstrip`;
  - `startswith`, `endswith` and `in`;
  - `split` on a character, `splitlines`, `join` and ASCII `lower`;
  - `textwrap.dedent`.
- `html.dfy` (module `Html`) holds `html.escape`, its inverse and `str.replace`.
- `entry_parser.dfy` (module `EntryParser`) holds `parse_simple_yaml` and its helpers.
- `entry_properties.dfy` (module `EntryProperties`) holds the properties of the parser.
- `page_render.dfy` (module `PageRender`) holds the card rendering: paragraphs,
  description, links and gallery.
- `thumbnails.dfy` (module `Thumbnails`) holds the whole of `fix_aspect_ratio.py`'s
  logic.

`fix_aspect_ratio.py` pads every non-square image to a square and crops nothing. It stops with an error right after padding an image that lies outside `ROOT`, because it cannot print that image's path relative to `ROOT`.

## Model

| member | source | states |
|---|---|---|
| EntryParser.ParseSimpleYaml | scripts/generate_portfolio.py:31-66 | the loop's dictionary equals `Parse(source)`: the key lines' bindings stored in order, a later key replacing an earlier one |
| EntryParser.CleanScalar | scripts/generate_portfolio.py:69-73 | the cleaned value has no surrounding whitespace and is no longer than the input |
| EntryParser.CleanScalarPlain | scripts/generate_portfolio.py:69-73 | a stripped value that is not wrapped in quotes is returned unchanged |
| EntryParser.CleanScalarQuoted | scripts/generate_portfolio.py:69-73 | a value wrapped in one pair of double quotes, with any whitespace around them, gives its inside, stripped |
| EntryParser.QuotedBlock | scripts/generate_portfolio.py:76-103 | the index after a quoted block is past the start and, for a start inside the document, at most the number of lines |
| EntryParser.QuotedLines | scripts/generate_portfolio.py:86-101 | the continuation scan never moves backwards and never past the end |
| EntryParser.ParseQuotedBlock | scripts/generate_portfolio.py:76-103 | returns the text and index of `QuotedBlock` |
| EntryParser.ScanQuotedLines | scripts/generate_portfolio.py:86-101 | the continuation loop returns the pieces and index of `QuotedLines` |
| EntryParser.QuotedStep | scripts/generate_portfolio.py:87-101 | one continuation line closes the block exactly when it is a closing line, and adds the piece `QuotedLines` adds for it |
| EntryParser.QuotedLinesEnd | scripts/generate_portfolio.py:86-101 | where the scan stops does not depend on the pieces: just after the first closing line, or at the end of the file |
| EntryProperties.QuotedBlockInline | scripts/generate_portfolio.py:77-79 | a value closed on its own line by an unescaped quote gives its text without quotes, at the next line |
| EntryProperties.QuotedLinesNoEarlyClose | scripts/generate_portfolio.py:86-101 | no line the scan passes over, before the line it ends on, is a closing line |
| EntryProperties.QuotedLinesEndsAtClose | scripts/generate_portfolio.py:97-100 | a scan that stops before the end stops just after a non-comment line whose stripped form ends in an unescaped `"` |
| EntryProperties.QuotedEndNoEarlyClose | scripts/generate_portfolio.py:86-101 | no line before the stopping line is a closing line |
| EntryProperties.QuotedEndAtClose | scripts/generate_portfolio.py:97-100 | a stop before the end of the file is just after a closing line |
| EntryProperties.QuotedLinesKeepsPieces | scripts/generate_portfolio.py:82-101 | the pieces gathered before the scan are kept, in order, at the front of its result |
| EntryParser.AddPair | scripts/generate_portfolio.py:118-121 | adding an inline or detail `key: value` pair never removes a key |
| EntryProperties.AddPairPlain | scripts/generate_portfolio.py:119-121 | a `key: value` pair with a plain key and value stores that key with that value, replacing an earlier value |
| EntryParser.DetailBlock | scripts/generate_portfolio.py:123-133 | the detail scan stops at the first non-blank, non-comment line not indented four spaces; every line before it is blank, a comment, or so indented; the item's keys only grow |
| EntryParser.ParseItemDetails | scripts/generate_portfolio.py:123-133 | the detail loop returns the item and index of `DetailBlock`, whose stored pairs `DetailBlockPlain` states |
| EntryProperties.DetailStepPlain | scripts/generate_portfolio.py:129-134 | a four-space `key: value` line with a plain key and value stores that pair and the block goes on at the next line |
| EntryProperties.DetailBlockPlain | scripts/generate_portfolio.py:123-134 | plain detail lines, followed by a line that is not a detail line, store their pairs in order over what the item holds, a later pair replacing an earlier one, and the block stops right after them |
| EntryParser.ParseItemHead | scripts/generate_portfolio.py:116-121 | the code for a `-` line returns the item `ItemHead` gives, whose contents the two lemmas below state |
| EntryProperties.ItemHeadOfPair | scripts/generate_portfolio.py:116-121 | a `- key: value` line with a plain key and value starts an item holding exactly that pair |
| EntryProperties.ItemHeadWithoutPair | scripts/generate_portfolio.py:116-119 | a `-` line with no colon after it starts an empty item |
| EntryProperties.ItemLineParts | scripts/generate_portfolio.py:109-121 | a `  - key: value` line with a plain key and value is neither blank nor a comment, is indented two spaces and not four, and starts an item holding exactly that pair |
| EntryProperties.BareItemLineParts | scripts/generate_portfolio.py:109-119 | the line `  -` is neither blank nor a comment, is indented two spaces and not four, and starts an empty item |
| EntryProperties.ItemDetailsPlain | scripts/generate_portfolio.py:116-134 | an item written from plain pairs, its first pair on the `-` line and the others as detail lines, followed by a line that is not a detail line, is read back as the dictionary of its pairs, and the detail scan stops right after it |
| EntryProperties.ItemStepPlain | scripts/generate_portfolio.py:116-135 | such an item adds exactly its dictionary to the items gathered, and the list scan goes on right after its lines |
| EntryParser.ListItems | scripts/generate_portfolio.py:106-138 | the list scan never moves backwards and never past the end |
| EntryParser.ListBlock | scripts/generate_portfolio.py:106-138 | the index after a list block is at least its start and at most the number of lines |
| EntryParser.ParseListBlock | scripts/generate_portfolio.py:106-138 | the loop returns the items and index of `ListBlock`, whose items `ListItemsPlain` states |
| EntryProperties.ListItemsPlain | scripts/generate_portfolio.py:106-138 | items written from plain pairs, followed by a line that ends the list or by the end of the file, are read back as one dictionary per item, in order, after the items gathered before, and the list stops right after them |
| EntryProperties.ListItemsStopsAtEnd | scripts/generate_portfolio.py:108-115 | the list ends at the first line that ends a list and at no line before it |
| EntryProperties.ListItemsKeepsItems | scripts/generate_portfolio.py:106-138 | the items gathered before the scan are kept, in order, at the front of its result |
| EntryProperties.DetailLinesContinue | scripts/generate_portfolio.py:123-134 | no detail line of an item ends the list |
| EntryProperties.ListItemsStops | scripts/generate_portfolio.py:108-115 | the list ends at the first non-blank, non-comment line not indented two spaces and at no line before it; items already gathered are kept in order |
| EntryParser.LeadingBlanks | scripts/generate_portfolio.py:144-145 | the count of leading lines dropped stops at the first line that is not blank |
| EntryParser.TrailingBlanks | scripts/generate_portfolio.py:146-147 | the count of trailing lines dropped stops at the last line that is not blank |
| EntryParser.LeadingBlanksAreBlank | scripts/generate_portfolio.py:144-145 | every leading line dropped is blank |
| EntryParser.TrailingBlanksAreBlank | scripts/generate_portfolio.py:146-147 | every trailing line dropped is blank |
| EntryParser.Normalized | scripts/generate_portfolio.py:141-151 | a normalized value has no surrounding whitespace |
| EntryParser.NormalizeMultiline | scripts/generate_portfolio.py:141-151 | the popping loops and dedent return `Normalized(text)` |
| EntryProperties.NormalizedEmptyIffBlank | scripts/generate_portfolio.py:148-149 | the value is empty exactly when every line of the text is blank |
| EntryProperties.NormalizedSingleLine | scripts/generate_portfolio.py:141-151 | a stripped one-line text is kept as it is |
| EntryProperties.AllBlankLeading | scripts/generate_portfolio.py:144-145 | when every line is blank, every line is dropped |
| EntryProperties.BindingsFromKeyLines | scripts/generate_portfolio.py:38-63 | every binding comes from a line with a colon that is not blank or a comment: its key is the text before the first colon, stripped, and its value follows the three-way dispatch on the text after it |
| EntryProperties.BindingsIncreasing | scripts/generate_portfolio.py:38-63 | the bindings come from strictly increasing line numbers, none before the start |
| EntryProperties.ApplyKeys | scripts/generate_portfolio.py:54-62 | a key is in the dictionary exactly when it was there before or some binding sets it |
| EntryProperties.ApplyUntouched | scripts/generate_portfolio.py:54-62 | a key no binding sets keeps its earlier value |
| EntryProperties.ApplyLastWins | scripts/generate_portfolio.py:54-62 | a repeated key keeps the value of its last binding |
| EntryProperties.PairLineParts | scripts/generate_portfolio.py:48-50 | a `key: value` line with a plain key and value reads back as that key and value |
| EntryProperties.PairBindings | scripts/generate_portfolio.py:38-63 | the bindings of a plain `key: value` document, stored from pair `i` on, give the pairs' dictionary |
| EntryProperties.PlainDocumentRoundTrip | scripts/generate_portfolio.py:31-66 | writing plain pairs one per line and parsing the text gives back the dictionary of those pairs, a later pair replacing an earlier one |
| EntryProperties.ScalarFieldBinding | scripts/generate_portfolio.py:48-64 | a plain `key: value` line binds the key to the value, and the bindings go on from the next line |
| EntryProperties.ListFieldBinding | scripts/generate_portfolio.py:57-61 | a `key:` line followed by items written from plain pairs binds the key to the list of the items' dictionaries, and the bindings go on from the line after the list |
| EntryProperties.DocBindings | scripts/generate_portfolio.py:38-63 | the bindings of a document written from plain scalar and list fields give those fields' dictionary |
| EntryProperties.DocumentRoundTrip | scripts/generate_portfolio.py:31-138 | a document of plain `key: value` lines and `key:` lists of items of plain pairs, parsed, gives back each key with its value or its list of dictionaries, a later key replacing an earlier one |
| Text.Strip | scripts/generate_portfolio.py:40 | `str.strip()` leaves no surrounding whitespace, as `str.isspace` defines it, and never grows the text |
| Text.StripBounds | scripts/generate_portfolio.py:40 | the stripped text is a slice of the original with only whitespace around it |
| Text.SplitLinesOfJoin | scripts/generate_portfolio.py:34 | `splitlines` of lines joined by newlines gives the lines back |
| Text.JoinSplit | scripts/generate_portfolio.py:34 | `splitlines` is a split at newlines, and joining the pieces of a split with the separator gives the text back |
| Text.SplitLinesRejoin | scripts/generate_portfolio.py:34 | a text that does not end in a newline is its `splitlines` joined by newlines |
| Text.MarginFacts | scripts/generate_portfolio.py:150 | the margin `textwrap.dedent` removes exists exactly when some line has text; it is whitespace; it is a prefix of every line with text |
| Text.MarginLongest | scripts/generate_portfolio.py:150 | every common indent of the lines with text begins the margin, so the margin is the longest common indent |
| Text.DedentDropsIndent | scripts/generate_portfolio.py:150 | each dedented line is the line with a leading run of spaces and tabs removed: the whole line when it holds nothing else, and otherwise exactly the margin |
| Text.DedentKeepsNonBlank | scripts/generate_portfolio.py:150 | dedent never makes a line with text blank |
| Html.EscapeRoundTrip | scripts/generate_portfolio.py:262-266 | the text inside escaped markup reads back as the original text |
| Html.EscapeSafe | scripts/generate_portfolio.py:208-212 | escaped text holds no `<`, `>`, `"` or `'` |
| Html.EscapeEmpty | scripts/generate_portfolio.py:264-266 | escaping gives the empty text exactly for the empty text |
| Html.EscapeConcat | scripts/generate_portfolio.py:161 | escaping works character by character |
| Html.EscapeGrows | scripts/generate_portfolio.py:266 | text holding a character with an entity gets longer when escaped |
| Html.FillTemplate | scripts/generate_portfolio.py:193-196 | a template holding its placeholder once, with no `{` elsewhere, gets the value in its place and nothing else changed |
| Html.ReplaceKeepsLast | scripts/generate_portfolio.py:193-196 | replacing a placeholder keeps a last character the placeholder does not contain, so the result is not empty |
| Html.ReplaceAround | scripts/generate_portfolio.py:193-196 | replacing in a text cut where no occurrence of the placeholder can straddle the cuts is replacing in each part |
| Html.FillPlaceholder | scripts/generate_portfolio.py:193-196 | a text holding the placeholder between parts it cannot straddle gets the value in its place and the parts replaced on their own |
| Html.FillBetween | scripts/generate_portfolio.py:193-196 | a template slot `pre + placeholder + post`, between two such parts, becomes `pre + value + post` |
| Html.ContainsSurvives | scripts/generate_portfolio.py:193-196 | a text that cannot overlap the placeholder, held before a replace, is still held after it |
| PageRender.TemplatesEndWithTag | scripts/generate_portfolio.py:338-391 | every card, gallery, figure, caption, description, links, button and badge template ends with `>` |
| PageRender.FilledNotEmpty | scripts/generate_portfolio.py:193-196 | filling a `{{...}}` placeholder of such a template keeps the closing `>` |
| PageRender.SplitParagraphs | scripts/generate_portfolio.py:218-228 | the generator's paragraphs, collected in order, are `Paragraphs(text)` |
| PageRender.ParagraphsFilled | scripts/generate_portfolio.py:218-228 | no paragraph is empty or has whitespace around it |
| PageRender.ParagraphScanGrows | scripts/generate_portfolio.py:220-228 | the scan never loses a paragraph found or being gathered |
| PageRender.ScanGroup | scripts/generate_portfolio.py:225 | a run of non-blank lines joins the paragraph being gathered, stripped, in order |
| PageRender.ScanLayout | scripts/generate_portfolio.py:220-228 | groups of lines separated by blank lines give one paragraph per group after the ones found so far |
| PageRender.ParagraphsOfLayout | scripts/generate_portfolio.py:218-228 | text written as groups of lines separated by one empty line splits into one paragraph per group, its lines joined by single spaces |
| PageRender.LayoutLines | scripts/generate_portfolio.py:219 | the lines of such a text have no newline and no surrounding whitespace, and the last one is not empty |
| PageRender.MarkupOfFilled | scripts/generate_portfolio.py:210-214 | the comprehension keeps every paragraph and gives each its `<p>` element |
| PageRender.FirstLineNotBlank | scripts/generate_portfolio.py:219-221 | text starting with a non-space character has a first line that is not blank |
| PageRender.ParagraphsNotEmpty | scripts/generate_portfolio.py:218-228 | such text has at least one paragraph |
| PageRender.FormatDescriptionParagraphs | scripts/generate_portfolio.py:206-215 | the description is the `<p>` elements of the stripped text's paragraphs, one per line, and nothing for blank text |
| PageRender.FormatDescriptionEmpty | scripts/generate_portfolio.py:206-215 | the description is empty exactly when the text is blank |
| PageRender.LayoutStripped | scripts/generate_portfolio.py:207 | such a text has no surrounding whitespace, so the description's strip keeps it |
| PageRender.DescriptionOfLayout | scripts/generate_portfolio.py:206-228 | a description written as groups of lines becomes one `<p>` element per group, in order |
| PageRender.DescriptionBlockShape | scripts/generate_portfolio.py:162-163 | the description block exists exactly when the description is not blank, and then ends with `>` |
| PageRender.DescriptionBlockHolds | scripts/generate_portfolio.py:162-163 | the description block holds the formatted description (`FormatDescription`) |
| PageRender.FirstWithKeyIsFirst | scripts/generate_portfolio.py:199-203 | the item returned is the first holding the key, and the empty item when none does |
| PageRender.FirstDictWithKey | scripts/generate_portfolio.py:199-203 | the loop returns `FirstWithKey(items, key)` |
| PageRender.ButtonsShape | scripts/generate_portfolio.py:231-242 | a paper or video button (`RenderPaperButton`, `RenderVideoButton`) exists exactly when its url is not empty, and then ends with `>` |
| PageRender.ButtonsHoldUrl | scripts/generate_portfolio.py:231-242 | a paper or video button for a non-empty url holds the escaped url |
| PageRender.StatusBadgeShape | scripts/generate_portfolio.py:245-247 | the badge (`RenderStatusBadge`) ends with `>` |
| PageRender.StatusBadgeHoldsStatus | scripts/generate_portfolio.py:245-247 | the badge holds the stripped, escaped status |
| PageRender.NonEmptyKeeps | scripts/generate_portfolio.py:251 | the filter keeps only non-empty components; it is empty exactly when all are; it keeps all when none is empty |
| PageRender.RenderLinksShape | scripts/generate_portfolio.py:250-255 | the links (`RenderLinks`) are empty exactly when every component is, and otherwise end with `>` |
| PageRender.RenderLinksHold | scripts/generate_portfolio.py:250-255 | the row of links holds every non-empty component |
| PageRender.CardPaperFields | scripts/generate_portfolio.py:168-172 | the card's status and paper url (`CardStatus`, `CardPaperUrl`) are those of the first paper items holding a `status` and a `url`, and empty when no item holds one |
| PageRender.CardVideoFields | scripts/generate_portfolio.py:174-179 | the video url (`CardVideoUrl`) is a non-empty `video` text itself, nothing for a non-empty `video` list, and otherwise the url of the first `videos` item holding one, or nothing |
| PageRender.LinkButtons | scripts/generate_portfolio.py:181-190 | the card has three link components |
| PageRender.LinkChoice | scripts/generate_portfolio.py:181-189 | the paper button appears exactly when the lower-cased status is `accepted` and there is a url; otherwise the badge appears exactly when there is a status; never both; the video button appears exactly when there is a video url |
| PageRender.CardLinksEmpty | scripts/generate_portfolio.py:168-190 | a card has links exactly when its first paper item with a status has one, or it has a video url |
| PageRender.AltRoundTrip | scripts/generate_portfolio.py:264-266 | the alt attribute reads back as the caption, or as the fallback title when there is no caption |
| PageRender.FigureShape | scripts/generate_portfolio.py:267-272 | every figure (`FigureMarkup`) ends with `>` |
| PageRender.FigureShowsAlt | scripts/generate_portfolio.py:269-273 | filling the figure template with an alt text that has no `{` leaves the attribute `alt="..."` with that text, whatever the source and caption |
| PageRender.FigureMarkupShowsAlt | scripts/generate_portfolio.py:261-273 | the figure of an image holds its alt attribute, with the caption or the fallback title, when that text has no `{` |
| PageRender.FigureFillKeepsTag | scripts/generate_portfolio.py:267-272 | filling the figure's three placeholders keeps its closing tag |
| PageRender.RenderGallery | scripts/generate_portfolio.py:258-277 | the loop returns `Gallery(images, ...)` |
| PageRender.FigureScanCount | scripts/generate_portfolio.py:259-273 | one figure is added per image with a non-empty `src` |
| PageRender.GalleryFill | scripts/generate_portfolio.py:276-278 | the gallery filled into any template that ends with a tag is empty exactly when there are no figures, and otherwise ends with a tag |
| PageRender.GalleryShape | scripts/generate_portfolio.py:258-277 | there is one figure per image with a `src`; the gallery (`Gallery`) is empty exactly when no image has one, and otherwise ends with `>` |
| PageRender.GalleryHas | scripts/generate_portfolio.py:258-277 | the gallery holds the figure of every image with a `src` |
| PageRender.RenderCardRendered | scripts/generate_portfolio.py:159-166 | a card is rendered unless the title or the description is a list or the images are a non-empty text, where the script raises |
| PageRender.RenderCardShape | scripts/generate_portfolio.py:192-196 | a rendered card (`RenderCardWith`) ends with `>` |
| PageRender.CardFillKeepsTag | scripts/generate_portfolio.py:192-196 | filling the card's four placeholders keeps its closing tag |
| PageRender.CardKeepsAlt | scripts/generate_portfolio.py:192-196 | an alt attribute the gallery holds, with no `{` in its text, survives the four fills of the card template |
| PageRender.CardShowsAlt | scripts/generate_portfolio.py:159-196 | a rendered card holds the alt attribute of every image with a `src` whose alt text has no `{` |
| PageRender.RenderCardAlt | scripts/generate_portfolio.py:159-196 | with the title escaped once (`RenderCard`), the card holds each such image's alt attribute, which reads back as the caption, or as the title when there is no caption |
| PageRender.RenderCardAsWrittenAlt | scripts/generate_portfolio.py:161-166 | as written (`RenderCardAsWritten`), an image without caption in a card whose title holds `&` gets the twice-escaped title as alt text, which does not read back as the title |
| PageRender.EscapedFallbackAlt | scripts/generate_portfolio.py:161-166 | as written, the alt text of an image without caption reads back as the escaped title, which differs from any title holding `&` |
| PageRender.EscapedFallbackAltExample | scripts/generate_portfolio.py:161-166 | for the title `A & B` the alt text does not read back as the title |
| Thumbnails.SrcAttrsExactly | scripts/fix_aspect_ratio.py:32-34 | a value is recorded for a tag exactly when one of its `src` attributes, in any case, has that value, and no recorded value is empty |
| Thumbnails.NonImageTagIgnored | scripts/fix_aspect_ratio.py:30-31 | a tag other than `img`, in any case, records nothing |
| Thumbnails.SelfClosingSame | scripts/fix_aspect_ratio.py:36 | a self-closing tag records what the same start tag would |
| Thumbnails.ImageCollector.constructor | scripts/fix_aspect_ratio.py:25-27 | a new collector has no sources |
| Thumbnails.ImageCollector.HandleStartTag | scripts/fix_aspect_ratio.py:29-34 | the handler appends exactly the tag's `src` values to `sources` |
| Thumbnails.ImageCollector.HandleStartEndTag | scripts/fix_aspect_ratio.py:36 | the self-closing handler appends the same values |
| Thumbnails.ImageCollector.Feed | scripts/fix_aspect_ratio.py:41 | feeding a document appends the sources of its tags in order |
| Thumbnails.IterLocalImagePaths | scripts/fix_aspect_ratio.py:39-57 | yields `LocalPaths` of the page's collected sources |
| Thumbnails.FilterSources | scripts/fix_aspect_ratio.py:43-57 | the loop over the collected sources yields `LocalPaths` of them |
| Thumbnails.Consider | scripts/fix_aspect_ratio.py:48-57 | a new source is kept exactly when it is neither remote nor inline, exists, and has a supported suffix |
| Thumbnails.LocalScanIsYield | scripts/fix_aspect_ratio.py:43-57 | the yielded paths are the distinct sources, filtered to the local ones and resolved, in order |
| Thumbnails.DistinctOnce | scripts/fix_aspect_ratio.py:43-47 | the sources considered have no repeat and no empty one, and include every non-empty source |
| Thumbnails.DistinctFirstSeen | scripts/fix_aspect_ratio.py:43-47 | the sources considered appear in first-seen order, each at its first occurrence |
| Thumbnails.YieldFrom | scripts/fix_aspect_ratio.py:48-57 | every path yielded has a source that passes the filter and resolves to it |
| Thumbnails.YieldOf | scripts/fix_aspect_ratio.py:48-57 | every source that passes the filter has its resolved path yielded |
| Thumbnails.YieldExactly | scripts/fix_aspect_ratio.py:48-57 | a path is yielded exactly when some considered source passes the filter and resolves to it |
| Thumbnails.LocalPathsAreLocal | scripts/fix_aspect_ratio.py:48-57 | every yielded path comes from a non-empty source that is neither remote nor inline, exists, and ends in `.png` or `.webp` in any case |
| Thumbnails.SuffixIsTail | scripts/fix_aspect_ratio.py:54 | a path's suffix is the end of the path |
| Thumbnails.RFind | scripts/fix_aspect_ratio.py:54 | the index of the last occurrence of the character, or -1 when it does not occur: the index found holds it and no later position does |
| Thumbnails.PadGeometry | scripts/fix_aspect_ratio.py:62-67 | the side is the larger dimension; both offsets fit the image on the canvas; one offset is 0; the spare column or row goes after the image; a square image keeps its size at offset 0 |
| Thumbnails.PadToSquare | scripts/fix_aspect_ratio.py:60-70 | a square image is left alone with `false`; any other gets a new square canvas of side max(w, h) with the image centred and every other pixel transparent, with `true` |
| Thumbnails.PadAgain | scripts/fix_aspect_ratio.py:63-70 | padding the result of a padding changes nothing |
| Thumbnails.Run | scripts/fix_aspect_ratio.py:73-86 | a missing page gives 1 and changes nothing; otherwise the paths padded, in order, are those `PadScan` gives, `processed` counts them, and `raised` says whether a padded path outside `ROOT` made `relative_to` raise, giving status 1 instead of 0; no file is added or removed; a file not padded is unchanged; a padded file holds `PaddedCanvas` of its original, a square of the larger side with the original centred and every other pixel transparent; without the raise, every yielded image that exists is square afterwards |
| Thumbnails.PadPath | scripts/fix_aspect_ratio.py:80-83 | one turn of the loop pads the path's file when it exists and is not square and records its path; it raises exactly when that padded path lies outside `ROOT`; the files and paths stay as `PadScan` describes them: unpadded files unchanged, padded ones holding `PaddedCanvas` of their original |
| Thumbnails.PadScanPad | scripts/fix_aspect_ratio.py:80-83 | a file that is not square is padded, counted, and square for the rest of the run; when its path lies outside `ROOT`, the run ends right after it |
| Thumbnails.PadScanSkip | scripts/fix_aspect_ratio.py:79-80 | a missing or square file is passed over uncounted |
| Thumbnails.PadScanOnce | scripts/fix_aspect_ratio.py:79-83 | each file is padded at most once in a run, and only if it was not square; afterwards a file is square exactly when it was padded or already square |
| Thumbnails.PadScanRaises | scripts/fix_aspect_ratio.py:81-83 | the run is cut short exactly when a padded path lies outside `ROOT`; that path is the last one padded, and every path padded before it lies under `ROOT` |
| Thumbnails.PadScanComplete | scripts/fix_aspect_ratio.py:79-83 | when no padded path lies outside `ROOT`, every path of the run whose file exists is square once the run is over; no file is added or removed |

## Left out

- These are I/O and are not modelled:
  - reading `content.yaml` files and listing the entry directories (`read_portfolio_entries`);
  - writing `portfolio.html` (`main` of the page generator);
  - reading the page in `fix_aspect_ratio.py`;
  - opening and saving images;
  - the warnings and progress lines printed to the standard streams.
- The reverse-sorted directory order of `read_portfolio_entries` is not modelled.
- `render_page` and `PAGE_TEMPLATE` (the page around the cards) are not modelled, because they are one more `str.replace`.
- `_path`, `os.path.relpath` and `Path.as_posix` become one parameter, `relPath`, which gives each image its site-relative path.
- `(ROOT / src).resolve()` is the parameter `resolve`.
- Whether a resolved path lies under `ROOT`, which decides whether `relative_to(ROOT)` raises, is the parameter `underRoot`. The traceback that follows the raise is not modelled, only the stop and the exit status 1.
- `Path.exists` is membership in a set of present files, or in the keys of the map of image files in `Run`.
- The generator in `_iter_local_image_paths` is modelled as the sequence it yields. Padding never adds or removes files, so its interleaving with `main`'s loop does not change what is yielded.
- The HTML tokenizer is not modelled: a document is the sequence of start-tag events the parser reports.
- Pillow is not modelled: an image is an `array2` of RGBA pixels, and `convert("RGBA")` is taken as already done. `paste` copies pixels without blending, which is what Pillow does for a paste without a mask.
- `str.strip` removes the characters `str.isspace` accepts: tab to carriage return, file to unit separator, the space and the Unicode separators.
- `str.lower` maps `A`-`Z` only, and `str.splitlines` splits on `\n` only.
- Dictionaries are maps, so key insertion order is not modelled; no part of the scripts reads it.
- A title or description that is a list, and images given as a non-empty text, make Python raise. The model gives `None` instead and does not model the exception.
- PageRender.TemplatesEndWithTag: about the whole templates, only their closing `>` is proved. Each template is written as its text before and after its placeholders, so what is proved about the filled markup is that it holds the values filled in.
- PageRender.StatusBadgeShape: the filled badge is not stated as a whole text, only that it ends with `>`; `StatusBadgeHoldsStatus` states that it holds the status.
- PageRender.ButtonsShape: the filled buttons are not stated as whole texts; `ButtonsHoldUrl` states that they hold the url.
- PageRender.RenderLinksShape: the filled row of links is not stated as a whole text; `RenderLinksHold` states that it holds every component.
- PageRender.DescriptionBlockShape: the filled block is not stated as a whole text; `DescriptionBlockHolds` states that it holds the description.
- PageRender.FigureShape: the filled figure is not stated as a whole text; `FigureMarkupShowsAlt` states that it holds the alt attribute.
- PageRender.GalleryShape: the filled gallery is not stated as a whole text; `GalleryHas` states that it holds every figure.
- PageRender.RenderCardShape: the filled card is not stated as a whole text; `CardShowsAlt` states that it holds every alt attribute.
- PageRender.CardShowsAlt: requires alt text without `{`. An alt text holding a later placeholder, such as `{{LINKS}}`, is changed by the later fill, in the script as in the model; what then appears is not stated.
- PageRender.RenderCardAlt: requires a caption and title without `{`, for the same reason.
- PageRender.FigureMarkupShowsAlt: requires alt text without `{`, for the same reason.
- PageRender.FigureShowsAlt: requires alt text without `{`, for the same reason.
- Python's truth tests on values of the wrong kind inside list items cannot occur: every list item is a dictionary of strings, as the list parser produces them.

## Findings

| source | as written | input that shows it | evidently intended | confidence | as-written member | corrected member |
|---|---|---|---|---|---|---|
| scripts/generate_portfolio.py:161-166 | `render_card` escapes the title and passes it to `render_gallery`, which escapes it again for the alt text of an image without caption | title `A & B` and an image with `src` and no caption: the alt attribute is `A &amp;amp; B`, which a browser shows as `A &amp; B` | the alt text shows the title itself, escaped once | not executed | PageRender.RenderCardAsWrittenAlt | PageRender.RenderCardAlt |
