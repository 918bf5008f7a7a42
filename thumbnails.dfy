/**
 * The thumbnail pass: the `img` sources an HTML parser reports, the local image files
 * they name (each distinct source once, remote and inline ones skipped, only PNG and
 * WebP kept), and the padding that centres every non-square image on a transparent
 * square canvas.
 */
module Thumbnails {
  import opened Text

  // ---------------------------------------------------------------------------
  // _ImageCollector

  /** One attribute of a start tag: its name and its value, absent for a bare attribute. */
  type Attr = (string, Option<string>)

  /** What the HTML parser reports while it reads a document. */
  datatype Event =
    | StartTag(tag: string, attrs: seq<Attr>)
    | StartEndTag(tag: string, attrs: seq<Attr>)
    | Other

  /** An attribute named `src`, in any case, with a non-empty value. */
  predicate IsSrcAttr(a: Attr) {
    |a.0| > 0 && Lower(a.0) == "src" && a.1.Some? && |a.1.value| > 0
  }

  /** The values of the `src` attributes among `attrs`, in order. */
  function SrcAttrs(attrs: seq<Attr>): seq<string>
    decreases |attrs|
  {
    if |attrs| == 0 then []
    else
      var a := attrs[|attrs| - 1];
      SrcAttrs(attrs[..|attrs| - 1]) + (if IsSrcAttr(a) then [a.1.value] else [])
  }

  /** The sources one start tag contributes: its `src` values when it is an `img` tag, else none. */
  function SrcValues(tag: string, attrs: seq<Attr>): seq<string> {
    if Lower(tag) != "img" then [] else SrcAttrs(attrs)
  }

  /** The sources a whole document contributes, tag by tag. */
  function Collected(events: seq<Event>): seq<string>
    decreases |events|
  {
    if |events| == 0 then []
    else
      var e := events[|events| - 1];
      Collected(events[..|events| - 1]) + (
        match e
        case StartTag(tag, attrs) => SrcValues(tag, attrs)
        case StartEndTag(tag, attrs) => SrcValues(tag, attrs)
        case Other => [])
  }

  /** A value is recorded for a tag exactly when one of its `src` attributes holds it, and none is empty. */
  lemma {:induction false} SrcAttrsExactly(attrs: seq<Attr>, v: string)
    ensures v in SrcAttrs(attrs) <==> exists j :: 0 <= j < |attrs| && IsSrcAttr(attrs[j]) && attrs[j].1.value == v
    ensures v in SrcAttrs(attrs) ==> |v| > 0
    decreases |attrs|
  {
    if |attrs| > 0 {
      var init := attrs[..|attrs| - 1];
      SrcAttrsExactly(init, v);
      if v in SrcAttrs(attrs) && v !in SrcAttrs(init) {
        assert IsSrcAttr(attrs[|attrs| - 1]) && attrs[|attrs| - 1].1.value == v;
      }
      if exists j :: 0 <= j < |attrs| && IsSrcAttr(attrs[j]) && attrs[j].1.value == v {
        var j :| 0 <= j < |attrs| && IsSrcAttr(attrs[j]) && attrs[j].1.value == v;
        if j < |attrs| - 1 {
          assert init[j] == attrs[j];
        }
      }
    }
  }

  /** A tag that is not `img`, in any case, contributes nothing. */
  lemma NonImageTagIgnored(tag: string, attrs: seq<Attr>)
    requires Lower(tag) != "img"
    ensures |SrcValues(tag, attrs)| == 0
  {
  }

  /** A self-closing tag contributes what the same tag opened normally would. */
  lemma SelfClosingSame(events: seq<Event>, tag: string, attrs: seq<Attr>)
    ensures Collected(events + [StartEndTag(tag, attrs)]) == Collected(events + [StartTag(tag, attrs)])
  {
    assert (events + [StartEndTag(tag, attrs)])[..|events|] == events;
    assert (events + [StartTag(tag, attrs)])[..|events|] == events;
  }

  /** `_ImageCollector`: the parser's start-tag handler, collecting `img` sources. */
  class ImageCollector {
    var sources: seq<string>

    constructor()
      ensures sources == []
    {
      sources := [];
    }

    /** `handle_starttag` */
    method HandleStartTag(tag: string, attrs: seq<Attr>)
      modifies this
      ensures sources == old(sources) + SrcValues(tag, attrs)
    {
      if Lower(tag) != "img" {
        assert old(sources) + [] == old(sources);
        return;
      }
      for i := 0 to |attrs|
        invariant sources == old(sources) + SrcAttrs(attrs[..i])
      {
        assert attrs[..i + 1][..i] == attrs[..i];
        var (name, value) := attrs[i];
        if |name| > 0 && Lower(name) == "src" && value.Some? && |value.value| > 0 {
          sources := sources + [value.value];
        }
      }
      assert attrs[..|attrs|] == attrs;
    }

    /** `handle_startendtag`, which the collector makes the same handler. */
    method HandleStartEndTag(tag: string, attrs: seq<Attr>)
      modifies this
      ensures sources == old(sources) + SrcValues(tag, attrs)
    {
      HandleStartTag(tag, attrs);
    }

    /** `feed`: the handlers called for the document's tags in order. */
    method Feed(events: seq<Event>)
      modifies this
      ensures sources == old(sources) + Collected(events)
    {
      for i := 0 to |events|
        invariant sources == old(sources) + Collected(events[..i])
      {
        assert events[..i + 1][..i] == events[..i];
        match events[i]
        case StartTag(tag, attrs) => HandleStartTag(tag, attrs);
        case StartEndTag(tag, attrs) => HandleStartEndTag(tag, attrs);
        case Other =>
      }
      assert events[..|events|] == events;
    }
  }

  // ---------------------------------------------------------------------------
  // _iter_local_image_paths

  /** Index of the last `c` in `s`, or -1 when there is none. */
  function RFind(s: string, c: char): (i: int)
    ensures -1 <= i < |s|
    ensures i >= 0 ==> s[i] == c
    ensures forall j :: i < j < |s| ==> s[j] != c
    decreases |s|
  {
    if |s| == 0 then -1
    else if s[|s| - 1] == c then |s| - 1
    else RFind(s[..|s| - 1], c)
  }

  /** The last component of a path. */
  function BaseName(path: string): string {
    path[RFind(path, '/') + 1..]
  }

  /** `Path.suffix`: the last component from its last `.` on, if that dot neither starts nor ends it. */
  function Suffix(path: string): string {
    var name := BaseName(path);
    var i := RFind(name, '.');
    if 0 < i < |name| - 1 then name[i..] else ""
  }

  /** `SUPPORTED_SUFFIXES`, compared with the lower-cased suffix. */
  predicate Supported(path: string) {
    Lower(Suffix(path)) == ".png" || Lower(Suffix(path)) == ".webp"
  }

  /** A source on another host or written inline in the page. */
  predicate IsRemote(src: string) {
    Contains(src, "://") || StartsWith(src, "data:")
  }

  /** A source that names an existing image file of a supported kind. */
  predicate IsLocal(src: string, resolve: string -> string, present: set<string>) {
    !IsRemote(src) && resolve(src) in present && Supported(resolve(src))
  }

  /** The loop of `_iter_local_image_paths` from source `i` on, given the sources already seen. */
  function LocalScan(sources: seq<string>, i: nat, seen: set<string>, resolve: string -> string, present: set<string>): seq<string>
    decreases |sources| - i
  {
    if i >= |sources| then []
    else
      var src := sources[i];
      if |src| == 0 || src in seen then LocalScan(sources, i + 1, seen, resolve, present)
      else if !IsLocal(src, resolve, present) then LocalScan(sources, i + 1, seen + {src}, resolve, present)
      else [resolve(src)] + LocalScan(sources, i + 1, seen + {src}, resolve, present)
  }

  /** An empty source, or one seen before, is passed over. */
  lemma LocalScanSkip(sources: seq<string>, i: nat, seen: set<string>, resolve: string -> string, present: set<string>)
    requires i < |sources| && (|sources[i]| == 0 || sources[i] in seen)
    ensures LocalScan(sources, i, seen, resolve, present) == LocalScan(sources, i + 1, seen, resolve, present)
  {
  }

  /** A new source is marked seen, and its path is yielded when it is local. */
  lemma LocalScanNew(sources: seq<string>, i: nat, seen: set<string>, resolve: string -> string, present: set<string>, keep: bool)
    requires i < |sources| && |sources[i]| > 0 && sources[i] !in seen
    requires keep == IsLocal(sources[i], resolve, present)
    ensures LocalScan(sources, i, seen, resolve, present)
      == (if keep then [resolve(sources[i])] else []) + LocalScan(sources, i + 1, seen + {sources[i]}, resolve, present)
  {
  }

  /** The paths `_iter_local_image_paths` yields for a document's sources. */
  function LocalPaths(sources: seq<string>, resolve: string -> string, present: set<string>): seq<string> {
    LocalScan(sources, 0, {}, resolve, present)
  }

  /**
   * `_iter_local_image_paths(html_file)`, with the document given as the parser's
   * events, `resolve` standing for `(ROOT / src).resolve()` and `present` for the
   * files that exist.
   */
  method IterLocalImagePaths(events: seq<Event>, resolve: string -> string, present: set<string>) returns (paths: seq<string>)
    ensures paths == LocalPaths(Collected(events), resolve, present)
  {
    var parser := new ImageCollector();
    parser.Feed(events);
    assert parser.sources == [] + Collected(events) == Collected(events);
    paths := FilterSources(parser.sources, resolve, present);
  }

  /** The loop of `_iter_local_image_paths` over the collected sources. */
  method FilterSources(sources: seq<string>, resolve: string -> string, present: set<string>) returns (paths: seq<string>)
    ensures paths == LocalPaths(sources, resolve, present)
  {
    var seen: set<string> := {};
    paths := [];
    for i := 0 to |sources|
      invariant paths + LocalScan(sources, i, seen, resolve, present) == LocalScan(sources, 0, {}, resolve, present)
    {
      var rawSrc := sources[i];
      if |rawSrc| == 0 || rawSrc in seen {
        LocalScanSkip(sources, i, seen, resolve, present);
        continue;
      }
      var keep, path := Consider(rawSrc, resolve, present);
      FilterStep(sources, i, seen, resolve, present, keep, paths);
      seen := seen + {rawSrc};
      if keep {
        paths := paths + [path];
      }
    }
  }

  /** One new source keeps the loop of `FilterSources` on `LocalScan`. */
  lemma FilterStep(sources: seq<string>, i: nat, seen: set<string>, resolve: string -> string, present: set<string>,
                   keep: bool, paths: seq<string>)
    requires i < |sources| && |sources[i]| > 0 && sources[i] !in seen
    requires keep == IsLocal(sources[i], resolve, present)
    ensures paths + LocalScan(sources, i, seen, resolve, present)
      == (if keep then paths + [resolve(sources[i])] else paths) + LocalScan(sources, i + 1, seen + {sources[i]}, resolve, present)
  {
    LocalScanNew(sources, i, seen, resolve, present, keep);
    var rest := LocalScan(sources, i + 1, seen + {sources[i]}, resolve, present);
    if keep {
      assert paths + ([resolve(sources[i])] + rest) == (paths + [resolve(sources[i])]) + rest;
    } else {
      assert [] + rest == rest;
    }
  }

  /** The checks of one new source, in the order the loop makes them. */
  method Consider(rawSrc: string, resolve: string -> string, present: set<string>) returns (keep: bool, path: string)
    ensures keep == IsLocal(rawSrc, resolve, present) && path == resolve(rawSrc)
  {
    path := resolve(rawSrc);
    if Contains(rawSrc, "://") || StartsWith(rawSrc, "data:") {
      return false, path;
    }
    if path !in present {
      return false, path;
    }
    if Lower(Suffix(path)) != ".png" && Lower(Suffix(path)) != ".webp" {
      return false, path;
    }
    return true, path;
  }

  /** The distinct non-empty sources from `i` on that were not seen before, in first-seen order. */
  function Distinct(sources: seq<string>, i: nat, seen: set<string>): seq<string>
    decreases |sources| - i
  {
    if i >= |sources| then []
    else if |sources[i]| == 0 || sources[i] in seen then Distinct(sources, i + 1, seen)
    else [sources[i]] + Distinct(sources, i + 1, seen + {sources[i]})
  }

  /** `IsLocal` for one document and file system, as a test on sources. */
  function LocalTest(resolve: string -> string, present: set<string>): string -> bool {
    src => IsLocal(src, resolve, present)
  }

  /** The resolved paths of the sources among `ds` that `keep` accepts, in order. */
  function Yield(ds: seq<string>, keep: string -> bool, resolve: string -> string): seq<string> {
    if |ds| == 0 then []
    else (if keep(ds[0]) then [resolve(ds[0])] else []) + Yield(ds[1..], keep, resolve)
  }

  /** The scan is the distinct sources, filtered to the local ones and resolved. */
  lemma {:induction false} LocalScanIsYield(sources: seq<string>, i: nat, seen: set<string>, resolve: string -> string, present: set<string>)
    ensures LocalScan(sources, i, seen, resolve, present) == Yield(Distinct(sources, i, seen), LocalTest(resolve, present), resolve)
    decreases |sources| - i
  {
    if i < |sources| {
      var src := sources[i];
      if |src| == 0 || src in seen {
        LocalScanIsYield(sources, i + 1, seen, resolve, present);
      } else {
        LocalScanIsYield(sources, i + 1, seen + {src}, resolve, present);
        var d := Distinct(sources, i, seen);
        var keep := LocalTest(resolve, present);
        assert d[0] == src && d[1..] == Distinct(sources, i + 1, seen + {src});
        assert keep(src) == IsLocal(src, resolve, present);
        if !IsLocal(src, resolve, present) {
          assert Yield(d, keep, resolve) == [] + Yield(d[1..], keep, resolve);
        }
      }
    }
  }

  /** An index of `sources`, from `i` on, where `x` occurs. */
  predicate OccursFrom(sources: seq<string>, i: nat, x: string) {
    exists j :: i <= j < |sources| && sources[j] == x
  }

  /**
   * Each distinct source is taken once: none repeats, none is empty or already seen, and
   * every non-empty source not seen before is among them.
   */
  lemma {:induction false} DistinctOnce(sources: seq<string>, i: nat, seen: set<string>)
    ensures var d := Distinct(sources, i, seen);
      && (forall a, b :: 0 <= a < b < |d| ==> d[a] != d[b])
      && (forall x :: x in d <==> |x| > 0 && x !in seen && OccursFrom(sources, i, x))
    decreases |sources| - i
  {
    if i < |sources| {
      var src := sources[i];
      if |src| == 0 || src in seen {
        DistinctOnce(sources, i + 1, seen);
        forall x | OccursFrom(sources, i, x) && x != src ensures OccursFrom(sources, i + 1, x) {
          var j :| i <= j < |sources| && sources[j] == x;
        }
      } else {
        var rest := Distinct(sources, i + 1, seen + {src});
        DistinctOnce(sources, i + 1, seen + {src});
        var d := Distinct(sources, i, seen);
        assert d == [src] + rest;
        forall a, b | 0 <= a < b < |d| ensures d[a] != d[b] {
          if a == 0 {
            assert d[b] == rest[b - 1];
          } else {
            assert d[a] == rest[a - 1] && d[b] == rest[b - 1];
          }
        }
        forall x | OccursFrom(sources, i, x) && x != src ensures OccursFrom(sources, i + 1, x) {
          var j :| i <= j < |sources| && sources[j] == x;
        }
      }
    }
  }

  /**
   * `at` gives, for each of `d`, an index of `sources` from `i` on that holds it, the
   * first such index, and the indices increase.
   */
  predicate FirstSeenAt(sources: seq<string>, i: nat, d: seq<string>, at: seq<nat>) {
    && |at| == |d|
    && (forall k :: 0 <= k < |at| ==> i <= at[k] < |sources| && sources[at[k]] == d[k])
    && (forall k, j :: 0 <= k < |at| && i <= j < at[k] ==> sources[j] != d[k])
    && (forall a, b :: 0 <= a < b < |at| ==> at[a] < at[b])
  }

  lemma FirstSeenSkip(sources: seq<string>, i: nat, d: seq<string>, at: seq<nat>)
    requires i < |sources| && FirstSeenAt(sources, i + 1, d, at)
    requires forall k :: 0 <= k < |d| ==> d[k] != sources[i]
    ensures FirstSeenAt(sources, i, d, at)
  {
  }

  lemma FirstSeenTake(sources: seq<string>, i: nat, d: seq<string>, at: seq<nat>)
    requires i < |sources| && FirstSeenAt(sources, i + 1, d, at)
    requires forall k :: 0 <= k < |d| ==> d[k] != sources[i]
    ensures FirstSeenAt(sources, i, [sources[i]] + d, [i] + at)
  {
    var d', at' := [sources[i]] + d, [i] + at;
    assert forall k :: 1 <= k < |at'| ==> at'[k] == at[k - 1] && d'[k] == d[k - 1];
  }

  /** First-seen order: the distinct sources sit at increasing indices, each at its first occurrence. */
  lemma {:induction false} DistinctFirstSeen(sources: seq<string>, i: nat, seen: set<string>) returns (at: seq<nat>)
    ensures FirstSeenAt(sources, i, Distinct(sources, i, seen), at)
    decreases |sources| - i
  {
    if i >= |sources| {
      at := [];
    } else {
      var src := sources[i];
      if |src| == 0 || src in seen {
        at := DistinctFirstSeen(sources, i + 1, seen);
        var d := Distinct(sources, i + 1, seen);
        DistinctOnce(sources, i + 1, seen);
        assert forall k :: 0 <= k < |d| ==> d[k] in d;
        FirstSeenSkip(sources, i, d, at);
      } else {
        var rest := DistinctFirstSeen(sources, i + 1, seen + {src});
        var d := Distinct(sources, i + 1, seen + {src});
        DistinctOnce(sources, i + 1, seen + {src});
        assert forall k :: 0 <= k < |d| ==> d[k] in d;
        FirstSeenTake(sources, i, d, rest);
        at := [i] + rest;
      }
    }
  }

  lemma YieldCons(ds: seq<string>, keep: string -> bool, resolve: string -> string)
    requires |ds| > 0
    ensures Yield(ds, keep, resolve) == (if keep(ds[0]) then [resolve(ds[0])] else []) + Yield(ds[1..], keep, resolve)
  {
  }

  /** Every path yielded comes from a source among `ds` that `keep` accepts. */
  lemma {:induction false} YieldFrom(ds: seq<string>, keep: string -> bool, resolve: string -> string, p: string) returns (k: nat)
    requires p in Yield(ds, keep, resolve)
    ensures k < |ds| && keep(ds[k]) && resolve(ds[k]) == p
  {
    YieldCons(ds, keep, resolve);
    if keep(ds[0]) && p == resolve(ds[0]) {
      k := 0;
    } else {
      var rest := ds[1..];
      assert p in Yield(rest, keep, resolve);
      var j := YieldFrom(rest, keep, resolve, p);
      k := j + 1;
      assert ds[k] == rest[j];
    }
  }

  /** Every source among `ds` that `keep` accepts has its path yielded. */
  lemma {:induction false} YieldOf(ds: seq<string>, keep: string -> bool, resolve: string -> string, k: nat)
    requires k < |ds| && keep(ds[k])
    ensures resolve(ds[k]) in Yield(ds, keep, resolve)
  {
    YieldCons(ds, keep, resolve);
    if k > 0 {
      var rest := ds[1..];
      assert rest[k - 1] == ds[k];
      YieldOf(rest, keep, resolve, k - 1);
    }
  }

  /** A path is yielded exactly when some source among `ds` is accepted and resolves to it. */
  lemma YieldExactly(ds: seq<string>, keep: string -> bool, resolve: string -> string, p: string)
    ensures p in Yield(ds, keep, resolve) <==> exists k :: 0 <= k < |ds| && keep(ds[k]) && resolve(ds[k]) == p
  {
    if p in Yield(ds, keep, resolve) {
      var k := YieldFrom(ds, keep, resolve, p);
    }
    if exists k :: 0 <= k < |ds| && keep(ds[k]) && resolve(ds[k]) == p {
      var k :| 0 <= k < |ds| && keep(ds[k]) && resolve(ds[k]) == p;
      YieldOf(ds, keep, resolve, k);
    }
  }

  /** A suffix is the end of its path. */
  lemma SuffixIsTail(path: string)
    ensures EndsWith(path, Suffix(path))
  {
    var name := BaseName(path);
    var i := RFind(name, '.');
    if 0 < i < |name| - 1 {
      assert name[i..] == path[|path| - (|name| - i)..];
    }
  }

  /**
   * Every path yielded comes from a distinct source of the document that is neither
   * remote nor inline, names an existing file, and ends in `.png` or `.webp` in any case.
   */
  lemma LocalPathsAreLocal(sources: seq<string>, resolve: string -> string, present: set<string>, p: string)
    requires p in LocalPaths(sources, resolve, present)
    ensures exists k :: 0 <= k < |sources| && |sources[k]| > 0 && !IsRemote(sources[k]) && resolve(sources[k]) == p
    ensures p in present
    ensures (|p| >= 4 && Lower(p[|p| - 4..]) == ".png") || (|p| >= 5 && Lower(p[|p| - 5..]) == ".webp")
  {
    LocalScanIsYield(sources, 0, {}, resolve, present);
    var d := Distinct(sources, 0, {});
    var k := YieldFrom(d, LocalTest(resolve, present), resolve, p);
    assert IsLocal(d[k], resolve, present);
    DistinctOnce(sources, 0, {});
    assert d[k] in d;
    var j :| 0 <= j < |sources| && sources[j] == d[k];
    SuffixIsTail(p);
  }

  // ---------------------------------------------------------------------------
  // _pad_to_square

  newtype byte = x: int | 0 <= x < 256

  /** One RGBA pixel. */
  datatype Pixel = Pixel(r: byte, g: byte, b: byte, a: byte)

  /** The fill colour of a new canvas: fully transparent black. */
  const Transparent := Pixel(0, 0, 0, 0)

  /** The side of the square canvas. */
  function Side(width: nat, height: nat): nat {
    if width >= height then width else height
  }

  /** The offset that centres `d` pixels on `side`, rounding down: `(side - d) // 2`. */
  function Offset(side: nat, d: nat): nat
    requires d <= side
  {
    (side - d) / 2
  }

  /**
   * The canvas holds both dimensions and equals one of them; the image fits at its
   * offsets, one of which is 0, with the spare column or row, if any, after it.
   */
  lemma PadGeometry(width: nat, height: nat)
    ensures var side := Side(width, height);
      && width <= side && height <= side && (side == width || side == height)
      && Offset(side, width) + width <= side && Offset(side, height) + height <= side
      && (Offset(side, width) == 0 || Offset(side, height) == 0)
      && side - width - 2 * Offset(side, width) in {0, 1}
      && side - height - 2 * Offset(side, height) in {0, 1}
      && (width == height ==> side == width && Offset(side, width) == 0)
  {
  }

  /** What the padded canvas holds at row `y`, column `x`. */
  predicate PaddedAt(image: array2<Pixel>, padded: array2<Pixel>, y: int, x: int)
    requires image.Length0 <= padded.Length0 && image.Length1 <= padded.Length1
    requires 0 <= y < padded.Length0 && 0 <= x < padded.Length1
    reads image, padded
  {
    var oy := Offset(padded.Length0, image.Length0);
    var ox := Offset(padded.Length1, image.Length1);
    padded[y, x] == if oy <= y < oy + image.Length0 && ox <= x < ox + image.Length1
      then image[y - oy, x - ox] else Transparent
  }

  /**
   * `padded` is the square canvas `_pad_to_square` makes of `image`: of side the larger
   * dimension, with the image centred on it and every other pixel transparent.
   */
  predicate PaddedCanvas(image: array2<Pixel>, padded: array2<Pixel>)
    reads image, padded
  {
    && padded.Length0 == Side(image.Length1, image.Length0)
    && padded.Length1 == Side(image.Length1, image.Length0)
    && forall y, x :: 0 <= y < padded.Length0 && 0 <= x < padded.Length1 ==> PaddedAt(image, padded, y, x)
  }

  /**
   * `_pad_to_square`, with an image as rows of pixels: a square image is left alone and
   * `false` returned; any other is pasted, centred, on a new transparent square canvas,
   * which is returned with `true` in place of being saved.
   */
  method PadToSquare(image: array2<Pixel>) returns (changed: bool, padded: array2<Pixel>)
    ensures changed <==> image.Length0 != image.Length1
    ensures !changed ==> padded == image
    ensures changed ==> fresh(padded) && PaddedCanvas(image, padded)
  {
    var width, height := image.Length1, image.Length0;
    if width == height {
      return false, image;
    }
    var target := Side(width, height);
    var ox, oy := Offset(target, width), Offset(target, height);
    padded := new Pixel[target, target]((_, _) => Transparent);
    for y := 0 to height
      invariant forall yy, xx :: 0 <= yy < target && 0 <= xx < target ==>
        padded[yy, xx] == if oy <= yy < oy + y && ox <= xx < ox + width then image[yy - oy, xx - ox] else Transparent
    {
      for x := 0 to width
        invariant forall yy, xx :: 0 <= yy < target && 0 <= xx < target ==>
          padded[yy, xx] == if (oy <= yy < oy + y && ox <= xx < ox + width) || (yy == oy + y && ox <= xx < ox + x)
            then image[yy - oy, xx - ox] else Transparent
      {
        padded[oy + y, ox + x] := image[y, x];
      }
    }
    return true, padded;
  }

  /** The canvas is square, so padding it again changes nothing. */
  method PadAgain(image: array2<Pixel>) returns (second: bool)
    ensures !second
  {
    var first, padded := PadToSquare(image);
    var again;
    second, again := PadToSquare(padded);
  }

  // ---------------------------------------------------------------------------
  // main

  /** The width and height of every image file. */
  function Sizes(disk: map<string, array2<Pixel>>): map<string, (nat, nat)> {
    map p | p in disk :: (disk[p].Length1, disk[p].Length0)
  }

  /**
   * The loop of `main` from path `i` on: the paths padded, in order, the sizes of the
   * files afterwards, and whether the run was cut short. A padded file is square from
   * then on. `underRoot` tells whether a path lies under `ROOT`: for a padded path
   * that does not, `image_path.relative_to(ROOT)` raises after the file was saved, and
   * the loop stops there.
   */
  function PadScan(paths: seq<string>, i: nat, sizes: map<string, (nat, nat)>, underRoot: string -> bool)
    : (seq<string>, map<string, (nat, nat)>, bool)
    decreases |paths| - i
  {
    if i >= |paths| then ([], sizes, false)
    else
      var p := paths[i];
      if p in sizes && sizes[p].0 != sizes[p].1 then
        var side := Side(sizes[p].0, sizes[p].1);
        if !underRoot(p) then ([p], sizes[p := (side, side)], true)
        else
          var rest := PadScan(paths, i + 1, sizes[p := (side, side)], underRoot);
          ([p] + rest.0, rest.1, rest.2)
      else PadScan(paths, i + 1, sizes, underRoot)
  }

  /** A path that is missing or already square is passed over. */
  lemma PadScanSkip(paths: seq<string>, i: nat, sizes: map<string, (nat, nat)>, underRoot: string -> bool)
    requires i < |paths| && (paths[i] !in sizes || sizes[paths[i]].0 == sizes[paths[i]].1)
    ensures PadScan(paths, i, sizes, underRoot) == PadScan(paths, i + 1, sizes, underRoot)
  {
  }

  /**
   * A path that is not square is padded, counted, and square for the rest of the run;
   * when it lies outside `ROOT` the run ends with it.
   */
  lemma PadScanPad(paths: seq<string>, i: nat, sizes: map<string, (nat, nat)>, underRoot: string -> bool)
    requires i < |paths| && paths[i] in sizes && sizes[paths[i]].0 != sizes[paths[i]].1
    ensures var p := paths[i];
      var side := Side(sizes[p].0, sizes[p].1);
      var rest := PadScan(paths, i + 1, sizes[p := (side, side)], underRoot);
      PadScan(paths, i, sizes, underRoot)
        == if underRoot(p) then ([p] + rest.0, rest.1, rest.2) else ([p], sizes[p := (side, side)], true)
  {
  }

  /** Replacing one file changes only its size. */
  lemma SizesUpdate(disk: map<string, array2<Pixel>>, p: string, image: array2<Pixel>)
    ensures Sizes(disk[p := image]) == Sizes(disk)[p := (image.Length1, image.Length0)]
  {
  }

  /**
   * `main`: 1 when the page is missing; otherwise the loop over the yielded paths, with
   * `processed` the number of images `_pad_to_square` changed, `padded` their paths in
   * order and `disk'` the image files afterwards: the same files, each padded one
   * replaced by its canvas and every other one left as it was. `raised` says that a
   * padded path outside `ROOT` made `relative_to` raise, which ends the program with
   * status 1 right after that file was saved; otherwise `main` returns 0 and every
   * yielded image that exists is square.
   */
  method Run(htmlExists: bool, events: seq<Event>, resolve: string -> string, underRoot: string -> bool,
             disk: map<string, array2<Pixel>>)
    returns (code: int, raised: bool, processed: nat, padded: seq<string>, disk': map<string, array2<Pixel>>)
    ensures !htmlExists ==> code == 1 && !raised && processed == 0 && disk' == disk
    ensures htmlExists ==> (
      var r := PadScan(LocalPaths(Collected(events), resolve, disk.Keys), 0, Sizes(disk), underRoot);
      && padded == r.0
      && Sizes(disk') == r.1
      && raised == r.2
      && code == (if raised then 1 else 0))
    ensures processed == |padded|
    ensures disk'.Keys == disk.Keys
    ensures forall p :: p in disk && p !in padded ==> disk'[p] == disk[p]
    ensures forall p :: p in padded ==> p in disk && PaddedCanvas(disk[p], disk'[p])
    ensures htmlExists && !raised ==> forall p :: p in LocalPaths(Collected(events), resolve, disk.Keys) && p in disk ==>
      disk'[p].Length0 == disk'[p].Length1
  {
    disk' := disk;
    padded := [];
    processed := 0;
    raised := false;
    if !htmlExists {
      return 1, false, 0, [], disk;
    }
    var paths := IterLocalImagePaths(events, resolve, disk.Keys);
    ghost var full := PadScan(paths, 0, Sizes(disk), underRoot);
    var i := 0;
    while i < |paths| && !raised
      invariant 0 <= i <= |paths|
      invariant processed == |padded|
      invariant !raised ==> ScanFrom(paths, i, Sizes(disk'), underRoot, padded, full)
      invariant raised ==> padded == full.0 && Sizes(disk') == full.1 && full.2
      invariant disk'.Keys == disk.Keys
      invariant forall q :: q in disk && q !in padded ==> disk'[q] == disk[q]
      invariant forall q :: q in padded ==> q in disk && PaddedCanvas(disk[q], disk'[q])
    {
      disk', padded, raised := PadPath(paths, i, underRoot, disk, disk', padded, full);
      processed := |padded|;
      i := i + 1;
    }
    if !raised {
      PadScanComplete(paths, 0, Sizes(disk), underRoot);
    }
    code := if raised then 1 else 0;
  }

  /** What is padded so far, followed by the scan from path `i` on, is the whole run `full`. */
  ghost predicate ScanFrom(paths: seq<string>, i: nat, sizes: map<string, (nat, nat)>, underRoot: string -> bool,
                           padded: seq<string>, full: (seq<string>, map<string, (nat, nat)>, bool))
  {
    var rest := PadScan(paths, i, sizes, underRoot);
    padded + rest.0 == full.0 && rest.1 == full.1 && rest.2 == full.2
  }

  /**
   * One turn of `main`'s loop: the path's file, when it exists and is not square, is
   * padded and its path recorded, and `raised` tells whether `relative_to` then raises;
   * the run's files and paths stay as `PadScan` describes them.
   */
  method PadPath(paths: seq<string>, i: nat, underRoot: string -> bool, disk: map<string, array2<Pixel>>,
                 files: map<string, array2<Pixel>>, padded: seq<string>,
                 ghost full: (seq<string>, map<string, (nat, nat)>, bool))
    returns (files': map<string, array2<Pixel>>, padded': seq<string>, raised: bool)
    requires i < |paths|
    requires full == PadScan(paths, 0, Sizes(disk), underRoot)
    requires ScanFrom(paths, i, Sizes(files), underRoot, padded, full)
    requires files.Keys == disk.Keys
    requires forall q :: q in disk && q !in padded ==> files[q] == disk[q]
    requires forall q :: q in padded ==> q in disk && PaddedCanvas(disk[q], files[q])
    ensures !raised ==> ScanFrom(paths, i + 1, Sizes(files'), underRoot, padded', full)
    ensures raised ==> padded' == full.0 && Sizes(files') == full.1 && full.2
    ensures raised <==> paths[i] in files && files[paths[i]].Length0 != files[paths[i]].Length1 && !underRoot(paths[i])
    ensures files'.Keys == disk.Keys
    ensures forall q :: q in disk && q !in padded' ==> files'[q] == disk[q]
    ensures forall q :: q in padded' ==> q in disk && PaddedCanvas(disk[q], files'[q])
  {
    files', padded', raised := files, padded, false;
    var p := paths[i];
    if p !in files {
      PadScanSkip(paths, i, Sizes(files), underRoot);
      return;
    }
    var changed, image := PadToSquare(files[p]);
    if changed {
      PadScanPad(paths, i, Sizes(files), underRoot);
      SizesUpdate(files, p, image);
      var rest := PadScan(paths, i + 1, Sizes(files[p := image]), underRoot);
      assert padded + ([p] + rest.0) == (padded + [p]) + rest.0;
      PaddedStep(disk, files, padded, p, image);
      files', padded' := files[p := image], padded + [p];
      raised := !underRoot(p);
    } else {
      PadScanSkip(paths, i, Sizes(files), underRoot);
    }
  }

  /**
   * Replacing a file that is not square by its canvas keeps the files of `Run` as it
   * describes them: a file not yet square was not padded before.
   */
  lemma PaddedStep(disk: map<string, array2<Pixel>>, files: map<string, array2<Pixel>>, padded: seq<string>,
                   p: string, image: array2<Pixel>)
    requires p in files && files.Keys == disk.Keys
    requires forall q :: q in disk && q !in padded ==> files[q] == disk[q]
    requires forall q :: q in padded ==> q in disk && PaddedCanvas(disk[q], files[q])
    requires files[p].Length0 != files[p].Length1 && PaddedCanvas(files[p], image)
    ensures p !in padded && files[p] == disk[p]
    ensures forall q :: q in disk && q !in padded + [p] ==> files[p := image][q] == disk[q]
    ensures forall q :: q in padded + [p] ==> q in disk && PaddedCanvas(disk[q], files[p := image][q])
  {
  }

  /** Every image is padded at most once in a run, and only one that was not square. */
  lemma {:induction false} PadScanOnce(paths: seq<string>, i: nat, sizes: map<string, (nat, nat)>, underRoot: string -> bool)
    ensures var r := PadScan(paths, i, sizes, underRoot);
      && (forall a, b :: 0 <= a < b < |r.0| ==> r.0[a] != r.0[b])
      && (forall p :: p in r.0 ==> p in sizes && sizes[p].0 != sizes[p].1)
      && r.1.Keys == sizes.Keys
      && (forall p :: p in r.1 ==> (r.1[p].0 == r.1[p].1 <==> (p in r.0 || sizes[p].0 == sizes[p].1)))
    decreases |paths| - i
  {
    if i < |paths| {
      var p := paths[i];
      if p in sizes && sizes[p].0 != sizes[p].1 {
        var side := Side(sizes[p].0, sizes[p].1);
        var sizes' := sizes[p := (side, side)];
        if underRoot(p) {
          PadScanOnce(paths, i + 1, sizes', underRoot);
          var r := PadScan(paths, i, sizes, underRoot);
          var rest := PadScan(paths, i + 1, sizes', underRoot);
          assert r.0 == [p] + rest.0;
          forall a, b | 0 <= a < b < |r.0| ensures r.0[a] != r.0[b] {
            if a == 0 {
              assert r.0[b] == rest.0[b - 1];
              assert rest.0[b - 1] in rest.0;
            } else {
              assert r.0[a] == rest.0[a - 1] && r.0[b] == rest.0[b - 1];
            }
          }
        }
      } else {
        PadScanOnce(paths, i + 1, sizes, underRoot);
      }
    }
  }

  /**
   * The run is cut short exactly by a padded path outside `ROOT`, which is then the last
   * one padded; every path padded before it lies under `ROOT`.
   */
  lemma {:induction false} PadScanRaises(paths: seq<string>, i: nat, sizes: map<string, (nat, nat)>, underRoot: string -> bool)
    ensures var r := PadScan(paths, i, sizes, underRoot);
      && (r.2 ==> |r.0| > 0)
      && forall k :: 0 <= k < |r.0| ==> (underRoot(r.0[k]) <==> !(r.2 && k == |r.0| - 1))
    decreases |paths| - i
  {
    if i < |paths| {
      var p := paths[i];
      if p in sizes && sizes[p].0 != sizes[p].1 {
        var side := Side(sizes[p].0, sizes[p].1);
        var sizes' := sizes[p := (side, side)];
        if underRoot(p) {
          PadScanRaises(paths, i + 1, sizes', underRoot);
          var r := PadScan(paths, i, sizes, underRoot);
          var rest := PadScan(paths, i + 1, sizes', underRoot);
          assert r.0 == [p] + rest.0;
          forall k | 0 < k < |r.0| ensures r.0[k] == rest.0[k - 1] {
          }
        }
      } else {
        PadScanRaises(paths, i + 1, sizes, underRoot);
      }
    }
  }

  /**
   * Every path of the run whose file exists is square once the run is over, unless a
   * padded path outside `ROOT` cut it short.
   */
  lemma {:induction false} PadScanComplete(paths: seq<string>, i: nat, sizes: map<string, (nat, nat)>, underRoot: string -> bool)
    ensures var r := PadScan(paths, i, sizes, underRoot);
      && r.1.Keys == sizes.Keys
      && (!r.2 ==> forall j :: i <= j < |paths| && paths[j] in sizes ==> r.1[paths[j]].0 == r.1[paths[j]].1)
    decreases |paths| - i
  {
    if i < |paths| {
      var p := paths[i];
      if p in sizes && sizes[p].0 != sizes[p].1 {
        var side := Side(sizes[p].0, sizes[p].1);
        var sizes' := sizes[p := (side, side)];
        if underRoot(p) {
          PadScanComplete(paths, i + 1, sizes', underRoot);
          PadScanOnce(paths, i + 1, sizes', underRoot);
        }
      } else {
        PadScanComplete(paths, i + 1, sizes, underRoot);
        PadScanOnce(paths, i + 1, sizes, underRoot);
      }
    }
  }
}
