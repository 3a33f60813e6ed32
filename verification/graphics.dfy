/** The SVG graphics context (SvgGraphics.kt): it turns drawing calls into
    elements of an SVG document. Elements go to the root group, or into the
    pending link when one is open; shared definitions (the shadow filter,
    gradients, text-background filters and the stylesheet) go to defs; and
    every drawing call widens the bounds the document is sized by. */
module Graphics {
  import opened Strings
  import opened Dom
  import opened Css
  import opened Canvas

  const ShadowId: string := "shadowFilter"

  // ---------------------------------------------------------------------------
  // The kinds of node that go to defs

  predicate IsShadowFilter(n: Node)
  {
    n.Element? && n.tag == "filter" && HasId(n, ShadowId)
  }

  predicate IsBackColorFilter(n: Node)
  {
    n.Element? && n.tag == "filter" && !HasId(n, ShadowId)
  }

  predicate IsGradient(n: Node)
  {
    n.Element? && n.tag == "linearGradient"
  }

  /** The drop-shadow filter: a blur of the source, darkened, offset by four
      units and blended under the source. */
  function ShadowFilter(doubleText: real -> string, scale: real): (r: Node)
    ensures IsShadowFilter(r) && !IsBackColorFilter(r) && !IsGradient(r)
  {
    Element("filter",
      map["id" := ShadowId, "x" := "-1", "y" := "-1", "width" := "300%", "height" := "300%"], "",
      [ Leaf("feGaussianBlur", map["result" := "blurOut", "stdDeviation" := doubleText(2.0 * scale)]),
        Leaf("feColorMatrix", map["type" := "matrix", "in" := "blurOut", "result" := "blurOut2",
                                  "values" := "0 0 0 0 0 0 0 0 0 0 0 0 0 0 0 0 0 0 .4 0"]),
        Leaf("feOffset", map["result" := "blurOut3", "in" := "blurOut2",
                             "dx" := doubleText(4.0 * scale), "dy" := doubleText(4.0 * scale)]),
        Leaf("feBlend", map["in" := "SourceGraphic", "in2" := "blurOut3", "mode" := "normal"]) ])
  }

  /** The gradient axis for a policy character: '|' left to right, '\\'
      bottom-left to top-right, '-' top to bottom, anything else diagonal
      from the top-left corner. */
  function GradientAxis(policy: char): map<string, string>
  {
    if policy == '|' then map["x1" := "0%", "y1" := "50%", "x2" := "100%", "y2" := "50%"]
    else if policy == '\\' then map["x1" := "0%", "y1" := "100%", "x2" := "100%", "y2" := "0%"]
    else if policy == '-' then map["x1" := "50%", "y1" := "0%", "x2" := "50%", "y2" := "100%"]
    else map["x1" := "0%", "y1" := "0%", "x2" := "100%", "y2" := "100%"]
  }

  function GradientNode(color1: string, color2: string, policy: char, id: string): (r: Node)
    ensures IsGradient(r) && !IsShadowFilter(r) && !IsBackColorFilter(r) && HasId(r, id)
    ensures |r.children| == 2
  {
    Element("linearGradient", GradientAxis(policy)["id" := id], "",
      [ Leaf("stop", map["stop-color" := color1, "offset" := "0%"]),
        Leaf("stop", map["stop-color" := color2, "offset" := "100%"]) ])
  }

  /** The text-background filter: a flood of the colour composited under the text. */
  function BackColorFilter(color: string, id: string): (r: Node)
    ensures HasId(r, id) && !IsGradient(r)
    ensures id != ShadowId ==> IsBackColorFilter(r) && !IsShadowFilter(r)
  {
    Element("filter", map["id" := id, "x" := "0", "y" := "0", "width" := "1", "height" := "1"], "",
      [ Leaf("feFlood", map["flood-color" := color, "result" := "flood"]),
        Leaf("feComposite", map["in" := "SourceGraphic", "in2" := "flood", "operator" := "over"]) ])
  }

  datatype DefKind = ShadowKind | GradientKind | BackColorKind

  predicate IsKind(n: Node, kind: DefKind)
  {
    match kind
    case ShadowKind => IsShadowFilter(n)
    case GradientKind => IsGradient(n)
    case BackColorKind => IsBackColorFilter(n)
  }

  /** How many nodes of s are of the given kind. */
  function CountOf(s: seq<Node>, kind: DefKind): nat
  {
    if s == [] then 0
    else CountOf(s[..|s| - 1], kind) + (if IsKind(s[|s| - 1], kind) then 1 else 0)
  }

  /** Appending a node raises the count of its own kind by one and leaves
      the other counts alone. */
  lemma CountOfAppend(s: seq<Node>, e: Node)
    ensures forall kind :: CountOf(s + [e], kind) == CountOf(s, kind) + (if IsKind(e, kind) then 1 else 0)
  {
    assert (s + [e])[..|s|] == s;
  }

  /** defs after manageShadow(deltaShadow): the shadow filter is added on the
      first call with a non-zero delta, and never again. */
  function ShadowDefs(defs: seq<Node>, withShadow: bool, deltaShadow: real, shadow: Node): (r: seq<Node>)
    ensures |r| == |defs| + 1 <==> deltaShadow != 0.0 && !withShadow
    ensures |r| == |defs| + 1 ==> r[|defs|] == shadow
    ensures |defs| <= |r| && r[..|defs|] == defs
  {
    if deltaShadow != 0.0 && !withShadow then defs + [shadow] else defs
  }

  // ---------------------------------------------------------------------------
  // Id caches: a new key gets the prefix followed by the number of keys
  // already cached

  /** Every cached id is the prefix followed by a distinct position below the
      size of the cache. */
  ghost predicate CacheIds<K>(cache: map<K, string>, index: map<K, nat>, prefix: string)
  {
    && index.Keys == cache.Keys
    && (forall k :: k in index ==> index[k] < |cache| && cache[k] == prefix + Decimal(index[k]))
    && (forall k, l :: k in index && l in index && k != l ==> index[k] != index[l])
  }

  lemma CacheExtend<K>(cache: map<K, string>, index: map<K, nat>, prefix: string, key: K)
    requires CacheIds(cache, index, prefix) && key !in cache
    ensures CacheIds(cache[key := prefix + Decimal(|cache|)], index[key := |cache|], prefix)
  {
    var c, i := cache[key := prefix + Decimal(|cache|)], index[key := |cache|];
    assert |c| == |cache| + 1;
    forall k | k in i
      ensures i[k] < |c| && c[k] == prefix + Decimal(i[k])
    {
      if k != key {
        assert k in index && i[k] == index[k];
      }
    }
  }

  /** Two different keys never share an id. */
  lemma CachedIdsDistinct<K>(cache: map<K, string>, index: map<K, nat>, prefix: string, k: K, l: K)
    requires CacheIds(cache, index, prefix)
    requires k in cache && l in cache && k != l
    ensures cache[k] != cache[l]
  {
    SamePrefixNamesDiffer(prefix, index[k], index[l]);
  }

  // ---------------------------------------------------------------------------
  // Style attributes

  const ShadowUrl: string := "url(#" + ShadowId + ")"

  /** The stroke attribute set applyStrokeStyle interns under the prefix "l":
      stroke and width always, the dash pattern when there is one, the shadow
      filter exactly when the shadow delta is positive. */
  function StrokeAttributes(stroke: string, strokeWidth: string, dash: Option<string>, deltaShadow: real): (r: Declarations)
    ensures forall i, j :: 0 <= i < j < |r| ==> r[i].0 != r[j].0
  {
    var base := [("stroke", stroke), ("stroke-width", strokeWidth)];
    var dashed := if dash.Some? then base + [("stroke-dasharray", dash.value)] else base;
    if deltaShadow > 0.0 then dashed + [("filter", ShadowUrl)] else dashed
  }

  lemma StrokeAttributesShape(stroke: string, strokeWidth: string, dash: Option<string>, deltaShadow: real)
    ensures var r := StrokeAttributes(stroke, strokeWidth, dash, deltaShadow);
      && |r| == 2 + |OptionList(dash)| + (if deltaShadow > 0.0 then 1 else 0)
      && r[..2] == [("stroke", stroke), ("stroke-width", strokeWidth)]
      && (dash.Some? ==> r[2] == ("stroke-dasharray", dash.value))
      && (deltaShadow > 0.0 ==> r[|r| - 1] == ("filter", ShadowUrl))
      && (("filter", ShadowUrl) in r <==> deltaShadow > 0.0)
  {
    var r := StrokeAttributes(stroke, strokeWidth, dash, deltaShadow);
    assert r[0].0 == "stroke" && r[1].0 == "stroke-width";
    if dash.Some? {
      assert r[2].0 == "stroke-dasharray";
    }
    if ("filter", ShadowUrl) in r {
      var i :| 0 <= i < |r| && r[i] == ("filter", ShadowUrl);
      assert r[i].0 == "filter";
    }
  }

  function FillAttributes(fill: string): Declarations
  {
    [("fill", fill)]
  }

  /** "monospaced" in any letter case is rewritten to the CSS generic family
      "monospace"; every other family is kept. */
  function ResolvedFamily(family: string): (r: string)
    ensures !EqualsIgnoreCase(r, "monospaced")
    ensures r == family || EqualsIgnoreCase(family, "monospaced")
    ensures EqualsIgnoreCase(family, "monospaced") ==> IsFixedPitch(r)
    ensures EqualsIgnoreCase(family, "monospaced") ==> r == "monospace"
  {
    if EqualsIgnoreCase("monospaced", family) then "monospace" else family
  }

  predicate IsFixedPitch(family: string)
  {
    EqualsIgnoreCase(family, "monospace") || EqualsIgnoreCase(family, "courier")
  }

  const NoBreakSpace: char := 160 as char

  /** The text content: in a fixed-pitch family every space becomes a
      no-break space (U+00A0), so runs of spaces keep their width. */
  function TextContent(text: string, fontFamily: Option<string>): (r: string)
    ensures |r| == |text|
    ensures fontFamily.Some? && IsFixedPitch(ResolvedFamily(fontFamily.value)) ==> ' ' !in r
    ensures !(fontFamily.Some? && IsFixedPitch(ResolvedFamily(fontFamily.value))) ==> r == text
    ensures fontFamily.Some? && IsFixedPitch(ResolvedFamily(fontFamily.value)) ==>
      forall i :: 0 <= i < |text| && text[i] == ' ' ==> r[i] == NoBreakSpace
    ensures forall i :: 0 <= i < |text| && text[i] != ' ' ==> r[i] == text[i]
  {
    if fontFamily.Some? && IsFixedPitch(ResolvedFamily(fontFamily.value))
    then ReplaceChar(text, ' ', NoBreakSpace)
    else text
  }

  /** The text attribute set interned under the prefix "t", in insertion order. */
  function TextStyle(format: real -> string, fill: string, fontSize: int, fontWeight: Option<string>, fontStyle: Option<string>,
                     textDecoration: Option<string>, fontFamily: Option<string>): (r: Declarations)
    ensures forall i, j :: 0 <= i < j < |r| ==> r[i].0 != r[j].0
  {
    var s0 := [("fill", fill), ("font-size", format(fontSize as real))];
    var s1 := if fontWeight.Some? then s0 + [("font-weight", fontWeight.value)] else s0;
    var s2 := if fontStyle.Some? then s1 + [("font-style", fontStyle.value)] else s1;
    var s3 := if textDecoration.Some? then s2 + [("text-decoration", textDecoration.value)] else s2;
    if fontFamily.Some? then s3 + [("font-family", ResolvedFamily(fontFamily.value))] else s3
  }

  lemma TextStyleShape(format: real -> string, fill: string, fontSize: int, fontWeight: Option<string>, fontStyle: Option<string>,
                       textDecoration: Option<string>, fontFamily: Option<string>)
    ensures var r := TextStyle(format, fill, fontSize, fontWeight, fontStyle, textDecoration, fontFamily);
      && |r| == 2 + |OptionList(fontWeight)| + |OptionList(fontStyle)|
                  + |OptionList(textDecoration)| + |OptionList(fontFamily)|
      && r[..2] == [("fill", fill), ("font-size", format(fontSize as real))]
      && (fontFamily.Some? ==> r[|r| - 1] == ("font-family", ResolvedFamily(fontFamily.value)))
      && (fontFamily.None? ==> forall i :: 0 <= i < |r| ==> r[i].0 != "font-family")
  {
  }

  function OptionList(o: Option<string>): seq<string>
  {
    if o.Some? then [o.value] else []
  }

  // ---------------------------------------------------------------------------
  // Links

  /** A URL the javascript guard refuses: its lower-case form starts with "javascript". */
  predicate IsScriptUrl(url: string)
  {
    StartsWith(ToLowerAscii(url), "javascript")
  }

  /** The link title: the URL when no title is given, otherwise the title
      with every escaped "\n" turned into a line break. */
  function LinkTitle(url: string, title: Option<string>): (r: string)
    ensures title.None? ==> r == url
    ensures title.Some? ==> !HasEscapedNewline(r) && |r| <= |title.value|
    ensures title.Some? && !HasEscapedNewline(title.value) ==> r == title.value
    ensures title.Some? ==> r == UnescapeNewlines(title.value)
  {
    if title.None? then url
    else
      UnescapeNewlinesComplete(title.value);
      UnescapeNewlines(title.value)
  }

  function LinkElement(url: string, title: Option<string>, target: Option<string>): (r: Node)
    ensures r.Element? && r.tag == "a" && r.children == []
  {
    var t := LinkTitle(url, title);
    Leaf("a", (if target.Some? then map["target" := target.value] else map[])
      + map["href" := url, "xlink:href" := url, "xlink:type" := "simple",
            "xlink:actuate" := "onRequest", "xlink:show" := "new",
            "title" := t, "xlink:title" := t])
  }

  /** The new link points at the URL twice, carries the title twice, and has
      a target exactly when one is given. */
  lemma LinkElementShape(url: string, title: Option<string>, target: Option<string>)
    ensures var r := LinkElement(url, title, target);
      && "href" in r.attrs && "xlink:href" in r.attrs && "title" in r.attrs && "xlink:title" in r.attrs
      && r.attrs["href"] == url && r.attrs["xlink:href"] == url
      && r.attrs["title"] == LinkTitle(url, title) && r.attrs["xlink:title"] == LinkTitle(url, title)
      && ("target" in r.attrs <==> target.Some?)
  {
  }

  /** The root group after closeLink: the pending link is moved into it when
      it holds at least one child, and dropped otherwise. */
  function Flushed(gRoot: seq<Node>, pending: seq<Node>): (r: seq<Node>)
    ensures pending == [] ==> r == gRoot
    ensures pending != [] && pending[0].Element? && pending[0].children != [] ==> r == gRoot + [pending[0]]
    ensures pending != [] && pending[0].Element? && pending[0].children == [] ==> r == gRoot
  {
    if pending != [] && pending[0].Element? && pending[0].children != [] then gRoot + [pending[0]] else gRoot
  }

  // ---------------------------------------------------------------------------
  // Path data

  /** The kinds of UPath segment, with their coordinates. */
  datatype Segment =
    | SegMoveTo(x: real, y: real)
    | SegLineTo(x: real, y: real)
    | SegQuadTo(x1: real, y1: real, x2: real, y2: real)
    | SegCubicTo(x1: real, y1: real, x2: real, y2: real, x3: real, y3: real)
    | SegArcTo(rx: real, ry: real, rotation: real, largeArc: real, sweep: real, x: real, y: real)
    | SegClose

  /** "0" for zero and "1" for anything else. */
  function FormatBoolean(v: real): (r: string)
    ensures r == "0" <==> v == 0.0
    ensures r == "1" <==> v != 0.0
  {
    if v == 0.0 then "0" else "1"
  }

  /** The path-data text of one segment, its points moved by (x, y). The arc
      radii are not moved; the close segment contributes nothing. */
  function SegmentData(format: real -> string, seg: Segment, x: real, y: real): (r: string)
    ensures seg.SegClose? <==> r == ""
    ensures r != "" ==> r[|r| - 1] == ' '
    ensures seg.SegMoveTo? ==> r[0] == 'M'
    ensures seg.SegLineTo? ==> r[0] == 'L'
    ensures seg.SegQuadTo? ==> r[0] == 'Q'
    ensures seg.SegCubicTo? ==> r[0] == 'C'
    ensures seg.SegArcTo? ==> r[0] == 'A'
  {
    match seg
    case SegMoveTo(cx, cy) => "M" + Coord(format, cx + x, cy + y) + " "
    case SegLineTo(cx, cy) => "L" + Coord(format, cx + x, cy + y) + " "
    case SegQuadTo(x1, y1, x2, y2) => "Q" + Coord(format, x1 + x, y1 + y) + " " + Coord(format, x2 + x, y2 + y) + " "
    case SegCubicTo(x1, y1, x2, y2, x3, y3) =>
      "C" + Coord(format, x1 + x, y1 + y) + " " + Coord(format, x2 + x, y2 + y) + " "
      + Coord(format, x3 + x, y3 + y) + " "
    case SegArcTo(rx, ry, rotation, largeArc, sweep, ex, ey) =>
      "A" + Coord(format, rx, ry) + " " + FormatBoolean(rotation) + " " + FormatBoolean(largeArc) + " "
      + FormatBoolean(sweep) + " " + Coord(format, ex + x, ey + y) + " "
    case SegClose => ""
  }

  /** A point in path data: both coordinates rendered, separated by a comma. */
  function Coord(format: real -> string, x: real, y: real): string
  {
    format(x) + "," + format(y)
  }

  function PathData(format: real -> string, segs: seq<Segment>, x: real, y: real): (r: string)
    ensures r == "" <==> forall i :: 0 <= i < |segs| ==> segs[i].SegClose?
    ensures r != "" ==> r[|r| - 1] == ' '
  {
    if segs == [] then ""
    else PathData(format, segs[..|segs| - 1], x, y) + SegmentData(format, segs[|segs| - 1], x, y)
  }

  /** The points svgPath makes visible for one segment: each end or control
      point moved by (x, y) and by twice the shadow delta; for an arc, its end
      point moved further by the radii. */
  function SegmentPoints(seg: Segment, x: real, y: real, deltaShadow: real): seq<Point>
  {
    var d := 2.0 * deltaShadow;
    match seg
    case SegMoveTo(cx, cy) => [(cx + x + d, cy + y + d)]
    case SegLineTo(cx, cy) => [(cx + x + d, cy + y + d)]
    case SegQuadTo(x1, y1, x2, y2) => [(x1 + x + d, y1 + y + d), (x2 + x + d, y2 + y + d)]
    case SegCubicTo(x1, y1, x2, y2, x3, y3) =>
      [(x1 + x + d, y1 + y + d), (x2 + x + d, y2 + y + d), (x3 + x + d, y3 + y + d)]
    case SegArcTo(rx, ry, _, _, _, ex, ey) => [(ex + rx + x + d, ey + ry + y + d)]
    case SegClose => []
  }

  function PathPoints(segs: seq<Segment>, x: real, y: real, deltaShadow: real): seq<Point>
  {
    if segs == [] then []
    else PathPoints(segs[..|segs| - 1], x, y, deltaShadow) + SegmentPoints(segs[|segs| - 1], x, y, deltaShadow)
  }

  /** The text of the path buffer for fill: a StringBuilder that was never
      started renders as "null". */
  function PathText(currentPath: Option<string>): string
  {
    if currentPath.Some? then currentPath.value else "null"
  }

  // ---------------------------------------------------------------------------
  // Polygons

  /** The points attribute: the rendered coordinates, a comma before each one
      that follows a non-empty text. */
  function PointsText(format: real -> string, points: seq<real>): string
  {
    if points == [] then ""
    else
      var before := PointsText(format, points[..|points| - 1]);
      (if before != "" then before + "," else "") + format(points[|points| - 1])
  }

  function Rendered(format: real -> string, points: seq<real>): (r: seq<string>)
    ensures |r| == |points|
  {
    seq(|points|, i requires 0 <= i < |points| => format(points[i]))
  }

  /** When no coordinate renders empty, the points attribute is the rendered
      coordinates joined by commas. */
  lemma {:induction false} PointsTextIsJoin(format: real -> string, points: seq<real>)
    ensures (forall i :: 0 <= i < |points| ==> format(points[i]) != "") ==>
      PointsText(format, points) == Join(Rendered(format, points), ",")
    decreases |points|
  {
    if points != [] && forall i :: 0 <= i < |points| ==> format(points[i]) != "" {
      var init := points[..|points| - 1];
      assert forall i :: 0 <= i < |init| ==> format(init[i]) != "" by {
        forall i | 0 <= i < |init| ensures format(init[i]) != "" {
          assert init[i] == points[i];
        }
      }
      PointsTextIsJoin(format, init);
      assert Rendered(format, points)[..|points| - 1] == Rendered(format, init);
      if |points| == 1 {
        assert init == [];
      } else {
        assert PointsText(format, init) != "" by {
          PointsTextNonEmpty(format, init);
        }
      }
    }
  }

  lemma {:induction false} PointsTextNonEmpty(format: real -> string, points: seq<real>)
    requires points != [] && format(points[|points| - 1]) != ""
    ensures PointsText(format, points) != ""
  {
  }

  /** The pairs svgPolygon makes visible: (x, y) of each point, moved by twice
      the shadow delta. */
  function Pairs(points: seq<real>, deltaShadow: real): seq<Point>
    requires |points| % 2 == 0
  {
    if points == [] then []
    else
      Pairs(points[..|points| - 2], deltaShadow)
        + [(points[|points| - 2] + 2.0 * deltaShadow, points[|points| - 1] + 2.0 * deltaShadow)]
  }

  // ---------------------------------------------------------------------------
  // Where new elements go

  /** At most one link is pending, and it is an "a" element. */
  predicate LinkSlot(pending: seq<Node>)
  {
    |pending| <= 1 && forall n :: n in pending ==> n.Element? && n.tag == "a"
  }

  /** The group new elements go to: the root group when no link is pending,
      the pending link otherwise. */
  function Group(gRoot: seq<Node>, pending: seq<Node>): (r: Node)
    requires LinkSlot(pending)
    ensures r.Element?
  {
    if pending == [] then Element("g", map[], "", gRoot) else pending[0]
  }

  /** g.appendChild(e) on the root group and the link slot: with no link
      pending the element joins the root group; otherwise it joins the
      pending link and the root group is untouched. */
  predicate Appended(gRoot0: seq<Node>, pending0: seq<Node>, gRoot: seq<Node>, pending: seq<Node>, e: Node)
  {
    if pending0 == [] then pending == [] && gRoot == gRoot0 + [e]
    else pending0[0].Element? && pending == [WithChild(pending0[0], e)] && gRoot == gRoot0
  }

  /** After an append the link slot still holds at most one link, g is the
      old g with the element added last, and g is the root group exactly
      when it was before. */
  lemma AppendedGroup(gRoot0: seq<Node>, pending0: seq<Node>, gRoot: seq<Node>, pending: seq<Node>, e: Node)
    requires LinkSlot(pending0) && Appended(gRoot0, pending0, gRoot, pending, e)
    ensures LinkSlot(pending)
    ensures Group(gRoot, pending) == WithChild(Group(gRoot0, pending0), e)
    ensures (pending == []) == (pending0 == [])
  {
    if pending0 != [] {
      assert pending0[0] in pending0;
      assert pending[0] == WithChild(pending0[0], e);
    }
  }

  // ---------------------------------------------------------------------------
  // What defs holds

  /** defs holds one shadow filter once a shadow was drawn and none before,
      one gradient per cached gradient key and one background filter per
      cached colour. */
  predicate DefsValid(defs: seq<Node>, withShadow: bool, gradientCount: nat, backColorCount: nat)
  {
    && CountOf(defs, ShadowKind) == (if withShadow then 1 else 0)
    && CountOf(defs, GradientKind) == gradientCount
    && CountOf(defs, BackColorKind) == backColorCount
  }

  /** Appending a node to defs moves each count by what the node is; a
      second shadow filter is never appended. */
  lemma DefsAppend(defs: seq<Node>, withShadow: bool, gradientCount: nat, backColorCount: nat, e: Node)
    requires DefsValid(defs, withShadow, gradientCount, backColorCount)
    requires !(withShadow && IsShadowFilter(e))
    ensures DefsValid(defs + [e], withShadow || IsShadowFilter(e),
                      gradientCount + (if IsGradient(e) then 1 else 0),
                      backColorCount + (if IsBackColorFilter(e) then 1 else 0))
  {
    CountOfAppend(defs, e);
    assert IsKind(e, ShadowKind) == IsShadowFilter(e);
    assert IsKind(e, GradientKind) == IsGradient(e);
    assert IsKind(e, BackColorKind) == IsBackColorFilter(e);
  }

  /** manageShadow keeps defs in step: the shadow filter is added at most
      once, so defs never holds more than one. */
  lemma ShadowDefsValid(defs: seq<Node>, withShadow: bool, gradientCount: nat, backColorCount: nat,
                        deltaShadow: real, doubleText: real -> string, scale: real)
    requires DefsValid(defs, withShadow, gradientCount, backColorCount)
    ensures var after := ShadowDefs(defs, withShadow, deltaShadow, ShadowFilter(doubleText, scale));
      && DefsValid(after, withShadow || deltaShadow != 0.0, gradientCount, backColorCount)
      && CountOf(after, ShadowKind) <= 1
  {
    if deltaShadow != 0.0 && !withShadow {
      DefsAppend(defs, withShadow, gradientCount, backColorCount, ShadowFilter(doubleText, scale));
    }
  }

  /** A new gradient key keeps defs and the gradient cache in step, and its
      id differs from every id handed out before. */
  lemma GradientStep(defs: seq<Node>, withShadow: bool, backColorCount: nat,
                     gradients: map<GradientKey, string>, index: map<GradientKey, nat>, prefix: string,
                     key: GradientKey)
    requires DefsValid(defs, withShadow, |gradients|, backColorCount)
    requires CacheIds(gradients, index, prefix) && key !in gradients
    ensures var id := prefix + Decimal(|gradients|);
      && DefsValid(defs + [GradientNode(key.0, key.1, key.2, id)], withShadow, |gradients[key := id]|, backColorCount)
      && CacheIds(gradients[key := id], index[key := |gradients|], prefix)
      && forall k :: k in gradients ==> gradients[k] != id
  {
    var id := prefix + Decimal(|gradients|);
    CacheExtend(gradients, index, prefix, key);
    DefsAppend(defs, withShadow, |gradients|, backColorCount, GradientNode(key.0, key.1, key.2, id));
    forall k | k in gradients
      ensures gradients[k] != id
    {
      SamePrefixNamesDiffer(prefix, index[k], |gradients|);
    }
  }

  /** A new background colour keeps defs and the colour cache in step, and
      its id differs from every id handed out before. The ids start with
      'b', so a background filter is never taken for the shadow filter. */
  lemma BackColorStep(defs: seq<Node>, withShadow: bool, gradientCount: nat,
                      cache: map<string, string>, index: map<string, nat>, prefix: string, color: string)
    requires DefsValid(defs, withShadow, gradientCount, |cache|)
    requires CacheIds(cache, index, prefix) && color !in cache
    requires |prefix| > 0 && prefix[0] == 'b'
    ensures var id := prefix + Decimal(|cache|);
      && DefsValid(defs + [BackColorFilter(color, id)], withShadow, gradientCount, |cache[color := id]|)
      && CacheIds(cache[color := id], index[color := |cache|], prefix)
      && forall c :: c in cache ==> cache[c] != id
  {
    var id := prefix + Decimal(|cache|);
    assert id[0] == 'b';
    CacheExtend(cache, index, prefix, color);
    DefsAppend(defs, withShadow, gradientCount, |cache|, BackColorFilter(color, id));
    forall c | c in cache
      ensures cache[c] != id
    {
      SamePrefixNamesDiffer(prefix, index[c], |cache|);
    }
  }

  // ---------------------------------------------------------------------------
  // Class attributes

  /** The stroke attribute set, and the fill set when there is a fill, are
      interned. */
  predicate Styled(ids: map<map<string, string>, string>, strokeStyle: Declarations, fill: Option<string>)
  {
    && AsMap(strokeStyle) in ids
    && (fill.Some? ==> AsMap(FillAttributes(fill.value)) in ids)
  }

  /** The class attribute applyStrokeStyle sets: the stroke class, then the
      fill class after a space when there is a fill. */
  function ClassNames(ids: map<map<string, string>, string>, strokeStyle: Declarations, fill: Option<string>): string
    requires Styled(ids, strokeStyle, fill)
  {
    ids[AsMap(strokeStyle)] + (if fill.Some? then " " + ids[AsMap(FillAttributes(fill.value))] else "")
  }

  /** applyStrokeStyle on the interner's tables: the stroke set is added
      under "l", then the fill set under "b" when there is a fill. Both sets
      end up interned and the class attribute names them in that order. */
  function StrokeStyle(t: StyleTables, strokeStyle: Declarations, fill: Option<string>): (r: (StyleTables, string))
    ensures Styled(r.0.ids, strokeStyle, fill) && r.1 == ClassNames(r.0.ids, strokeStyle, fill)
  {
    var strokeAdded := Added(t, "l", strokeStyle);
    if fill.None? then strokeAdded
    else
      var fillAdded := Added(strokeAdded.0, "b", FillAttributes(fill.value));
      (fillAdded.0, strokeAdded.1 + (" " + fillAdded.1))
  }

  /** Styling a second shape like the first adds no rule and gives it the
      same class attribute. */
  lemma StrokeStyleIdempotent(t: StyleTables, strokeStyle: Declarations, fill: Option<string>)
    ensures var r := StrokeStyle(t, strokeStyle, fill);
      StrokeStyle(r.0, strokeStyle, fill) == r
  {
    var strokeAdded := Added(t, "l", strokeStyle);
    AddedIdempotent(t, "l", "l", strokeStyle);
    if fill.Some? {
      var fillAdded := Added(strokeAdded.0, "b", FillAttributes(fill.value));
      AddedIdempotent(strokeAdded.0, "b", "b", FillAttributes(fill.value));
      assert Added(fillAdded.0, "l", strokeStyle) == (fillAdded.0, strokeAdded.1);
    }
  }

  /** The context's interner: empty, with the hover rule for paths
      registered when a hover colour is given. */
  method NewStyleBuilder(hover: Option<string>) returns (b: CssBuilder)
    ensures fresh(b) && b.Valid()
    ensures b.attributesToId == map[] && b.counter == map[]
    ensures b.styleNameToAttributes
      == if hover.Some? then map["path:hover" := [("stroke", hover.value + " !important")]] else map[]
  {
    b := new CssBuilder();
    if hover.Some? {
      b.AddNamed("path:hover", [("stroke", hover.value + " !important")]);
    }
  }

  /** The only prefixes the context interns under: "l" for strokes, "b"
      for fills and "t" for texts. */
  predicate ContextPrefixes(counter: map<string, nat>)
  {
    forall p :: p in counter ==> p == "l" || p == "b" || p == "t"
  }

  /** None of the context's prefixes holds a digit, so two different
      attribute sets it interns never share a class name. */
  lemma ContextClassesDistinct(b: CssBuilder, x: map<string, string>, y: map<string, string>)
    requires b.Valid() && ContextPrefixes(b.counter)
    requires x in b.attributesToId && y in b.attributesToId && x != y
    ensures b.attributesToId[x] != b.attributesToId[y]
  {
    forall p | p in b.counter
      ensures DigitFree(p)
    {
      assert p == "l" || p == "b" || p == "t";
      assert |p| == 1 && !IsDecimalDigit(p[0]);
    }
    ClassesDistinct(b, x, y);
  }

  /** The state change of a shape call that draws: applyStrokeStyle on the
      tables, then the element, with its class attribute, appended to g. */
  ghost predicate ShapeDrawn(t0: StyleTables, gRoot0: seq<Node>, pending0: seq<Node>,
                             t: StyleTables, gRoot: seq<Node>, pending: seq<Node>,
                             strokeStyle: Declarations, fill: Option<string>, tag: string, attrs: map<string, string>)
  {
    var r := StrokeStyle(t0, strokeStyle, fill);
    t == r.0 && Appended(gRoot0, pending0, gRoot, pending, Leaf(tag, attrs["class" := r.1]))
  }

  /** A stroke attribute set is never the same set as a fill attribute set. */
  lemma StrokeIsNotFill(stroke: string, strokeWidth: string, dash: Option<string>, deltaShadow: real, fill: string)
    ensures AsMap(StrokeAttributes(stroke, strokeWidth, dash, deltaShadow)) != AsMap(FillAttributes(fill))
  {
    var s := StrokeAttributes(stroke, strokeWidth, dash, deltaShadow);
    AsMapKeys(s);
    assert s[0].0 == "stroke";
    AsMapKeys(FillAttributes(fill));
    assert "stroke" !in AsMap(FillAttributes(fill));
  }

  /** The state change of a text call that draws: the style set is added
      under "t", then the text element, with that class, appended to g. */
  ghost predicate TextDrawn(t0: StyleTables, gRoot0: seq<Node>, pending0: seq<Node>,
                            t: StyleTables, gRoot: seq<Node>, pending: seq<Node>,
                            style: Declarations, base: map<string, string>, extra: Declarations, content: string)
  {
    var r := Added(t0, "t", style);
    t == r.0 && Appended(gRoot0, pending0, gRoot, pending, TextNode(base, extra, r.1, content))
  }

  // ---------------------------------------------------------------------------
  // The elements the drawing calls create (without their class attribute)

  function EllipseAttributes(format: real -> string, x: real, y: real, xRadius: real, yRadius: real): map<string, string>
  {
    map["cx" := format(x), "cy" := format(y), "rx" := format(xRadius), "ry" := format(yRadius)]
  }

  /** The path data of svgArcEllipse: a move to the start and one arc to the
      end, with the rotation and both flags at zero. */
  function ArcData(format: real -> string, rx: real, ry: real, x1: real, y1: real, x2: real, y2: real): string
  {
    "M" + format(x1) + "," + format(y1) + " A" + format(rx) + "," + format(ry) + " 0 0 0 "
    + format(x2) + " " + format(y2)
  }

  /** The attributes of a rectangle: its corners are rounded only when both
      radii are positive, and the id is set only when one is given. */
  function RectAttributes(format: real -> string, x: real, y: real, width: real, height: real,
                          rx: real, ry: real, id: Option<string>): map<string, string>
  {
    var m := map["x" := format(x), "y" := format(y), "width" := format(width), "height" := format(height)];
    var rounded := if rx > 0.0 && ry > 0.0 then m["rx" := format(rx)]["ry" := format(ry)] else m;
    if id.Some? then rounded["id" := id.value] else rounded
  }

  lemma RectAttributesShape(format: real -> string, x: real, y: real, width: real, height: real,
                            rx: real, ry: real, id: Option<string>)
    ensures var r := RectAttributes(format, x, y, width, height, rx, ry, id);
      && ("rx" in r <==> rx > 0.0 && ry > 0.0)
      && ("ry" in r <==> rx > 0.0 && ry > 0.0)
      && ("id" in r <==> id.Some?)
      && (id.Some? ==> r["id"] == id.value)
      && "class" !in r
  {
  }

  function LineAttributes(format: real -> string, x1: real, y1: real, x2: real, y2: real): map<string, string>
  {
    map["x1" := format(x1), "y1" := format(y1), "x2" := format(x2), "y2" := format(y2)]
  }

  /** The attributes of svgPath's element: the data, and the path's comment
      as id when it has one. */
  function PathAttributes(data: string, comment: Option<string>): map<string, string>
  {
    var m := map["d" := data];
    if comment.Some? then m["id" := comment.value] else m
  }

  /** The fixed attributes of a text element, and the background filter
      reference when there is one. */
  function TextBase(format: real -> string, x: real, y: real, textLength: real, filterId: Option<string>): map<string, string>
  {
    var m := map["x" := format(x), "y" := format(y), "lengthAdjust" := "spacingAndGlyphs",
                 "textLength" := format(textLength)];
    if filterId.Some? then m["filter" := "url(#" + filterId.value + ")"] else m
  }

  lemma TextBaseShape(format: real -> string, x: real, y: real, textLength: real, filterId: Option<string>)
    ensures var r := TextBase(format, x, y, textLength, filterId);
      && ("filter" in r <==> filterId.Some?)
      && (filterId.Some? ==> r["filter"] == "url(#" + filterId.value + ")")
      && "lengthAdjust" in r && r["lengthAdjust"] == "spacingAndGlyphs"
  {
  }

  /** The id of the background filter of an optional colour. */
  function FilterId(cache: map<string, string>, color: Option<string>): (r: Option<string>)
    requires color.Some? ==> color.value in cache
    ensures r.Some? <==> color.Some?
  {
    if color.Some? then Some(cache[color.value]) else None
  }

  /** The text element: fixed attributes, the caller's extra attributes over
      them, and the class set last. */
  function TextNode(base: map<string, string>, extra: Declarations, className: string, content: string): Node
  {
    Element("text", (base + AsMap(extra))["class" := className], content, [])
  }

  /** The view box: the bounds scaled and truncated to Int. */
  function ViewBox(maxX: int, maxY: int, scale: real): string
  {
    "0 0 " + IntText(DoubleToInt(maxX as real * scale)) + " " + IntText(DoubleToInt(maxY as real * scale))
  }

  /** The root svg element after the serialisation step sets its
      attributes, in the order it sets them: the size and style when
      svgDimensionStyle is set, the view box, the zoom mode, the aspect
      ratio when one is given, and the script and style types. */
  function DocumentAttributes(root: map<string, string>, format: real -> string, svgDimensionStyle: bool,
                              maxX: int, maxY: int, scale: real, backcolor: Option<string>,
                              preserveAspectRatio: Option<string>): map<string, string>
  {
    var sized := if svgDimensionStyle
                 then root["style" := DimensionStyle(maxX, maxY, scale, backcolor)]
                          ["width" := format(maxX as real) + "px"]["height" := format(maxY as real) + "px"]
                 else root;
    var viewed := sized["viewBox" := ViewBox(maxX, maxY, scale)]["zoomAndPan" := "magnify"];
    var aspect := if preserveAspectRatio.Some? then viewed["preserveAspectRatio" := preserveAspectRatio.value]
                  else viewed;
    aspect["contentScriptType" := "application/ecmascript"]["contentStyleType" := "text/css"]
  }

  /** The style attribute: the scaled size in pixels, then the background
      colour when there is one. */
  function DimensionStyle(maxX: int, maxY: int, scale: real, backcolor: Option<string>): string
  {
    "width:" + IntText(DoubleToInt(maxX as real * scale)) + "px;height:"
    + IntText(DoubleToInt(maxY as real * scale)) + "px;"
    + (if backcolor.Some? then "background:" + backcolor.value + ";" else "")
  }

  /** The view box is the scaled bounds; the size and style are set exactly
      when svgDimensionStyle is, the aspect ratio exactly when one is given;
      every other attribute of the root is kept. */
  lemma DocumentAttributesShape(root: map<string, string>, format: real -> string, svgDimensionStyle: bool,
                                maxX: int, maxY: int, scale: real, backcolor: Option<string>,
                                preserveAspectRatio: Option<string>)
    ensures var r := DocumentAttributes(root, format, svgDimensionStyle, maxX, maxY, scale, backcolor,
                                        preserveAspectRatio);
      && "viewBox" in r && r["viewBox"] == ViewBox(maxX, maxY, scale)
      && "zoomAndPan" in r && r["zoomAndPan"] == "magnify"
      && "contentScriptType" in r && r["contentScriptType"] == "application/ecmascript"
      && "contentStyleType" in r && r["contentStyleType"] == "text/css"
      && (svgDimensionStyle ==>
            && "style" in r && r["style"] == DimensionStyle(maxX, maxY, scale, backcolor)
            && "width" in r && r["width"] == format(maxX as real) + "px"
            && "height" in r && r["height"] == format(maxY as real) + "px")
      && (!svgDimensionStyle ==> forall k :: k in ["style", "width", "height"] ==>
            (k in r <==> k in root) && (k in root ==> r[k] == root[k]))
      && (preserveAspectRatio.Some? ==>
            "preserveAspectRatio" in r && r["preserveAspectRatio"] == preserveAspectRatio.value)
      && (preserveAspectRatio.None? ==>
            ("preserveAspectRatio" in r <==> "preserveAspectRatio" in root)
            && ("preserveAspectRatio" in root ==> r["preserveAspectRatio"] == root["preserveAspectRatio"]))
      && forall k :: k in root && k !in DocumentKeys ==> k in r && r[k] == root[k]
  {
  }

  /** The attributes the serialisation step may set on the root. */
  const DocumentKeys: set<string> := {"style", "width", "height", "viewBox", "zoomAndPan", "preserveAspectRatio",
                                      "contentScriptType", "contentStyleType"}

  /** At scale 1 the view box is the bounds themselves. */
  lemma ViewBoxAtUnitScale(maxX: int, maxY: int)
    requires ValidBounds(Bounds(maxX, maxY))
    ensures ViewBox(maxX, maxY, 1.0) == "0 0 " + IntText(maxX) + " " + IntText(maxY)
  {
    DoubleToIntOfInt(maxX);
    DoubleToIntOfInt(maxY);
    assert DoubleToInt(maxX as real * 1.0) == maxX by {
      assert maxX as real * 1.0 == maxX as real;
    }
    assert DoubleToInt(maxY as real * 1.0) == maxY by {
      assert maxY as real * 1.0 == maxY as real;
    }
  }

  /** The comment addComment appends: the signature, then the comment. */
  function SignedComment(comment: string, signature: string): string
  {
    "MD5=[" + signature + "]\n" + comment
  }

  // Seeing the points of one segment, one ensureVisible call at a time.

  lemma SeeOne(b: Bounds, p: Point)
    ensures SeeAll(b, [p]) == See(b, p)
  {
    assert [p][1..] == [];
  }

  lemma SeeTwo(b: Bounds, p: Point, q: Point)
    ensures SeeAll(b, [p, q]) == See(See(b, p), q)
  {
    assert [p, q][1..] == [q];
    SeeOne(See(b, p), q);
  }

  lemma SeeThree(b: Bounds, p: Point, q: Point, r: Point)
    ensures SeeAll(b, [p, q, r]) == See(See(See(b, p), q), r)
  {
    assert [p, q, r][1..] == [q, r];
    SeeTwo(See(b, p), q, r);
  }

  /** One more segment extends both the path data and the points seen. */
  lemma PathStep(format: real -> string, path: seq<Segment>, i: nat, x: real, y: real, deltaShadow: real)
    requires i < |path|
    ensures PathData(format, path[..i + 1], x, y) == PathData(format, path[..i], x, y) + SegmentData(format, path[i], x, y)
    ensures PathPoints(path[..i + 1], x, y, deltaShadow)
      == PathPoints(path[..i], x, y, deltaShadow) + SegmentPoints(path[i], x, y, deltaShadow)
  {
    assert path[..i + 1][..i] == path[..i];
  }

  /** One more coordinate pair extends the points svgPolygon sees. */
  lemma PairsStep(points: seq<real>, i: nat, deltaShadow: real)
    requires i % 2 == 0 && i + 2 <= |points|
    ensures Pairs(points[..i + 2], deltaShadow)
      == Pairs(points[..i], deltaShadow) + [(points[i] + 2.0 * deltaShadow, points[i + 1] + 2.0 * deltaShadow)]
  {
    assert points[..i + 2][..i] == points[..i];
  }

  /** The background-colour cache and defs after getFilterBackColor(color):
      unchanged when the colour is known, otherwise extended with the next id
      and one new filter. */
  predicate BackColorRegistered(cache0: map<string, string>, index0: map<string, nat>, defs0: seq<Node>,
                                cache: map<string, string>, index: map<string, nat>, defs: seq<Node>,
                                prefix: string, color: string)
  {
    && color in cache
    && (color in cache0 ==> cache == cache0 && index == index0 && defs == defs0)
    && (color !in cache0 ==>
          && cache == cache0[color := prefix + Decimal(|cache0|)]
          && index == index0[color := |cache0|]
          && defs == defs0 + [BackColorFilter(color, cache[color])])
  }

  /** getFilterBackColor keeps defs and the colour cache in step. */
  lemma BackColorRegisteredInStep(cache0: map<string, string>, index0: map<string, nat>, defs0: seq<Node>,
                                  cache: map<string, string>, index: map<string, nat>, defs: seq<Node>,
                                  prefix: string, color: string, withShadow: bool, gradientCount: nat)
    requires DefsValid(defs0, withShadow, gradientCount, |cache0|) && CacheIds(cache0, index0, prefix)
    requires |prefix| > 0 && prefix[0] == 'b'
    requires BackColorRegistered(cache0, index0, defs0, cache, index, defs, prefix, color)
    ensures DefsValid(defs, withShadow, gradientCount, |cache|) && CacheIds(cache, index, prefix)
  {
    if color !in cache0 {
      BackColorStep(defs0, withShadow, gradientCount, cache0, index0, prefix, color);
    }
  }

  /** defs in step with the shadow flag and both caches, both caches
      handing out their prefix followed by a fresh position, and background
      filter ids starting with "b" (so never the shadow's id). */
  ghost predicate InStep(defs: seq<Node>, withShadow: bool,
                         gradients: map<GradientKey, string>, gradientIndex: map<GradientKey, nat>, gradientId: string,
                         cache: map<string, string>, cacheIndex: map<string, nat>, filterUid: string)
  {
    && DefsValid(defs, withShadow, |gradients|, |cache|)
    && CacheIds(gradients, gradientIndex, gradientId)
    && CacheIds(cache, cacheIndex, filterUid)
    && |filterUid| > 0 && filterUid[0] == 'b'
  }

  lemma InStepShadow(defs: seq<Node>, withShadow: bool,
                     gradients: map<GradientKey, string>, gradientIndex: map<GradientKey, nat>, gradientId: string,
                     cache: map<string, string>, cacheIndex: map<string, nat>, filterUid: string,
                     deltaShadow: real, doubleText: real -> string, scale: real)
    requires InStep(defs, withShadow, gradients, gradientIndex, gradientId, cache, cacheIndex, filterUid)
    ensures InStep(ShadowDefs(defs, withShadow, deltaShadow, ShadowFilter(doubleText, scale)), withShadow || deltaShadow != 0.0,
                   gradients, gradientIndex, gradientId, cache, cacheIndex, filterUid)
  {
    ShadowDefsValid(defs, withShadow, |gradients|, |cache|, deltaShadow, doubleText, scale);
  }

  lemma InStepGradient(defs: seq<Node>, withShadow: bool,
                       gradients: map<GradientKey, string>, gradientIndex: map<GradientKey, nat>, gradientId: string,
                       cache: map<string, string>, cacheIndex: map<string, nat>, filterUid: string, key: GradientKey)
    requires InStep(defs, withShadow, gradients, gradientIndex, gradientId, cache, cacheIndex, filterUid)
    requires key !in gradients
    ensures var id := gradientId + Decimal(|gradients|);
      InStep(defs + [GradientNode(key.0, key.1, key.2, id)], withShadow,
             gradients[key := id], gradientIndex[key := |gradients|], gradientId, cache, cacheIndex, filterUid)
  {
    GradientStep(defs, withShadow, |cache|, gradients, gradientIndex, gradientId, key);
  }

  lemma InStepBackColor(defs0: seq<Node>, withShadow: bool,
                        gradients: map<GradientKey, string>, gradientIndex: map<GradientKey, nat>, gradientId: string,
                        cache0: map<string, string>, index0: map<string, nat>, filterUid: string,
                        defs: seq<Node>, cache: map<string, string>, index: map<string, nat>, color: string)
    requires InStep(defs0, withShadow, gradients, gradientIndex, gradientId, cache0, index0, filterUid)
    requires BackColorRegistered(cache0, index0, defs0, cache, index, defs, filterUid, color)
    ensures InStep(defs, withShadow, gradients, gradientIndex, gradientId, cache, index, filterUid)
  {
    BackColorRegisteredInStep(cache0, index0, defs0, cache, index, defs, filterUid, color, withShadow, |gradients|);
  }

  /** A node of none of the three kinds, such as the style element, leaves
      every count alone. */
  lemma InStepOther(defs: seq<Node>, withShadow: bool,
                    gradients: map<GradientKey, string>, gradientIndex: map<GradientKey, nat>, gradientId: string,
                    cache: map<string, string>, cacheIndex: map<string, nat>, filterUid: string, e: Node)
    requires InStep(defs, withShadow, gradients, gradientIndex, gradientId, cache, cacheIndex, filterUid)
    requires !IsShadowFilter(e) && !IsGradient(e) && !IsBackColorFilter(e)
    ensures InStep(defs + [e], withShadow, gradients, gradientIndex, gradientId, cache, cacheIndex, filterUid)
  {
    DefsAppend(defs, withShadow, |gradients|, |cache|, e);
  }

  /** Setting the attributes of a list one after the other, on top of a base. */
  method SetAttributes(base: map<string, string>, extra: Declarations) returns (attrs: map<string, string>)
    ensures attrs == base + AsMap(extra)
  {
    attrs := base;
    var i := 0;
    while i < |extra|
      invariant 0 <= i <= |extra|
      invariant attrs == base + AsMap(extra[..i])
    {
      var (key, value) := extra[i];
      assert extra[..i + 1] == extra[..i] + [(key, value)];
      AsMapSnoc(extra[..i], key, value);
      attrs := attrs[key := value];
      i := i + 1;
    }
    assert extra[..|extra|] == extra;
  }

  // ---------------------------------------------------------------------------
  // The graphics context

  type GradientKey = (string, string, char)

  class SvgGraphics {
    const svgDimensionStyle: bool
    const backcolor: Option<string>
    const scale: real
    const preserveAspectRatio: Option<string>
    /** format(x): the decimal rendering of x * scale (TikzGraphics.format is not part of this model) */
    const format: real -> string
    /** Kotlin's rendering of a Double in a string template */
    const doubleText: real -> string
    /** the process-wide OptionFlags.ALLOW_INCLUDE */
    const allowInclude: bool
    /** getMD5Hex: the signature of a comment (SignatureUtils is not part of this model) */
    const md5Hex: string -> string
    const filterUid: string
    const gradientId: string
    const styleBuilder: CssBuilder
    /** the drop-shadow filter manageShadow adds, made from the scale */
    const shadow: Node

    /** the attributes of the root svg element */
    var rootAttrs: map<string, string>
    /** the children of the defs element */
    var defs: seq<Node>
    /** the children of the root group */
    var gRoot: seq<Node>
    var fill: string
    var stroke: string
    var strokeWidth: string
    var strokeDasharray: Option<string>
    var maxX: int
    var maxY: int
    var pendingAction: seq<Node>
    var gradients: map<GradientKey, string>
    ghost var gradientIndex: map<GradientKey, nat>
    var filterBackColor: map<string, string>
    ghost var filterIndex: map<string, nat>
    var withShadow: bool
    var hidden: bool
    /** the path buffer: None when no path was started */
    var currentPath: Option<string>

    /** What every drawing call keeps: the style interner's invariant with
        only the context's own prefixes, valid bounds, and at most one
        pending link. */
    ghost predicate Valid()
      reads this, styleBuilder
    {
      && styleBuilder.Valid()
      && ContextPrefixes(styleBuilder.counter)
      && ValidBounds(Bounds(maxX, maxY))
      && LinkSlot(pendingAction)
    }

    /** g: the root group when no link is pending, the pending link otherwise. */
    function G(): (r: Node)
      reads this`gRoot, this`pendingAction
      requires LinkSlot(pendingAction)
      ensures r.Element?
      ensures r.tag == "g" <==> pendingAction == []
      ensures pendingAction == [] ==> r.children == gRoot
      ensures pendingAction != [] ==> r == pendingAction[0]
    {
      Group(gRoot, pendingAction)
    }

    constructor (svgDimensionStyle: bool, minWidth: real, minHeight: real, backcolor: Option<string>,
                 scale: real, hover: Option<string>, seed: Long, preserveAspectRatio: Option<string>,
                 format: real -> string, doubleText: real -> string, allowInclude: bool,
                 md5Hex: string -> string)
      ensures Valid()
      ensures InStep(defs, withShadow, gradients, gradientIndex, gradientId, filterBackColor, filterIndex, filterUid)
      ensures fresh(styleBuilder)
      ensures shadow == ShadowFilter(doubleText, scale)
      ensures Bounds(maxX, maxY) == See(Bounds(10, 10), (minWidth, minHeight))
      ensures filterUid == "b" + SeedText(seed) && gradientId == "g" + SeedText(seed)
      ensures rootAttrs == map["xmlns" := "http://www.w3.org/2000/svg",
                               "xmlns:xlink" := "http://www.w3.org/1999/xlink", "version" := "1.1"]
      ensures defs == [] && gRoot == [] && pendingAction == []
      ensures fill == "black" && stroke == "black" && strokeWidth == doubleText(scale) && strokeDasharray == None
      ensures gradients == map[] && filterBackColor == map[] && !withShadow && !hidden && currentPath == None
      ensures styleBuilder.attributesToId == map[] && styleBuilder.counter == map[]
      ensures styleBuilder.styleNameToAttributes
        == if hover.Some? then map["path:hover" := [("stroke", hover.value + " !important")]] else map[]
      ensures this.svgDimensionStyle == svgDimensionStyle && this.backcolor == backcolor && this.scale == scale
      ensures this.preserveAspectRatio == preserveAspectRatio && this.format == format
      ensures this.doubleText == doubleText && this.allowInclude == allowInclude && this.md5Hex == md5Hex
    {
      this.svgDimensionStyle := svgDimensionStyle;
      this.backcolor := backcolor;
      this.scale := scale;
      this.preserveAspectRatio := preserveAspectRatio;
      this.format := format;
      this.doubleText := doubleText;
      this.allowInclude := allowInclude;
      this.md5Hex := md5Hex;
      shadow := ShadowFilter(doubleText, scale);
      // ensureVisible(minWidth, minHeight) on the initial 10 x 10 bounds
      SeeCovers(Bounds(10, 10), (minWidth, minHeight));
      maxX := Grow(10, minWidth);
      maxY := Grow(10, minHeight);
      rootAttrs := map["xmlns" := "http://www.w3.org/2000/svg",
                       "xmlns:xlink" := "http://www.w3.org/1999/xlink", "version" := "1.1"];
      defs := [];
      gRoot := [];
      fill := "black";
      stroke := "black";
      strokeWidth := doubleText(scale);
      strokeDasharray := None;
      filterUid := "b" + SeedText(seed);
      gradientId := "g" + SeedText(seed);
      pendingAction := [];
      gradients := map[];
      gradientIndex := map[];
      filterBackColor := map[];
      filterIndex := map[];
      withShadow := false;
      hidden := false;
      currentPath := None;
      var builder := NewStyleBuilder(hover);
      styleBuilder := builder;
      new;
      // the empty defs and caches are in step
      assert DefsValid(defs, withShadow, |gradients|, |filterBackColor|);
      assert CacheIds(gradients, gradientIndex, gradientId) && CacheIds(filterBackColor, filterIndex, filterUid);
      assert filterUid[0] == 'b';
    }

    /** Widens the bounds so that (x, y) lies inside them. */
    method EnsureVisible(x: real, y: real)
      requires ValidBounds(Bounds(maxX, maxY))
      modifies this`maxX, this`maxY
      ensures ValidBounds(Bounds(maxX, maxY))
      ensures Bounds(maxX, maxY) == See(old(Bounds(maxX, maxY)), (x, y))
    {
      SeeCovers(Bounds(maxX, maxY), (x, y));
      if x > maxX as real {
        maxX := DoubleToInt(x + 1.0);
      }
      if y > maxY as real {
        maxY := DoubleToInt(y + 1.0);
      }
    }

    /** Adds the shadow filter to defs on the first call with a non-zero
        delta; a zero delta changes nothing. */
    method ManageShadow(deltaShadow: real)
      modifies this`defs, this`withShadow
      ensures withShadow == (old(withShadow) || deltaShadow != 0.0)
      ensures defs == ShadowDefs(old(defs), old(withShadow), deltaShadow, shadow)
    {
      if deltaShadow == 0.0 {
        return;
      }
      if !withShadow {
        defs := defs + [shadow];
      }
      withShadow := true;
    }

    /** The id of the gradient for two colours and a policy, created in defs
        the first time the triple is asked for. */
    method CreateSvgGradient(color1: string, color2: string, policy: char) returns (id: string)
      modifies this`gradients, this`gradientIndex, this`defs
      ensures (color1, color2, policy) in gradients && gradients[(color1, color2, policy)] == id
      ensures (color1, color2, policy) in old(gradients) ==>
        && id == old(gradients[(color1, color2, policy)])
        && gradients == old(gradients) && gradientIndex == old(gradientIndex) && defs == old(defs)
      ensures (color1, color2, policy) !in old(gradients) ==>
        && id == gradientId + Decimal(|old(gradients)|)
        && gradients == old(gradients)[(color1, color2, policy) := id]
        && gradientIndex == old(gradientIndex)[(color1, color2, policy) := |old(gradients)|]
        && defs == old(defs) + [GradientNode(color1, color2, policy, id)]
    {
      var key := (color1, color2, policy);
      if key in gradients {
        return gradients[key];
      }
      id := gradientId + Decimal(|gradients|);
      gradientIndex := gradientIndex[key := |gradients|];
      gradients := gradients[key := id];
      defs := defs + [GradientNode(color1, color2, policy, id)];
    }

    /** The id for a text-background colour, registered in the cache when new. */
    method GetIdFilterBackColor(color: string) returns (id: string)
      modifies this`filterBackColor, this`filterIndex
      ensures color in filterBackColor && filterBackColor[color] == id
      ensures color in old(filterBackColor) ==>
        id == old(filterBackColor[color]) && filterBackColor == old(filterBackColor) && filterIndex == old(filterIndex)
      ensures color !in old(filterBackColor) ==>
        && id == filterUid + Decimal(|old(filterBackColor)|)
        && filterBackColor == old(filterBackColor)[color := id]
        && filterIndex == old(filterIndex)[color := |old(filterBackColor)|]
    {
      if color in filterBackColor {
        return filterBackColor[color];
      }
      id := filterUid + Decimal(|filterBackColor|);
      filterIndex := filterIndex[color := |filterBackColor|];
      filterBackColor := filterBackColor[color := id];
    }

    /** The id of the background filter for a colour, created in defs the
        first time the colour is asked for. */
    method GetFilterBackColor(color: string) returns (id: string)
      modifies this`filterBackColor, this`filterIndex, this`defs
      ensures BackColorRegistered(old(filterBackColor), old(filterIndex), old(defs),
                                  filterBackColor, filterIndex, defs, filterUid, color)
      ensures id == filterBackColor[color]
    {
      if color in filterBackColor {
        return filterBackColor[color];
      }
      id := GetIdFilterBackColor(color);
      defs := defs + [BackColorFilter(color, id)];
    }

    method SetFillColor(fill: Option<string>)
      modifies this`fill
      ensures this.fill == if fill.Some? then fill.value else "none"
    {
      this.fill := if fill.Some? then fill.value else "none";
    }

    method SetStrokeColor(stroke: Option<string>)
      modifies this`stroke
      ensures this.stroke == if stroke.Some? then stroke.value else "none"
    {
      this.stroke := if stroke.Some? then stroke.value else "none";
    }

    method SetStrokeWidth(strokeWidth: real, strokeDasharray: Option<string>)
      modifies this`strokeWidth, this`strokeDasharray
      ensures this.strokeWidth == doubleText(scale * strokeWidth)
      ensures this.strokeDasharray == strokeDasharray
    {
      this.strokeWidth := doubleText(scale * strokeWidth);
      this.strokeDasharray := strokeDasharray;
    }

    method SetHidden(hidden: bool)
      modifies this`hidden
      ensures this.hidden == hidden
    {
      this.hidden := hidden;
    }

    /** g.appendChild(e). */
    method AppendToG(e: Node)
      requires LinkSlot(pendingAction)
      modifies this`gRoot, this`pendingAction
      ensures LinkSlot(pendingAction)
      ensures Appended(old(gRoot), old(pendingAction), gRoot, pendingAction, e)
    {
      if pendingAction == [] {
        gRoot := gRoot + [e];
      } else {
        pendingAction := [WithChild(pendingAction[0], e)];
      }
    }

    /** Closes the pending link, if any: it goes to the root group when it has
        children and is dropped when it has none. */
    method CloseLink()
      requires LinkSlot(pendingAction)
      modifies this`pendingAction, this`gRoot
      ensures pendingAction == []
      ensures gRoot == Flushed(old(gRoot), old(pendingAction))
    {
      if |pendingAction| > 0 {
        var element := pendingAction[0];
        pendingAction := pendingAction[1..];
        if element.children != [] {
          AppendToG(element);
        }
      }
    }

    /** Opens a link: a javascript URL is ignored unless includes are allowed;
        otherwise a pending link is closed first and the new one becomes the
        place new elements go. */
    method OpenLink(url: string, title: Option<string>, target: Option<string>)
      requires LinkSlot(pendingAction)
      modifies this`pendingAction, this`gRoot
      ensures LinkSlot(pendingAction)
      ensures !allowInclude && IsScriptUrl(url) ==> gRoot == old(gRoot) && pendingAction == old(pendingAction)
      ensures !(!allowInclude && IsScriptUrl(url)) ==>
        && pendingAction == [LinkElement(url, title, target)]
        && gRoot == Flushed(old(gRoot), old(pendingAction))
    {
      if !allowInclude && StartsWith(ToLowerAscii(url), "javascript") {
        return;
      }
      if |pendingAction| > 0 {
        CloseLink();
      }
      pendingAction := [LinkElement(url, title, target)] + pendingAction;
    }

    /** styleBuilder.add on the context's interner. */
    method Intern(prefix: string, attributes: Declarations) returns (className: string)
      requires styleBuilder.Valid()
      modifies styleBuilder
      ensures styleBuilder.Valid()
      ensures (styleBuilder.State(), className) == Added(old(styleBuilder.State()), prefix, attributes)
      ensures forall p :: p in styleBuilder.counter ==> p in old(styleBuilder.counter) || p == prefix
    {
      className := styleBuilder.Add(prefix, attributes);
    }

    /** Interns the stroke attribute set (and the fill, when given) and returns
        the class attribute that names them. */
    method ApplyStrokeStyle(fill: Option<string>, deltaShadow: real) returns (classNames: string)
      requires styleBuilder.Valid() && ContextPrefixes(styleBuilder.counter)
      modifies styleBuilder
      ensures styleBuilder.Valid() && ContextPrefixes(styleBuilder.counter)
      ensures (styleBuilder.State(), classNames)
        == StrokeStyle(old(styleBuilder.State()), StrokeAttributes(stroke, strokeWidth, strokeDasharray, deltaShadow), fill)
    {
      var attributes := StrokeAttributes(stroke, strokeWidth, strokeDasharray, deltaShadow);
      var strokeClass := Intern("l", attributes);
      var fillClasses := "";
      if fill.Some? {
        var fillClass := Intern("b", FillAttributes(fill.value));
        fillClasses := " " + fillClass;
      }
      classNames := strokeClass + fillClasses;
    }

    /** applyStrokeStyle on a new element followed by g.appendChild. */
    method AppendShape(tag: string, attrs: map<string, string>, fill: Option<string>, deltaShadow: real)
      requires styleBuilder.Valid() && ContextPrefixes(styleBuilder.counter) && LinkSlot(pendingAction)
      modifies styleBuilder, this`gRoot, this`pendingAction
      ensures styleBuilder.Valid() && ContextPrefixes(styleBuilder.counter) && LinkSlot(pendingAction)
      ensures ShapeDrawn(old(styleBuilder.State()), old(gRoot), old(pendingAction), styleBuilder.State(), gRoot, pendingAction,
                         StrokeAttributes(stroke, strokeWidth, strokeDasharray, deltaShadow), fill, tag, attrs)
    {
      ghost var t0 := styleBuilder.State();
      ghost var strokeStyle := StrokeAttributes(stroke, strokeWidth, strokeDasharray, deltaShadow);
      var classNames := ApplyStrokeStyle(fill, deltaShadow);
      ghost var t1 := styleBuilder.State();
      assert (t1, classNames) == StrokeStyle(t0, strokeStyle, fill);
      AppendToG(Leaf(tag, attrs["class" := classNames]));
      assert styleBuilder.State() == t1;
    }

    /** manageShadow followed, unless hidden, by applyStrokeStyle on a new
        element and g.appendChild: the common part of the shape calls. */
    method DrawShape(tag: string, attrs: map<string, string>, fill: Option<string>, deltaShadow: real)
      requires styleBuilder.Valid() && ContextPrefixes(styleBuilder.counter) && LinkSlot(pendingAction)
      modifies this`defs, this`withShadow, this`gRoot, this`pendingAction, styleBuilder
      ensures styleBuilder.Valid() && ContextPrefixes(styleBuilder.counter) && LinkSlot(pendingAction)
      ensures withShadow == (old(withShadow) || deltaShadow != 0.0)
      ensures defs == ShadowDefs(old(defs), old(withShadow), deltaShadow, shadow)
      ensures hidden ==> gRoot == old(gRoot) && pendingAction == old(pendingAction) && unchanged(styleBuilder)
      ensures !hidden ==>
        ShapeDrawn(old(styleBuilder.State()), old(gRoot), old(pendingAction), styleBuilder.State(), gRoot, pendingAction,
                   StrokeAttributes(stroke, strokeWidth, strokeDasharray, deltaShadow), fill, tag, attrs)
    {
      ManageShadow(deltaShadow);
      if !hidden {
        AppendShape(tag, attrs, fill, deltaShadow);
      }
    }

    method SvgEllipse(x: real, y: real, xRadius: real, yRadius: real, deltaShadow: real)
      requires Valid()
      modifies this`defs, this`withShadow, this`gRoot, this`pendingAction, this`maxX, this`maxY, styleBuilder
      ensures Valid()
      ensures withShadow == (old(withShadow) || deltaShadow != 0.0)
      ensures defs == ShadowDefs(old(defs), old(withShadow), deltaShadow, shadow)
      ensures Bounds(maxX, maxY)
        == See(old(Bounds(maxX, maxY)), (x + xRadius + deltaShadow * 2.0, y + yRadius + deltaShadow * 2.0))
      ensures hidden ==> gRoot == old(gRoot) && pendingAction == old(pendingAction) && unchanged(styleBuilder)
      ensures !hidden ==>
        ShapeDrawn(old(styleBuilder.State()), old(gRoot), old(pendingAction), styleBuilder.State(), gRoot, pendingAction,
                   StrokeAttributes(stroke, strokeWidth, strokeDasharray, deltaShadow), Some(fill), "ellipse", EllipseAttributes(format, x, y, xRadius, yRadius))
    {
      EnsureVisible(x + xRadius + deltaShadow * 2.0, y + yRadius + deltaShadow * 2.0);
      DrawShape("ellipse", EllipseAttributes(format, x, y, xRadius, yRadius), Some(fill), deltaShadow);
    }

    /** An arc from (x1, y1) to (x2, y2) as a path; no shadow, and the fill
        class is applied. */
    method SvgArcEllipse(rx: real, ry: real, x1: real, y1: real, x2: real, y2: real)
      requires Valid()
      modifies this`gRoot, this`pendingAction, this`maxX, this`maxY, styleBuilder
      ensures Valid()
      ensures Bounds(maxX, maxY) == See(See(old(Bounds(maxX, maxY)), (x1, y1)), (x2, y2))
      ensures hidden ==> gRoot == old(gRoot) && pendingAction == old(pendingAction) && unchanged(styleBuilder)
      ensures !hidden ==>
        ShapeDrawn(old(styleBuilder.State()), old(gRoot), old(pendingAction), styleBuilder.State(), gRoot, pendingAction,
                   StrokeAttributes(stroke, strokeWidth, strokeDasharray, -1.0), Some(fill), "path", map["d" := ArcData(format, rx, ry, x1, y1, x2, y2)])
    {
      EnsureVisible(x1, y1);
      EnsureVisible(x2, y2);
      if !hidden {
        AppendShape("path", map["d" := ArcData(format, rx, ry, x1, y1, x2, y2)], Some(fill), -1.0);
      }
    }

    /** A rectangle; one with no area changes nothing at all. */
    method SvgRectangle(x: real, y: real, width: real, height: real, rx: real, ry: real, deltaShadow: real,
                        id: Option<string>)
      requires Valid()
      modifies this`defs, this`withShadow, this`gRoot, this`pendingAction, this`maxX, this`maxY, styleBuilder
      ensures Valid()
      ensures height <= 0.0 || width <= 0.0 ==>
        && defs == old(defs) && withShadow == old(withShadow) && gRoot == old(gRoot)
        && pendingAction == old(pendingAction) && maxX == old(maxX) && maxY == old(maxY) && unchanged(styleBuilder)
      ensures height > 0.0 && width > 0.0 ==>
        && withShadow == (old(withShadow) || deltaShadow != 0.0)
        && defs == ShadowDefs(old(defs), old(withShadow), deltaShadow, shadow)
        && Bounds(maxX, maxY)
           == See(old(Bounds(maxX, maxY)), (x + width + 2.0 * deltaShadow, y + height + 2.0 * deltaShadow))
        && (hidden ==> gRoot == old(gRoot) && pendingAction == old(pendingAction) && unchanged(styleBuilder))
      ensures height > 0.0 && width > 0.0 && !hidden ==>
        ShapeDrawn(old(styleBuilder.State()), old(gRoot), old(pendingAction), styleBuilder.State(), gRoot, pendingAction,
                   StrokeAttributes(stroke, strokeWidth, strokeDasharray, deltaShadow), Some(fill), "rect", RectAttributes(format, x, y, width, height, rx, ry, id))
    {
      if height <= 0.0 || width <= 0.0 {
        return;
      }
      EnsureVisible(x + width + 2.0 * deltaShadow, y + height + 2.0 * deltaShadow);
      DrawShape("rect", RectAttributes(format, x, y, width, height, rx, ry, id), Some(fill), deltaShadow);
    }

    /** A line: stroke only, never a fill class; both ends are made visible,
        moved by twice the shadow delta. */
    method SvgLine(x1: real, y1: real, x2: real, y2: real, deltaShadow: real)
      requires Valid()
      modifies this`defs, this`withShadow, this`gRoot, this`pendingAction, this`maxX, this`maxY, styleBuilder
      ensures Valid()
      ensures withShadow == (old(withShadow) || deltaShadow != 0.0)
      ensures defs == ShadowDefs(old(defs), old(withShadow), deltaShadow, shadow)
      ensures Bounds(maxX, maxY) == See(See(old(Bounds(maxX, maxY)), (x1 + 2.0 * deltaShadow, y1 + 2.0 * deltaShadow)),
                                        (x2 + 2.0 * deltaShadow, y2 + 2.0 * deltaShadow))
      ensures hidden ==> gRoot == old(gRoot) && pendingAction == old(pendingAction) && unchanged(styleBuilder)
      ensures !hidden ==>
        ShapeDrawn(old(styleBuilder.State()), old(gRoot), old(pendingAction), styleBuilder.State(), gRoot, pendingAction,
                   StrokeAttributes(stroke, strokeWidth, strokeDasharray, deltaShadow), None, "line", LineAttributes(format, x1, y1, x2, y2))
    {
      SeeTwo(Bounds(maxX, maxY), (x1 + 2.0 * deltaShadow, y1 + 2.0 * deltaShadow), (x2 + 2.0 * deltaShadow, y2 + 2.0 * deltaShadow));
      SeePoints([(x1 + 2.0 * deltaShadow, y1 + 2.0 * deltaShadow), (x2 + 2.0 * deltaShadow, y2 + 2.0 * deltaShadow)]);
      DrawShape("line", LineAttributes(format, x1, y1, x2, y2), None, deltaShadow);
    }

    /** A polygon over a flat list of coordinates, read as (x, y) pairs. */
    method SvgPolygon(deltaShadow: real, points: seq<real>)
      requires Valid() && |points| % 2 == 0
      modifies this`defs, this`withShadow, this`gRoot, this`pendingAction, this`maxX, this`maxY, styleBuilder
      ensures Valid()
      ensures withShadow == (old(withShadow) || deltaShadow != 0.0)
      ensures defs == ShadowDefs(old(defs), old(withShadow), deltaShadow, shadow)
      ensures Bounds(maxX, maxY) == SeeAll(old(Bounds(maxX, maxY)), Pairs(points, deltaShadow))
      ensures hidden ==> gRoot == old(gRoot) && pendingAction == old(pendingAction) && unchanged(styleBuilder)
      ensures !hidden ==>
        ShapeDrawn(old(styleBuilder.State()), old(gRoot), old(pendingAction), styleBuilder.State(), gRoot, pendingAction,
                   StrokeAttributes(stroke, strokeWidth, strokeDasharray, deltaShadow), Some(fill), "polygon", map["points" := PointsText(format, points)])
    {
      // the points text only matters when the element is drawn; building it
      // changes no state
      var text := JoinCoordinates(points);
      SeePairs(points, deltaShadow);
      DrawShape("polygon", map["points" := text], Some(fill), deltaShadow);
    }

    /** The points attribute, built one coordinate at a time with a comma
        before every coordinate once the text is non-empty. */
    method JoinCoordinates(points: seq<real>) returns (text: string)
      ensures text == PointsText(format, points)
    {
      text := "";
      var i := 0;
      while i < |points|
        invariant 0 <= i <= |points|
        invariant text == PointsText(format, points[..i])
      {
        assert points[..i + 1][..i] == points[..i];
        if text != "" {
          text := text + ",";
        }
        text := text + format(points[i]);
        i := i + 1;
      }
      assert points[..i] == points;
    }

    /** ensureVisible on each (x, y) pair, moved by twice the shadow delta. */
    method SeePairs(points: seq<real>, deltaShadow: real)
      requires ValidBounds(Bounds(maxX, maxY)) && |points| % 2 == 0
      modifies this`maxX, this`maxY
      ensures ValidBounds(Bounds(maxX, maxY))
      ensures Bounds(maxX, maxY) == SeeAll(old(Bounds(maxX, maxY)), Pairs(points, deltaShadow))
    {
      ghost var b0 := Bounds(maxX, maxY);
      var i := 0;
      while i < |points|
        invariant 0 <= i <= |points| && i % 2 == 0
        invariant ValidBounds(Bounds(maxX, maxY))
        invariant Bounds(maxX, maxY) == SeeAll(b0, Pairs(points[..i], deltaShadow))
      {
        var p := (points[i] + 2.0 * deltaShadow, points[i + 1] + 2.0 * deltaShadow);
        PairsStep(points, i, deltaShadow);
        SeeAllAppend(b0, Pairs(points[..i], deltaShadow), [p]);
        SeeOne(SeeAll(b0, Pairs(points[..i], deltaShadow)), p);
        EnsureVisible(p.0, p.1);
        i := i + 2;
      }
      assert points[..i] == points;
    }

    /** A path at offset (x, y): the offset point is made visible first, then
        every segment's points; the element carries the path's comment as id. */
    method SvgPath(x: real, y: real, path: seq<Segment>, comment: Option<string>, deltaShadow: real)
      requires Valid()
      modifies this`defs, this`withShadow, this`gRoot, this`pendingAction, this`maxX, this`maxY, styleBuilder
      ensures Valid()
      ensures withShadow == (old(withShadow) || deltaShadow != 0.0)
      ensures defs == ShadowDefs(old(defs), old(withShadow), deltaShadow, shadow)
      ensures Bounds(maxX, maxY) == SeeAll(See(old(Bounds(maxX, maxY)), (x, y)), PathPoints(path, x, y, deltaShadow))
      ensures hidden ==> gRoot == old(gRoot) && pendingAction == old(pendingAction) && unchanged(styleBuilder)
      ensures !hidden ==>
        ShapeDrawn(old(styleBuilder.State()), old(gRoot), old(pendingAction), styleBuilder.State(), gRoot, pendingAction,
                   StrokeAttributes(stroke, strokeWidth, strokeDasharray, deltaShadow), Some(fill), "path", PathAttributes(PathData(format, path, x, y), comment))
    {
      // manageShadow changes only defs and the shadow flag, which the loop
      // does not read, so it may follow the loop
      var data := TracePath(x, y, path, deltaShadow);
      DrawShape("path", PathAttributes(data, comment), Some(fill), deltaShadow);
    }

    /** The loop of svgPath: the origin is made visible, then for each
        segment in order its data is appended and its points are made visible. */
    method TracePath(x: real, y: real, path: seq<Segment>, deltaShadow: real) returns (data: string)
      requires ValidBounds(Bounds(maxX, maxY))
      modifies this`maxX, this`maxY
      ensures ValidBounds(Bounds(maxX, maxY))
      ensures data == PathData(format, path, x, y)
      ensures Bounds(maxX, maxY) == SeeAll(See(old(Bounds(maxX, maxY)), (x, y)), PathPoints(path, x, y, deltaShadow))
    {
      EnsureVisible(x, y);
      ghost var b0 := Bounds(maxX, maxY);
      data := "";
      var i := 0;
      while i < |path|
        invariant 0 <= i <= |path|
        invariant ValidBounds(Bounds(maxX, maxY))
        invariant data == PathData(format, path[..i], x, y)
        invariant Bounds(maxX, maxY) == SeeAll(b0, PathPoints(path[..i], x, y, deltaShadow))
      {
        PathStep(format, path, i, x, y, deltaShadow);
        SeeAllAppend(b0, PathPoints(path[..i], x, y, deltaShadow), SegmentPoints(path[i], x, y, deltaShadow));
        data := data + SegmentData(format, path[i], x, y);
        SeePoints(SegmentPoints(path[i], x, y, deltaShadow));
        i := i + 1;
      }
      assert path[..i] == path;
    }

    /** ensureVisible on each point in turn. */
    method SeePoints(points: seq<Point>)
      requires ValidBounds(Bounds(maxX, maxY))
      modifies this`maxX, this`maxY
      ensures ValidBounds(Bounds(maxX, maxY))
      ensures Bounds(maxX, maxY) == SeeAll(old(Bounds(maxX, maxY)), points)
    {
      ghost var b0 := Bounds(maxX, maxY);
      var i := 0;
      while i < |points|
        invariant 0 <= i <= |points|
        invariant ValidBounds(Bounds(maxX, maxY))
        invariant Bounds(maxX, maxY) == SeeAll(b0, points[..i])
      {
        assert points[..i + 1] == points[..i] + [points[i]];
        SeeAllAppend(b0, points[..i], [points[i]]);
        SeeOne(SeeAll(b0, points[..i]), points[i]);
        EnsureVisible(points[i].0, points[i].1);
        i := i + 1;
      }
      assert points[..i] == points;
    }

    /** Starts an empty path buffer. */
    method NewPath()
      modifies this`currentPath
      ensures currentPath == Some("")
    {
      currentPath := Some("");
    }

    /** The buffer operations append the text svgPath gives the same segment
        at offset (0, 0), and see the same points with no shadow. */
    method MoveTo(x: real, y: real)
      requires Valid() && currentPath.Some?
      modifies this`currentPath, this`maxX, this`maxY
      ensures Valid()
      ensures currentPath == Some(old(currentPath).value + SegmentData(format, SegMoveTo(x, y), 0.0, 0.0))
      ensures Bounds(maxX, maxY) == SeeAll(old(Bounds(maxX, maxY)), SegmentPoints(SegMoveTo(x, y), 0.0, 0.0, 0.0))
    {
      currentPath := Some(currentPath.value + ("M" + Coord(format, x, y) + " "));
      SeeOne(Bounds(maxX, maxY), (x, y));
      EnsureVisible(x, y);
    }

    method LineTo(x: real, y: real)
      requires Valid() && currentPath.Some?
      modifies this`currentPath, this`maxX, this`maxY
      ensures Valid()
      ensures currentPath == Some(old(currentPath).value + SegmentData(format, SegLineTo(x, y), 0.0, 0.0))
      ensures Bounds(maxX, maxY) == SeeAll(old(Bounds(maxX, maxY)), SegmentPoints(SegLineTo(x, y), 0.0, 0.0, 0.0))
    {
      currentPath := Some(currentPath.value + ("L" + Coord(format, x, y) + " "));
      SeeOne(Bounds(maxX, maxY), (x, y));
      EnsureVisible(x, y);
    }

    /** closepath appends "Z ", which svgPath never writes for a close segment. */
    method ClosePath()
      requires currentPath.Some?
      modifies this`currentPath
      ensures currentPath == Some(old(currentPath).value + "Z ")
    {
      currentPath := Some(currentPath.value + "Z ");
    }

    method CurveTo(x1: real, y1: real, x2: real, y2: real, x3: real, y3: real)
      requires Valid() && currentPath.Some?
      modifies this`currentPath, this`maxX, this`maxY
      ensures Valid()
      ensures currentPath
        == Some(old(currentPath).value + SegmentData(format, SegCubicTo(x1, y1, x2, y2, x3, y3), 0.0, 0.0))
      ensures Bounds(maxX, maxY)
        == SeeAll(old(Bounds(maxX, maxY)), SegmentPoints(SegCubicTo(x1, y1, x2, y2, x3, y3), 0.0, 0.0, 0.0))
    {
      currentPath := Some(currentPath.value + ("C" + Coord(format, x1, y1) + " " + Coord(format, x2, y2) + " "
                                               + Coord(format, x3, y3) + " "));
      SeeThree(Bounds(maxX, maxY), (x1, y1), (x2, y2), (x3, y3));
      EnsureVisible(x1, y1);
      EnsureVisible(x2, y2);
      EnsureVisible(x3, y3);
    }

    method QuadTo(x1: real, y1: real, x2: real, y2: real)
      requires Valid() && currentPath.Some?
      modifies this`currentPath, this`maxX, this`maxY
      ensures Valid()
      ensures currentPath == Some(old(currentPath).value + SegmentData(format, SegQuadTo(x1, y1, x2, y2), 0.0, 0.0))
      ensures Bounds(maxX, maxY)
        == SeeAll(old(Bounds(maxX, maxY)), SegmentPoints(SegQuadTo(x1, y1, x2, y2), 0.0, 0.0, 0.0))
    {
      currentPath := Some(currentPath.value + ("Q" + Coord(format, x1, y1) + " " + Coord(format, x2, y2) + " "));
      SeeTwo(Bounds(maxX, maxY), (x1, y1), (x2, y2));
      EnsureVisible(x1, y1);
      EnsureVisible(x2, y2);
    }

    /** Draws the buffer as an unstyled path (the winding rule is ignored)
        unless hidden, and empties the buffer either way. */
    method Fill(windingRule: int)
      requires LinkSlot(pendingAction)
      modifies this`gRoot, this`pendingAction, this`currentPath
      ensures LinkSlot(pendingAction)
      ensures currentPath == None
      ensures hidden ==> gRoot == old(gRoot) && pendingAction == old(pendingAction)
      ensures !hidden ==>
        Appended(old(gRoot), old(pendingAction), gRoot, pendingAction, Leaf("path", map["d" := PathText(old(currentPath))]))
    {
      if !hidden {
        AppendToG(Leaf("path", map["d" := PathText(currentPath)]));
      }
      currentPath := None;
    }

    /** A text element. The style set (fill, size, then weight, style,
        decoration and family when given) is interned under "t"; the caller's
        attributes are set after the fixed ones and may override them. Both
        ends of the text are made visible even when hidden. */
    method Text(text: string, x: real, y: real, fontFamily: Option<string>, fontSize: int,
                fontWeight: Option<string>, fontStyle: Option<string>, textDecoration: Option<string>,
                textLength: real, attributes: Declarations, textBackColor: Option<string>)
      requires Valid()
      modifies this`filterBackColor, this`filterIndex, this`defs, this`gRoot, this`pendingAction,
               this`maxX, this`maxY, styleBuilder
      ensures Valid()
      ensures Bounds(maxX, maxY) == See(See(old(Bounds(maxX, maxY)), (x, y)), (x + textLength, y))
      ensures hidden || textBackColor.None? ==>
        filterBackColor == old(filterBackColor) && filterIndex == old(filterIndex) && defs == old(defs)
      ensures hidden ==> gRoot == old(gRoot) && pendingAction == old(pendingAction) && unchanged(styleBuilder)
      ensures !hidden && textBackColor.Some? ==>
        BackColorRegistered(old(filterBackColor), old(filterIndex), old(defs),
                            filterBackColor, filterIndex, defs, filterUid, textBackColor.value)
      ensures !hidden ==>
        && (textBackColor.Some? ==> textBackColor.value in filterBackColor)
        && TextDrawn(old(styleBuilder.State()), old(gRoot), old(pendingAction), styleBuilder.State(), gRoot, pendingAction,
                     TextStyle(format, fill, fontSize, fontWeight, fontStyle, textDecoration, fontFamily),
                     TextBase(format, x, y, textLength, FilterId(filterBackColor, textBackColor)), attributes,
                     TextContent(text, fontFamily))
    {
      DrawText(text, x, y, fontFamily, fontSize, fontWeight, fontStyle, textDecoration, textLength,
               attributes, textBackColor);
      EnsureTextVisible(x, y, textLength);
    }

    /** Unless hidden, the text element is built and appended. */
    method DrawText(text: string, x: real, y: real, fontFamily: Option<string>, fontSize: int,
                    fontWeight: Option<string>, fontStyle: Option<string>, textDecoration: Option<string>,
                    textLength: real, attributes: Declarations, textBackColor: Option<string>)
      requires styleBuilder.Valid() && ContextPrefixes(styleBuilder.counter) && LinkSlot(pendingAction)
      modifies this`filterBackColor, this`filterIndex, this`defs, this`gRoot, this`pendingAction, styleBuilder
      ensures styleBuilder.Valid() && ContextPrefixes(styleBuilder.counter) && LinkSlot(pendingAction)
      ensures hidden || textBackColor.None? ==>
        filterBackColor == old(filterBackColor) && filterIndex == old(filterIndex) && defs == old(defs)
      ensures hidden ==> gRoot == old(gRoot) && pendingAction == old(pendingAction) && unchanged(styleBuilder)
      ensures !hidden && textBackColor.Some? ==>
        BackColorRegistered(old(filterBackColor), old(filterIndex), old(defs),
                            filterBackColor, filterIndex, defs, filterUid, textBackColor.value)
      ensures !hidden ==>
        && (textBackColor.Some? ==> textBackColor.value in filterBackColor)
        && TextDrawn(old(styleBuilder.State()), old(gRoot), old(pendingAction), styleBuilder.State(), gRoot, pendingAction,
                     TextStyle(format, fill, fontSize, fontWeight, fontStyle, textDecoration, fontFamily),
                     TextBase(format, x, y, textLength, FilterId(filterBackColor, textBackColor)), attributes,
                     TextContent(text, fontFamily))
    {
      if !hidden {
        AppendText(text, x, y, fontFamily, fontSize, fontWeight, fontStyle, textDecoration, textLength,
                   attributes, textBackColor);
      }
    }

    /** Makes both ends of a text visible. */
    method EnsureTextVisible(x: real, y: real, textLength: real)
      requires ValidBounds(Bounds(maxX, maxY))
      modifies this`maxX, this`maxY
      ensures ValidBounds(Bounds(maxX, maxY))
      ensures Bounds(maxX, maxY) == See(See(old(Bounds(maxX, maxY)), (x, y)), (x + textLength, y))
    {
      EnsureVisible(x, y);
      EnsureVisible(x + textLength, y);
    }

    /** The element-building part of text. */
    method AppendText(text: string, x: real, y: real, fontFamily: Option<string>, fontSize: int,
                      fontWeight: Option<string>, fontStyle: Option<string>, textDecoration: Option<string>,
                      textLength: real, attributes: Declarations, textBackColor: Option<string>)
      requires styleBuilder.Valid() && ContextPrefixes(styleBuilder.counter) && LinkSlot(pendingAction)
      modifies this`filterBackColor, this`filterIndex, this`defs, this`gRoot, this`pendingAction, styleBuilder
      ensures styleBuilder.Valid() && ContextPrefixes(styleBuilder.counter) && LinkSlot(pendingAction)
      ensures textBackColor.None? ==>
        filterBackColor == old(filterBackColor) && filterIndex == old(filterIndex) && defs == old(defs)
      ensures textBackColor.Some? ==>
        BackColorRegistered(old(filterBackColor), old(filterIndex), old(defs),
                            filterBackColor, filterIndex, defs, filterUid, textBackColor.value)
      ensures
        && (textBackColor.Some? ==> textBackColor.value in filterBackColor)
        && TextDrawn(old(styleBuilder.State()), old(gRoot), old(pendingAction), styleBuilder.State(), gRoot, pendingAction,
                     TextStyle(format, fill, fontSize, fontWeight, fontStyle, textDecoration, fontFamily),
                     TextBase(format, x, y, textLength, FilterId(filterBackColor, textBackColor)), attributes,
                     TextContent(text, fontFamily))
    {
      var filterId := TextFilterId(textBackColor);
      AppendTextElement(text, TextBase(format, x, y, textLength, filterId), attributes,
                        TextStyle(format, fill, fontSize, fontWeight, fontStyle, textDecoration, fontFamily), fontFamily);
    }

    /** The background filter of a text, when it has a background colour. */
    method TextFilterId(textBackColor: Option<string>) returns (filterId: Option<string>)
      modifies this`filterBackColor, this`filterIndex, this`defs
      ensures textBackColor.None? ==>
        filterBackColor == old(filterBackColor) && filterIndex == old(filterIndex) && defs == old(defs)
      ensures textBackColor.Some? ==>
        BackColorRegistered(old(filterBackColor), old(filterIndex), old(defs),
                            filterBackColor, filterIndex, defs, filterUid, textBackColor.value)
      ensures textBackColor.Some? ==> textBackColor.value in filterBackColor
      ensures filterId == FilterId(filterBackColor, textBackColor)
    {
      filterId := None;
      if textBackColor.Some? {
        var id := GetFilterBackColor(textBackColor.value);
        filterId := Some(id);
      }
    }

    /** The text element: the caller's attributes set over the fixed ones,
        the style set interned under "t" as its class, appended to g. */
    method AppendTextElement(text: string, base: map<string, string>, attributes: Declarations, style: Declarations,
                             fontFamily: Option<string>)
      requires styleBuilder.Valid() && ContextPrefixes(styleBuilder.counter) && LinkSlot(pendingAction)
      modifies this`gRoot, this`pendingAction, styleBuilder
      ensures styleBuilder.Valid() && ContextPrefixes(styleBuilder.counter) && LinkSlot(pendingAction)
      ensures TextDrawn(old(styleBuilder.State()), old(gRoot), old(pendingAction), styleBuilder.State(), gRoot, pendingAction,
                        style, base, attributes, TextContent(text, fontFamily))
    {
      var attrs := SetAttributes(base, attributes);
      var className := Intern("t", style);
      AppendToG(Element("text", attrs["class" := className], TextContent(text, fontFamily), []));
    }

    /** The serialisation step's changes to the document: the root
        attributes, and the style element in defs when any selector was
        registered. */
    method CreateXmlInternal(extraLines: seq<string>)
      modifies this`rootAttrs, this`defs
      ensures rootAttrs == DocumentAttributes(old(rootAttrs), format, svgDimensionStyle, maxX, maxY, scale,
                                              backcolor, preserveAspectRatio)
      ensures |styleBuilder.styleNameToAttributes| == 0 ==> defs == old(defs)
      ensures |styleBuilder.styleNameToAttributes| > 0 ==>
        defs == old(defs) + [Element("style", map[], Stylesheet(extraLines, styleBuilder.styleNameToAttributes), [])]
    {
      rootAttrs := DocumentAttributes(rootAttrs, format, svgDimensionStyle, maxX, maxY, scale,
                                      backcolor, preserveAspectRatio);
      var css := styleBuilder.ApplyStyle(extraLines);
      if css.Some? {
        defs := defs + [Element("style", map[], css.value, [])];
      }
    }

    /** A comment carrying the MD5 signature of its text, in g. */
    method AddComment(comment: string)
      requires LinkSlot(pendingAction)
      modifies this`gRoot, this`pendingAction
      ensures LinkSlot(pendingAction)
      ensures Appended(old(gRoot), old(pendingAction), gRoot, pendingAction, Comment(SignedComment(comment, md5Hex(comment))))
    {
      var signature := md5Hex(comment);
      AppendToG(Comment("MD5=[" + signature + "]\n" + comment));
    }
  }
}
