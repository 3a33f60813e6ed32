# SVG back end of the PlantUML renderer, modelled in Dafny

This project models the SVG drawing back end of a PlantUML-based renderer. It has two parts.

The **style interner** (`SvgCssBuilder`, module `Css`) gives every distinct stroke, fill or text attribute set one class name. The name is a prefix followed by that prefix's counter. The interner also keeps a table from CSS selector to attribute set. At the end it renders the table as one stylesheet: selectors in ascending order, one rule per selector, with lengths given the `px` unit.

The **graphics context** (`SvgGraphics`, module `Graphics`) turns drawing calls into elements of the SVG document:

- ellipses, arcs, rectangles, lines, polygons, paths and text;
- a path buffer that is built command by command;
- links and comments.

Each element goes to the root group, or into the pending link when one is open. Shared definitions go to `defs`: the drop-shadow filter, gradients, text-background filters and the stylesheet. Every drawing call also widens the bounds (`maxX`, `maxY`) that size the document. In hidden mode the bounds and the shadow filter are still updated, but no element is added.

Supporting modules:

- `Strings`: radix rendering of numbers, the order selectors are sorted in, ASCII case folding, character substitutions.
- `Dom`: the document tree as values.
- `Canvas`: Kotlin's `Double.toInt()` and the bounds arithmetic.

The document is modelled as values. The graphics context holds the children of `defs`, the children of the root group, the pending link and the root's attribute map. `g.appendChild(e)` becomes an update of whichever of these is the current group.

The source's `format(x)` and Kotlin's rendering of a `Double` are parameters of the context (`format` and `doubleText`). `getMD5Hex` is a constant function of the context (`md5Hex`), and the process-wide `OptionFlags.ALLOW_INCLUDE` is `allowInclude`. `Double` values are `real`.

The main invariants:

- Under one prefix the interner never hands out the same name twice. Across prefixes names stay distinct only when the prefixes hold no digit: `add("a1", …)` at counter 0 and the eleventh `add("a", …)` both give `a10`.
- The context interns only under the prefixes `l`, `b` and `t`, so no two of its attribute sets share a class name.
- `defs` holds at most one shadow filter, one gradient per cached gradient key and one background filter per cached colour, and the two id caches give distinct ids (`Graphics.InStep`). The constructor establishes it, and each method that changes `defs` ensures a new state that one of `InStepShadow`, `InStepGradient`, `InStepBackColor` or `InStepOther` shows to be in step again.
- The bounds only grow and cover every point seen.

## Model

| member | source | states |
|---|---|---|
| Strings.Digits | src/net/sourceforge/plantuml/svg/net.sourceforge.plantuml.svg.SvgGraphics.kt:128-130 | `toString(radix)` of a non-negative number is non-empty and uses only digits of the radix |
| Strings.DigitsRoundTrip | src/net/sourceforge/plantuml/svg/net.sourceforge.plantuml.svg.SvgGraphics.kt:128-130 | reading the radix digits back gives the number again |
| Strings.DigitsInjective | src/net/sourceforge/plantuml/svg/net.sourceforge.plantuml.svg.SvgGraphics.kt:128-130 | different numbers never render to the same digits |
| Strings.SeedText | src/net/sourceforge/plantuml/svg/net.sourceforge.plantuml.svg.SvgGraphics.kt:128-130 | `abs(seed).toString(36)` is non-empty; it starts with '-' exactly for `Long.MIN_VALUE`, whose `abs` overflows |
| Strings.SeedTextSameIffSameMagnitude | src/net/sourceforge/plantuml/svg/net.sourceforge.plantuml.svg.SvgGraphics.kt:128-130 | two seeds give the same id stem if and only if they have the same magnitude |
| Strings.Decimal | src/net/sourceforge/plantuml/svg/SvgCssBuilder.kt:10 | a counter value in a name renders as a non-empty run of decimal digits |
| Strings.SamePrefixNamesDiffer | src/net/sourceforge/plantuml/svg/SvgCssBuilder.kt:7-11 | one prefix with two counter values gives the same name only when the values are equal |
| Strings.NumberedNameInjective | src/net/sourceforge/plantuml/svg/SvgCssBuilder.kt:7-11 | with digit-free prefixes, equal names mean equal prefix and equal counter value |
| Strings.BelowIrreflexive | src/net/sourceforge/plantuml/svg/SvgCssBuilder.kt:43 | the string order used by `sorted()` is irreflexive |
| Strings.BelowAsymmetric | src/net/sourceforge/plantuml/svg/SvgCssBuilder.kt:43 | the string order is asymmetric |
| Strings.BelowTransitive | src/net/sourceforge/plantuml/svg/SvgCssBuilder.kt:43 | the string order is transitive |
| Strings.BelowTotal | src/net/sourceforge/plantuml/svg/SvgCssBuilder.kt:43 | any two different strings are ordered one way or the other |
| Strings.LeastExists | src/net/sourceforge/plantuml/svg/SvgCssBuilder.kt:43 | every non-empty set of selectors has a least element |
| Strings.SortedOf | src/net/sourceforge/plantuml/svg/SvgCssBuilder.kt:43 | the sorted key list is strictly ascending, holds exactly the keys of the set and has one entry per key |
| Strings.SortedUnique | src/net/sourceforge/plantuml/svg/SvgCssBuilder.kt:43 | there is only one strictly ascending list of a given set, so the sort result is determined |
| Strings.ReplaceChar | src/net/sourceforge/plantuml/svg/net.sourceforge.plantuml.svg.SvgGraphics.kt:500-502 | replacing one character keeps the length, turns every occurrence into the replacement, leaves none of the original, and keeps every other character |
| Strings.UnescapeNewlines | src/net/sourceforge/plantuml/svg/net.sourceforge.plantuml.svg.SvgGraphics.kt:350 | replacing every escaped `\n` by a line feed never makes the title longer |
| Strings.UnescapeNewlinesStep | src/net/sourceforge/plantuml/svg/net.sourceforge.plantuml.svg.SvgGraphics.kt:350 | one step of the title substitution: an escaped `\n` (a backslash, then `n`) at the front becomes a line feed, and any other first character is kept |
| Strings.UnescapeNewlinesAppend | src/net/sourceforge/plantuml/svg/net.sourceforge.plantuml.svg.SvgGraphics.kt:350 | the substitution works piecewise: for text not ending in a backslash, unescaping it followed by more text is unescaping each part and joining the results |
| Strings.UnescapeNewlinesComplete | src/net/sourceforge/plantuml/svg/net.sourceforge.plantuml.svg.SvgGraphics.kt:349-353 | after the title substitution no escaped `\n` is left, the text never grows, and a title without one is unchanged |
| Canvas.DoubleToInt | src/net/sourceforge/plantuml/svg/net.sourceforge.plantuml.svg.SvgGraphics.kt:90-97 | `toInt()` always gives a 32-bit integer and keeps the sign: non-negative for a non-negative value, non-positive for a non-positive one |
| Canvas.Grow | src/net/sourceforge/plantuml/svg/net.sourceforge.plantuml.svg.SvgGraphics.kt:90-97 | one coordinate of ensureVisible never lowers a 32-bit bound; a bound that changes becomes a 32-bit integer |
| Canvas.DoubleToIntTruncates | src/net/sourceforge/plantuml/svg/net.sourceforge.plantuml.svg.SvgGraphics.kt:90-97 | `toInt()` lands in the 32-bit range, truncates toward zero and saturates outside the range |
| Canvas.GrowBounds | src/net/sourceforge/plantuml/svg/net.sourceforge.plantuml.svg.SvgGraphics.kt:90-97 | one coordinate of ensureVisible never shrinks the bound and keeps it a valid bound. A value inside changes nothing; a value beyond leaves the bound at or past it (unless it saturates), at floor(v) + 1 |
| Canvas.GrowIdempotent | src/net/sourceforge/plantuml/svg/net.sourceforge.plantuml.svg.SvgGraphics.kt:90-97 | seeing the same value twice is seeing it once |
| Canvas.GrowOrderMatters | src/net/sourceforge/plantuml/svg/net.sourceforge.plantuml.svg.SvgGraphics.kt:90-97 | the bound depends on the order points are seen in (10.5 then 11 gives 11; 11 then 10.5 gives 12) |
| Canvas.SeeCovers | src/net/sourceforge/plantuml/svg/net.sourceforge.plantuml.svg.SvgGraphics.kt:90-97 | ensureVisible keeps the bounds valid, never shrinks them, and leaves the point covered |
| Canvas.SeeAllAppend | src/net/sourceforge/plantuml/svg/net.sourceforge.plantuml.svg.SvgGraphics.kt:90-97 | seeing two lists of points one after the other is seeing their concatenation |
| Canvas.SeeAllCovers | src/net/sourceforge/plantuml/svg/net.sourceforge.plantuml.svg.SvgGraphics.kt:90-97 | a run of ensureVisible calls keeps the bounds valid and monotone, and covers every point of the run |
| Css.UnitValue | src/net/sourceforge/plantuml/svg/SvgCssBuilder.kt:53-55 | a value gets `px` appended exactly when its key ends in `-width` or `-size` and it does not already end in `px`; every length value printed ends in `px` |
| Css.SortedSelectors | src/net/sourceforge/plantuml/svg/SvgCssBuilder.kt:43 | the selectors come out in ascending order, each exactly once |
| Css.InternKeepsInvariant | src/net/sourceforge/plantuml/svg/SvgCssBuilder.kt:19-29 | interning a new set under the prefix's next counter value keeps every (prefix, counter value) origin distinct and already handed out, and ties each name to its origin |
| Css.Added | src/net/sourceforge/plantuml/svg/SvgCssBuilder.kt:19-29 | after `add` the set is interned under the returned name and every other entry of the name table is kept. A set already interned leaves the tables as they were and returns its old name; a new one also gets its rule under `"." + name` |
| Css.AddedIdempotent | src/net/sourceforge/plantuml/svg/SvgCssBuilder.kt:19-29 | adding the same attribute set again, under any prefix, returns the same name and changes nothing |
| Css.BlocksText | src/net/sourceforge/plantuml/svg/SvgCssBuilder.kt:43-59 | each rule takes at least six characters (line feed, ` {`, line feed, `}`, line feed) and a non-empty run of rules starts and ends with a line feed |
| Css.Stylesheet | src/net/sourceforge/plantuml/svg/SvgCssBuilder.kt:35-59 | with no selectors the text is just the extra lines joined by line feeds; otherwise it is that text plus at least six characters per selector |
| Css.CssBuilder.constructor | src/net/sourceforge/plantuml/svg/SvgCssBuilder.kt:13-17 | a new interner has empty tables and no counters |
| Css.CssBuilder.Add | src/net/sourceforge/plantuml/svg/SvgCssBuilder.kt:19-29 | the tables after the call and the returned name are `Added` of the tables before. A set already interned returns its old name and changes nothing. A new set gets prefix + counter, the counter goes up by one, `"." + name` maps to the set, and the name differs from every earlier name under that prefix |
| Css.CssBuilder.AddNamed | src/net/sourceforge/plantuml/svg/SvgCssBuilder.kt:31-33 | the selector maps to the set, replacing what it held; the name table and the counters do not change |
| Css.CssBuilder.ApplyStyle | src/net/sourceforge/plantuml/svg/SvgCssBuilder.kt:35-64 | no stylesheet exactly when the table is empty; otherwise the extra lines, then one rule per selector in ascending order, declarations in insertion order with lengths in `px` |
| Css.SamePrefixClassesDistinct | src/net/sourceforge/plantuml/svg/SvgCssBuilder.kt:7-29 | two different attribute sets interned under the same prefix have different names |
| Css.ClassesDistinct | src/net/sourceforge/plantuml/svg/SvgCssBuilder.kt:19-29 | with digit-free prefixes (the back end uses `l`, `b` and `t`), two different attribute sets always have different names |
| Graphics.ContextClassesDistinct | src/net/sourceforge/plantuml/svg/net.sourceforge.plantuml.svg.SvgGraphics.kt:430-432 | the context only interns under `l`, `b` and `t`, which hold no digit, so two different attribute sets it interns never share a class name |
| Graphics.ShadowFilter | src/net/sourceforge/plantuml/svg/net.sourceforge.plantuml.svg.SvgGraphics.kt:798-813 | the drop-shadow filter is recognised as the shadow filter, and as neither a gradient nor a background filter |
| Graphics.GradientNode | src/net/sourceforge/plantuml/svg/net.sourceforge.plantuml.svg.SvgGraphics.kt:263-299 | a gradient carries its id and two stops, and is not a filter |
| Graphics.BackColorFilter | src/net/sourceforge/plantuml/svg/net.sourceforge.plantuml.svg.SvgGraphics.kt:536-544 | a background filter carries its id; with an id other than the shadow id it is a background filter and not the shadow filter |
| Graphics.CachedIdsDistinct | src/net/sourceforge/plantuml/svg/net.sourceforge.plantuml.svg.SvgGraphics.kt:521-528 | two different keys of a prefix-plus-size cache never share an id |
| Graphics.ShadowDefs | src/net/sourceforge/plantuml/svg/net.sourceforge.plantuml.svg.SvgGraphics.kt:793-816 | manageShadow adds exactly one node to `defs`, the shadow filter, if and only if the delta is non-zero and no shadow was added yet; the old `defs` are kept as they were |
| Graphics.StrokeAttributes | src/net/sourceforge/plantuml/svg/net.sourceforge.plantuml.svg.SvgGraphics.kt:420-428 | the stroke attribute map never repeats a key |
| Graphics.StrokeAttributesShape | src/net/sourceforge/plantuml/svg/net.sourceforge.plantuml.svg.SvgGraphics.kt:420-428 | stroke and width always come first; the dash pattern follows when set; the shadow filter is referenced if and only if the shadow delta is positive |
| Graphics.StrokeIsNotFill | src/net/sourceforge/plantuml/svg/net.sourceforge.plantuml.svg.SvgGraphics.kt:430-433 | a stroke attribute set is never equal to a fill attribute set, so the stroke and fill classes of one element differ |
| Graphics.StrokeStyle | src/net/sourceforge/plantuml/svg/net.sourceforge.plantuml.svg.SvgGraphics.kt:420-436 | after applyStrokeStyle the stroke set, and the fill set when given, are interned, and the class attribute is their names in that order, space-separated |
| Graphics.StrokeStyleIdempotent | src/net/sourceforge/plantuml/svg/net.sourceforge.plantuml.svg.SvgGraphics.kt:420-436 | styling a second element exactly like the first adds no rule and gives it the same class attribute |
| Graphics.ResolvedFamily | src/net/sourceforge/plantuml/svg/net.sourceforge.plantuml.svg.SvgGraphics.kt:494-499 | "monospaced" in any letter case becomes exactly "monospace", a fixed-pitch family; any other family is kept |
| Graphics.TextContent | src/net/sourceforge/plantuml/svg/net.sourceforge.plantuml.svg.SvgGraphics.kt:500-502 | in a fixed-pitch family every space becomes U+00A0 and every other character is kept; in any other family the text is unchanged |
| Graphics.TextStyle | src/net/sourceforge/plantuml/svg/net.sourceforge.plantuml.svg.SvgGraphics.kt:480-499 | the text style map never repeats a key |
| Graphics.TextStyleShape | src/net/sourceforge/plantuml/svg/net.sourceforge.plantuml.svg.SvgGraphics.kt:480-499 | the text style is fill and size, then one entry per optional given; the family is last when given and absent otherwise |
| Graphics.LinkTitle | src/net/sourceforge/plantuml/svg/net.sourceforge.plantuml.svg.SvgGraphics.kt:345-353 | the title is the URL when none is given; otherwise it is the given title after the substitution that `UnescapeNewlinesStep` and `UnescapeNewlinesAppend` describe, with no escaped `\n` left and no longer than before |
| Graphics.LinkElement | src/net/sourceforge/plantuml/svg/net.sourceforge.plantuml.svg.SvgGraphics.kt:338-353 | a new link is an empty `a` element |
| Graphics.LinkElementShape | src/net/sourceforge/plantuml/svg/net.sourceforge.plantuml.svg.SvgGraphics.kt:338-353 | the link carries the URL and the title twice each, and a target exactly when one is given |
| Graphics.Flushed | src/net/sourceforge/plantuml/svg/net.sourceforge.plantuml.svg.SvgGraphics.kt:316-325 | closing moves the pending link into the root group when it has children and drops it when it has none |
| Graphics.SegmentData | src/net/sourceforge/plantuml/svg/net.sourceforge.plantuml.svg.SvgGraphics.kt:627-664 | a segment writes nothing exactly when it is a close; otherwise its text starts with its command letter (`M`, `L`, `Q`, `C`, `A`) and ends with a space |
| Graphics.PathData | src/net/sourceforge/plantuml/svg/net.sourceforge.plantuml.svg.SvgGraphics.kt:623-668 | the path data is empty exactly when every segment is a close, and otherwise ends with a space |
| Graphics.FormatBoolean | src/net/sourceforge/plantuml/svg/net.sourceforge.plantuml.svg.SvgGraphics.kt:729-731 | "0" exactly for zero, "1" for anything else |
| Graphics.PointsTextIsJoin | src/net/sourceforge/plantuml/svg/net.sourceforge.plantuml.svg.SvgGraphics.kt:443-450 | when no coordinate renders empty, the points attribute is the rendered coordinates joined by commas |
| Graphics.Group | src/net/sourceforge/plantuml/svg/net.sourceforge.plantuml.svg.SvgGraphics.kt:356-357 | the current group is an element |
| Graphics.AppendedGroup | src/net/sourceforge/plantuml/svg/net.sourceforge.plantuml.svg.SvgGraphics.kt:356-357 | after `g.appendChild(e)` at most one link is pending, `g` is the old `g` with `e` as its last child, and `g` is the root group exactly when it was before |
| Graphics.ShadowDefsValid | src/net/sourceforge/plantuml/svg/net.sourceforge.plantuml.svg.SvgGraphics.kt:793-816 | manageShadow keeps `defs` in step with the shadow flag, so `defs` never holds more than one shadow filter |
| Graphics.GradientStep | src/net/sourceforge/plantuml/svg/net.sourceforge.plantuml.svg.SvgGraphics.kt:288-299 | a new gradient key gets the prefix + cache size. It keeps one gradient in `defs` per cached key, and the id differs from every id given before |
| Graphics.BackColorStep | src/net/sourceforge/plantuml/svg/net.sourceforge.plantuml.svg.SvgGraphics.kt:521-546 | a new background colour gets the prefix + cache size. It keeps one filter in `defs` per cached colour, and the id differs from every id given before and from the shadow id |
| Graphics.BackColorRegisteredInStep | src/net/sourceforge/plantuml/svg/net.sourceforge.plantuml.svg.SvgGraphics.kt:530-546 | whatever getFilterBackColor does to the cache and `defs` keeps them in step |
| Graphics.InStepShadow | src/net/sourceforge/plantuml/svg/net.sourceforge.plantuml.svg.SvgGraphics.kt:793-816 | manageShadow keeps `defs` and both id caches in step |
| Graphics.InStepGradient | src/net/sourceforge/plantuml/svg/net.sourceforge.plantuml.svg.SvgGraphics.kt:288-299 | registering a new gradient keeps `defs` and both id caches in step |
| Graphics.InStepBackColor | src/net/sourceforge/plantuml/svg/net.sourceforge.plantuml.svg.SvgGraphics.kt:530-546 | getFilterBackColor keeps `defs` and both id caches in step |
| Graphics.InStepOther | src/net/sourceforge/plantuml/svg/net.sourceforge.plantuml.svg.SvgGraphics.kt:609-613 | adding the style element keeps `defs` and both id caches in step |
| Graphics.RectAttributesShape | src/net/sourceforge/plantuml/svg/net.sourceforge.plantuml.svg.SvgGraphics.kt:376-383 | corners are rounded if and only if both radii are positive; the id is set if and only if one is given |
| Graphics.TextBaseShape | src/net/sourceforge/plantuml/svg/net.sourceforge.plantuml.svg.SvgGraphics.kt:478-506 | the text element adjusts spacing and glyphs; it references a filter if and only if a background filter id is given |
| Graphics.FilterId | src/net/sourceforge/plantuml/svg/net.sourceforge.plantuml.svg.SvgGraphics.kt:504-506 | a filter is referenced exactly when a background colour is given |
| Graphics.DocumentAttributesShape | src/net/sourceforge/plantuml/svg/net.sourceforge.plantuml.svg.SvgGraphics.kt:588-603 | the root gets the scaled view box, zoom mode and script/style types. Size and style are set exactly in dimension-style mode and the aspect ratio exactly when given; other root attributes are kept |
| Graphics.ViewBoxAtUnitScale | src/net/sourceforge/plantuml/svg/net.sourceforge.plantuml.svg.SvgGraphics.kt:588-599 | at scale 1 the view box is the bounds themselves |
| Graphics.SetAttributes | src/net/sourceforge/plantuml/svg/net.sourceforge.plantuml.svg.SvgGraphics.kt:507-509 | setting the caller's attributes one by one gives the base overridden by the attribute map |
| Graphics.SvgGraphics.G | src/net/sourceforge/plantuml/svg/net.sourceforge.plantuml.svg.SvgGraphics.kt:356-357 | `g` is the root group if and only if no link is pending, and the pending link otherwise |
| Graphics.NewStyleBuilder | src/net/sourceforge/plantuml/svg/net.sourceforge.plantuml.svg.SvgGraphics.kt:165-167 | the context's interner starts empty, with the `path:hover` rule registered exactly when a hover colour is given |
| Graphics.SvgGraphics.constructor | src/net/sourceforge/plantuml/svg/net.sourceforge.plantuml.svg.SvgGraphics.kt:140-173 | bounds start at 10 and see the minimum dimension; filter and gradient ids are `b`/`g` + seed. The hover rule is registered exactly when a hover colour is given; everything else starts empty, black, not hidden and without shadow, so `defs` and the id caches start in step (`InStep`) |
| Graphics.SvgGraphics.EnsureVisible | src/net/sourceforge/plantuml/svg/net.sourceforge.plantuml.svg.SvgGraphics.kt:90-97 | the bounds become `See` of the old bounds and the point, and stay valid |
| Graphics.SvgGraphics.ManageShadow | src/net/sourceforge/plantuml/svg/net.sourceforge.plantuml.svg.SvgGraphics.kt:793-816 | a zero delta changes nothing; otherwise the shadow filter is added on the first call only and the flag is set |
| Graphics.SvgGraphics.CreateSvgGradient | src/net/sourceforge/plantuml/svg/net.sourceforge.plantuml.svg.SvgGraphics.kt:256-301 | a known key returns its cached id and changes nothing; a new key gets `gradientId` + cache size and one gradient in `defs` |
| Graphics.SvgGraphics.GetIdFilterBackColor | src/net/sourceforge/plantuml/svg/net.sourceforge.plantuml.svg.SvgGraphics.kt:521-528 | a known colour returns its cached id; a new one is registered as `filterUid` + cache size |
| Graphics.SvgGraphics.GetFilterBackColor | src/net/sourceforge/plantuml/svg/net.sourceforge.plantuml.svg.SvgGraphics.kt:530-546 | a known colour changes nothing; a new one gets the next id and one background filter in `defs`. The result is the cached id |
| Graphics.SvgGraphics.SetFillColor | src/net/sourceforge/plantuml/svg/net.sourceforge.plantuml.svg.SvgGraphics.kt:303-305 | the fill is the colour, or "none" without one |
| Graphics.SvgGraphics.SetStrokeColor | src/net/sourceforge/plantuml/svg/net.sourceforge.plantuml.svg.SvgGraphics.kt:307-309 | the stroke is the colour, or "none" without one |
| Graphics.SvgGraphics.SetStrokeWidth | src/net/sourceforge/plantuml/svg/net.sourceforge.plantuml.svg.SvgGraphics.kt:311-314 | the width is the scaled width rendered as a double; the dash pattern is stored |
| Graphics.SvgGraphics.SetHidden | src/net/sourceforge/plantuml/svg/net.sourceforge.plantuml.svg.SvgGraphics.kt:829-832 | the hidden flag is set |
| Graphics.SvgGraphics.AppendToG | src/net/sourceforge/plantuml/svg/net.sourceforge.plantuml.svg.SvgGraphics.kt:356-357 | `g.appendChild` adds the element to the root group when no link is pending and leaves the link slot empty; otherwise it adds it to the pending link and leaves the root group untouched |
| Graphics.SvgGraphics.CloseLink | src/net/sourceforge/plantuml/svg/net.sourceforge.plantuml.svg.SvgGraphics.kt:316-325 | no link is pending afterwards; the link is kept only if something was drawn in it |
| Graphics.SvgGraphics.OpenLink | src/net/sourceforge/plantuml/svg/net.sourceforge.plantuml.svg.SvgGraphics.kt:329-354 | a javascript URL without includes allowed changes nothing. Otherwise any pending link is closed first and the new link becomes the one pending |
| Graphics.SvgGraphics.Intern | src/net/sourceforge/plantuml/svg/net.sourceforge.plantuml.svg.SvgGraphics.kt:430-433 | `styleBuilder.add` from the graphics context: the interner's tables and the returned name are `Added` of the tables before |
| Graphics.SvgGraphics.ApplyStrokeStyle | src/net/sourceforge/plantuml/svg/net.sourceforge.plantuml.svg.SvgGraphics.kt:420-436 | the interner's tables and the class attribute are `StrokeStyle` of the tables before: the stroke set under `l`, then the fill set under `b` when given |
| Graphics.SvgGraphics.AppendShape | src/net/sourceforge/plantuml/svg/net.sourceforge.plantuml.svg.SvgGraphics.kt:420-436 | a styled element: the tables go through applyStrokeStyle and the element, with that class, is appended to `g` |
| Graphics.SvgGraphics.DrawShape | src/net/sourceforge/plantuml/svg/net.sourceforge.plantuml.svg.SvgGraphics.kt:793-816 | manageShadow, then, unless hidden, the styled element appended to `g`; when hidden the tables, the root group and the link slot do not change |
| Graphics.SvgGraphics.SvgEllipse | src/net/sourceforge/plantuml/svg/net.sourceforge.plantuml.svg.SvgGraphics.kt:212-230 | shadow handled and the far corner (plus twice the delta) seen. Unless hidden, the style tables go through applyStrokeStyle and the element is appended to `g` (to the root group with no link pending, else to the link, leaving the root group untouched); when hidden, nothing is appended and the tables do not change |
| Graphics.SvgGraphics.SvgArcEllipse | src/net/sourceforge/plantuml/svg/net.sourceforge.plantuml.svg.SvgGraphics.kt:232-252 | both ends seen, no shadow. Unless hidden, an arc path with the fill class: the style tables go through applyStrokeStyle and the element is appended to `g` (to the root group with no link pending, else to the link, leaving the root group untouched) |
| Graphics.SvgGraphics.SvgRectangle | src/net/sourceforge/plantuml/svg/net.sourceforge.plantuml.svg.SvgGraphics.kt:359-397 | a rectangle without area changes nothing at all. Otherwise shadow and bounds, and unless hidden a rect with optional rounding and id: the style tables go through applyStrokeStyle and the element is appended to `g` (to the root group with no link pending, else to the link, leaving the root group untouched) |
| Graphics.SvgGraphics.SvgLine | src/net/sourceforge/plantuml/svg/net.sourceforge.plantuml.svg.SvgGraphics.kt:399-418 | shadow handled and both ends seen. Unless hidden, a line with a stroke class and never a fill class: the style tables go through applyStrokeStyle and the element is appended to `g` (to the root group with no link pending, else to the link, leaving the root group untouched) |
| Graphics.SvgGraphics.SvgPolygon | src/net/sourceforge/plantuml/svg/net.sourceforge.plantuml.svg.SvgGraphics.kt:438-459 | shadow handled and every (x, y) pair seen in order. Unless hidden, a polygon with the comma-joined points: the style tables go through applyStrokeStyle and the element is appended to `g` (to the root group with no link pending, else to the link, leaving the root group untouched) |
| Graphics.SvgGraphics.SeePoints | src/net/sourceforge/plantuml/svg/net.sourceforge.plantuml.svg.SvgGraphics.kt:627-664 | a run of ensureVisible calls: the bounds become `SeeAll` of the old bounds and the points, in order, and stay valid |
| Graphics.SvgGraphics.JoinCoordinates | src/net/sourceforge/plantuml/svg/net.sourceforge.plantuml.svg.SvgGraphics.kt:443-450 | the loop builds the points text: a comma before each coordinate that follows non-empty text |
| Graphics.SvgGraphics.SeePairs | src/net/sourceforge/plantuml/svg/net.sourceforge.plantuml.svg.SvgGraphics.kt:454-458 | the loop sees each pair, moved by twice the shadow delta, in order |
| Graphics.SvgGraphics.SvgPath | src/net/sourceforge/plantuml/svg/net.sourceforge.plantuml.svg.SvgGraphics.kt:620-681 | shadow handled, the offset point then every segment's points seen. Unless hidden, a path with the path data and the comment as id: the style tables go through applyStrokeStyle and the element is appended to `g` (to the root group with no link pending, else to the link, leaving the root group untouched) |
| Graphics.SvgGraphics.TracePath | src/net/sourceforge/plantuml/svg/net.sourceforge.plantuml.svg.SvgGraphics.kt:622-670 | the offset point is seen, then the loop builds the data of each segment in order and sees its points |
| Graphics.SvgGraphics.NewPath | src/net/sourceforge/plantuml/svg/net.sourceforge.plantuml.svg.SvgGraphics.kt:683-686 | the path buffer is started empty |
| Graphics.SvgGraphics.MoveTo | src/net/sourceforge/plantuml/svg/net.sourceforge.plantuml.svg.SvgGraphics.kt:688-691 | appends what svgPath writes for a move segment at offset 0 and sees the same point |
| Graphics.SvgGraphics.LineTo | src/net/sourceforge/plantuml/svg/net.sourceforge.plantuml.svg.SvgGraphics.kt:693-696 | appends what svgPath writes for a line segment at offset 0 and sees the same point |
| Graphics.SvgGraphics.ClosePath | src/net/sourceforge/plantuml/svg/net.sourceforge.plantuml.svg.SvgGraphics.kt:698-700 | appends "Z " |
| Graphics.SvgGraphics.CurveTo | src/net/sourceforge/plantuml/svg/net.sourceforge.plantuml.svg.SvgGraphics.kt:702-717 | appends what svgPath writes for a cubic segment at offset 0 and sees its three points in order |
| Graphics.SvgGraphics.QuadTo | src/net/sourceforge/plantuml/svg/net.sourceforge.plantuml.svg.SvgGraphics.kt:719-723 | appends what svgPath writes for a quadratic segment at offset 0 and sees its two points in order |
| Graphics.SvgGraphics.Fill | src/net/sourceforge/plantuml/svg/net.sourceforge.plantuml.svg.SvgGraphics.kt:733-741 | unless hidden, an unstyled path with the buffer's text (or "null" when no buffer was started) is appended to `g`, to the root group or to the pending link; the buffer is dropped either way |
| Graphics.SvgGraphics.Text | src/net/sourceforge/plantuml/svg/net.sourceforge.plantuml.svg.SvgGraphics.kt:461-518 | both ends of the text are seen, after the element, even when hidden; hidden text changes no cache, table or group. Otherwise the background filter is registered, the style set is added to the tables under `t`, and the text element with that class and its content is appended to `g` |
| Graphics.SvgGraphics.DrawText | src/net/sourceforge/plantuml/svg/net.sourceforge.plantuml.svg.SvgGraphics.kt:476-514 | unless hidden, the text element is built and appended; when hidden nothing but the bounds can change |
| Graphics.SvgGraphics.EnsureTextVisible | src/net/sourceforge/plantuml/svg/net.sourceforge.plantuml.svg.SvgGraphics.kt:516-517 | the bounds see the start of the text and then its end |
| Graphics.SvgGraphics.AppendText | src/net/sourceforge/plantuml/svg/net.sourceforge.plantuml.svg.SvgGraphics.kt:476-514 | builds the text element: fixed attributes and filter, then the caller's attributes, then the style set added to the tables under `t` as its class, then the content; the element is appended to `g` |
| Graphics.SvgGraphics.TextFilterId | src/net/sourceforge/plantuml/svg/net.sourceforge.plantuml.svg.SvgGraphics.kt:504-506 | with a background colour, getFilterBackColor registers it and its id is the filter reference; without one nothing changes |
| Graphics.SvgGraphics.AppendTextElement | src/net/sourceforge/plantuml/svg/net.sourceforge.plantuml.svg.SvgGraphics.kt:507-514 | the caller's attributes over the fixed ones, the style set added under `t` as the class, the content, appended to `g` |
| Graphics.SvgGraphics.CreateXmlInternal | src/net/sourceforge/plantuml/svg/net.sourceforge.plantuml.svg.SvgGraphics.kt:585-618 | the root gets the document attributes; a style element holding the stylesheet is added to `defs` exactly when some selector was registered |
| Graphics.SvgGraphics.AddComment | src/net/sourceforge/plantuml/svg/net.sourceforge.plantuml.svg.SvgGraphics.kt:834-838 | the comment, headed by the context's MD5 of that same comment, is appended to `g`: to the root group with no link pending, else to the link |

## Left out

- `src/App.kt` is not part of this model. It is the command-line entry point and does I/O only.
- Serialising the document (the `Transformer`, lines 548-582) is not modelled, nor is the textual substitution of embedded images. `createXml` and `manageScale` are left out because they are regular-expression rewriting of the output text. `CreateXmlInternal` models only the attribute and stylesheet changes made before serialisation.
- `svgImage` (both overloads) and `toBase64` are left out: image embedding and Base64 encoding of byte buffers.
- `paintBackcolorGradient` and `pendingBackground` are left out. They draw a background rectangle whose size is patched at serialisation time.
- `TikzGraphics.format`, Kotlin's `Double` rendering and `SignatureUtils.getMD5Hex` are not part of this model. They are constant functions of the context (`format`, `doubleText`, `md5Hex`).
- `extraSvgStyleLines` is a parameter (`extraLines`). The `ALLOW_INCLUDE` flag is a constant of the context.
- `Double` is modelled as `real`: NaN, infinities and rounding are not captured.
- Case-insensitive comparisons (`toLowerCase`, `equals(ignoreCase = true)`) are modelled on ASCII letters only.
- `sorted()` on strings is modelled as character-by-character order on Unicode scalar values. Kotlin's `String.compareTo` compares UTF-16 code units, so the two orders agree only on characters up to U+FFFF. Above that they differ: Kotlin puts U+10000 before U+FFFF.
- `Css.CssBuilder.Add`: the per-prefix counter is an unbounded `nat`. The source's `Int` counter would wrap after 2^31 names under one prefix.
- A `null` target or aspect ratio is passed to `setAttribute` in the source. The model sets the attribute only when a value is given.
- `Graphics.SvgGraphics.OpenLink` takes a non-null URL. The source's `requireNotNull(url)` throws on `null`, and that exception is not modelled.
- An attribute set (`Declarations`) is a list of pairs, so it may repeat a key, which the source's `LinkedHashMap` cannot. The stylesheet would then print that key twice. The stroke, fill and text sets the graphics context builds have distinct keys.
- `Graphics.SvgGraphics.Text`: `null` keys or values in the caller's attribute map are not modelled. The map is a list of string pairs.
- The `Log.println` branch for an unknown segment kind in `svgPath` is not modelled. `Segment` has exactly the six kinds of `UPath`, each with its own coordinates instead of a flat array.
- The `NullPointerException` of a path command before `newpath` becomes a precondition (`currentPath.Some?`). So does the `assert` on an even number of polygon coordinates.
- The shadow filter built by `manageShadow` is computed once in the constructor (`shadow`). The source builds an identical one on the first shadowed call.
- `Graphics.SvgGraphics.ManageShadow`: keeping `defs` in step is proved as a transition lemma (`Graphics.InStepShadow`, through `Graphics.ShadowDefsValid`) on the state the method ensures, not as a postcondition of the method.
- `Graphics.SvgGraphics.CreateSvgGradient`: keeping the gradient cache and `defs` in step is proved as a transition lemma (`Graphics.InStepGradient`, through `Graphics.GradientStep`), not as a postcondition of the method.
- `Graphics.SvgGraphics.GetFilterBackColor`: keeping the colour cache and `defs` in step is proved as a transition lemma (`Graphics.InStepBackColor`, through `Graphics.BackColorRegisteredInStep`), not as a postcondition of the method.
- `Graphics.SvgGraphics.CreateXmlInternal`: keeping `defs` in step after the style element is added is proved as a transition lemma (`Graphics.InStepOther`), not as a postcondition of the method.
- `Graphics.SvgGraphics.SvgPath` calls `manageShadow` after the segment loop, not before it. The loop neither reads nor writes `defs` or the shadow flag, so the final state is the same.
- `Graphics.SvgGraphics.SvgPolygon` builds the points text before `manageShadow`, not after it. Building it reads no state and changes none.
- `Graphics.SvgGraphics.SvgEllipse`, `SvgRectangle`, `SvgLine`, `SvgPolygon` and `SvgArcEllipse` grow the bounds first and then handle the shadow and append the element. The source grows the bounds last. The two steps touch disjoint state (`maxX` and `maxY` against `defs`, the style table and `g`), so the final state is the same.
- The model follows the code in these places:
  - the bounds grow to the integer part of the point plus one, not to the point itself.
  - `fill` without `newpath` writes the text `null`.
  - a close segment writes nothing in `svgPath`, while `closepath` writes `Z `.
  - an arc's rotation goes through `formatBoolean` like its two flags.
  - hidden text registers no background filter, while hidden shapes still add the shadow filter.
