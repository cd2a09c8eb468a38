# PDF text replacement: a Dafny model

This project models the core of `pdf_replace.py`, a tool that replaces a
literal string in a PDF document by painting over each affected text line
and writing the replaced line again. Two pieces of logic are modelled and
proved:

- **Output-path disambiguation** (`get_next_output_path`). If the requested
  path is free, it is used as is. Otherwise the tool takes `base(2)ext`,
  `base(3)ext`, … and uses the first free one. The filesystem is a finite
  set of existing paths. The loop is proved to terminate: every counter it
  passes names a different existing path.
- **The line-rewrite engine** (the body of `replace_text_in_pdf`). Pages are
  handled in order, and on each page the search hits in search order. For
  each hit the engine runs two passes over the page layout (blocks of lines
  of spans):
  - The font pass picks the font size.
  - The rewrite pass finds the first line of a text block that intersects
    the hit and whose text changes under `str.replace`. It paints that line
    white and writes the new text in black at `(x0, y1 - size * 0.2)`. Then
    it counts one replacement.

The PDF library becomes inputs. Each page's search hits are given, each
with the layout read while handling it. Opening and saving either succeed
or fail with a message. Each page is a `Page` object, and the drawing calls
append to its log of draw operations.

Modules, one file each:

| file | module | contents |
|---|---|---|
| wrappers.dfy | Wrappers | `Option` |
| geometry.dfy | Geometry | rectangles, points, the overlap test |
| layout.dfy | Layout | spans, lines, blocks, text-line traversal, line text |
| replace.dfy | StrReplace | `str.replace` semantics and its properties |
| decimal.dfy | Decimal | decimal rendering of counters and counts |
| output_path.dfy | OutputPath | extension split, candidate paths, `NextOutputPath` |
| font.dfy | FontScan | the font pass: spec function, lemmas, `FindFont` |
| rewrite.dfy | LineRewrite | draw operations, `Page`, the rewrite pass |
| engine.dfy | Engine | per-hit, per-page and per-document loops, outcome |

Choices the model makes, each following the code:

- Font pass: only the first intersecting span of each line is read, and the
  scan goes on to later lines while the font name is empty; such a span
  still sets the size (pdf_replace.py:84-93). `FontFromFirstNamedLine`,
  `FontFromLastHitLine` and `FontWithoutHits` state the three outcomes.
- Intersection is positive-area overlap of two non-empty rectangles. The
  library's own test is not part of this model.
- An empty `find` follows `str.replace`: the replacement goes before every
  character and at the end. The search hits themselves are inputs.
- The count is the number of hits that rewrite a line
  (pdf_replace.py:134-136). A hit draws nothing or exactly the two
  operations of one line (`MatchOpsShape` with `RewriteOpsFirst`). A line
  with several occurrences is rewritten in full by the first hit that
  reaches it.
- The font name found by the font pass only stops the scan. The text is
  inserted without it (pdf_replace.py:126-130), so `InsertText` carries no
  font.

## Model

| member | source | states |
|---|---|---|
| OutputPath.NextOutputPath | pdf_replace.py:23-40 | the result is the requested path when it is free; otherwise `base(i)ext` for some i >= 2 that is free, with every counter from 2 to i-1 naming an existing path (`IsResolution`); the loop terminates on every finite set |
| OutputPath.ResolutionUnique | pdf_replace.py:35-40 | at most one path satisfies `IsResolution`: the least free counter is unique |
| OutputPath.ResolutionIsFree | pdf_replace.py:28-39 | a resolved path never names an existing file |
| OutputPath.Candidate | pdf_replace.py:37 | the path tried for counter i is `base(i)ext`; it is at least three characters longer than `base + ext`, so never the requested path itself |
| OutputPath.IsResolution | pdf_replace.py:28-40 | the outcome the function promises: the requested path if free, otherwise `base(i)ext` for the least i >= 2 that is free; its meaning is pinned down by `ResolutionUnique` and `ResolutionIsFree` |
| OutputPath.CandidateInjective | pdf_replace.py:37 | different counters give different `base(i)ext` paths |
| OutputPath.ResolutionExampleOne | pdf_replace.py:26 | with `out.pdf` taken, the resolution is `out(2).pdf` |
| OutputPath.ResolutionExampleTwo | pdf_replace.py:26 | with `out.pdf` and `out(2).pdf` taken, the resolution is `out(3).pdf` |
| OutputPath.SplitExt | pdf_replace.py:32 | base followed by extension is the whole path; the extension is empty or a dot followed by a name without dots or slashes |
| Decimal.Digits | pdf_replace.py:37 | the rendering of a counter is non-empty, all decimal digits, with no leading zero except for 0 itself |
| Decimal.ParseDigits | pdf_replace.py:37 | reading the decimal rendering of n back gives n |
| Decimal.DigitsInjective | pdf_replace.py:37 | different counters render differently |
| Layout.TextLinesMembership | pdf_replace.py:81-83 | a line is visited exactly when it belongs to a block of type 0 |
| Layout.TextLinesAppend | pdf_replace.py:100-102 | block→line traversal order is kept when the block list is split |
| Layout.TextLines | pdf_replace.py:81-83 | the lines of the type-0 blocks, block by block in layout order, as both passes visit them (also pdf_replace.py:100-102); membership is stated by `TextLinesMembership` |
| Layout.Join | pdf_replace.py:107 | the concatenation of the span texts in order; stated by `JoinAppend` and `JoinPlacesSpan` |
| Layout.LineText | pdf_replace.py:107 | the text of a line: its spans' texts joined with no separator |
| Layout.JoinAppend | pdf_replace.py:107 | joining span texts distributes over splitting the span list |
| Layout.JoinPlacesSpan | pdf_replace.py:107 | each span's text appears unchanged in the line text at the sum of the lengths of the spans before it |
| StrReplace.ReplaceAll | pdf_replace.py:110-112 | `s.replace(f, r)`: the result differs from `s` exactly when `f` is non-empty, occurs and differs from `r`, or when `f` is empty and `r` is not |
| StrReplace.ReplaceFromChanges | pdf_replace.py:110-112 | for a non-empty pattern, the left-to-right scan changes the text exactly when the pattern occurs and differs from its replacement |
| StrReplace.ReplaceAbsent | pdf_replace.py:110 | with no occurrence of `find`, the text comes back unchanged |
| StrReplace.ReplaceBySelf | pdf_replace.py:110 | replacing `find` by itself changes nothing |
| StrReplace.ReplacePresent | pdf_replace.py:110-112 | an occurrence of `find` that differs from `replace` always changes the text |
| StrReplace.ReplaceLeftmost | pdf_replace.py:110 | replacement is left to right and non-overlapping: text before the leftmost occurrence is kept, that occurrence becomes `replace`, and scanning resumes after it |
| StrReplace.ReplaceLengthCompare | pdf_replace.py:110 | a replacement longer than `find` never shortens the text; a shorter one never lengthens it |
| StrReplace.InterleaveLength | pdf_replace.py:110 | with an empty `find`, the text grows by at least one copy of `replace`, and is unchanged when `replace` is empty |
| StrReplace.HelloWorldExample | pdf_replace.py:110 | `"Hello World"` with `World` → `Universe` gives `"Hello Universe"` |
| StrReplace.FooFooExample | pdf_replace.py:110 | `"foo foo"` with `foo` → `bar` gives `"bar bar"` in one pass |
| FontScan.FirstHit | pdf_replace.py:84-89 | the index returned is the first span whose box intersects the match; none is returned only when no span intersects |
| FontScan.FindFont | pdf_replace.py:77-93 | the nested block/line/span loops with their breaks compute exactly `FontFor`, the scan over the lines of text blocks starting from 11.0 and `""` |
| FontScan.FontFromFirstNamedLine | pdf_replace.py:84-93 | if some line's first intersecting span has a font name, the first such span gives both size and name |
| FontScan.FontFromLastHitLine | pdf_replace.py:84-93 | if no such span has a name, the name stays empty and the size comes from the first intersecting span of the last line that has one |
| FontScan.FontWithoutHits | pdf_replace.py:77-93 | lines without intersecting spans leave size and name as they were |
| FontScan.FontDefault | pdf_replace.py:77-78 | if no span of a type-0 block intersects the match, the size is 11.0 and the name is `""` |
| LineRewrite.FirstRewritten | pdf_replace.py:100-112 | the index returned is the first line that intersects the match and whose text changes; none is returned only when no line qualifies |
| LineRewrite.RewriteOpsFirst | pdf_replace.py:99-138 | per match, the scan draws nothing when no line qualifies; otherwise it draws exactly the operations for the first qualifying line; lines that intersect but do not change add nothing and do not stop the scan |
| LineRewrite.RewritesIff | pdf_replace.py:104-112 | for a non-empty `find`, a line is rewritten exactly when it intersects the match, contains `find`, and `find` differs from `replace` |
| LineRewrite.RewriteFirstLine | pdf_replace.py:97-138 | the nested block/line loops append to the page exactly `RewriteOps` of the text lines: a white fill of the line box, then the new line text in black at `(x0, y1 - size * 0.2)`; the flag says whether a line was rewritten |
| LineRewrite.Baseline | pdf_replace.py:122 | the text baseline is `size * 0.2` above the line's bottom edge: strictly above it for a positive size, on it only for size 0 |
| LineRewrite.LineOps | pdf_replace.py:114-133 | the two operations that rewrite a line: a white fill of its box, then the replaced line text in black at `(x0, Baseline(y1, size))`; their shape per hit is stated by `Engine.MatchOpsShape` |
| LineRewrite.Page.DrawRect | pdf_replace.py:114 | drawing a rectangle appends one fill operation with its colours and changes nothing else |
| LineRewrite.Page.WriteText | pdf_replace.py:118-133 | writing text appends one text insertion with its point, text, size and colour |
| Engine.MatchOpsShape | pdf_replace.py:112-136 | a hit draws nothing, or exactly the fill and the text insertion of the first line it rewrites, at the size the font pass chose |
| Engine.PageOpsLength | pdf_replace.py:112-134 | a page gets exactly two draw operations per counted replacement |
| Engine.PageUntouched | pdf_replace.py:68-72 | a page gets no drawing exactly when its count is 0, which happens exactly when none of its hits rewrites a line (in particular when it has no hits) |
| Engine.PageCountBound | pdf_replace.py:134-136 | the page count never exceeds the number of hits |
| Engine.ProcessMatch | pdf_replace.py:73-138 | one hit: the font pass, then the rewrite pass at that size; the page gains exactly `MatchOps` |
| Engine.ProcessPage | pdf_replace.py:68-138 | the hits of a page in search order: the page gains the hits' operations in that order, and the returned count is the number of hits that rewrote a line |
| Engine.ProcessDocument | pdf_replace.py:61-138 | pages in order: each page gains exactly its own operations, and the count is the sum of the page counts in page order |
| Engine.DoneMessage | pdf_replace.py:144 | the success message `替换完成，共替换 N 处`; the count N reads back from the digits between its prefix and suffix |
| Engine.FailedMessage | pdf_replace.py:146 | the failure message `替换失败：` followed by the error text, which reads back unchanged; it never equals a success message |
| Engine.ReplaceTextInPdf | pdf_replace.py:42-146 | an open failure gives `(False, "替换失败：…", "")` with no drawing; a save failure gives the same form after drawing; success gives `(True, "替换完成，共替换 N 处", path)` with N the document count and the path resolved from the requested one |
| Engine.HelloWorldPage | pdf_replace.py:99-136 | a line `Hello ` + `World` hit over `World` is painted white and rewritten as `Hello Universe` at the span's size 12, with the baseline 2.4 above the line's bottom; the count is 1 |

## Left out

- The `PDFReplaceGUI` class (pdf_replace.py:148-306) and `main` (pdf_replace.py:308-330): user interface and command-line handling.
- The PDF library: opening, text search, layout extraction, the rectangle intersection test, rendering by `TextWriter`, saving and closing. Their results are inputs (search hits, the layout per hit, open and save failures). Drawing is a log of operations.
- Layout after drawing: the layout read for each hit is an input. The model says nothing about what text extraction returns after a line has been redrawn.
- `os.path.exists` is a finite set of paths. `os.path.splitext` is a simple split at the last dot of the final path component, unless that dot starts the component. Its handling of runs of leading dots is not reproduced, and only `/` separates path components (POSIX `os.path`). On Windows `\` also separates them, so a path such as `d.v\r` splits differently there.
- Floating point: sizes, coordinates and `font_size * 0.2` are exact reals.
- Failures other than opening and saving, for example a malformed layout record raising an error mid-page, are not modelled.
- The document is never closed after a failure, and a failed save may leave a partial file. Neither is modelled.
- The race between resolving the output path and saving to it is not modelled.
- Engine.ReplaceTextInPdf: on a save failure it states the outcome and the in-memory drawing, but nothing about the file on disk.
