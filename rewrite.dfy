/**
 * Second pass of the rewrite engine: the first line of a text block that
 * intersects the match and whose text changes under replacement is painted
 * over in white and written again, in black, with the replaced text.
 */
module LineRewrite {
  import opened Wrappers
  import opened Geometry
  import opened Layout
  import opened StrReplace

  datatype Color = Color(r: real, g: real, b: real)

  const White: Color := Color(1.0, 1.0, 1.0)
  const Black: Color := Color(0.0, 0.0, 0.0)

  /** What drawing adds to a page's content. */
  datatype DrawOp =
    | FillRect(rect: Rect, stroke: Color, fill: Color)
    | InsertText(at: Point, text: string, size: real, color: Color)

  /** A page of the open document; drawing on it appends to its content, in order. */
  class Page {
    var ops: seq<DrawOp>

    constructor ()
      ensures ops == []
    {
      ops := [];
    }

    /** Draws a rectangle with the given border and fill colours. */
    method DrawRect(r: Rect, stroke: Color, fill: Color)
      modifies this
      ensures ops == old(ops) + [FillRect(r, stroke, fill)]
    {
      ops := ops + [FillRect(r, stroke, fill)];
    }

    /** Writes one run of text with its baseline starting at `at`. */
    method WriteText(at: Point, text: string, size: real, color: Color)
      modifies this
      ensures ops == old(ops) + [InsertText(at, text, size, color)]
    {
      ops := ops + [InsertText(at, text, size, color)];
    }
  }

  /** The line's text after replacing every occurrence of `find`. */
  function NewLineText(line: Line, find: string, replace: string): string
  {
    ReplaceAll(LineText(line), find, replace)
  }

  /** The line is rewritten for this match: it intersects it and its text changes. */
  predicate Rewrites(line: Line, m: Rect, find: string, replace: string)
  {
    Intersects(m, line.bbox) && NewLineText(line, find, replace) != LineText(line)
  }

  /** Baseline of the rewritten text: a fifth of the font size above the line's bottom edge. */
  function Baseline(bottom: real, size: real): (r: real)
    ensures size > 0.0 ==> r < bottom
    ensures r == bottom <==> size == 0.0
  {
    bottom - size * 0.2
  }

  /** The two operations that rewrite a line: a white fill of its box, then the new text in black. */
  function LineOps(line: Line, size: real, find: string, replace: string): seq<DrawOp>
  {
    [FillRect(line.bbox, White, White),
     InsertText(Point(line.bbox.x0, Baseline(line.bbox.y1, size)), NewLineText(line, find, replace), size, Black)]
  }

  /** The scan over lines as the engine performs it: stop at the first line that is rewritten. */
  function RewriteOps(lines: seq<Line>, m: Rect, size: real, find: string, replace: string): seq<DrawOp>
  {
    if lines == [] then []
    else if Rewrites(lines[0], m, find, replace) then LineOps(lines[0], size, find, replace)
    else RewriteOps(lines[1..], m, size, find, replace)
  }

  /** Index of the first line that is rewritten, if any. */
  function FirstRewritten(lines: seq<Line>, m: Rect, find: string, replace: string): (r: Option<nat>)
    ensures r.Some? ==> r.value < |lines| && Rewrites(lines[r.value], m, find, replace)
    ensures r.Some? ==> forall j :: 0 <= j < r.value ==> !Rewrites(lines[j], m, find, replace)
    ensures r.None? ==> forall j :: 0 <= j < |lines| ==> !Rewrites(lines[j], m, find, replace)
  {
    if lines == [] then None
    else if Rewrites(lines[0], m, find, replace) then Some(0)
    else match FirstRewritten(lines[1..], m, find, replace)
      case None => None
      case Some(k) => Some(k + 1)
  }

  /**
   * At most one line is rewritten per match, and it is the first one that
   * intersects the match and changes; lines before it contribute nothing.
   */
  lemma {:induction false} RewriteOpsFirst(lines: seq<Line>, m: Rect, size: real, find: string, replace: string)
    ensures RewriteOps(lines, m, size, find, replace) ==
            match FirstRewritten(lines, m, find, replace)
            case None => []
            case Some(k) => LineOps(lines[k], size, find, replace)
  {
    if lines != [] && !Rewrites(lines[0], m, find, replace) {
      RewriteOpsFirst(lines[1..], m, size, find, replace);
    }
  }

  /**
   * Only a line whose text really changes can be rewritten: for a non-empty
   * `find` it must contain `find` and `replace` must differ from it.
   */
  lemma RewritesIff(line: Line, m: Rect, find: string, replace: string)
    requires find != []
    ensures Rewrites(line, m, find, replace) <==>
            Intersects(m, line.bbox) && Occurs(LineText(line), find) && find != replace
  {
  }

  /**
   * The second pass as the engine runs it: blocks that are not text are
   * skipped; in a text block every line that intersects the match has its
   * text rebuilt and replaced; the first one that changes is painted over
   * and rewritten, and the scan stops.
   */
  method RewriteFirstLine(page: Page, blocks: seq<Block>, m: Rect, size: real, find: string, replace: string)
    returns (rewritten: bool)
    modifies page
    ensures page.ops == old(page.ops) + RewriteOps(TextLines(blocks), m, size, find, replace)
    ensures rewritten <==> FirstRewritten(TextLines(blocks), m, find, replace).Some?
  {
    rewritten := false;
    var bi := 0;
    while bi < |blocks|
      invariant 0 <= bi <= |blocks|
      invariant !rewritten && page.ops == old(page.ops)
      invariant RewriteOps(TextLines(blocks), m, size, find, replace) ==
                RewriteOps(TextLines(blocks[bi..]), m, size, find, replace)
    {
      var block := blocks[bi];
      assert blocks[bi..][0] == block && blocks[bi..][1..] == blocks[bi + 1..];
      assert TextLines(blocks[bi..]) ==
        (if block.kind == TextBlock then block.lines else []) + TextLines(blocks[bi + 1..]);
      if block.kind == TextBlock {
        assert block.lines[0..] == block.lines;
        var li := 0;
        while li < |block.lines|
          invariant 0 <= li <= |block.lines|
          invariant !rewritten && page.ops == old(page.ops)
          invariant RewriteOps(TextLines(blocks), m, size, find, replace) ==
                    RewriteOps(block.lines[li..] + TextLines(blocks[bi + 1..]), m, size, find, replace)
        {
          ghost var rest := block.lines[li..] + TextLines(blocks[bi + 1..]);
          assert rest[0] == block.lines[li];
          assert rest[1..] == block.lines[li + 1..] + TextLines(blocks[bi + 1..]);
          var line := block.lines[li];
          if Intersects(m, line.bbox) {
            var lineText := LineText(line);
            var newText := ReplaceAll(lineText, find, replace);
            if newText != lineText {
              page.DrawRect(line.bbox, White, White);
              page.WriteText(Point(line.bbox.x0, Baseline(line.bbox.y1, size)), newText, size, Black);
              rewritten := true;
              break;
            }
          }
          li := li + 1;
        }
        if rewritten {
          break;
        }
        assert block.lines[li..] + TextLines(blocks[bi + 1..]) == TextLines(blocks[bi + 1..]);
      } else {
        assert TextLines(blocks[bi..]) == TextLines(blocks[bi + 1..]);
      }
      bi := bi + 1;
    }
    RewriteOpsFirst(TextLines(blocks), m, size, find, replace);
  }
}
