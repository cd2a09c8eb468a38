/**
 * The text replacement engine: pages in order, on each page the search hits
 * in the order the search returned them, and for each hit the font pass and
 * the line-rewrite pass over the layout read for that hit. The result is a
 * success flag, a message and the path the document was saved to.
 *
 * The PDF library is replaced by inputs: the search hits of every page and
 * the layout read for each hit, the failure (if any) of opening the input
 * and of saving the output, and a Page object per page whose content the
 * drawing calls extend.
 */
module Engine {
  import opened Wrappers
  import opened Geometry
  import opened Layout
  import opened Decimal
  import opened OutputPath
  import opened FontScan
  import opened LineRewrite
  import StrReplace

  /** A search hit: its rectangle and the page layout read while handling it. */
  datatype MatchInput = MatchInput(rect: Rect, layout: seq<Block>)

  /** What the engine reports: success flag, message and output path. */
  datatype Outcome = Outcome(success: bool, message: string, path: string)

  /** The font size used when rewriting a line for this hit. */
  function MatchSize(mi: MatchInput): real
  {
    FontFor(mi.layout, mi.rect).size
  }

  /** The drawing done for one hit. */
  function MatchOps(mi: MatchInput, find: string, replace: string): seq<DrawOp>
  {
    RewriteOps(TextLines(mi.layout), mi.rect, MatchSize(mi), find, replace)
  }

  /** The hit causes a line to be rewritten. */
  predicate MatchRewrites(mi: MatchInput, find: string, replace: string)
  {
    FirstRewritten(TextLines(mi.layout), mi.rect, find, replace).Some?
  }

  /** The drawing done on a page, hit after hit. */
  function PageOps(ms: seq<MatchInput>, find: string, replace: string): seq<DrawOp>
  {
    if ms == [] then []
    else PageOps(ms[..|ms| - 1], find, replace) + MatchOps(ms[|ms| - 1], find, replace)
  }

  /** The number of lines rewritten on a page: one per hit that rewrites a line. */
  function PageCount(ms: seq<MatchInput>, find: string, replace: string): nat
  {
    if ms == [] then 0
    else PageCount(ms[..|ms| - 1], find, replace) + (if MatchRewrites(ms[|ms| - 1], find, replace) then 1 else 0)
  }

  /** The replacement count of a document: the page counts summed in page order. */
  function DocCount(searches: seq<seq<MatchInput>>, find: string, replace: string): nat
  {
    if searches == [] then 0
    else DocCount(searches[..|searches| - 1], find, replace) + PageCount(searches[|searches| - 1], find, replace)
  }

  const DonePrefix := "替换完成，共替换 "
  const DoneSuffix := " 处"
  const FailedPrefix := "替换失败："

  /** The success message; the count can be read back from it. */
  function DoneMessage(count: nat): (r: string)
    ensures |r| >= |DonePrefix| + |DoneSuffix| && r[..|DonePrefix|] == DonePrefix
    ensures Parse(r[|DonePrefix|..|r| - |DoneSuffix|]) == count
  {
    var d := Digits(count);
    ParseDigits(count);
    assert (DonePrefix + d + DoneSuffix)[|DonePrefix|..|DonePrefix| + |d|] == d;
    DonePrefix + d + DoneSuffix
  }

  /** The failure message: it carries the error text and never reads as a success message. */
  function FailedMessage(error: string): (r: string)
    ensures |r| == |FailedPrefix| + |error|
    ensures r[..|FailedPrefix|] == FailedPrefix && r[|FailedPrefix|..] == error
    ensures forall n: nat :: r != DoneMessage(n)
  {
    var r := FailedPrefix + error;
    forall n: nat ensures r != DoneMessage(n) {
      assert DoneMessage(n)[2] == DonePrefix[2] != FailedPrefix[2] == r[2];
    }
    r
  }

  /** A hit draws nothing or exactly the two operations of one line rewrite. */
  lemma MatchOpsShape(mi: MatchInput, find: string, replace: string)
    ensures !MatchRewrites(mi, find, replace) ==> MatchOps(mi, find, replace) == []
    ensures MatchRewrites(mi, find, replace) ==>
      var lines := TextLines(mi.layout);
      var k := FirstRewritten(lines, mi.rect, find, replace).value;
      MatchOps(mi, find, replace) == LineOps(lines[k], MatchSize(mi), find, replace)
  {
    RewriteOpsFirst(TextLines(mi.layout), mi.rect, MatchSize(mi), find, replace);
  }

  /** Every rewrite adds exactly two operations, so a page draws twice its count. */
  lemma {:induction false} PageOpsLength(ms: seq<MatchInput>, find: string, replace: string)
    ensures |PageOps(ms, find, replace)| == 2 * PageCount(ms, find, replace)
  {
    if ms != [] {
      PageOpsLength(ms[..|ms| - 1], find, replace);
      MatchOpsShape(ms[|ms| - 1], find, replace);
    }
  }

  /**
   * A page gets no drawing exactly when none of its hits rewrites a line; in
   * particular a page without hits gets none.
   */
  lemma {:induction false} PageUntouched(ms: seq<MatchInput>, find: string, replace: string)
    ensures PageOps(ms, find, replace) == [] <==> PageCount(ms, find, replace) == 0
    ensures PageCount(ms, find, replace) == 0 <==>
            forall k :: 0 <= k < |ms| ==> !MatchRewrites(ms[k], find, replace)
  {
    PageOpsLength(ms, find, replace);
    if ms != [] {
      var init := ms[..|ms| - 1];
      PageUntouched(init, find, replace);
      assert forall k :: 0 <= k < |init| ==> init[k] == ms[k];
    }
  }

  /** At most one line is rewritten per hit. */
  lemma {:induction false} PageCountBound(ms: seq<MatchInput>, find: string, replace: string)
    ensures PageCount(ms, find, replace) <= |ms|
  {
    if ms != [] {
      PageCountBound(ms[..|ms| - 1], find, replace);
    }
  }

  /** Handles one hit: the font pass, then the line-rewrite pass with the size it found. */
  method ProcessMatch(page: Page, mi: MatchInput, find: string, replace: string) returns (rewritten: bool)
    modifies page
    ensures page.ops == old(page.ops) + MatchOps(mi, find, replace)
    ensures rewritten <==> MatchRewrites(mi, find, replace)
  {
    var size, name := FindFont(mi.layout, mi.rect);
    rewritten := RewriteFirstLine(page, mi.layout, mi.rect, size, find, replace);
  }

  /** Handles the hits of one page in search order and returns how many lines it rewrote. */
  method ProcessPage(page: Page, ms: seq<MatchInput>, find: string, replace: string) returns (n: nat)
    modifies page
    ensures page.ops == old(page.ops) + PageOps(ms, find, replace)
    ensures n == PageCount(ms, find, replace)
  {
    n := 0;
    var k := 0;
    while k < |ms|
      invariant 0 <= k <= |ms|
      invariant page.ops == old(page.ops) + PageOps(ms[..k], find, replace)
      invariant n == PageCount(ms[..k], find, replace)
    {
      assert ms[..k + 1][..k] == ms[..k];
      var rewritten := ProcessMatch(page, ms[k], find, replace);
      if rewritten {
        n := n + 1;
      }
      k := k + 1;
    }
    assert ms[..k] == ms;
  }

  /**
   * Handles the pages in order and returns the replacement count. Pages are
   * distinct objects; each page is drawn on only while it is handled.
   */
  method ProcessDocument(pages: seq<Page>, searches: seq<seq<MatchInput>>, find: string, replace: string)
    returns (count: nat)
    requires |pages| == |searches|
    requires forall i, j :: 0 <= i < j < |pages| ==> pages[i] != pages[j]
    modifies pages
    ensures count == DocCount(searches, find, replace)
    ensures forall k :: 0 <= k < |pages| ==> pages[k].ops == old(pages[k].ops) + PageOps(searches[k], find, replace)
  {
    count := 0;
    var p := 0;
    while p < |pages|
      invariant 0 <= p <= |pages|
      invariant count == DocCount(searches[..p], find, replace)
      invariant forall k :: 0 <= k < p ==> pages[k].ops == old(pages[k].ops) + PageOps(searches[k], find, replace)
      invariant forall k :: p <= k < |pages| ==> pages[k].ops == old(pages[k].ops)
    {
      assert searches[..p + 1][..p] == searches[..p];
      var n := ProcessPage(pages[p], searches[p], find, replace);
      count := count + n;
      p := p + 1;
    }
    assert searches[..p] == searches;
  }

  /**
   * The whole replacement: resolve the output path, open the document,
   * rewrite every page, save. A failure of opening or saving is reported as
   * a failed outcome with an empty path; success reports the count and the
   * path actually used.
   */
  method ReplaceTextInPdf(
    outputPath: string, existing: set<string>,
    pages: seq<Page>, searches: seq<seq<MatchInput>>,
    find: string, replace: string,
    openError: Option<string>, saveError: Option<string>)
    returns (res: Outcome)
    requires |pages| == |searches|
    requires forall i, j :: 0 <= i < j < |pages| ==> pages[i] != pages[j]
    modifies pages
    ensures res.success <==> openError.None? && saveError.None?
    ensures openError.Some? ==> res == Outcome(false, FailedMessage(openError.value), "")
    ensures openError.Some? ==> forall k :: 0 <= k < |pages| ==> pages[k].ops == old(pages[k].ops)
    ensures openError.None? ==>
      forall k :: 0 <= k < |pages| ==> pages[k].ops == old(pages[k].ops) + PageOps(searches[k], find, replace)
    ensures openError.None? && saveError.Some? ==> res == Outcome(false, FailedMessage(saveError.value), "")
    ensures res.success ==>
      res.message == DoneMessage(DocCount(searches, find, replace)) && IsResolution(outputPath, existing, res.path)
  {
    var resolved := NextOutputPath(outputPath, existing);
    if openError.Some? {
      return Outcome(false, FailedMessage(openError.value), "");
    }
    var count := ProcessDocument(pages, searches, find, replace);
    if saveError.Some? {
      return Outcome(false, FailedMessage(saveError.value), "");
    }
    res := Outcome(true, DoneMessage(count), resolved);
  }

  /**
   * A line "Hello World" in two spans, one hit over "World": the line box is
   * painted white and "Hello Universe" is written at the line's left edge,
   * 0.2 * 12 above its bottom, in the hit span's size; the count is 1.
   */
  lemma HelloWorldPage()
    ensures
      var line := Line(Rect(10.0, 100.0, 90.0, 112.0),
                       [Span(Rect(10.0, 100.0, 40.0, 112.0), "Hello ", "Helvetica", 12.0),
                        Span(Rect(40.0, 100.0, 90.0, 112.0), "World", "Helvetica", 12.0)]);
      var mi := MatchInput(Rect(42.0, 101.0, 88.0, 111.0), [Block(TextBlock, [line])]);
      PageOps([mi], "World", "Universe") ==
        [FillRect(line.bbox, White, White), InsertText(Point(10.0, 109.6), "Hello Universe", 12.0, Black)] &&
      PageCount([mi], "World", "Universe") == 1
  {
    var hello := Span(Rect(10.0, 100.0, 40.0, 112.0), "Hello ", "Helvetica", 12.0);
    var world := Span(Rect(40.0, 100.0, 90.0, 112.0), "World", "Helvetica", 12.0);
    var line := Line(Rect(10.0, 100.0, 90.0, 112.0), [hello, world]);
    var blocks := [Block(TextBlock, [line])];
    var mi := MatchInput(Rect(42.0, 101.0, 88.0, 111.0), blocks);
    assert TextLines(blocks) == [line] by {
      assert blocks[1..] == [];
    }
    assert LineText(line) == "Hello World" by {
      assert [hello, world][1..] == [world];
      assert [world][1..] == [];
      assert Join([world]) == "World" + Join([]);
      assert Join([hello, world]) == "Hello " + Join([world]);
      assert "Hello " + "World" == "Hello World";
    }
    StrReplace.HelloWorldExample();
    assert FirstHit(line.spans, mi.rect) == Some(1) by {
      assert !Intersects(mi.rect, hello.bbox);
      assert line.spans[1..] == [world];
    }
    assert FontFor(blocks, mi.rect) == Font(12.0, "Helvetica");
    assert Rewrites(line, mi.rect, "World", "Universe");
    assert MatchOps(mi, "World", "Universe") == LineOps(line, 12.0, "World", "Universe");
    assert [mi][..0] == [];
  }
}
