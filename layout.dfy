/**
 * The text layout of a page as the PDF library reports it: blocks of lines
 * of spans. Only blocks of kind 0 hold text; the others (images) are skipped
 * by every traversal of the engine.
 */
module Layout {
  import opened Geometry

  /** A run of glyphs sharing one font and size. */
  datatype Span = Span(bbox: Rect, text: string, font: string, size: real)

  /** One visual line: its bounding rectangle and its spans in stored order. */
  datatype Line = Line(bbox: Rect, spans: seq<Span>)

  /** A layout block; `kind` is the library's block type. */
  datatype Block = Block(kind: int, lines: seq<Line>)

  const TextBlock: int := 0

  /**
   * The lines of all text blocks, in block-then-line order: the order in
   * which both passes of the engine visit lines.
   */
  function TextLines(blocks: seq<Block>): seq<Line>
  {
    if blocks == [] then []
    else (if blocks[0].kind == TextBlock then blocks[0].lines else []) + TextLines(blocks[1..])
  }

  /** Every visited line belongs to some text block, and every line of a text block is visited. */
  lemma {:induction false} TextLinesMembership(blocks: seq<Block>, line: Line)
    ensures line in TextLines(blocks) <==>
            exists b :: b in blocks && b.kind == TextBlock && line in b.lines
  {
    if blocks != [] {
      TextLinesMembership(blocks[1..], line);
      assert forall b :: b in blocks <==> b == blocks[0] || b in blocks[1..];
    }
  }

  /** Traversal order is preserved when the block list is split. */
  lemma {:induction false} TextLinesAppend(a: seq<Block>, b: seq<Block>)
    ensures TextLines(a + b) == TextLines(a) + TextLines(b)
  {
    if a == [] {
      assert a + b == b;
    } else {
      assert (a + b)[1..] == a[1..] + b;
      TextLinesAppend(a[1..], b);
    }
  }

  /** The concatenation of the texts of the spans, in their stored order. */
  function Join(spans: seq<Span>): string
  {
    if spans == [] then [] else spans[0].text + Join(spans[1..])
  }

  /** The full text of a line. */
  function LineText(line: Line): string
  {
    Join(line.spans)
  }

  /** The number of characters before span `k` in the joined text. */
  function Offset(spans: seq<Span>, k: nat): nat
    requires k <= |spans|
  {
    if k == 0 then 0 else Offset(spans, k - 1) + |spans[k - 1].text|
  }

  /** Joining distributes over splitting the span list. */
  lemma {:induction false} JoinAppend(a: seq<Span>, b: seq<Span>)
    ensures Join(a + b) == Join(a) + Join(b)
  {
    if a == [] {
      assert a + b == b;
    } else {
      assert (a + b)[1..] == a[1..] + b;
      JoinAppend(a[1..], b);
    }
  }

  /** Joining the first k spans yields exactly Offset(spans, k) characters. */
  lemma {:induction false} JoinPrefixLength(spans: seq<Span>, k: nat)
    requires k <= |spans|
    ensures |Join(spans[..k])| == Offset(spans, k)
  {
    if k > 0 {
      JoinPrefixLength(spans, k - 1);
      assert spans[..k] == spans[..k - 1] + [spans[k - 1]];
      JoinAppend(spans[..k - 1], [spans[k - 1]]);
      assert Join([spans[k - 1]]) == spans[k - 1].text + Join([]);
    }
  }

  /** Each span's text appears in the line text at its offset, unchanged. */
  lemma {:induction false} JoinPlacesSpan(spans: seq<Span>, k: nat)
    requires k < |spans|
    ensures Offset(spans, k) + |spans[k].text| <= |Join(spans)|
    ensures Join(spans)[Offset(spans, k)..Offset(spans, k) + |spans[k].text|] == spans[k].text
  {
    var tail := spans[k..];
    assert spans == spans[..k] + tail;
    JoinAppend(spans[..k], tail);
    assert tail[0] == spans[k];
    JoinPrefixLength(spans, k);
    var pre, mid, post := Join(spans[..k]), spans[k].text, Join(tail[1..]);
    assert Join(tail) == mid + post;
    SliceOfConcat(pre, mid, post);
  }

  lemma SliceOfConcat(pre: string, mid: string, post: string)
    ensures (pre + (mid + post))[|pre|..|pre| + |mid|] == mid
  {
  }
}
