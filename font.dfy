/**
 * First pass of the rewrite engine: the font size (and font name) of the
 * text under a match. Lines of text blocks are visited in order; in each
 * line only the first span that intersects the match is used. The scan
 * stops at the first such span with a non-empty font name; a span with an
 * empty font name still sets the size.
 */
module FontScan {
  import opened Wrappers
  import opened Geometry
  import opened Layout

  datatype Font = Font(size: real, name: string)

  /** Size used when no span intersects the match. */
  const DefaultSize: real := 11.0

  /** Index of the first span that intersects the match. */
  function FirstHit(spans: seq<Span>, m: Rect): (r: Option<nat>)
    ensures r.Some? ==> r.value < |spans| && Intersects(m, spans[r.value].bbox)
    ensures r.Some? ==> forall k :: 0 <= k < r.value ==> !Intersects(m, spans[k].bbox)
    ensures r.None? ==> forall k :: 0 <= k < |spans| ==> !Intersects(m, spans[k].bbox)
  {
    if spans == [] then None
    else if Intersects(m, spans[0].bbox) then Some(0)
    else match FirstHit(spans[1..], m)
      case None => None
      case Some(k) => Some(k + 1)
  }

  /** Some span of the line intersects the match. */
  predicate Hits(line: Line, m: Rect)
  {
    FirstHit(line.spans, m).Some?
  }

  /** The first span of the line that intersects the match. */
  function HitSpan(line: Line, m: Rect): Span
    requires Hits(line, m)
  {
    line.spans[FirstHit(line.spans, m).value]
  }

  /** The line's first intersecting span has a font name, so the scan stops there. */
  predicate Named(line: Line, m: Rect)
  {
    Hits(line, m) && HitSpan(line, m).font != ""
  }

  /**
   * The scan over a sequence of lines, starting from the current size (the
   * font name is still empty while the scan goes on).
   */
  function ScanFont(lines: seq<Line>, m: Rect, size: real): Font
  {
    if lines == [] then Font(size, "")
    else match FirstHit(lines[0].spans, m)
      case None => ScanFont(lines[1..], m, size)
      case Some(k) =>
        var sp := lines[0].spans[k];
        if sp.font != "" then Font(sp.size, sp.font) else ScanFont(lines[1..], m, sp.size)
  }

  /** The font chosen for a match over a page layout. */
  function FontFor(blocks: seq<Block>, m: Rect): Font
  {
    ScanFont(TextLines(blocks), m, DefaultSize)
  }

  /** The first line with a named first intersecting span decides size and name. */
  lemma {:induction false} FontFromFirstNamedLine(lines: seq<Line>, m: Rect, size: real, i: nat)
    requires i < |lines| && Named(lines[i], m)
    requires forall j :: 0 <= j < i ==> !Named(lines[j], m)
    ensures ScanFont(lines, m, size) == Font(HitSpan(lines[i], m).size, HitSpan(lines[i], m).font)
  {
    if i > 0 {
      assert !Named(lines[0], m);
      var next := if Hits(lines[0], m) then HitSpan(lines[0], m).size else size;
      assert ScanFont(lines, m, size) == ScanFont(lines[1..], m, next);
      FontFromFirstNamedLine(lines[1..], m, next, i - 1);
    }
  }

  /**
   * Without a named line, the name stays empty and the size is that of the
   * first intersecting span of the last line that has one.
   */
  lemma {:induction false} FontFromLastHitLine(lines: seq<Line>, m: Rect, size: real, i: nat)
    requires i < |lines| && Hits(lines[i], m)
    requires forall j :: 0 <= j < |lines| ==> !Named(lines[j], m)
    requires forall j :: i < j < |lines| ==> !Hits(lines[j], m)
    ensures ScanFont(lines, m, size) == Font(HitSpan(lines[i], m).size, "")
  {
    assert !Named(lines[0], m);
    var next := if Hits(lines[0], m) then HitSpan(lines[0], m).size else size;
    assert ScanFont(lines, m, size) == ScanFont(lines[1..], m, next);
    if i > 0 {
      FontFromLastHitLine(lines[1..], m, next, i - 1);
    } else {
      FontWithoutHits(lines[1..], m, next);
    }
  }

  /** When no line has an intersecting span, the current size and an empty name are kept. */
  lemma {:induction false} FontWithoutHits(lines: seq<Line>, m: Rect, size: real)
    requires forall j :: 0 <= j < |lines| ==> !Hits(lines[j], m)
    ensures ScanFont(lines, m, size) == Font(size, "")
  {
    if lines != [] {
      assert !Hits(lines[0], m);
      FontWithoutHits(lines[1..], m, size);
    }
  }

  /** If no span of any text block intersects the match, the defaults 11.0 and "" are used. */
  lemma FontDefault(blocks: seq<Block>, m: Rect)
    requires forall b, line, sp :: b in blocks && b.kind == TextBlock && line in b.lines && sp in line.spans ==>
               !Intersects(m, sp.bbox)
    ensures FontFor(blocks, m) == Font(DefaultSize, "")
  {
    var lines := TextLines(blocks);
    forall j | 0 <= j < |lines| ensures !Hits(lines[j], m) {
      TextLinesMembership(blocks, lines[j]);
      forall k | 0 <= k < |lines[j].spans| ensures !Intersects(m, lines[j].spans[k].bbox) {
        assert lines[j].spans[k] in lines[j].spans;
      }
    }
    FontWithoutHits(lines, m, DefaultSize);
  }

  /**
   * The first pass as the engine runs it: nested loops over blocks, lines
   * and spans, leaving the span loop at the first intersecting span and the
   * line and block loops once a font name has been found.
   */
  method FindFont(blocks: seq<Block>, m: Rect) returns (size: real, name: string)
    ensures Font(size, name) == FontFor(blocks, m)
  {
    size, name := DefaultSize, "";
    var bi := 0;
    while bi < |blocks|
      invariant 0 <= bi <= |blocks|
      invariant name == ""
      invariant FontFor(blocks, m) == ScanFont(TextLines(blocks[bi..]), m, size)
    {
      var block := blocks[bi];
      assert blocks[bi..][0] == block && blocks[bi..][1..] == blocks[bi + 1..];
      assert TextLines(blocks[bi..]) ==
        (if block.kind == TextBlock then block.lines else []) + TextLines(blocks[bi + 1..]);
      if block.kind == TextBlock {
        assert block.lines[0..] == block.lines;
        var li := 0;
        while li < |block.lines|
          invariant 0 <= li <= |block.lines|
          invariant name == ""
          invariant FontFor(blocks, m) == ScanFont(block.lines[li..] + TextLines(blocks[bi + 1..]), m, size)
        {
          ghost var rest := block.lines[li..] + TextLines(blocks[bi + 1..]);
          assert rest[0] == block.lines[li];
          assert rest[1..] == block.lines[li + 1..] + TextLines(blocks[bi + 1..]);
          var spans := block.lines[li].spans;
          var si := 0;
          while si < |spans|
            invariant 0 <= si <= |spans|
            invariant name == "" && FontFor(blocks, m) == ScanFont(rest, m, size)
            invariant FirstHit(spans, m).None? || si <= FirstHit(spans, m).value
          {
            if Intersects(m, spans[si].bbox) {
              size, name := spans[si].size, spans[si].font;
              break;
            }
            si := si + 1;
          }
          if name != "" {
            break;
          }
          li := li + 1;
        }
        if name != "" {
          break;
        }
        assert block.lines[li..] + TextLines(blocks[bi + 1..]) == TextLines(blocks[bi + 1..]);
      } else {
        assert TextLines(blocks[bi..]) == TextLines(blocks[bi + 1..]);
      }
      bi := bi + 1;
    }
  }
}
