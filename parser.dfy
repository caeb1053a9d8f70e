/** The FILE-directive segment parser of pkg/template/parser.go.

    A template is split, left to right, into segments that go to standard
    output and segments that go to a named file:

        text #FILE:<name>#<body>#FILE# text

    `Scan` is the scanner's specification, one call per turn of the loop in
    the Go code; `ParseSegments` and `FilterEmptyEdgeSegments` are the loops
    themselves, proved equal to `Parse` and `TrimEdges`. The lemmas state what
    the scan guarantees: the segments reassemble into the template, no segment
    holds a marker, every error points at the marker that caused it, and the
    shape of the result for the simple templates. */
module Parser {
  import opened Wrappers
  import opened ByteStrings

  /** Go's `Segment` with its `SegmentType`: a `Stdout` segment carries only
      content, a `File` segment also the template of its file name. */
  datatype Segment = Stdout(content: Bytes) | File(filename: Bytes, content: Bytes)

  /** The five ways a scan fails, each with the byte offset it reports. */
  datatype ParseError =
    | UnclosedDirective(start: nat)
    | UnexpectedClosingMarker(at: nat)
    | MalformedDirective(at: nat)
    | EmptyFilename(at: nat)
    | NestedDirective(at: nat)

  const FileOpenPrefix: Bytes := [35, 70, 73, 76, 69, 58]  // "#FILE:"
  const FileOpenSuffix: Bytes := [35]                      // "#"
  const FileClose: Bytes := [35, 70, 73, 76, 69, 35]       // "#FILE#"
  /** "#FILE", the part the two markers share. */
  const MarkerStem: Bytes := [35, 70, 73, 76, 69]

  /** While a FILE block is open, the last segment is the File segment the
      closing marker will complete. */
  predicate OpenBlockShape(inBlock: bool, segs: seq<Segment>)
  {
    inBlock ==> |segs| > 0 && segs[|segs| - 1].File?
  }

  /** The scanner's state between two turns of its loop: the variables `pos`,
      `inFileBlock`, `fileBlockStart` and `segments` of the Go code. */
  datatype Cursor = Cursor(pos: nat, inBlock: bool, blockStart: nat, segs: seq<Segment>)

  /** What one turn of the loop does: stop with a result, or go on from a
      new state. */
  datatype Turn = Halt(result: Result<seq<Segment>, ParseError>) | Next(next: Cursor)

  predicate Ready(t: Bytes, c: Cursor)
  {
    c.pos <= |t| && OpenBlockShape(c.inBlock, c.segs)
  }

  /** The text in front of an opening marker as a Stdout segment, or no
      segment at all when that text is empty. */
  function TextSegment(s: Bytes): seq<Segment>
  {
    if |s| > 0 then [Stdout(s)] else []
  }

  /** One turn outside a FILE block: plain text to the end, a stray closing
      marker, or an opening marker whose file name is checked. Every turn
      that goes on has opened a block and moved forward. */
  function OutsideTurn(t: Bytes, c: Cursor): (r: Turn)
    requires Ready(t, c) && c.pos < |t| && !c.inBlock
    ensures r.Next? ==> Ready(t, r.next) && r.next.pos > c.pos && r.next.inBlock
  {
    var pos := c.pos;
    var openIdx := Index(t[pos..], FileOpenPrefix);
    var closeIdx := Index(t[pos..], FileClose);
    if openIdx == -1 && closeIdx == -1 then Halt(Success(c.segs + [Stdout(t[pos..])]))
    else if closeIdx != -1 && (openIdx == -1 || closeIdx < openIdx) then
      Halt(Failure(UnexpectedClosingMarker(pos + closeIdx)))
    else
      // here openIdx != -1: the Go guard `if openIdx != -1` always holds
      OpenTurn(t, c, pos + openIdx)
  }

  /** The rest of a turn outside a FILE block, once the opening marker at
      `openStart` is the first marker ahead: the file name runs to the next
      '#' and must not be blank. */
  function OpenTurn(t: Bytes, c: Cursor, openStart: nat): (r: Turn)
    requires Ready(t, c) && c.pos <= openStart && openStart + |FileOpenPrefix| <= |t| && !c.inBlock
    ensures r.Next? ==> Ready(t, r.next) && r.next.pos > c.pos && r.next.inBlock
  {
    var before := TextSegment(t[c.pos..openStart]);
    var nameStart := openStart + |FileOpenPrefix|;
    var nameEnd := Index(t[nameStart..], FileOpenSuffix);
    if nameEnd == -1 then Halt(Failure(MalformedDirective(openStart)))
    else
      var name := t[nameStart..nameStart + nameEnd];
      if Blank(name) then Halt(Failure(EmptyFilename(openStart)))
      else if Contains(name, FileOpenPrefix) then Halt(Failure(NestedDirective(openStart)))
      else Next(Cursor(nameStart + nameEnd + |FileOpenSuffix|, true, openStart,
                       c.segs + before + [File(name, [])]))
  }

  /** One turn inside the FILE block opened at `c.blockStart`: a nested
      opening marker, or the closing marker, whose preceding text becomes the
      content of the open File segment. */
  function InsideTurn(t: Bytes, c: Cursor): (r: Turn)
    requires Ready(t, c) && c.pos < |t| && c.inBlock
    ensures r.Next? ==> Ready(t, r.next) && r.next.pos > c.pos && !r.next.inBlock
  {
    var pos := c.pos;
    var openIdx := Index(t[pos..], FileOpenPrefix);
    var closeIdx := Index(t[pos..], FileClose);
    if openIdx == -1 && closeIdx == -1 then Halt(Failure(UnclosedDirective(c.blockStart)))
    else if openIdx != -1 && (closeIdx == -1 || openIdx < closeIdx) then
      Halt(Failure(NestedDirective(pos + openIdx)))
    else if closeIdx != -1 then
      var last := |c.segs| - 1;
      Next(Cursor(pos + closeIdx + |FileClose|, false, c.blockStart,
                  c.segs[last := c.segs[last].(content := t[pos..pos + closeIdx])]))
    else
      // unreachable: with no closing marker there is an opening one, caught above
      Halt(Failure(UnclosedDirective(c.blockStart)))
  }

  function TurnAt(t: Bytes, c: Cursor): (r: Turn)
    requires Ready(t, c) && c.pos < |t|
    ensures r.Next? ==> Ready(t, r.next) && r.next.pos > c.pos
  {
    if c.inBlock then InsideTurn(t, c) else OutsideTurn(t, c)
  }

  /** The whole scan from state `c`: turns until one halts or the input is
      used up, when a block still open is reported unclosed. */
  function Scan(t: Bytes, c: Cursor): Result<seq<Segment>, ParseError>
    requires Ready(t, c)
    decreases |t| - c.pos
  {
    if c.pos == |t| then
      if c.inBlock then Failure(UnclosedDirective(c.blockStart)) else Success(c.segs)
    else match TurnAt(t, c)
      case Halt(r) => r
      case Next(c') => Scan(t, c')
  }

  /** The segments the scan appends, before the edges are trimmed. */
  function RawSegments(t: Bytes): Result<seq<Segment>, ParseError>
  {
    Scan(t, Cursor(0, false, 0, []))
  }

  /** What `ParseSegments` returns. */
  function Parse(t: Bytes): Result<seq<Segment>, ParseError>
  {
    if |t| == 0 then Success([Stdout([])])
    else match RawSegments(t)
      case Failure(e) => Failure(e)
      case Success(segs) =>
        if |segs| == 0 then Success([Stdout(t)]) else Success(TrimEdges(segs))
  }

  /** A segment survives edge trimming when it is a File segment or has some
      non-white-space content. */
  predicate Kept(s: Segment)
  {
    s.File? || !Blank(s.content)
  }

  function DropBlankHead(segs: seq<Segment>): seq<Segment>
  {
    if segs != [] && !Kept(segs[0]) then DropBlankHead(segs[1..]) else segs
  }

  function DropBlankTail(segs: seq<Segment>): seq<Segment>
  {
    if segs != [] && !Kept(segs[|segs| - 1]) then DropBlankTail(segs[..|segs| - 1]) else segs
  }

  /** What `filterEmptyEdgeSegments` returns. */
  function TrimEdges(segs: seq<Segment>): seq<Segment>
  {
    if segs == [] then segs
    else
      var middle := DropBlankTail(DropBlankHead(segs));
      if middle == [] then [Stdout([])] else middle
  }

  /** ParseSegments: the scanning loop. Each turn is one of the two loop
      bodies below, chosen by `inFileBlock`; a turn either ends the parse or
      hands back the loop's four variables. */
  method ParseSegments(t: Bytes) returns (r: Result<seq<Segment>, ParseError>)
    ensures r == Parse(t)
  {
    if |t| == 0 {
      return Success([Stdout([])]);
    }
    var segments: seq<Segment> := [];
    var pos: nat := 0;
    var inFileBlock := false;
    var fileBlockStart: nat := 0;
    while pos < |t|
      invariant Ready(t, Cursor(pos, inFileBlock, fileBlockStart, segments))
      invariant Scan(t, Cursor(pos, inFileBlock, fileBlockStart, segments)) == RawSegments(t)
      decreases |t| - pos
    {
      ghost var c0 := Cursor(pos, inFileBlock, fileBlockStart, segments);
      var turn;
      if inFileBlock {
        turn := InsideStep(t, pos, fileBlockStart, segments);
      } else {
        turn := OutsideStep(t, pos, fileBlockStart, segments);
      }
      assert turn == TurnAt(t, c0);
      match turn
      case Halt(res) =>
        assert Scan(t, c0) == res;
        if res.Failure? {
          return res;
        }
        segments := res.value;
        break;
      case Next(c) =>
        assert Scan(t, c0) == Scan(t, c);
        pos, inFileBlock, fileBlockStart, segments := c.pos, c.inBlock, c.blockStart, c.segs;
    }
    if inFileBlock {
      return Failure(UnclosedDirective(fileBlockStart));
    }
    r := SettleSegments(t, segments);
  }

  /** The loop body of ParseSegments outside a FILE block. */
  method OutsideStep(t: Bytes, pos: nat, blockStart: nat, segs: seq<Segment>) returns (turn: Turn)
    requires pos < |t|
    ensures turn == OutsideTurn(t, Cursor(pos, false, blockStart, segs))
  {
    var segments := segs;
    var openIdx := Index(t[pos..], FileOpenPrefix);
    var closeIdx := Index(t[pos..], FileClose);
    if openIdx == -1 && closeIdx == -1 {
      segments := segments + [Stdout(t[pos..])];
      return Halt(Success(segments));
    }
    if closeIdx != -1 && (openIdx == -1 || closeIdx < openIdx) {
      return Halt(Failure(UnexpectedClosingMarker(pos + closeIdx)));
    }
    turn := OpenStep(t, pos, blockStart, pos + openIdx, segs);
  }

  /** The part of the loop body outside a FILE block that handles the
      opening marker at `openStart`: the text before it, then the file name. */
  method OpenStep(t: Bytes, pos: nat, blockStart: nat, openStart: nat, segs: seq<Segment>) returns (turn: Turn)
    requires pos <= openStart && openStart + |FileOpenPrefix| <= |t|
    ensures turn == OpenTurn(t, Cursor(pos, false, blockStart, segs), openStart)
  {
    var segments := segs;
    if openStart > pos {
      segments := segments + [Stdout(t[pos..openStart])];
    }
    var filenameStart := openStart + |FileOpenPrefix|;
    var filenameEnd := Index(t[filenameStart..], FileOpenSuffix);
    if filenameEnd == -1 {
      return Halt(Failure(MalformedDirective(openStart)));
    }
    var filename := t[filenameStart..filenameStart + filenameEnd];
    if Blank(filename) {
      return Halt(Failure(EmptyFilename(openStart)));
    }
    if Contains(filename, FileOpenPrefix) {
      return Halt(Failure(NestedDirective(openStart)));
    }
    segments := segments + [File(filename, [])];
    return Next(Cursor(filenameStart + filenameEnd + |FileOpenSuffix|, true, openStart, segments));
  }

  /** The loop body of ParseSegments inside the FILE block opened at
      `blockStart`: the open File segment is patched when the block closes. */
  method InsideStep(t: Bytes, pos: nat, blockStart: nat, segs: seq<Segment>) returns (turn: Turn)
    requires pos < |t| && OpenBlockShape(true, segs)
    ensures turn == InsideTurn(t, Cursor(pos, true, blockStart, segs))
  {
    var segments := segs;
    var openIdx := Index(t[pos..], FileOpenPrefix);
    var closeIdx := Index(t[pos..], FileClose);
    if openIdx == -1 && closeIdx == -1 {
      return Halt(Failure(UnclosedDirective(blockStart)));
    }
    if openIdx != -1 && (closeIdx == -1 || openIdx < closeIdx) {
      return Halt(Failure(NestedDirective(pos + openIdx)));
    }
    if closeIdx != -1 {
      var content := t[pos..pos + closeIdx];
      segments := segments[|segments| - 1 := segments[|segments| - 1].(content := content)];
      return Next(Cursor(pos + closeIdx + |FileClose|, false, blockStart, segments));
    }
    return Halt(Failure(UnclosedDirective(blockStart)));
  }

  /** The tail of ParseSegments once the loop has ended without an error. */
  method SettleSegments(t: Bytes, segments: seq<Segment>) returns (r: Result<seq<Segment>, ParseError>)
    requires |t| > 0 && RawSegments(t) == Success(segments)
    ensures r == Parse(t)
  {
    if |segments| == 0 {
      return Success([Stdout(t)]);
    }
    var filtered := FilterEmptyEdgeSegments(segments);
    return Success(filtered);
  }

  /** filterEmptyEdgeSegments: advance `start` past blank Stdout segments at
      the front, pull `end` back past those at the back. */
  method FilterEmptyEdgeSegments(segs: seq<Segment>) returns (r: seq<Segment>)
    ensures r == TrimEdges(segs)
  {
    if |segs| == 0 {
      return segs;
    }
    var start := 0;
    var end := |segs|;
    while start < |segs|
      invariant 0 <= start <= |segs|
      invariant DropBlankHead(segs[start..]) == DropBlankHead(segs)
    {
      if Kept(segs[start]) {
        break;
      }
      DropBlankHeadStep(segs, start);
      start := start + 1;
    }
    ghost var head := segs[start..];
    assert head == DropBlankHead(segs);
    assert segs[start..end] == head;
    while end > start
      invariant start <= end <= |segs|
      invariant DropBlankTail(segs[start..end]) == DropBlankTail(head)
    {
      if Kept(segs[end - 1]) {
        break;
      }
      DropBlankTailStep(segs, start, end);
      end := end - 1;
    }
    TrimmedBetween(segs, start, end);
    if start >= end {
      return [Stdout([])];
    }
    return segs[start..end];
  }

  /** Once both ends have stopped moving, the trimmed list is what lies
      between them, or a single empty Stdout segment when nothing does. */
  lemma {:induction false} TrimmedBetween(segs: seq<Segment>, start: nat, end: nat)
    requires 0 < |segs| && start <= end <= |segs|
    requires segs[start..] == DropBlankHead(segs)
    requires DropBlankTail(segs[start..end]) == DropBlankTail(segs[start..])
    requires start < end ==> Kept(segs[end - 1])
    ensures TrimEdges(segs) == if start < end then segs[start..end] else [Stdout([])]
  {
    if start < end {
      assert segs[start..end][end - 1 - start] == segs[end - 1];
    }
  }

  /** Skipping one blank segment at the front does not change what the
      front trimming keeps. */
  lemma {:induction false} DropBlankHeadStep(segs: seq<Segment>, start: nat)
    requires start < |segs| && !Kept(segs[start])
    ensures DropBlankHead(segs[start..]) == DropBlankHead(segs[start + 1..])
  {
    assert segs[start..][1..] == segs[start + 1..];
  }

  /** Pulling the end back past one blank segment does not change what the
      back trimming keeps. */
  lemma {:induction false} DropBlankTailStep(segs: seq<Segment>, start: nat, end: nat)
    requires start < end <= |segs| && !Kept(segs[end - 1])
    ensures DropBlankTail(segs[start..end]) == DropBlankTail(segs[start..end - 1])
  {
    assert segs[start..end][..end - 1 - start] == segs[start..end - 1];
  }
}
