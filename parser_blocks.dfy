/** The scan of pkg/template/parser.go across a run of complete FILE
    blocks. After any prefix made of well-formed blocks, each preceded by
    at most one piece of text, the scan stands outside a block at the end
    of that prefix holding exactly those segments; so an error in a later
    block, or in the text after the last one, is reported at its offset in
    the whole template and not only when it sits in the first block. */
module ParserBlocks {
  import opened Wrappers
  import opened ByteStrings
  import opened Parser
  import opened ParserProofs
  import opened ParserShapes

  lemma {:induction false} DropFront(t: Bytes, p: nat, a: Bytes, b: Bytes)
    requires p <= |t| && t[p..] == a + b
    ensures p + |a| <= |t| && t[p + |a|..] == b
  {
    assert t[p + |a|..] == t[p..][|a|..];
  }

  /** A turn that goes on leaves the scan's result unchanged. */
  lemma {:induction false} ScanStep(t: Bytes, c: Cursor, c1: Cursor)
    requires Ready(t, c) && c.pos < |t| && TurnAt(t, c) == Next(c1)
    ensures Ready(t, c1) && Scan(t, c) == Scan(t, c1)
  {
  }

  /** An outside turn that handles an opening marker and halts with `r`
      ends the scan with `r`. */
  lemma {:induction false} ScanOpenHalt(t: Bytes, c: Cursor, openStart: nat, r: Result<seq<Segment>, ParseError>)
    requires Ready(t, c) && !c.inBlock && c.pos <= openStart && openStart + 6 <= |t|
    requires TurnAt(t, c) == OpenTurn(t, c, openStart) && OpenTurn(t, c, openStart) == Halt(r)
    ensures Scan(t, c) == r
  {
  }

  /** Marker-free text and then an opening marker from `p`: the opening
      marker is the first marker there. */
  lemma {:induction false} TextFound(t: Bytes, p: nat, text: Bytes, after: Bytes)
    requires MarkerFree(text) && !HasSuffix(text, MarkerStem)
    requires p <= |t| && t[p..] == text + FileOpenPrefix + after
    ensures p + |text| + 6 <= |t|
    ensures Index(t[p..], FileOpenPrefix) == |text|
    ensures var closeIdx := Index(t[p..], FileClose); closeIdx == -1 || closeIdx > |text|
    ensures t[p..p + |text|] == text
    ensures t[p + |text|..] == FileOpenPrefix + after
  {
    BodyThenOpen(text, after);
    DropFront(t, p, text, FileOpenPrefix + after);
    assert t[p..p + |text|] == t[p..][..|text|];
  }

  /** The name after an opening marker that follows `text` from `p`, up to
      its '#'. */
  lemma {:induction false} NameFound(t: Bytes, p: nat, text: Bytes, name: Bytes, rest: Bytes)
    requires HashFree(name) && !Blank(name)
    requires p + |text| <= |t| && t[p + |text|..] == OpenTag(name) + rest
    ensures p + |text| + |name| + 7 <= |t|
    ensures Index(t[p + |text| + 6..], FileOpenSuffix) == |name|
    ensures t[p + |text| + 6..p + |text| + 6 + |name|] == name
    ensures !Contains(name, FileOpenPrefix)
    ensures t[p + |text| + |name| + 7..] == rest
  {
    var openStart := p + |text|;
    OpenTagFound(name, rest);
    var nameStart := openStart + 6;
    assert t[nameStart..] == (OpenTag(name) + rest)[6..];
    assert t[nameStart..nameStart + |name|] == t[nameStart..][..|name|];
    HashFreeMarkerFree(name);
    DropFront(t, openStart, OpenTag(name), rest);
  }

  /** The opening turn after `text` once its name is known to be `name`. */
  lemma {:induction false} OpenTurnNamed(t: Bytes, c: Cursor, text: Bytes, name: Bytes) returns (c1: Cursor)
    requires Ready(t, c) && !c.inBlock && c.pos + |text| + 6 <= |t|
    requires t[c.pos..c.pos + |text|] == text
    requires Index(t[c.pos + |text| + 6..], FileOpenSuffix) == |name|
    requires t[c.pos + |text| + 6..c.pos + |text| + 6 + |name|] == name
    requires !Blank(name) && !Contains(name, FileOpenPrefix)
    ensures c1 == Cursor(c.pos + |text| + |name| + 7, true, c.pos + |text|,
                         c.segs + TextSegment(text) + [File(name, [])])
    ensures OpenTurn(t, c, c.pos + |text|) == Next(c1)
  {
    c1 := Cursor(c.pos + |text| + |name| + 7, true, c.pos + |text|, c.segs + TextSegment(text) + [File(name, [])]);
  }

  /** Outside a block, text up to the first marker, an opening one: when
      the turn at that marker goes on, the scan's result is unchanged. */
  lemma {:induction false} ScanOpenStep(t: Bytes, c: Cursor, text: Bytes, c1: Cursor)
    requires Ready(t, c) && !c.inBlock && c.pos + |text| + 6 <= |t|
    requires Index(t[c.pos..], FileOpenPrefix) == |text|
    requires var closeIdx := Index(t[c.pos..], FileClose); closeIdx == -1 || closeIdx > |text|
    requires OpenTurn(t, c, c.pos + |text|) == Next(c1)
    ensures Ready(t, c1) && Scan(t, c) == Scan(t, c1)
  {
    assert TurnAt(t, c) == OpenTurn(t, c, c.pos + |text|);
  }

  /** Outside a block, text up to the first marker, an opening one, and a
      valid name up to its '#': the turn opens the block and the scan goes
      on from just after the name's '#'. */
  lemma {:induction false} OpenStep(t: Bytes, c: Cursor, text: Bytes, name: Bytes) returns (c1: Cursor)
    requires Ready(t, c) && !c.inBlock && c.pos + |text| + 6 <= |t|
    requires Index(t[c.pos..], FileOpenPrefix) == |text|
    requires var closeIdx := Index(t[c.pos..], FileClose); closeIdx == -1 || closeIdx > |text|
    requires t[c.pos..c.pos + |text|] == text
    requires Index(t[c.pos + |text| + 6..], FileOpenSuffix) == |name|
    requires t[c.pos + |text| + 6..c.pos + |text| + 6 + |name|] == name
    requires !Blank(name) && !Contains(name, FileOpenPrefix)
    ensures c1 == Cursor(c.pos + |text| + |name| + 7, true, c.pos + |text|,
                         c.segs + TextSegment(text) + [File(name, [])])
    ensures Ready(t, c1) && Scan(t, c) == Scan(t, c1)
  {
    c1 := OpenTurnNamed(t, c, text, name);
    ScanOpenStep(t, c, text, c1);
  }

  /** Marker-free text and then a well-named opening marker from `p`: the
      facts the turn there reads off the template. */
  lemma {:induction false} OpenFacts(t: Bytes, p: nat, text: Bytes, name: Bytes, rest: Bytes)
    requires MarkerFree(text) && !HasSuffix(text, MarkerStem)
    requires HashFree(name) && !Blank(name)
    requires p <= |t| && t[p..] == text + OpenTag(name) + rest
    ensures p + |text| + |name| + 7 <= |t|
    ensures Index(t[p..], FileOpenPrefix) == |text|
    ensures var closeIdx := Index(t[p..], FileClose); closeIdx == -1 || closeIdx > |text|
    ensures t[p..p + |text|] == text
    ensures Index(t[p + |text| + 6..], FileOpenSuffix) == |name|
    ensures t[p + |text| + 6..p + |text| + 6 + |name|] == name
    ensures !Contains(name, FileOpenPrefix)
    ensures t[p + |text| + |name| + 7..] == rest
  {
    assert t[p..] == text + FileOpenPrefix + (name + FileOpenSuffix + rest);
    TextFound(t, p, text, name + FileOpenSuffix + rest);
    NameFound(t, p, text, name, rest);
  }

  /** Outside a block, marker-free text and then a well-named opening
      marker: the turn opens a block at the marker, after a Stdout segment
      for the text when there is any. */
  lemma {:induction false} OpenAt(t: Bytes, c: Cursor, text: Bytes, name: Bytes, rest: Bytes) returns (c1: Cursor)
    requires Ready(t, c) && !c.inBlock
    requires MarkerFree(text) && !HasSuffix(text, MarkerStem)
    requires HashFree(name) && !Blank(name)
    requires t[c.pos..] == text + OpenTag(name) + rest
    ensures c1 == Cursor(c.pos + |text| + |name| + 7, true, c.pos + |text|,
                         c.segs + TextSegment(text) + [File(name, [])])
    ensures Ready(t, c1) && Scan(t, c) == Scan(t, c1)
    ensures t[c1.pos..] == rest
  {
    OpenFacts(t, c.pos, text, name, rest);
    c1 := OpenStep(t, c, text, name);
  }

  /** Inside a block, a marker-free body that does not end in "#FILE" and
      then the closing marker: the turn closes the block with the body as
      the content of its File segment. */
  lemma {:induction false} CloseAt(t: Bytes, c: Cursor, body: Bytes, rest: Bytes) returns (c2: Cursor)
    requires Ready(t, c) && c.inBlock
    requires MarkerFree(body) && !HasSuffix(body, MarkerStem)
    requires t[c.pos..] == body + FileClose + rest
    ensures c2 == Cursor(c.pos + |body| + 6, false, c.blockStart,
                         c.segs[|c.segs| - 1 := c.segs[|c.segs| - 1].(content := body)])
    ensures Ready(t, c2) && Scan(t, c) == Scan(t, c2)
    ensures t[c2.pos..] == rest
  {
    var u, tail := t[c.pos..], FileClose + rest;
    assert u == body + tail;
    forall j | 0 <= j < |body|
      ensures !OccursAt(u, FileOpenPrefix, j) && !OccursAt(u, FileClose, j)
    {
      NotInBody(body, tail, j);
    }
    assert u[|body|..|body| + 6] == FileClose;
    IndexIs(u, FileClose, |body|);
    assert !OccursAt(u, FileOpenPrefix, |body|);
    DropFront(t, c.pos, body, tail);
    DropFront(t, c.pos + |body|, FileClose, rest);
    assert t[c.pos..c.pos + |body|] == body;
    c2 := Cursor(c.pos + |body| + 6, false, c.blockStart,
                 c.segs[|c.segs| - 1 := c.segs[|c.segs| - 1].(content := body)]);
    assert TurnAt(t, c) == Next(c2);
    ScanStep(t, c, c2);
  }

  /** Inside a block, an opening marker ahead of every closing one fails
      as nested at that marker. */
  lemma {:induction false} NestedAt(t: Bytes, c: Cursor, body: Bytes, rest: Bytes, at: nat)
    requires Ready(t, c) && c.inBlock
    requires MarkerFree(body) && !HasSuffix(body, MarkerStem)
    requires t[c.pos..] == body + FileOpenPrefix + rest
    requires at == c.pos + |body|
    ensures Scan(t, c) == Failure(NestedDirective(at))
  {
    BodyThenOpen(body, rest);
    assert InsideTurn(t, c) == Halt(Failure(NestedDirective(at)));
  }

  /** Inside a block, a marker-free rest of the template fails as unclosed
      at the block's opening marker. */
  lemma {:induction false} UnclosedAt(t: Bytes, c: Cursor, at: nat)
    requires Ready(t, c) && c.inBlock && MarkerFree(t[c.pos..])
    requires at == c.blockStart
    ensures Scan(t, c) == Failure(UnclosedDirective(at))
  {
    if c.pos < |t| {
      IndexNone(t[c.pos..], FileOpenPrefix);
      IndexNone(t[c.pos..], FileClose);
      assert InsideTurn(t, c) == Halt(Failure(UnclosedDirective(at)));
    }
  }

  /** A whole chunk, text and then a complete block, takes the scan from
      the chunk's start to its end, outside a block, with the chunk's
      segments appended. */
  lemma {:induction false} BlockAt(t: Bytes, c: Cursor, text: Bytes, name: Bytes, body: Bytes, rest: Bytes)
    returns (c2: Cursor)
    requires Ready(t, c) && !c.inBlock
    requires MarkerFree(text) && !HasSuffix(text, MarkerStem)
    requires HashFree(name) && !Blank(name)
    requires MarkerFree(body) && !HasSuffix(body, MarkerStem)
    requires t[c.pos..] == text + OpenTag(name) + body + FileClose + rest
    ensures Ready(t, c2) && !c2.inBlock && Scan(t, c) == Scan(t, c2)
    ensures c2.pos == c.pos + |text| + |name| + 7 + |body| + 6
    ensures c2.segs == c.segs + TextSegment(text) + [File(name, body)]
    ensures t[c2.pos..] == rest
  {
    assert t[c.pos..] == text + OpenTag(name) + (body + FileClose + rest);
    var c1 := OpenAt(t, c, text, name, body + FileClose + rest);
    c2 := CloseAt(t, c1, body, rest);
    FillLast(c.segs + TextSegment(text), name, body);
  }

  lemma {:induction false} FillLast(init: seq<Segment>, name: Bytes, body: Bytes)
    ensures var segs := init + [File(name, [])];
      segs[|segs| - 1 := segs[|segs| - 1].(content := body)] == init + [File(name, body)]
  {
    var segs := init + [File(name, [])];
    assert segs[|segs| - 1] == File(name, []);
  }

  /** A segment the scan cuts back out of its own markup: marker-free
      content that does not end in "#FILE", a Stdout segment that is not
      empty, a file name that is not blank and has no '#'. */
  predicate ChunkSafe(s: Segment)
  {
    MarkerFree(s.content) && !HasSuffix(s.content, MarkerStem)
    && (s.Stdout? ==> s.content != [])
    && (s.File? ==> HashFree(s.filename) && !Blank(s.filename))
  }

  /** Complete blocks, each preceded by at most one Stdout segment: the
      last segment is a File segment, and so is every one after a Stdout
      segment. */
  predicate Chunked(segs: seq<Segment>)
  {
    (forall i | 0 <= i < |segs| :: ChunkSafe(segs[i]))
    && (segs != [] ==> segs[|segs| - 1].File?)
    && (forall i, j | 0 <= i && j == i + 1 < |segs| :: segs[i].Stdout? ==> segs[j].File?)
  }

  /** Cutting the segments after a File segment keeps them chunked. */
  lemma {:induction false} ChunkedInit(segs: seq<Segment>, k: nat)
    requires Chunked(segs) && k <= |segs|
    requires k == 0 || segs[k - 1].File?
    ensures Chunked(segs[..k])
  {
    forall i | 0 <= i < k
      ensures segs[..k][i] == segs[i]
    {
    }
  }

  /** The last chunk of chunked segments: the File segment at the end and
      the Stdout segment before it, if there is one, whose content is
      `text` (empty when there is none). */
  lemma {:induction false} SplitLast(segs: seq<Segment>) returns (k: nat, text: Bytes)
    requires Chunked(segs) && segs != []
    ensures k < |segs| && segs[|segs| - 1].File? && ChunkSafe(segs[|segs| - 1])
    ensures Chunked(segs[..k]) && MarkerFree(text) && !HasSuffix(text, MarkerStem)
    ensures segs == segs[..k] + TextSegment(text) + [segs[|segs| - 1]]
    ensures Flatten(segs) == Flatten(segs[..k]) + text + Markup(segs[|segs| - 1])
  {
    var n := |segs|;
    var last := segs[n - 1];
    assert ChunkSafe(last);
    if n >= 2 && segs[n - 2].Stdout? {
      k, text := n - 2, segs[n - 2].content;
      assert ChunkSafe(segs[n - 2]);
      assert TextSegment(text) == [segs[n - 2]];
      assert segs[..k] + [segs[n - 2]] + [last] == segs;
      if k > 0 {
        assert segs[k].Stdout? && segs[k - 1].File?;
      }
    } else {
      k, text := n - 1, [];
      assert MarkerFree(text);
      assert segs[..k] + [] + [last] == segs;
    }
    assert segs == segs[..k] + TextSegment(text) + [last];
    ChunkedInit(segs, k);
    FlattenSnoc(segs[..k] + TextSegment(text), last);
    FlattenText(segs[..k], text);
  }

  lemma {:induction false} Regroup4(a: Bytes, b: Bytes, c: Bytes, d: Bytes)
    requires a == b + c
    ensures a + d == b + (c + d)
  {
  }

  lemma {:induction false} ChunkText(text: Bytes, name: Bytes, body: Bytes, rest: Bytes)
    ensures text + Markup(File(name, body)) + rest == text + OpenTag(name) + body + FileClose + rest
  {
  }

  lemma {:induction false} SegsRegroup(a: seq<Segment>, b: seq<Segment>, c: seq<Segment>, d: seq<Segment>)
    ensures a + b + c + d == a + (b + c + d)
  {
  }

  /** The scan goes through every complete chunk: from a state outside a
      block, after the markup of chunked segments it stands outside a block
      at their end, having appended exactly those segments. */
  lemma {:induction false} ReachesAfter(t: Bytes, c0: Cursor, segs: seq<Segment>, rest: Bytes) returns (c: Cursor)
    requires Ready(t, c0) && !c0.inBlock && Chunked(segs)
    requires t[c0.pos..] == Flatten(segs) + rest
    ensures Ready(t, c) && !c.inBlock && Scan(t, c0) == Scan(t, c)
    ensures c.pos == c0.pos + |Flatten(segs)| && c.segs == c0.segs + segs
    ensures t[c.pos..] == rest
    decreases |segs|
  {
    if segs == [] {
      assert c0.segs + segs == c0.segs;
      c := c0;
    } else {
      var k, text := SplitLast(segs);
      var init, last := segs[..k], segs[|segs| - 1];
      var block := text + Markup(last);
      Regroup3(Flatten(init), text, Markup(last));
      Regroup4(Flatten(segs), Flatten(init), block, rest);
      var c1 := ReachesAfter(t, c0, init, block + rest);
      ChunkText(text, last.filename, last.content, rest);
      c := BlockAt(t, c1, text, last.filename, last.content, rest);
      SegsRegroup(c0.segs, init, TextSegment(text), [last]);
    }
  }

  /** The state the scan starts from. */
  function Start(): Cursor
  {
    Cursor(0, false, 0, [])
  }

  /** A failure the scan reaches from its start is what the parse returns. */
  lemma {:induction false} ReachedFailure(t: Bytes, c: Cursor, e: ParseError)
    requires Ready(t, c) && Scan(t, Start()) == Scan(t, c) && Scan(t, c) == Failure(e)
    ensures Parse(t) == Failure(e)
  {
  }

  /** From a state outside a block: text, a block opened, and an opening
      marker inside it before any closing one. */
  lemma {:induction false} NestedAfter(t: Bytes, c: Cursor, text: Bytes, name: Bytes, body: Bytes, rest: Bytes, at: nat)
    requires Ready(t, c) && !c.inBlock
    requires MarkerFree(text) && !HasSuffix(text, MarkerStem)
    requires HashFree(name) && !Blank(name)
    requires MarkerFree(body) && !HasSuffix(body, MarkerStem)
    requires t[c.pos..] == text + OpenTag(name) + (body + FileOpenPrefix + rest)
    requires at == c.pos + |text| + |name| + 7 + |body|
    ensures Scan(t, c) == Failure(NestedDirective(at))
  {
    var c1 := OpenAt(t, c, text, name, body + FileOpenPrefix + rest);
    NestedAt(t, c1, body, rest, at);
  }

  lemma {:induction false} NestedShape(pre: Bytes, text: Bytes, tag: Bytes, body: Bytes, rest: Bytes)
    ensures pre + text + tag + body + FileOpenPrefix + rest
            == pre + (text + tag + (body + FileOpenPrefix + rest))
  {
  }

  lemma {:induction false} NestedFromStart(segs: seq<Segment>, text: Bytes, name: Bytes, body: Bytes, rest: Bytes, at: nat)
    requires Chunked(segs)
    requires MarkerFree(text) && !HasSuffix(text, MarkerStem)
    requires HashFree(name) && !Blank(name)
    requires MarkerFree(body) && !HasSuffix(body, MarkerStem)
    requires at == |Flatten(segs)| + |text| + |name| + 7 + |body|
    ensures Parse(Flatten(segs) + text + OpenTag(name) + body + FileOpenPrefix + rest)
            == Failure(NestedDirective(at))
  {
    var t := Flatten(segs) + text + OpenTag(name) + body + FileOpenPrefix + rest;
    var after := text + OpenTag(name) + (body + FileOpenPrefix + rest);
    NestedShape(Flatten(segs), text, OpenTag(name), body, rest);
    assert t[0..] == t;
    var c := ReachesAfter(t, Start(), segs, after);
    NestedAfter(t, c, text, name, body, rest, at);
    ReachedFailure(t, c, NestedDirective(at));
  }

  /** An opening marker inside a block, ahead of the block's closing
      marker, fails as nested at its offset in the whole template, after
      any run of complete blocks and any text before the block. */
  lemma {:induction false} ParseNestedOpen(t: Bytes, segs: seq<Segment>, text: Bytes, name: Bytes, body: Bytes, rest: Bytes)
    returns (at: nat)
    requires Chunked(segs)
    requires MarkerFree(text) && !HasSuffix(text, MarkerStem)
    requires HashFree(name) && !Blank(name)
    requires MarkerFree(body) && !HasSuffix(body, MarkerStem)
    requires t == Flatten(segs) + text + OpenTag(name) + body + FileOpenPrefix + rest
    ensures at == |Flatten(segs)| + |text| + |name| + 7 + |body|
    ensures Parse(t) == Failure(NestedDirective(at))
  {
    at := |Flatten(segs)| + |text| + |name| + 7 + |body|;
    NestedFromStart(segs, text, name, body, rest, at);
  }

  /** From a state outside a block: text, a block opened, and no marker
      after it. */
  lemma {:induction false} UnclosedAfter(t: Bytes, c: Cursor, text: Bytes, name: Bytes, body: Bytes, at: nat)
    requires Ready(t, c) && !c.inBlock
    requires MarkerFree(text) && !HasSuffix(text, MarkerStem)
    requires HashFree(name) && !Blank(name)
    requires MarkerFree(body)
    requires t[c.pos..] == text + OpenTag(name) + body
    requires at == c.pos + |text|
    ensures Scan(t, c) == Failure(UnclosedDirective(at))
  {
    var c1 := OpenAt(t, c, text, name, body);
    UnclosedAt(t, c1, at);
  }

  lemma {:induction false} UnclosedFromStart(segs: seq<Segment>, text: Bytes, name: Bytes, body: Bytes, at: nat)
    requires Chunked(segs)
    requires MarkerFree(text) && !HasSuffix(text, MarkerStem)
    requires HashFree(name) && !Blank(name)
    requires MarkerFree(body)
    requires at == |Flatten(segs)| + |text|
    ensures Parse(Flatten(segs) + text + OpenTag(name) + body) == Failure(UnclosedDirective(at))
  {
    var after := text + OpenTag(name) + body;
    var t := Flatten(segs) + text + OpenTag(name) + body;
    Regroup3(Flatten(segs) + text, OpenTag(name), body);
    Regroup3(Flatten(segs), text, OpenTag(name) + body);
    Regroup3(text, OpenTag(name), body);
    assert t[0..] == t;
    var c := ReachesAfter(t, Start(), segs, after);
    UnclosedAfter(t, c, text, name, body, at);
    ReachedFailure(t, c, UnclosedDirective(at));
  }

  /** A block with no closing marker after its opening one fails as
      unclosed at the offset of its opening marker in the whole template,
      after any run of complete blocks and any text before it. */
  lemma {:induction false} ParseUnclosedBlock(t: Bytes, segs: seq<Segment>, text: Bytes, name: Bytes, body: Bytes)
    returns (at: nat)
    requires Chunked(segs)
    requires MarkerFree(text) && !HasSuffix(text, MarkerStem)
    requires HashFree(name) && !Blank(name)
    requires MarkerFree(body)
    requires t == Flatten(segs) + text + OpenTag(name) + body
    ensures at == |Flatten(segs)| + |text|
    ensures Parse(t) == Failure(UnclosedDirective(at))
  {
    at := |Flatten(segs)| + |text|;
    UnclosedFromStart(segs, text, name, body, at);
  }

  /** "#FILE:name#FILE#", where the '#' ending the name was forgotten: the
      name ends at the closing marker's '#', and the block it opens is
      never closed. */
  lemma {:induction false} SwallowedShape(t: Bytes, name: Bytes)
    requires t == FileOpenPrefix + name + FileClose
    ensures MarkerFree([70, 73, 76, 69, 35]) && |Flatten([])| == 0
    ensures t == Flatten([]) + [] + OpenTag(name) + [70, 73, 76, 69, 35]
  {
    assert MarkerFree([70, 73, 76, 69, 35]);
  }

  lemma {:induction false} ParseSwallowedClose(t: Bytes, name: Bytes)
    requires HashFree(name) && !Blank(name)
    requires t == FileOpenPrefix + name + FileClose
    ensures Parse(t) == Failure(UnclosedDirective(0))
  {
    SwallowedShape(t, name);
    assert MarkerFree([]);
    var at := ParseUnclosedBlock(t, [], [], name, [70, 73, 76, 69, 35]);
  }


  /** Outside a block, a closing marker ahead of every opening one fails
      as unexpected at that marker. */
  lemma {:induction false} StrayCloseAt(t: Bytes, c: Cursor, at: nat)
    requires Ready(t, c) && !c.inBlock && c.pos < |t|
    requires var openIdx, closeIdx := Index(t[c.pos..], FileOpenPrefix), Index(t[c.pos..], FileClose);
      closeIdx != -1 && (openIdx == -1 || closeIdx < openIdx) && at == c.pos + closeIdx
    ensures Scan(t, c) == Failure(UnexpectedClosingMarker(at))
  {
    assert OutsideTurn(t, c) == Halt(Failure(UnexpectedClosingMarker(at)));
  }

  /** Outside a block, the first marker an opening one: the turn at that
      marker. */
  lemma {:induction false} OpenFirst(t: Bytes, c: Cursor, openIdx: nat, at: nat)
    requires Ready(t, c) && !c.inBlock && c.pos < |t|
    requires var closeIdx := Index(t[c.pos..], FileClose);
      Index(t[c.pos..], FileOpenPrefix) == openIdx && !(closeIdx != -1 && closeIdx < openIdx)
    requires at == c.pos + openIdx
    ensures at + 6 <= |t|
    ensures TurnAt(t, c) == OpenTurn(t, c, at)
  {
    OccursInSuffix(t, FileOpenPrefix, c.pos, openIdx);
  }

  /** The opening turn at `openStart` with no '#' after the marker. */
  lemma {:induction false} OpenTurnMalformed(t: Bytes, c: Cursor, openStart: nat)
    requires Ready(t, c) && !c.inBlock && c.pos <= openStart && openStart + 6 <= |t|
    requires Index(t[openStart + 6..], FileOpenSuffix) == -1
    ensures OpenTurn(t, c, openStart) == Halt(Failure(MalformedDirective(openStart)))
  {
  }

  /** Outside a block, an opening marker first and no '#' after it fails
      as malformed at that marker. */
  lemma {:induction false} MalformedAt(t: Bytes, c: Cursor, openIdx: nat, at: nat)
    requires Ready(t, c) && !c.inBlock && c.pos < |t|
    requires var closeIdx := Index(t[c.pos..], FileClose);
      Index(t[c.pos..], FileOpenPrefix) == openIdx && !(closeIdx != -1 && closeIdx < openIdx)
    requires at == c.pos + openIdx
    requires at + 6 <= |t| && Index(t[at + 6..], FileOpenSuffix) == -1
    ensures Scan(t, c) == Failure(MalformedDirective(at))
  {
    OpenFirst(t, c, openIdx, at);
    OpenTurnMalformed(t, c, at);
    ScanOpenHalt(t, c, at, Failure(MalformedDirective(at)));
  }

  /** The opening turn at `openStart` when its name, up to the first '#',
      is blank. */
  lemma {:induction false} OpenTurnBlank(t: Bytes, c: Cursor, openStart: nat, nameEnd: nat)
    requires Ready(t, c) && !c.inBlock && c.pos <= openStart && openStart + 6 <= |t|
    requires Index(t[openStart + 6..], FileOpenSuffix) == nameEnd
    requires Blank(t[openStart + 6..openStart + 6 + nameEnd])
    ensures OpenTurn(t, c, openStart) == Halt(Failure(EmptyFilename(openStart)))
  {
  }

  /** Outside a block, an opening marker first with a blank name before
      its '#' fails as an empty file name at that marker. */
  lemma {:induction false} EmptyNameAt(t: Bytes, c: Cursor, openIdx: nat, nameEnd: nat, at: nat)
    requires Ready(t, c) && !c.inBlock && c.pos < |t|
    requires var closeIdx := Index(t[c.pos..], FileClose);
      Index(t[c.pos..], FileOpenPrefix) == openIdx && !(closeIdx != -1 && closeIdx < openIdx)
    requires at == c.pos + openIdx
    requires at + 6 <= |t| && Index(t[at + 6..], FileOpenSuffix) == nameEnd
    requires Blank(t[at + 6..at + 6 + nameEnd])
    ensures Scan(t, c) == Failure(EmptyFilename(at))
  {
    OpenFirst(t, c, openIdx, at);
    OpenTurnBlank(t, c, at, nameEnd);
    ScanOpenHalt(t, c, at, Failure(EmptyFilename(at)));
  }

  /** The slices of `s` from `i` (to `j`) are those of `t` from `q` (to
      `r`) when `s` is `t` from `p`. */
  lemma {:induction false} SliceAt(t: Bytes, p: nat, s: Bytes, i: nat, j: nat, q: nat, r: nat)
    requires p <= |t| && t[p..] == s && i <= j <= |s| && q == p + i && r == p + j
    ensures q <= r <= |t| && t[q..] == s[i..] && t[q..r] == s[i..j]
  {
    assert t[q..] == t[p..][i..];
    assert t[q..r] == t[q..][..j - i];
    assert s[i..j] == s[i..][..j - i];
  }

  /** The scan of `Flatten(segs) + s` reaches the start of `s`. */
  lemma {:induction false} ReachesFromStart(t: Bytes, segs: seq<Segment>, s: Bytes) returns (c: Cursor)
    requires Chunked(segs) && t == Flatten(segs) + s
    ensures Ready(t, c) && !c.inBlock && Scan(t, Start()) == Scan(t, c)
    ensures c.pos == |Flatten(segs)| && t[c.pos..] == s
  {
    assert t[0..] == t;
    c := ReachesAfter(t, Start(), segs, s);
  }

  lemma {:induction false} StrayCloseReached(t: Bytes, c: Cursor, s: Bytes, at: nat)
    requires Ready(t, c) && !c.inBlock && Scan(t, Start()) == Scan(t, c) && t[c.pos..] == s
    requires var openIdx, closeIdx := Index(s, FileOpenPrefix), Index(s, FileClose);
      closeIdx != -1 && (openIdx == -1 || closeIdx < openIdx) && at == c.pos + closeIdx
    ensures Parse(t) == Failure(UnexpectedClosingMarker(at))
  {
    StrayCloseAt(t, c, at);
    ReachedFailure(t, c, UnexpectedClosingMarker(at));
  }

  lemma {:induction false} MalformedScan(t: Bytes, c: Cursor, s: Bytes, openIdx: nat, at: nat)
    requires Ready(t, c) && !c.inBlock && t[c.pos..] == s
    requires var closeIdx := Index(s, FileClose);
      Index(s, FileOpenPrefix) == openIdx && !(closeIdx != -1 && closeIdx < openIdx)
    requires openIdx + 6 <= |s| && Index(s[openIdx + 6..], FileOpenSuffix) == -1
    requires at == c.pos + openIdx
    ensures Scan(t, c) == Failure(MalformedDirective(at))
  {
    SliceAt(t, c.pos, s, openIdx + 6, openIdx + 6, at + 6, at + 6);
    MalformedAt(t, c, openIdx, at);
  }

  lemma {:induction false} MalformedReached(t: Bytes, c: Cursor, s: Bytes, openIdx: nat, at: nat)
    requires Ready(t, c) && !c.inBlock && Scan(t, Start()) == Scan(t, c) && t[c.pos..] == s
    requires var closeIdx := Index(s, FileClose);
      Index(s, FileOpenPrefix) == openIdx && !(closeIdx != -1 && closeIdx < openIdx)
    requires openIdx + 6 <= |s| && Index(s[openIdx + 6..], FileOpenSuffix) == -1
    requires at == c.pos + openIdx
    ensures Parse(t) == Failure(MalformedDirective(at))
  {
    MalformedScan(t, c, s, openIdx, at);
    ReachedFailure(t, c, MalformedDirective(at));
  }

  lemma {:induction false} EmptyNameScan(t: Bytes, c: Cursor, s: Bytes, openIdx: nat, nameEnd: nat, at: nat)
    requires Ready(t, c) && !c.inBlock && t[c.pos..] == s
    requires var closeIdx := Index(s, FileClose);
      Index(s, FileOpenPrefix) == openIdx && !(closeIdx != -1 && closeIdx < openIdx)
    requires openIdx + 6 <= |s| && Index(s[openIdx + 6..], FileOpenSuffix) == nameEnd
    requires Blank(s[openIdx + 6..openIdx + 6 + nameEnd])
    requires at == c.pos + openIdx
    ensures Scan(t, c) == Failure(EmptyFilename(at))
  {
    SliceAt(t, c.pos, s, openIdx + 6, openIdx + 6 + nameEnd, at + 6, at + 6 + nameEnd);
    EmptyNameAt(t, c, openIdx, nameEnd, at);
  }

  lemma {:induction false} EmptyNameReached(t: Bytes, c: Cursor, s: Bytes, openIdx: nat, nameEnd: nat, at: nat)
    requires Ready(t, c) && !c.inBlock && Scan(t, Start()) == Scan(t, c) && t[c.pos..] == s
    requires var closeIdx := Index(s, FileClose);
      Index(s, FileOpenPrefix) == openIdx && !(closeIdx != -1 && closeIdx < openIdx)
    requires openIdx + 6 <= |s| && Index(s[openIdx + 6..], FileOpenSuffix) == nameEnd
    requires Blank(s[openIdx + 6..openIdx + 6 + nameEnd])
    requires at == c.pos + openIdx
    ensures Parse(t) == Failure(EmptyFilename(at))
  {
    EmptyNameScan(t, c, s, openIdx, nameEnd, at);
    ReachedFailure(t, c, EmptyFilename(at));
  }

  lemma {:induction false} StrayCloseAfter(t: Bytes, segs: seq<Segment>, s: Bytes, at: nat)
    requires Chunked(segs) && t == Flatten(segs) + s
    requires var openIdx, closeIdx := Index(s, FileOpenPrefix), Index(s, FileClose);
      closeIdx != -1 && (openIdx == -1 || closeIdx < openIdx) && at == |Flatten(segs)| + closeIdx
    ensures Parse(t) == Failure(UnexpectedClosingMarker(at))
  {
    var c := ReachesFromStart(t, segs, s);
    StrayCloseReached(t, c, s, at);
  }

  /** After any run of complete blocks, a closing marker ahead of every
      opening one fails as unexpected, at its offset in the whole
      template. */
  /** After any run of complete blocks, a closing marker ahead of every
      opening one fails as unexpected, at its offset `at` in the whole
      template. */
  lemma {:induction false} ParseStrayClose(t: Bytes, segs: seq<Segment>, s: Bytes) returns (at: nat)
    requires Chunked(segs) && t == Flatten(segs) + s
    requires var openIdx, closeIdx := Index(s, FileOpenPrefix), Index(s, FileClose);
      closeIdx != -1 && (openIdx == -1 || closeIdx < openIdx)
    ensures at == |Flatten(segs)| + Index(s, FileClose)
    ensures Parse(t) == Failure(UnexpectedClosingMarker(at))
  {
    at := |Flatten(segs)| + Index(s, FileClose);
    StrayCloseAfter(t, segs, s, at);
  }

  lemma {:induction false} MalformedAfter(t: Bytes, segs: seq<Segment>, s: Bytes, openIdx: nat, at: nat)
    requires Chunked(segs) && t == Flatten(segs) + s
    requires var closeIdx := Index(s, FileClose);
      Index(s, FileOpenPrefix) == openIdx && !(closeIdx != -1 && closeIdx < openIdx)
    requires openIdx + 6 <= |s| && Index(s[openIdx + 6..], FileOpenSuffix) == -1
    requires at == |Flatten(segs)| + openIdx
    ensures Parse(t) == Failure(MalformedDirective(at))
  {
    var c := ReachesFromStart(t, segs, s);
    MalformedReached(t, c, s, openIdx, at);
  }

  /** After any run of complete blocks, an opening marker that comes first
      and has no '#' after it fails as malformed, at its offset `at` in the
      whole template. */
  lemma {:induction false} ParseMalformed(t: Bytes, segs: seq<Segment>, s: Bytes) returns (at: nat)
    requires Chunked(segs) && t == Flatten(segs) + s
    requires var openIdx, closeIdx := Index(s, FileOpenPrefix), Index(s, FileClose);
      openIdx != -1 && !(closeIdx != -1 && closeIdx < openIdx)
      && Index(s[openIdx + 6..], FileOpenSuffix) == -1
    ensures at == |Flatten(segs)| + Index(s, FileOpenPrefix)
    ensures Parse(t) == Failure(MalformedDirective(at))
  {
    var openIdx := Index(s, FileOpenPrefix);
    at := |Flatten(segs)| + openIdx;
    MalformedAfter(t, segs, s, openIdx, at);
  }

  lemma {:induction false} EmptyNameAfter(t: Bytes, segs: seq<Segment>, s: Bytes, openIdx: nat, nameEnd: nat, at: nat)
    requires Chunked(segs) && t == Flatten(segs) + s
    requires var closeIdx := Index(s, FileClose);
      Index(s, FileOpenPrefix) == openIdx && !(closeIdx != -1 && closeIdx < openIdx)
    requires openIdx + 6 <= |s| && Index(s[openIdx + 6..], FileOpenSuffix) == nameEnd
    requires Blank(s[openIdx + 6..openIdx + 6 + nameEnd])
    requires at == |Flatten(segs)| + openIdx
    ensures Parse(t) == Failure(EmptyFilename(at))
  {
    var c := ReachesFromStart(t, segs, s);
    EmptyNameReached(t, c, s, openIdx, nameEnd, at);
  }

  /** After any run of complete blocks, an opening marker that comes first
      and whose name up to the next '#' is blank fails as an empty file
      name, at its offset `at` in the whole template. */
  lemma {:induction false} ParseEmptyName(t: Bytes, segs: seq<Segment>, s: Bytes) returns (at: nat)
    requires Chunked(segs) && t == Flatten(segs) + s
    requires var openIdx, closeIdx := Index(s, FileOpenPrefix), Index(s, FileClose);
      openIdx != -1 && !(closeIdx != -1 && closeIdx < openIdx)
      && var nameEnd := Index(s[openIdx + 6..], FileOpenSuffix);
         nameEnd != -1 && Blank(s[openIdx + 6..openIdx + 6 + nameEnd])
    ensures at == |Flatten(segs)| + Index(s, FileOpenPrefix)
    ensures Parse(t) == Failure(EmptyFilename(at))
  {
    var openIdx := Index(s, FileOpenPrefix);
    var nameEnd := Index(s[openIdx + 6..], FileOpenSuffix);
    at := |Flatten(segs)| + openIdx;
    EmptyNameAfter(t, segs, s, openIdx, nameEnd, at);
  }

  lemma {:induction false} OneBlock(seg: Segment)
    requires seg.File? && ChunkSafe(seg)
    ensures Chunked([seg]) && Flatten([seg]) == OpenTag(seg.filename) + seg.content + FileClose
    ensures |Flatten([seg])| == |seg.filename| + |seg.content| + 13
  {
    assert Flatten([seg]) == Flatten([]) + Markup(seg);
  }

  lemma {:induction false} SecondBlockShape(t: Bytes, z: byte)
    requires t == [35, 70, 73, 76, 69, 58, 97, 35, 120, 35, 70, 73, 76, 69, 35,
                   35, 70, 73, 76, 69, 58, 98, 35, 121, 35, 70, 73, 76, 69, 58, z]
    ensures t == OpenTag([97]) + [120] + FileClose + [] + OpenTag([98]) + [121] + FileOpenPrefix + [z]
  {
  }

  lemma {:induction false} SecondBlockParts()
    ensures ChunkSafe(File([97], [120]))
    ensures MarkerFree([]) && !HasSuffix([], MarkerStem)
    ensures HashFree([98]) && !Blank([98])
    ensures MarkerFree([121]) && !HasSuffix([121], MarkerStem)
  {
    assert MarkerFree([120]) && MarkerFree([121]) && MarkerFree([]);
    assert SpaceWidth([97]) == 0 && SpaceWidth([98]) == 0;
  }

  /** "#FILE:a#x#FILE##FILE:b#y#FILE:" and any byte after it, such as
      'z': the opening marker inside the second block is reported at
      offset 24. */
  lemma {:induction false} NestedInSecondBlock(t: Bytes, z: byte)
    requires t == [35, 70, 73, 76, 69, 58, 97, 35, 120, 35, 70, 73, 76, 69, 35,
                   35, 70, 73, 76, 69, 58, 98, 35, 121, 35, 70, 73, 76, 69, 58, z]
    ensures Parse(t) == Failure(NestedDirective(24))
  {
    SecondBlockShape(t, z);
    SecondBlockParts();
    OneBlock(File([97], [120]));
    var at := ParseNestedOpen(t, [File([97], [120])], [], [98], [121], [z]);
    assert at == 24;
  }
}
