/** What the FILE-directive scan of pkg/template/parser.go guarantees:
    the segments it produces reassemble into the template, none of them
    holds a marker, every error points at the marker that caused it, the
    edge trimming cuts a contiguous run out of the segment list, and the
    exact result for the simple template shapes. */
module ParserProofs {
  import opened Wrappers
  import opened ByteStrings
  import opened Parser

  /** The opening marker of a block named `n`: "#FILE:" n "#". */
  function OpenTag(n: Bytes): Bytes
  {
    FileOpenPrefix + n + FileOpenSuffix
  }

  /** The template text a segment was cut from. */
  function Markup(s: Segment): Bytes
  {
    match s
    case Stdout(c) => c
    case File(n, c) => OpenTag(n) + c + FileClose
  }

  function Flatten(segs: seq<Segment>): Bytes
  {
    if segs == [] then [] else Flatten(segs[..|segs| - 1]) + Markup(segs[|segs| - 1])
  }

  predicate MarkerFree(s: Bytes)
  {
    !Contains(s, FileOpenPrefix) && !Contains(s, FileClose)
  }

  /** No marker in the content, and no '#' in a File name. */
  predicate WellFormed(s: Segment)
  {
    MarkerFree(s.content) && (s.File? ==> HashFree(s.filename))
  }

  predicate AllWellFormed(segs: seq<Segment>)
  {
    forall i | 0 <= i < |segs| :: WellFormed(segs[i])
  }

  /** The offset of the first '#' after the opening prefix at `p`, or -1. */
  function NameLength(t: Bytes, p: nat): int
    requires p + |FileOpenPrefix| <= |t|
  {
    Index(t[p + |FileOpenPrefix|..], FileOpenSuffix)
  }

  /** The marker an error names is where the error says it is. An
      unexpected closing marker starts at its offset; the other errors name
      an opening prefix. A malformed directive has no '#' after its prefix;
      an empty one has a blank name before its first '#'; an unclosed one
      has no closing marker after that '#'. */
  predicate Explains(t: Bytes, e: ParseError)
  {
    match e
    case UnexpectedClosingMarker(p) => OccursAt(t, FileClose, p)
    case NestedDirective(p) => OccursAt(t, FileOpenPrefix, p)
    case MalformedDirective(p) =>
      OccursAt(t, FileOpenPrefix, p) && HashFree(t[p + |FileOpenPrefix|..])
    case EmptyFilename(p) =>
      OccursAt(t, FileOpenPrefix, p) && NameLength(t, p) != -1
      && Blank(t[p + |FileOpenPrefix|..p + |FileOpenPrefix| + NameLength(t, p)])
    case UnclosedDirective(p) =>
      OccursAt(t, FileOpenPrefix, p) && NameLength(t, p) != -1
      && forall j | p + |FileOpenPrefix| + NameLength(t, p) < j <= |t| :: !OccursAt(t, FileClose, j)
  }

  /** What a finished scan guarantees. */
  predicate ResultOk(t: Bytes, r: Result<seq<Segment>, ParseError>)
  {
    match r
    case Success(segs) => Flatten(segs) == t && AllWellFormed(segs)
    case Failure(e) => Explains(t, e)
  }

  /** Inside a block the scan has consumed the segments before the open
      File segment, then its opening marker, its name and the '#'. */
  function OpenedText(segs: seq<Segment>): Bytes
    requires OpenBlockShape(true, segs)
  {
    Flatten(segs[..|segs| - 1]) + OpenTag(segs[|segs| - 1].filename)
  }

  /** The invariant of the scan: what it consumed is the template up to the
      cursor, every segment is well formed, and an open block started at
      `blockStart`. */
  predicate Tracks(t: Bytes, c: Cursor)
  {
    Ready(t, c) && AllWellFormed(c.segs)
    && (!c.inBlock ==> Flatten(c.segs) == t[..c.pos])
    && (c.inBlock ==>
          OpenedText(c.segs) == t[..c.pos]
          && c.blockStart + |FileOpenPrefix| + |c.segs[|c.segs| - 1].filename| + |FileOpenSuffix| == c.pos)
  }

  lemma {:induction false} TracksInBlock(t: Bytes, c: Cursor)
    requires Ready(t, c) && c.inBlock && AllWellFormed(c.segs) && OpenedText(c.segs) == t[..c.pos]
    requires c.blockStart + |FileOpenPrefix| + |c.segs[|c.segs| - 1].filename| + |FileOpenSuffix| == c.pos
    ensures Tracks(t, c)
  {
  }

  predicate TurnOk(t: Bytes, turn: Turn)
  {
    match turn
    case Halt(r) => ResultOk(t, r)
    case Next(c) => Tracks(t, c)
  }

  lemma {:induction false} PrefixSplit(t: Bytes, i: nat, j: nat)
    requires i <= j <= |t|
    ensures t[..j] == t[..i] + t[i..j]
  {
  }

  lemma {:induction false} FlattenSnoc(segs: seq<Segment>, s: Segment)
    ensures Flatten(segs + [s]) == Flatten(segs) + Markup(s)
  {
    assert (segs + [s])[..|segs|] == segs;
  }

  /** A hash-free string holds neither marker, both of which start with '#'. */
  lemma {:induction false} HashFreeMarkerFree(s: Bytes)
    requires HashFree(s)
    ensures MarkerFree(s)
  {
    forall i | 0 <= i <= |s|
      ensures !OccursAt(s, FileOpenPrefix, i) && !OccursAt(s, FileClose, i)
    {
      if i + 6 <= |s| {
        assert s[i..i + 6][0] == s[i];
      }
    }
  }

  /** No occurrence of `sub` in `s[k..]` means none in `s` at or after `k`. */
  lemma {:induction false} NoneAfter(s: Bytes, sub: Bytes, k: nat)
    requires k <= |s|
    requires Index(s[k..], sub) == -1
    ensures forall j | k <= j <= |s| :: !OccursAt(s, sub, j)
  {
    forall j | k <= j <= |s|
      ensures !OccursAt(s, sub, j)
    {
      OccursInSuffix(s, sub, k, j - k);
    }
  }

  /** Text in front of the first occurrence of `sub` holds no `sub`. */
  lemma {:induction false} NoneBefore(s: Bytes, sub: Bytes, k: nat)
    requires k <= |s| && |sub| > 0
    requires forall j | 0 <= j < k :: !OccursAt(s, sub, j)
    ensures !Contains(s[..k], sub)
  {
    if Contains(s[..k], sub) {
      var i :| 0 <= i <= k && OccursAt(s[..k], sub, i);
      OccursInPrefix(s, sub, k, i);
    }
  }

  /** A template whose first `|x| + 7 + |name|` bytes end in an opening
      marker, a hash-free name and '#' has that marker at `|x|`, and the
      name is what follows it up to the first '#'. */
  lemma {:induction false} OpenMarkerFacts(t: Bytes, x: Bytes, name: Bytes, pos: nat)
    requires pos <= |t| && t[..pos] == x + FileOpenPrefix + name + FileOpenSuffix
    requires HashFree(name)
    ensures OccursAt(t, FileOpenPrefix, |x|)
    ensures NameLength(t, |x|) == |name|
  {
    var b := |x|;
    assert t[b..b + 6] == t[..pos][b..b + 6] == FileOpenPrefix;
    var rest := t[b + 6..];
    assert rest[..|name|] == t[..pos][b + 6..b + 6 + |name|] == name;
    assert rest[|name|] == t[..pos][pos - 1] == 35;
    forall j | 0 <= j < |name|
      ensures !OccursAt(rest, FileOpenSuffix, j)
    {
      assert rest[j..j + 1][0] == rest[..|name|][j];
    }
    assert rest[|name|..|name| + 1] == [35];
    IndexIs(rest, FileOpenSuffix, |name|);
  }

  /** Inside a block the template holds the opening marker at `blockStart`,
      followed by the block's name and the '#' that ends it. */
  lemma {:induction false} OpenBlockFacts(t: Bytes, c: Cursor)
    requires Tracks(t, c) && c.inBlock
    ensures OccursAt(t, FileOpenPrefix, c.blockStart)
    ensures NameLength(t, c.blockStart) == |c.segs[|c.segs| - 1].filename|
  {
    var x, name := Flatten(c.segs[..|c.segs| - 1]), c.segs[|c.segs| - 1].filename;
    assert WellFormed(c.segs[|c.segs| - 1]);
    assert t[..c.pos] == x + OpenTag(name);
    assert x + OpenTag(name) == x + FileOpenPrefix + name + FileOpenSuffix;
    assert |x| == c.blockStart;
    OpenMarkerFacts(t, x, name, c.pos);
  }

  /** Text in front of an opening prefix that comes before every marker is
      itself marker-free. */
  lemma {:induction false} TextBeforeFree(t: Bytes, pos: nat, k: nat)
    requires pos + k <= |t|
    requires forall j | 0 <= j < k :: !OccursAt(t[pos..], FileOpenPrefix, j)
    requires forall j | 0 <= j < k :: !OccursAt(t[pos..], FileClose, j)
    ensures MarkerFree(t[pos..pos + k])
  {
    NoneBefore(t[pos..], FileOpenPrefix, k);
    NoneBefore(t[pos..], FileClose, k);
    assert t[pos..][..k] == t[pos..pos + k];
  }

  /** The name up to the first '#' holds no '#'. */
  lemma {:induction false} NameHashFree(t: Bytes, nameStart: nat, nameEnd: nat)
    requires nameStart + nameEnd <= |t|
    requires forall j | 0 <= j < nameEnd :: !OccursAt(t[nameStart..], FileOpenSuffix, j)
    ensures HashFree(t[nameStart..nameStart + nameEnd])
  {
    var name := t[nameStart..nameStart + nameEnd];
    forall i | 0 <= i < |name|
      ensures name[i] != 35
    {
      assert !OccursAt(t[nameStart..], FileOpenSuffix, i);
      assert t[nameStart..][i..i + 1] == [name[i]];
    }
  }

  /** After an opening marker at `openStart` whose name ends at a '#', the
      template up to that '#' is the text up to `pos`, then the text in
      front of the marker, then the marker with its name. */
  lemma {:induction false} OpenedPrefix(t: Bytes, pos: nat, openStart: nat, nameEnd: nat)
    requires pos <= openStart && openStart + |FileOpenPrefix| + nameEnd < |t|
    requires OccursAt(t, FileOpenPrefix, openStart)
    requires t[openStart + |FileOpenPrefix| + nameEnd] == 35
    ensures t[..openStart + |FileOpenPrefix| + nameEnd + 1]
            == t[..pos] + t[pos..openStart]
               + OpenTag(t[openStart + |FileOpenPrefix|..openStart + |FileOpenPrefix| + nameEnd])
  {
    var nameStart := openStart + |FileOpenPrefix|;
    var newPos := nameStart + nameEnd + 1;
    var name := t[nameStart..nameStart + nameEnd];
    PrefixSplit(t, pos, openStart);
    PrefixSplit(t, openStart, nameStart);
    PrefixSplit(t, nameStart, nameStart + nameEnd);
    PrefixSplit(t, nameStart + nameEnd, newPos);
    assert t[openStart..nameStart] == FileOpenPrefix;
    assert t[nameStart + nameEnd..newPos] == FileOpenSuffix;
    ConcatAssoc(t[..pos] + t[pos..openStart], FileOpenPrefix, name, FileOpenSuffix);
  }

  lemma {:induction false} FlattenText(segs: seq<Segment>, s: Bytes)
    ensures Flatten(segs + TextSegment(s)) == Flatten(segs) + s
  {
    if |s| > 0 {
      FlattenSnoc(segs, Stdout(s));
    } else {
      assert segs + [] == segs;
    }
  }

  /** The segment list after an opening turn is well formed. */
  lemma {:induction false} OpenTurnWellFormed(segs: seq<Segment>, before: Bytes, name: Bytes, segs': seq<Segment>)
    requires AllWellFormed(segs) && MarkerFree(before) && HashFree(name)
    requires segs' == segs + TextSegment(before) + [File(name, [])]
    ensures AllWellFormed(segs')
  {
    assert MarkerFree([]);
    forall i | 0 <= i < |segs'|
      ensures WellFormed(segs'[i])
    {
      if i < |segs| {
        assert segs'[i] == segs[i];
      } else if i == |segs'| - 1 {
        assert segs'[i] == File(name, []);
      } else {
        assert segs'[i] == Stdout(before);
      }
    }
  }

  /** A block opened after `segs` and the text `before` has consumed both,
      then the opening marker with its name. */
  lemma {:induction false} OpenedAfter(segs: seq<Segment>, before: Bytes, name: Bytes)
    ensures OpenBlockShape(true, segs + TextSegment(before) + [File(name, [])])
    ensures OpenedText(segs + TextSegment(before) + [File(name, [])])
            == Flatten(segs) + before + OpenTag(name)
  {
    var init := segs + TextSegment(before);
    assert (init + [File(name, [])])[..|init|] == init;
    FlattenText(segs, before);
  }

  /** Outside a block with no marker ahead: the rest of the template
      becomes the last Stdout segment. */
  lemma {:induction false} OutsidePlainSound(t: Bytes, c: Cursor)
    requires Ready(t, c) && c.pos < |t| && !c.inBlock
    requires Flatten(c.segs) == t[..c.pos] && AllWellFormed(c.segs)
    requires Index(t[c.pos..], FileOpenPrefix) == -1 && Index(t[c.pos..], FileClose) == -1
    ensures TurnOk(t, OutsideTurn(t, c))
  {
    var s := t[c.pos..];
    assert OutsideTurn(t, c) == Halt(Success(c.segs + [Stdout(s)]));
    assert t[..c.pos] + s == t;
    PlainTailSound(t, c.segs, s);
  }

  /** Marker-free text appended to a sound segment list that reassembles
      a prefix of the template completes it. */
  lemma {:induction false} PlainTailSound(t: Bytes, segs: seq<Segment>, s: Bytes)
    requires Flatten(segs) + s == t && AllWellFormed(segs)
    requires Index(s, FileOpenPrefix) == -1 && Index(s, FileClose) == -1
    ensures ResultOk(t, Success(segs + [Stdout(s)]))
  {
    FlattenSnoc(segs, Stdout(s));
    assert MarkerFree(s);
    assert forall i | 0 <= i < |segs| :: (segs + [Stdout(s)])[i] == segs[i];
  }

  /** Outside a block, a closing marker ahead of every opening one. */
  lemma {:induction false} OutsideCloseSound(t: Bytes, c: Cursor)
    requires Ready(t, c) && c.pos < |t| && !c.inBlock
    requires var openIdx := Index(t[c.pos..], FileOpenPrefix);
      var closeIdx := Index(t[c.pos..], FileClose);
      closeIdx != -1 && (openIdx == -1 || closeIdx < openIdx)
    ensures TurnOk(t, OutsideTurn(t, c))
  {
    var closeIdx := Index(t[c.pos..], FileClose);
    assert OutsideTurn(t, c) == Halt(Failure(UnexpectedClosingMarker(c.pos + closeIdx)));
    OccursInSuffix(t, FileClose, c.pos, closeIdx);
  }

  /** Outside a block, an opening prefix whose name is missing its '#',
      blank, or nested. */
  lemma {:induction false} OutsideOpenErrorSound(t: Bytes, c: Cursor)
    requires Ready(t, c) && c.pos < |t| && !c.inBlock
    requires var openIdx := Index(t[c.pos..], FileOpenPrefix);
      var closeIdx := Index(t[c.pos..], FileClose);
      openIdx != -1 && !(closeIdx != -1 && closeIdx < openIdx)
    requires OutsideTurn(t, c).Halt?
    ensures TurnOk(t, OutsideTurn(t, c))
  {
    var openStart := OpenMarkerAhead(t, c.pos);
    assert OutsideTurn(t, c) == OpenTurn(t, c, openStart);
    OpenErrorSound(t, c, openStart);
  }

  /** The errors of an opening turn name the opening prefix they found. */
  lemma {:induction false} OpenErrorSound(t: Bytes, c: Cursor, openStart: nat)
    requires Ready(t, c) && c.pos <= openStart && openStart + |FileOpenPrefix| <= |t| && !c.inBlock
    requires OccursAt(t, FileOpenPrefix, openStart)
    requires OpenTurn(t, c, openStart).Halt?
    ensures ResultOk(t, OpenTurn(t, c, openStart).result)
  {
    var nameStart := openStart + |FileOpenPrefix|;
    var nameEnd := Index(t[nameStart..], FileOpenSuffix);
    if nameEnd == -1 {
      assert OpenTurn(t, c, openStart) == Halt(Failure(MalformedDirective(openStart)));
      NoSuffixHashFree(t[nameStart..]);
    } else if Blank(t[nameStart..nameStart + nameEnd]) {
      assert OpenTurn(t, c, openStart) == Halt(Failure(EmptyFilename(openStart)));
    } else {
      assert OpenTurn(t, c, openStart) == Halt(Failure(NestedDirective(openStart)));
    }
  }

  /** A string with no '#' at all is hash-free. */
  lemma {:induction false} NoSuffixHashFree(s: Bytes)
    requires Index(s, FileOpenSuffix) == -1
    ensures HashFree(s)
  {
    forall j | 0 <= j < |s|
      ensures s[j] != 35
    {
      assert !OccursAt(s, FileOpenSuffix, j);
      assert s[j..j + 1] == [s[j]];
    }
  }

  /** What an opening turn that goes on finds: the name is hash-free, and
      the template up to the '#' after the name is the text up to `c.pos`,
      the text in front of the marker, and the marker with its name. */
  lemma {:induction false} OpenTurnShape(t: Bytes, c: Cursor, openStart: nat)
    returns (before: Bytes, name: Bytes, newPos: nat)
    requires Ready(t, c) && c.pos <= openStart && openStart + |FileOpenPrefix| <= |t| && !c.inBlock
    requires OccursAt(t, FileOpenPrefix, openStart)
    requires OpenTurn(t, c, openStart).Next?
    ensures before == t[c.pos..openStart]
    ensures newPos == openStart + |FileOpenPrefix| + |name| + |FileOpenSuffix| <= |t|
    ensures HashFree(name)
    ensures t[..newPos] == t[..c.pos] + before + OpenTag(name)
    ensures OpenTurn(t, c, openStart).next
            == Cursor(newPos, true, openStart, c.segs + TextSegment(before) + [File(name, [])])
  {
    var nameStart := openStart + |FileOpenPrefix|;
    var nameEnd := Index(t[nameStart..], FileOpenSuffix);
    NameHashFree(t, nameStart, nameEnd);
    assert t[nameStart..][nameEnd..nameEnd + 1] == [t[nameStart + nameEnd]];
    OpenedPrefix(t, c.pos, openStart, nameEnd);
    before := t[c.pos..openStart];
    name := t[nameStart..nameStart + nameEnd];
    newPos := nameStart + nameEnd + 1;
  }

  /** Outside a block, an opening marker with a good name opens a block at
      `openStart`: the text in front of the marker is marker-free, the
      name is hash-free, and the template up to the new position is the
      consumed text, that text and the marker with its name. */
  lemma {:induction false} OutsideOpenShape(t: Bytes, c: Cursor)
    returns (openStart: nat, before: Bytes, name: Bytes, newPos: nat)
    requires Ready(t, c) && c.pos < |t| && !c.inBlock
    requires var openIdx := Index(t[c.pos..], FileOpenPrefix);
      var closeIdx := Index(t[c.pos..], FileClose);
      openIdx != -1 && !(closeIdx != -1 && closeIdx < openIdx)
    requires OutsideTurn(t, c).Next?
    ensures newPos == openStart + |FileOpenPrefix| + |name| + |FileOpenSuffix| <= |t|
    ensures MarkerFree(before) && HashFree(name)
    ensures t[..newPos] == t[..c.pos] + before + OpenTag(name)
    ensures OutsideTurn(t, c).next == Cursor(newPos, true, openStart, c.segs + TextSegment(before) + [File(name, [])])
  {
    openStart := OpenMarkerAhead(t, c.pos);
    assert OutsideTurn(t, c) == OpenTurn(t, c, openStart);
    before, name, newPos := OpenTurnShape(t, c, openStart);
  }

  /** The first opening marker ahead of `pos`, when no closing marker comes
      before it, sits behind marker-free text. */
  lemma {:induction false} OpenMarkerAhead(t: Bytes, pos: nat) returns (openStart: nat)
    requires pos <= |t|
    requires var openIdx := Index(t[pos..], FileOpenPrefix);
      var closeIdx := Index(t[pos..], FileClose);
      openIdx != -1 && !(closeIdx != -1 && closeIdx < openIdx)
    ensures openStart == pos + Index(t[pos..], FileOpenPrefix)
    ensures openStart + |FileOpenPrefix| <= |t| && OccursAt(t, FileOpenPrefix, openStart)
    ensures MarkerFree(t[pos..openStart])
  {
    var openIdx := Index(t[pos..], FileOpenPrefix);
    OccursInSuffix(t, FileOpenPrefix, pos, openIdx);
    TextBeforeFree(t, pos, openIdx);
    openStart := pos + openIdx;
  }

  /** The cursor an opening turn moves to keeps the invariant. */
  lemma {:induction false} OpenTurnTracks(t: Bytes, segs: seq<Segment>, pos: nat, openStart: nat, before: Bytes, name: Bytes,
                       newPos: nat)
    requires newPos == openStart + |FileOpenPrefix| + |name| + |FileOpenSuffix| <= |t|
    requires pos <= |t| && Flatten(segs) == t[..pos] && AllWellFormed(segs)
    requires MarkerFree(before) && HashFree(name)
    requires t[..newPos] == t[..pos] + before + OpenTag(name)
    ensures Tracks(t, Cursor(newPos, true, openStart, segs + TextSegment(before) + [File(name, [])]))
  {
    var segs' := segs + TextSegment(before) + [File(name, [])];
    OpenedAfter(segs, before, name);
    OpenTurnWellFormed(segs, before, name, segs');
    TracksInBlock(t, Cursor(newPos, true, openStart, segs'));
  }

  /** Outside a block, a well-named opening marker opens a block. */
  lemma {:induction false} OutsideOpenSound(t: Bytes, c: Cursor)
    requires Tracks(t, c) && c.pos < |t| && !c.inBlock
    requires var openIdx := Index(t[c.pos..], FileOpenPrefix);
      var closeIdx := Index(t[c.pos..], FileClose);
      openIdx != -1 && !(closeIdx != -1 && closeIdx < openIdx)
    requires OutsideTurn(t, c).Next?
    ensures TurnOk(t, OutsideTurn(t, c))
  {
    var openStart, before, name, newPos := OutsideOpenShape(t, c);
    OpenTurnTracks(t, c.segs, c.pos, openStart, before, name, newPos);
  }

  /** One turn outside a block keeps the invariant or ends soundly. */
  lemma {:induction false} OutsideSound(t: Bytes, c: Cursor)
    requires Tracks(t, c) && c.pos < |t| && !c.inBlock
    ensures TurnOk(t, OutsideTurn(t, c))
  {
    var openIdx := Index(t[c.pos..], FileOpenPrefix);
    var closeIdx := Index(t[c.pos..], FileClose);
    if openIdx == -1 && closeIdx == -1 {
      OutsidePlainSound(t, c);
    } else if closeIdx != -1 && (openIdx == -1 || closeIdx < openIdx) {
      OutsideCloseSound(t, c);
    } else if OutsideTurn(t, c).Halt? {
      OutsideOpenErrorSound(t, c);
    } else {
      OutsideOpenSound(t, c);
    }
  }

  lemma {:induction false} ConcatAssoc(a: Bytes, b: Bytes, c: Bytes, d: Bytes)
    ensures a + ((b + c) + d) == ((a + b) + c) + d
  {
  }

  /** The closing turn: the File segment takes the text up to the closing
      marker as its content, and the consumed text now ends after the
      marker. */
  lemma {:induction false} CloseTurnTracks(t: Bytes, init: seq<Segment>, name: Bytes, pos: nat, closeIdx: nat)
    requires pos + closeIdx + |FileClose| <= |t|
    requires Flatten(init) + OpenTag(name) == t[..pos]
    requires AllWellFormed(init) && HashFree(name)
    requires OccursAt(t, FileClose, pos + closeIdx)
    requires MarkerFree(t[pos..pos + closeIdx])
    ensures Flatten(init + [File(name, t[pos..pos + closeIdx])]) == t[..pos + closeIdx + |FileClose|]
    ensures AllWellFormed(init + [File(name, t[pos..pos + closeIdx])])
  {
    var content := t[pos..pos + closeIdx];
    var newPos := pos + closeIdx + |FileClose|;
    FlattenSnoc(init, File(name, content));
    ConcatAssoc(Flatten(init), OpenTag(name), content, FileClose);
    PrefixSplit(t, pos, pos + closeIdx);
    PrefixSplit(t, pos + closeIdx, newPos);
    assert t[pos + closeIdx..newPos] == FileClose;
    assert forall i | 0 <= i < |init| :: (init + [File(name, content)])[i] == init[i];
  }

  /** Inside a block with no marker ahead: unclosed. */
  lemma {:induction false} InsideUnclosedSound(t: Bytes, c: Cursor)
    requires Tracks(t, c) && c.pos < |t| && c.inBlock
    requires Index(t[c.pos..], FileOpenPrefix) == -1 && Index(t[c.pos..], FileClose) == -1
    ensures TurnOk(t, InsideTurn(t, c))
  {
    assert InsideTurn(t, c) == Halt(Failure(UnclosedDirective(c.blockStart)));
    OpenBlockFacts(t, c);
    NoneAfter(t, FileClose, c.pos);
  }

  /** Inside a block, an opening prefix ahead of the closing marker. */
  lemma {:induction false} InsideNestedSound(t: Bytes, c: Cursor)
    requires Ready(t, c) && c.pos < |t| && c.inBlock
    requires var openIdx := Index(t[c.pos..], FileOpenPrefix);
      var closeIdx := Index(t[c.pos..], FileClose);
      openIdx != -1 && (closeIdx == -1 || openIdx < closeIdx)
    ensures TurnOk(t, InsideTurn(t, c))
  {
    var openIdx := Index(t[c.pos..], FileOpenPrefix);
    assert InsideTurn(t, c) == Halt(Failure(NestedDirective(c.pos + openIdx)));
    OccursInSuffix(t, FileOpenPrefix, c.pos, openIdx);
  }

  /** Inside a block, the closing marker comes first and closes it. */
  lemma {:induction false} InsideCloseSound(t: Bytes, c: Cursor)
    requires Tracks(t, c) && c.pos < |t| && c.inBlock
    requires var openIdx := Index(t[c.pos..], FileOpenPrefix);
      var closeIdx := Index(t[c.pos..], FileClose);
      closeIdx != -1 && !(openIdx != -1 && openIdx < closeIdx)
    ensures TurnOk(t, InsideTurn(t, c))
  {
    var pos := c.pos;
    var closeIdx := Index(t[pos..], FileClose);
    var last := |c.segs| - 1;
    var name := c.segs[last].filename;
    var content := t[pos..pos + closeIdx];
    var c2 := InsideTurn(t, c).next;
    assert c2.segs == c.segs[last := c.segs[last].(content := content)];
    assert c2.segs == c.segs[..last] + [File(name, content)];
    TextBeforeFree(t, pos, closeIdx);
    OccursInSuffix(t, FileClose, pos, closeIdx);
    assert WellFormed(c.segs[last]);
    assert AllWellFormed(c.segs[..last]);
    CloseTurnTracks(t, c.segs[..last], name, pos, closeIdx);
  }

  /** One turn inside a block keeps the invariant or ends soundly. */
  lemma {:induction false} InsideSound(t: Bytes, c: Cursor)
    requires Tracks(t, c) && c.pos < |t| && c.inBlock
    ensures TurnOk(t, InsideTurn(t, c))
  {
    var openIdx := Index(t[c.pos..], FileOpenPrefix);
    var closeIdx := Index(t[c.pos..], FileClose);
    if openIdx == -1 && closeIdx == -1 {
      InsideUnclosedSound(t, c);
    } else if openIdx != -1 && (closeIdx == -1 || openIdx < closeIdx) {
      InsideNestedSound(t, c);
    } else {
      InsideCloseSound(t, c);
    }
  }

  /** The scan from any state that keeps the invariant ends soundly. */
  lemma {:induction false} ScanSound(t: Bytes, c: Cursor)
    requires Tracks(t, c)
    ensures ResultOk(t, Scan(t, c))
    decreases |t| - c.pos
  {
    if c.pos == |t| {
      if c.inBlock {
        OpenBlockFacts(t, c);
      } else {
        assert t[..c.pos] == t;
      }
    } else {
      if c.inBlock {
        InsideSound(t, c);
      } else {
        OutsideSound(t, c);
      }
      match TurnAt(t, c)
      case Halt(r) =>
      case Next(c') =>
        ScanSound(t, c');
    }
  }

  /** Before edge trimming the segments reassemble into the template byte
      for byte, each Stdout segment as its content and each File segment as
      "#FILE:" name "#" content "#FILE#"; no segment holds a marker and no
      file name holds a '#'. A failed scan names the marker
      that made it fail. */
  lemma {:induction false} RawSegmentsSound(t: Bytes)
    ensures ResultOk(t, RawSegments(t))
  {
    ScanSound(t, Cursor(0, false, 0, []));
  }

  /** Every non-empty template yields at least one raw segment, so the
      "no segments" branch of ParseSegments is dead for it. */
  lemma {:induction false} RawSegmentsNonEmpty(t: Bytes)
    requires |t| > 0 && RawSegments(t).Success?
    ensures RawSegments(t).value != []
  {
    RawSegmentsSound(t);
  }

  /** A parse error names the marker that caused it. */
  lemma {:induction false} ParseErrorExplained(t: Bytes)
    requires Parse(t).Failure?
    ensures Explains(t, Parse(t).error)
  {
    RawSegmentsSound(t);
  }
}
