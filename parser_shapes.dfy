/** The edge trimming of filterEmptyEdgeSegments, and the exact result of
    ParseSegments for a template with no directive at all and for one
    well-formed block. The error shapes, after any run of complete blocks,
    are in module ParserBlocks. */
module ParserShapes {
  import opened Wrappers
  import opened ByteStrings
  import opened Parser
  import opened ParserProofs

  /** The offset of the first segment that survives trimming, or |segs|
      when none does. */
  function KeptFrom(segs: seq<Segment>): (i: nat)
    ensures i <= |segs|
  {
    if segs == [] then 0 else if Kept(segs[0]) then 0 else 1 + KeptFrom(segs[1..])
  }

  /** One past the last segment that survives trimming, or 0 when none
      does. */
  function KeptUntil(segs: seq<Segment>): (j: nat)
    ensures j <= |segs|
  {
    if segs == [] then 0
    else if Kept(segs[|segs| - 1]) then |segs|
    else KeptUntil(segs[..|segs| - 1])
  }

  /** The first loop of filterEmptyEdgeSegments stops at the first kept
      segment and skips only blank Stdout segments. */
  lemma {:induction false} KeptFromIsFirst(segs: seq<Segment>)
    ensures forall k | 0 <= k < KeptFrom(segs) :: !Kept(segs[k])
    ensures KeptFrom(segs) < |segs| ==> Kept(segs[KeptFrom(segs)])
    ensures DropBlankHead(segs) == segs[KeptFrom(segs)..]
    decreases |segs|
  {
    if segs != [] && !Kept(segs[0]) {
      var rest := segs[1..];
      KeptFromIsFirst(rest);
      forall k | 1 <= k < KeptFrom(segs)
        ensures !Kept(segs[k])
      {
        assert segs[k] == rest[k - 1];
      }
      assert rest[KeptFrom(rest)..] == segs[KeptFrom(segs)..];
    }
  }

  /** The second loop stops after the last kept segment and pulls back
      only over blank Stdout segments. */
  lemma {:induction false} KeptUntilIsLast(segs: seq<Segment>)
    ensures forall k | KeptUntil(segs) <= k < |segs| :: !Kept(segs[k])
    ensures KeptUntil(segs) > 0 ==> Kept(segs[KeptUntil(segs) - 1])
    ensures DropBlankTail(segs) == segs[..KeptUntil(segs)]
    decreases |segs|
  {
    if segs != [] && !Kept(segs[|segs| - 1]) {
      var init := segs[..|segs| - 1];
      KeptUntilIsLast(init);
      forall k | KeptUntil(segs) <= k < |segs| - 1
        ensures !Kept(segs[k])
      {
        assert segs[k] == init[k];
      }
      assert init[..KeptUntil(init)] == segs[..KeptUntil(segs)];
    }
  }

  /** KeptUntil is the only end with a kept segment in front of it and no
      kept segment after it. */
  lemma {:induction false} KeptUntilUnique(segs: seq<Segment>, j: nat)
    requires j <= |segs| && (j == 0 || Kept(segs[j - 1]))
    requires forall k | j <= k < |segs| :: !Kept(segs[k])
    ensures KeptUntil(segs) == j
  {
    KeptUntilIsLast(segs);
  }

  /** Dropping `i` segments from the front shifts the blank tail by `i`. */
  lemma {:induction false} BlankTailShift(segs: seq<Segment>, i: nat, j: nat)
    requires i <= j <= |segs|
    requires forall k | j <= k < |segs| :: !Kept(segs[k])
    ensures forall k | j - i <= k < |segs| - i :: !Kept(segs[i..][k])
  {
    forall k | j - i <= k < |segs| - i
      ensures !Kept(segs[i..][k])
    {
      assert segs[i..][k] == segs[i + k];
    }
  }

  /** Past the blank head, the last kept segment is where it was. */
  lemma {:induction false} KeptUntilAfterHead(segs: seq<Segment>)
    requires KeptFrom(segs) < |segs|
    ensures KeptFrom(segs) < KeptUntil(segs)
    ensures KeptUntil(segs[KeptFrom(segs)..]) == KeptUntil(segs) - KeptFrom(segs)
  {
    var i := KeptFrom(segs);
    var j := KeptUntil(segs);
    KeptFromIsFirst(segs);
    KeptUntilIsLast(segs);
    BlankTailShift(segs, i, j);
    assert segs[i..][j - i - 1] == segs[j - 1];
    KeptUntilUnique(segs[i..], j - i);
  }

  lemma {:induction false} TakeOfDrop(segs: seq<Segment>, i: nat, j: nat)
    requires i <= j <= |segs|
    ensures segs[i..][..j - i] == segs[i..j]
  {
  }

  /** filterEmptyEdgeSegments cuts one contiguous run out of a non-empty
      list: the run from the first kept segment to the last one, so every
      File segment and every segment between two kept ones stays, even a
      blank one, and only blank Stdout segments at the two ends go. When
      every segment would go, the result is one empty Stdout segment. */
  lemma {:induction false} TrimEdgesSlice(segs: seq<Segment>)
    requires segs != []
    ensures forall k | 0 <= k < |segs| && Kept(segs[k]) :: KeptFrom(segs) <= k < KeptUntil(segs)
    ensures KeptFrom(segs) < KeptUntil(segs) ==>
              TrimEdges(segs) == segs[KeptFrom(segs)..KeptUntil(segs)]
              && Kept(segs[KeptFrom(segs)]) && Kept(segs[KeptUntil(segs) - 1])
    ensures KeptFrom(segs) >= KeptUntil(segs) ==>
              TrimEdges(segs) == [Stdout([])] && forall k | 0 <= k < |segs| :: !Kept(segs[k])
  {
    var i := KeptFrom(segs);
    var j := KeptUntil(segs);
    KeptFromIsFirst(segs);
    KeptUntilIsLast(segs);
    if i == |segs| {
      assert DropBlankHead(segs) == [];
    } else {
      var head := segs[i..];
      KeptUntilAfterHead(segs);
      KeptUntilIsLast(head);
      TakeOfDrop(segs, i, j);
    }
  }

  /** A template without either marker is one Stdout segment: the template
      itself, or the empty text when it is blank. */
  lemma {:induction false} ParseWithoutDirectives(t: Bytes)
    requires !Contains(t, FileOpenPrefix) && !Contains(t, FileClose)
    ensures Parse(t) == Success([Stdout(if Blank(t) then [] else t)])
  {
    if |t| > 0 {
      assert t[0..] == t;
      IndexNone(t, FileOpenPrefix);
      IndexNone(t, FileClose);
      assert [] + [Stdout(t)] == [Stdout(t)];
      assert OutsideTurn(t, Cursor(0, false, 0, [])) == Halt(Success([Stdout(t)]));
      if Blank(t) {
        assert DropBlankHead([Stdout(t)]) == DropBlankHead([Stdout(t)][1..]);
      }
    }
  }

  /** In `body + tail`, where `tail` starts with '#', no marker starts
      inside a marker-free body that does not end in "#FILE". */
  lemma {:induction false} NotInBody(body: Bytes, tail: Bytes, j: nat)
    requires MarkerFree(body) && !HasSuffix(body, MarkerStem)
    requires |tail| > 0 && tail[0] == 35 && j < |body|
    ensures !OccursAt(body + tail, FileOpenPrefix, j) && !OccursAt(body + tail, FileClose, j)
  {
    var s := body + tail;
    if j + 6 <= |body| {
      assert s[j..j + 6] == body[j..j + 6];
      assert !OccursAt(body, FileOpenPrefix, j) && !OccursAt(body, FileClose, j);
    } else if j + 6 <= |s| {
      var d := |body| - j;
      assert s[j..j + 6][d] == s[|body|] == 35;
      if d == 5 {
        assert s[j..j + 6][..5] == body[|body| - 5..];
      }
    }
  }

  /** After a marker-free body that does not end in "#FILE", the closing
      marker is the first marker of either kind. */
  lemma {:induction false} BodyThenClose(body: Bytes)
    requires MarkerFree(body) && !HasSuffix(body, MarkerStem)
    ensures Index(body + FileClose, FileOpenPrefix) == -1
    ensures Index(body + FileClose, FileClose) == |body|
  {
    var s := body + FileClose;
    forall j | 0 <= j <= |s|
      ensures !OccursAt(s, FileOpenPrefix, j)
      ensures j < |body| ==> !OccursAt(s, FileClose, j)
    {
      if j < |body| {
        NotInBody(body, FileClose, j);
      } else if j + 6 <= |s| {
        assert s[j..j + 6] == FileClose;
      }
    }
    assert s[|body|..|body| + 6] == FileClose;
    IndexNone(s, FileOpenPrefix);
    IndexIs(s, FileClose, |body|);
  }

  /** In a template that starts with "#FILE:" name "#", the first
      opening prefix is at 0 and the name runs up to the first '#'. */
  lemma {:induction false} OpenTagFound(name: Bytes, rest: Bytes)
    requires HashFree(name) && !Blank(name)
    ensures OpensWith(OpenTag(name) + rest, name)
  {
    var t := OpenTag(name) + rest;
    assert t[..6] == FileOpenPrefix;
    IndexIs(t, FileOpenPrefix, 0);
    var after := t[6..];
    assert after == name + [35] + rest;
    forall j | 0 <= j < |name|
      ensures !OccursAt(after, FileOpenSuffix, j)
    {
      assert after[j..j + 1] == [name[j]];
    }
    assert after[|name|..|name| + 1] == [35];
    IndexIs(after, FileOpenSuffix, |name|);
  }

  /** What the first turn finds in a template that starts with a
      well-named opening marker: the prefix at 0 and the name up to the
      first '#'. */
  predicate OpensWith(t: Bytes, name: Bytes)
  {
    |name| + 7 <= |t| && HashFree(name) && !Blank(name)
    && Index(t, FileOpenPrefix) == 0 && Index(t[6..], FileOpenSuffix) == |name|
    && t[6..6 + |name|] == name
  }

  /** Such a template opens a block at offset 0 in its first turn. */
  lemma {:induction false} FirstTurnOpens(t: Bytes, name: Bytes)
    requires OpensWith(t, name)
    ensures OutsideTurn(t, Cursor(0, false, 0, [])) == Next(Cursor(|name| + 7, true, 0, [File(name, [])]))
  {
    assert t[0..] == t;
    HashFreeMarkerFree(name);
    assert [] + TextSegment(t[0..0]) + [File(name, [])] == [File(name, [])];
  }

  /** After the opening turn, a closing marker `|body|` bytes on, with no
      opening prefix before it, ends the only block at the end of the
      template. */
  lemma {:induction false} ParseClosedAfterOpen(t: Bytes, name: Bytes, body: Bytes)
    requires OpensWith(t, name)
    requires |name| + 7 + |body| + 6 == |t|
    requires Index(t[|name| + 7..], FileOpenPrefix) == -1
    requires Index(t[|name| + 7..], FileClose) == |body|
    requires t[|name| + 7..|name| + 7 + |body|] == body
    ensures Parse(t) == Success([File(name, body)])
  {
    FirstTurnOpens(t, name);
    var c1 := Cursor(|name| + 7, true, 0, [File(name, [])]);
    var c2 := Cursor(|t|, false, 0, [File(name, body)]);
    assert [File(name, [])][0 := File(name, body)] == [File(name, body)];
    assert InsideTurn(t, c1) == Next(c2);
    assert Scan(t, c1) == Success([File(name, body)]);
  }

  lemma {:induction false} Regroup3(a: Bytes, b: Bytes, c: Bytes)
    ensures a + b + c == a + (b + c)
  {
  }

  /** `#FILE:name#body#FILE#` is one File segment holding the body
      verbatim, when the name is not blank and has no '#', and the body
      holds no marker and does not end in "#FILE" (which would close the
      block one byte early). */
  lemma {:induction false} ParseSingleFile(name: Bytes, body: Bytes)
    requires HashFree(name) && !Blank(name)
    requires MarkerFree(body) && !HasSuffix(body, MarkerStem)
    ensures Parse(OpenTag(name) + body + FileClose) == Success([File(name, body)])
  {
    var s := body + FileClose;
    var t := OpenTag(name) + s;
    OpenTagFound(name, s);
    assert t[|name| + 7..] == s;
    BodyThenClose(body);
    assert s[..|body|] == body;
    ParseClosedAfterOpen(t, name, body);
    Regroup3(OpenTag(name), body, FileClose);
  }

  /** After a marker-free body that does not end in "#FILE", an opening
      marker is the first marker of either kind. */
  lemma {:induction false} BodyThenOpen(body: Bytes, rest: Bytes)
    requires MarkerFree(body) && !HasSuffix(body, MarkerStem)
    ensures Index(body + FileOpenPrefix + rest, FileOpenPrefix) == |body|
    ensures var closeIdx := Index(body + FileOpenPrefix + rest, FileClose);
      closeIdx == -1 || closeIdx > |body|
  {
    var tail := FileOpenPrefix + rest;
    var s := body + tail;
    assert body + FileOpenPrefix + rest == s;
    forall j | 0 <= j < |body|
      ensures !OccursAt(s, FileOpenPrefix, j) && !OccursAt(s, FileClose, j)
    {
      NotInBody(body, tail, j);
    }
    assert s[|body|..|body| + 6] == FileOpenPrefix;
    IndexIs(s, FileOpenPrefix, |body|);
    assert !OccursAt(s, FileClose, |body|);
  }

  /** Outside a block the nested-directive check never fires: the name is
      cut at its first '#', so it cannot hold "#FILE:". */
  lemma {:induction false} OutsideNeverNested(t: Bytes, c: Cursor)
    requires Ready(t, c) && c.pos < |t| && !c.inBlock
    ensures !(OutsideTurn(t, c).Halt? && OutsideTurn(t, c).result.Failure?
              && OutsideTurn(t, c).result.error.NestedDirective?)
  {
    var pos := c.pos;
    var openIdx := Index(t[pos..], FileOpenPrefix);
    if openIdx != -1 {
      OccursInSuffix(t, FileOpenPrefix, pos, openIdx);
      var nameStart := pos + openIdx + |FileOpenPrefix|;
      var nameEnd := Index(t[nameStart..], FileOpenSuffix);
      if nameEnd != -1 {
        NameHashFree(t, nameStart, nameEnd);
        HashFreeMarkerFree(t[nameStart..nameStart + nameEnd]);
      }
    }
  }

  /** Trimming only drops segments, so it keeps every segment well formed. */
  lemma {:induction false} TrimEdgesWellFormed(segs: seq<Segment>)
    requires segs != [] && AllWellFormed(segs)
    ensures AllWellFormed(TrimEdges(segs))
  {
    assert MarkerFree([]);
    TrimEdgesSlice(segs);
    var i, j := KeptFrom(segs), KeptUntil(segs);
    if i < j {
      assert forall k | 0 <= k < j - i :: segs[i..j][k] == segs[i + k];
    }
  }

  /** On success every segment ParseSegments returns is well formed: no
      content holds a marker and no file name holds a '#'. */
  lemma {:induction false} ParseWellFormed(t: Bytes)
    requires Parse(t).Success?
    ensures AllWellFormed(Parse(t).value)
  {
    assert MarkerFree([]);
    if |t| > 0 {
      RawSegmentsSound(t);
      RawSegmentsNonEmpty(t);
      var raw := RawSegments(t).value;
      assert Parse(t) == Success(TrimEdges(raw));
      TrimEdgesWellFormed(raw);
    }
  }
}
