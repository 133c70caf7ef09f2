/** The bytes that may change never carry sections, zero-fill padding or linkedit references. */
module MachoProtected {
  import opened Results
  import opened MachoBytes
  import opened Ranges
  import opened SignatureFrame
  import opened MachoLayout
  import opened MachoWalk
  import opened MachoLockstep
  import opened MachoDelta
  import opened MachoRebuild
  import opened MachoTheorems

  /** Non-empty linkedit references. */
  function Occupied(links: seq<(int, int)>): seq<Range> {
    if links == [] then []
    else (if links[0].1 != 0 then [Range(links[0].0, links[0].0 + links[0].1)] else []) + Occupied(links[1..])
  }

  /** Everything in the file that a parse refers to. */
  function Protected(p: Parse): seq<Range> {
    p.sections + p.zeroPad + Occupied(p.links)
  }

  lemma {:induction false} LinksInside(links: seq<(int, int)>, lo: int, hi: int, i: nat, occupied: seq<Range>)
    requires i <= |links| && CheckLinks(links, lo, hi, i, occupied).Ok?
    ensures forall r | r in Occupied(links[i..]) :: lo <= r.start && r.stop <= hi
    decreases |links| - i
  {
    if i < |links| {
      var (offset, length) := links[i];
      assert links[i..][0] == links[i] && links[i..][1..] == links[i + 1..];
      LinksInside(links, lo, hi, i + 1,
                  if length != 0 then occupied + [Range(offset, offset + length)] else occupied);
    } else {
      assert links[i..] == [];
    }
  }

  lemma {:induction false} SegmentsApart(segments: seq<Segment>, a: Segment, b: Segment)
    requires DisjointRanges(FileRanges(segments))
    requires a in segments && b in segments && a != b && a.size != 0 && b.size != 0
    ensures Apart(Range(a.offset, a.offset + a.size), Range(b.offset, b.offset + b.size))
  {
    var rest := segments[1..];
    assert segments == [segments[0]] + rest;
    if segments[0].size != 0 {
      var r := Range(segments[0].offset, segments[0].offset + segments[0].size);
      assert FileRanges(segments) == [r] + FileRanges(rest);
      DisjointCons(r, FileRanges(rest));
      if a == segments[0] { FileRangeOf(rest, b); }
      else if b == segments[0] { FileRangeOf(rest, a); }
      else { SegmentsApart(rest, a, b); }
    } else {
      assert FileRanges(segments) == FileRanges(rest);
      SegmentsApart(rest, a, b);
    }
  }

  lemma {:induction false} FileRangeOf(segments: seq<Segment>, s: Segment)
    requires s in segments && s.size != 0
    ensures Range(s.offset, s.offset + s.size) in FileRanges(segments)
  {
    assert segments == [segments[0]] + segments[1..];
    if s != segments[0] { FileRangeOf(segments[1..], s); }
  }

  /** A range backed by a segment with sections ends before the signature. */
  lemma BackedBelowSignature(data: bytes, allowMissing: bool, r: Range)
    requires LayoutOf(data, allowMissing).Ok? && ParseOf(data).Ok?
    requires var (h, _, p) := ParseOf(data).value; Backed(data, h.commandsEnd, p.segments, r)
    ensures r.stop <= LayoutOf(data, allowMissing).value.signatureOffset
  {
    hide LayoutOf, Finish, Walk, ParseOf, HeaderOf, Reaches, SegmentRead, FileRanges, DisjointRanges, Framed, U32, U64;
    LayoutParts(data, allowMissing);
    var (h, cursor, p) := ParseOf(data).value;
    var l := LayoutOf(data, allowMissing).value;
    FinishFacts(data, allowMissing, h, cursor, p);
    LayoutFacts(data, allowMissing);
    var x := LinkeditSegment(data, allowMissing);
    var s :| s in p.segments && s.nsects > 0 && s.offset <= r.start && r.stop <= s.offset + s.size;
    if l.signatureCommand.Some? {
      assert x.offset + x.size == |data| && x.size != 0;
      SegmentsApart(p.segments, s, x);
      SegmentInside(data, allowMissing, s);
    }
  }

  lemma SegmentInside(data: bytes, allowMissing: bool, s: Segment)
    requires LayoutOf(data, allowMissing).Ok? && ParseOf(data).Ok? && s in ParseOf(data).value.2.segments
    ensures s.offset + s.size <= |data|
  {
    hide LayoutOf, Finish, Walk, ParseOf, HeaderOf, Reaches;
    LayoutParts(data, allowMissing);
    var (h, cursor, p) := ParseOf(data).value;
    SegmentOrigin(data, h.commandsEnd, h.filetype, h.ncmds, 32, NOTHING, s);
  }

  /** Protected ranges of an accepted image lie between its commands and its signature. */
  lemma ProtectedPlace(data: bytes, allowMissing: bool)
    requires LayoutOf(data, allowMissing).Ok?
    ensures ParseOf(data).Ok?
    ensures var l := LayoutOf(data, allowMissing).value;
            forall r | r in Protected(ParseOf(data).value.2) :: l.commandsEnd <= r.start && r.stop <= l.signatureOffset
  {
    hide LayoutOf, Finish, Walk, ParseOf, HeaderOf, Facts, Occupied;
    LayoutParts(data, allowMissing);
    SectionsFit(data, allowMissing);
    LayoutFacts(data, allowMissing);
    var l := LayoutOf(data, allowMissing).value;
    OffsetsOrdered(data, l);
    var (h, cursor, p) := ParseOf(data).value;
    FinishFacts(data, allowMissing, h, cursor, p);
    FinishLinks(data, allowMissing, h, cursor, p);
    forall r | r in Protected(p) ensures l.commandsEnd <= r.start && r.stop <= l.signatureOffset {
      if r in p.sections || r in p.zeroPad { BackedBelowSignature(data, allowMissing, r); }
    }
  }

  lemma FinishLinks(data: bytes, allowMissing: bool, h: Header, cursor: int, p: Parse)
    requires Framing(data, h.commandsEnd) && WellShaped(p) && Finish(data, allowMissing, h, cursor, p).Ok?
    ensures var l := Finish(data, allowMissing, h, cursor, p).value;
            forall r | r in Occupied(p.links) :: l.linkeditOffset <= r.start && r.stop <= l.signatureOffset
  {
    hide DisjointRanges, Framed, CheckSymbols, SignaturePlace, Named, FileRanges, VirtualRanges, LinkeditFinal;
    var l := Finish(data, allowMissing, h, cursor, p).value;
    LinksInside(p.links, l.linkeditOffset, l.signatureOffset, 0, []);
    assert p.links[0..] == p.links;
  }

  /** What the original protects, an output protects. */
  lemma ProtectedPreserved(original: bytes, signed: bytes)
    requires ThinAccepted(original, signed)
    ensures ParseOf(original).Ok? && ParseOf(signed).Ok?
    ensures Protected(ParseOf(original).value.2) == Protected(ParseOf(signed).value.2)
  {
    hide LayoutOf, Finish, Walk, ParseOf, HeaderOf, Facts, Occupied, ThinAccepted, IsRebuilt, Step, SimilarSegments;
    AcceptedBounds(original, signed);
    AcceptedIffRebuilt(original, signed);
    RebuiltLockstep(original, signed);
    var before := LayoutOf(original, true).value;
    var (h, cursor, p) := ParseOf(original).value;
    var (h', cursor', q) := ParseOf(signed).value;
    if before.signatureCommand.None? {
      LayoutFacts(original, true);
      OffsetsOrdered(original, before);
      RebuiltCommand(original, before, signed);
      LastStep(signed, h'.commandsEnd, h'.filetype, cursor,
               Walk(signed, h'.commandsEnd, h'.filetype, h.ncmds, 32, NOTHING).value.1);
    }
  }

  /** These ranges start after every field and end before the place of the signature. */
  predicate BetweenFieldsAnd(before: Layout, at: int, protected: seq<Range>) {
    && (forall f, r | f in Fields(before) && r in protected :: f.stop <= r.start)
    && (forall r | r in protected :: r.stop <= at)
  }

  /** In an accepted pair the mutable fields are pairwise disjoint and meet nothing that either image refers to;
      the bytes of the new signature meet nothing either. */
  lemma MutableNeverMeetsProtected(original: bytes, signed: bytes)
    requires ThinAccepted(original, signed)
    ensures LayoutOf(original, true).Ok? && ParseOf(original).Ok? && ParseOf(signed).Ok?
    ensures var before := LayoutOf(original, true).value;
            && DisjointRanges(Fields(before))
            && BetweenFieldsAnd(before, Allocation(original, before), Protected(ParseOf(original).value.2))
            && BetweenFieldsAnd(before, Allocation(original, before), Protected(ParseOf(signed).value.2))
            && (forall f | f in Fields(before) :: f.stop <= Allocation(original, before))
  {
    hide LayoutOf, ParseOf, Protected, ThinAccepted, Facts, Fields, RoundUp, DisjointRanges;
    AcceptedBounds(original, signed);
    var before := LayoutOf(original, true).value;
    LayoutFacts(original, true);
    OffsetsOrdered(original, before);
    FieldsApart(original, before);
    ProtectedPlace(original, true);
    ProtectedPlace(signed, false);
    ProtectedPreserved(original, signed);
    OutputEnd(original, signed);
  }
}
