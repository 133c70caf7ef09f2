/** What an accepted parse says about the bytes it read, and how two parses move in step. */
module MachoWalk {
  import opened Results
  import opened MachoBytes
  import opened Ranges
  import opened SignatureFrame
  import opened MachoLayout

  // ----- positions of the command loop

  /** The command loop stops at c before it processes n commands from this cursor. */
  predicate Reaches(data: bytes, ce: int, filetype: int, n: nat, cursor: int, p: Parse, c: int)
    requires Framing(data, ce) && 32 <= cursor
  {
    && n > 0
    && Step(data, ce, filetype, cursor, p).Ok?
    && (cursor == c || var s := Step(data, ce, filetype, cursor, p).value;
                       Reaches(data, ce, filetype, n - 1, s.0, s.1, c))
  }

  predicate CommandFits(data: bytes, ce: int, c: int)
    requires Framing(data, ce)
  {
    32 <= c && c + 8 <= ce && U32(data, c + 4) >= 8 && c + U32(data, c + 4) <= ce
  }

  lemma {:induction false} ReachBounds(data: bytes, ce: int, filetype: int, n: nat, cursor: int, p: Parse, c: int)
    requires Framing(data, ce) && 32 <= cursor && Reaches(data, ce, filetype, n, cursor, p, c)
    ensures cursor <= c && CommandFits(data, ce, c)
  {
    if cursor != c {
      var s := Step(data, ce, filetype, cursor, p).value;
      ReachBounds(data, ce, filetype, n - 1, s.0, s.1, c);
    }
  }

  /** Commands do not overlap. */
  lemma {:induction false} ReachApart(data: bytes, ce: int, filetype: int, n: nat, cursor: int, p: Parse, c: int,
                                      d: int)
    requires Framing(data, ce) && 32 <= cursor && c < d
    requires Reaches(data, ce, filetype, n, cursor, p, c) && Reaches(data, ce, filetype, n, cursor, p, d)
    ensures CommandFits(data, ce, c) && c + U32(data, c + 4) <= d
  {
    hide Step;
    ReachBounds(data, ce, filetype, n, cursor, p, c);
    var s := Step(data, ce, filetype, cursor, p).value;
    if cursor == c {
      ReachBounds(data, ce, filetype, n - 1, s.0, s.1, d);
    } else {
      ReachApart(data, ce, filetype, n - 1, s.0, s.1, c, d);
    }
  }

  lemma SliceU32(data: bytes, from: int, to: int, o: int)
    requires 0 <= from && from + o + 4 <= to <= |data| && 0 <= o
    ensures U32(data[from..to], o) == U32(data, from + o)
  {
  }

  lemma SliceU64(data: bytes, from: int, to: int, o: int)
    requires 0 <= from && from + o + 8 <= to <= |data| && 0 <= o
    ensures U64(data[from..to], o) == U64(data, from + o)
  {
    SliceU32(data, from, to, o);
    SliceU32(data, from, to, o + 4);
  }

  // ----- where segments and the signature come from

  /** The segment is what the bytes at its command say. */
  predicate SegmentRead(data: bytes, ce: int, s: Segment)
    requires Framing(data, ce)
  {
    && CommandFits(data, ce, s.command) && U32(data, s.command) == LC_SEGMENT_64
    && 0 <= s.nsects && U32(data, s.command + 4) == 72 + s.nsects * 80
    && s.addr == U64(data, s.command + 24) && s.vmsize == U64(data, s.command + 32)
    && s.offset == U64(data, s.command + 40) && s.size == U64(data, s.command + 48)
    && s.nsects == U32(data, s.command + 64)
    && s.offset + s.size <= |data|
  }

  lemma SegmentOfRead(data: bytes, ce: int, cursor: int, size: int, p: Parse)
    requires Framing(data, ce) && CommandAt.requires(data, ce, cursor)
    requires CommandAt(data, ce, cursor) == Ok((LC_SEGMENT_64, size))
    requires SegmentOf(|data|, cursor, data[cursor..cursor + size], p).Ok?
    ensures SegmentRead(data, ce, SegmentOf(|data|, cursor, data[cursor..cursor + size], p).value)
  {
    hide FixedName, U32, U64, I32, NoExtraBits;
    var to := cursor + size;
    assert size >= 72;
    SliceU64(data, cursor, to, 24);
    SliceU64(data, cursor, to, 32);
    SliceU64(data, cursor, to, 40);
    SliceU64(data, cursor, to, 48);
    SliceU32(data, cursor, to, 64);
  }

  lemma SegmentOrigin(data: bytes, ce: int, filetype: int, n: nat, cursor: int, p: Parse, seg: Segment)
    requires Framing(data, ce) && 32 <= cursor && Walk(data, ce, filetype, n, cursor, p).Ok?
    requires seg in Walk(data, ce, filetype, n, cursor, p).value.1.segments && seg !in p.segments
    ensures Reaches(data, ce, filetype, n, cursor, p, seg.command) && SegmentRead(data, ce, seg)
  {
    hide Step, SegmentRead;
    var s := Step(data, ce, filetype, cursor, p).value;
    if seg in s.1.segments {
      StepSegments(data, ce, filetype, cursor, p, seg);
    } else {
      SegmentOrigin(data, ce, filetype, n - 1, s.0, s.1, seg);
    }
  }

  lemma PlainBacked(filetype: int, cursor: int, command: int, raw: bytes, p: Parse)
    requires |raw| >= 8 && PlainCommand(filetype, cursor, command, raw, p).Ok?
    ensures var q := PlainCommand(filetype, cursor, command, raw, p).value;
            q.sections == p.sections && q.zeroPad == p.zeroPad && q.segments == p.segments
  {
  }

  lemma SegmentCommandSegments(data: bytes, ce: int, cursor: int, raw: bytes, p: Parse)
    requires 32 <= ce && SegmentCommand(data, ce, cursor, raw, p).Ok?
    ensures SegmentOf(|data|, cursor, raw, p).Ok?
    ensures var q := SegmentCommand(data, ce, cursor, raw, p).value;
            && q.segments == p.segments + [SegmentOf(|data|, cursor, raw, p).value]
            && q.signature == p.signature
  {
    hide SegmentOf, Sections;
    var t := SegmentOf(|data|, cursor, raw, p).value;
    SectionsShape(data, ce, t, raw, 0, p.(segments := p.segments + [t]));
  }

  lemma StepSegments(data: bytes, ce: int, filetype: int, cursor: int, p: Parse, seg: Segment)
    requires Framing(data, ce) && 32 <= cursor && Step(data, ce, filetype, cursor, p).Ok?
    requires seg in Step(data, ce, filetype, cursor, p).value.1.segments && seg !in p.segments
    ensures seg.command == cursor && SegmentRead(data, ce, seg)
  {
    hide SegmentCommand, PlainCommand, SegmentRead, SegmentOf;
    var (command, size) := CommandAt(data, ce, cursor).value;
    var raw := data[cursor..cursor + size];
    var p' := p.(seen := p.seen + {command});
    if command == LC_SEGMENT_64 {
      SegmentCommandSegments(data, ce, cursor, raw, p');
      SegmentOfRead(data, ce, cursor, size, p');
    } else {
      PlainBacked(filetype, cursor, command, raw, p');
    }
  }

  predicate SignatureRead(data: bytes, ce: int, s: Signature)
    requires Framing(data, ce)
  {
    && 32 <= s.command && s.command + 16 <= ce
    && U32(data, s.command) == LC_CODE_SIGNATURE && U32(data, s.command + 4) == 16
    && U32(data, s.command + 8) == s.offset && U32(data, s.command + 12) == s.size
  }

  lemma {:induction false} SignatureOrigin(data: bytes, ce: int, filetype: int, n: nat, cursor: int, p: Parse)
    requires Framing(data, ce) && 32 <= cursor && Walk(data, ce, filetype, n, cursor, p).Ok?
    ensures var s := Walk(data, ce, filetype, n, cursor, p).value.1.signature;
            s == p.signature || (s.Some? && Reaches(data, ce, filetype, n, cursor, p, s.value.command)
                                 && SignatureRead(data, ce, s.value))
  {
    hide Step, SignatureRead;
    if n > 0 {
      var s := Step(data, ce, filetype, cursor, p).value;
      SignatureOrigin(data, ce, filetype, n - 1, s.0, s.1);
      StepSignature(data, ce, filetype, cursor, p);
    }
  }

  lemma StepSignature(data: bytes, ce: int, filetype: int, cursor: int, p: Parse)
    requires Framing(data, ce) && 32 <= cursor && Step(data, ce, filetype, cursor, p).Ok?
    ensures var s := Step(data, ce, filetype, cursor, p).value.1.signature;
            s == p.signature || (s.Some? && s.value.command == cursor && SignatureRead(data, ce, s.value))
  {
    hide SegmentCommand, PlainCommand, U32;
    var (command, size) := CommandAt(data, ce, cursor).value;
    var raw := data[cursor..cursor + size];
    var p' := p.(seen := p.seen + {command});
    if command == LC_SEGMENT_64 {
      SegmentCommandSegments(data, ce, cursor, raw, p');
    } else {
      PlainSignature(filetype, cursor, command, raw, p');
      if command == LC_CODE_SIGNATURE {
        SliceU32(data, cursor, cursor + size, 8);
        SliceU32(data, cursor, cursor + size, 12);
      }
    }
  }

  lemma PlainSignature(filetype: int, cursor: int, command: int, raw: bytes, p: Parse)
    requires |raw| >= 8 && PlainCommand(filetype, cursor, command, raw, p).Ok?
    ensures var q := PlainCommand(filetype, cursor, command, raw, p).value;
            if command == LC_CODE_SIGNATURE
            then |raw| == 16 && q.signature == Some(Signature(cursor, U32(raw, 8), U32(raw, 12)))
            else q.signature == p.signature
  {
  }

  // ----- facts of an accepted layout

  lemma {:induction false} NamedFound(segments: seq<Segment>, name: bytes)
    ensures forall s | s in Named(segments, name) :: s in segments && s.name == name
    ensures forall s | s in segments && s.name == name :: s in Named(segments, name)
  {
    if segments != [] {
      NamedFound(segments[1..], name);
      assert segments == [segments[0]] + segments[1..];
    }
  }

  /** The checks that follow the command loop, as facts about the layout they return. */
  lemma FinishFacts(data: bytes, allowMissing: bool, h: Header, cursor: int, p: Parse)
    requires Framing(data, h.commandsEnd) && WellShaped(p) && Finish(data, allowMissing, h, cursor, p).Ok?
    ensures var l := Finish(data, allowMissing, h, cursor, p).value;
            && cursor == h.commandsEnd && l.commandsEnd == h.commandsEnd
            && l.cpu == h.cpu && l.subtype == h.subtype && l.commandCount == h.ncmds
            && |Named(p.segments, LINKEDIT)| == 1
            && var s := Named(p.segments, LINKEDIT)[0];
               && s.nsects == 0 && l.linkeditCommand == s.command && l.linkeditOffset == s.offset
               && l.linkeditSize == s.size && l.linkeditVmSize == s.vmsize
               && h.commandsEnd <= s.offset <= l.signatureOffset && s.offset + s.size == |data|
    ensures var l := Finish(data, allowMissing, h, cursor, p).value;
            && SignaturePlace(data, allowMissing, h, p)
               == Ok((l.signatureCommand, l.signatureOffset, l.signatureSize))
            && l.signatureOffset <= |data|
            && (p.signature.Some? ==> Framed(data[l.signatureOffset..]))
    ensures DisjointRanges(FileRanges(p.segments)) && DisjointRanges(p.sections + p.zeroPad)
  {
    hide DisjointRanges, Framed, CheckSymbols, CheckLinks, SignaturePlace, Named, FileRanges, VirtualRanges,
      LinkeditFinal;
  }

  /** An accepted image is an accepted parse followed by accepted checks. */
  lemma LayoutParts(data: bytes, allowMissing: bool)
    requires LayoutOf(data, allowMissing).Ok?
    ensures ParseOf(data).Ok?
    ensures var (h, cursor, p) := ParseOf(data).value;
            && HeaderOf(data) == Ok(h)
            && 0 <= h.ncmds && Framing(data, h.commandsEnd) && WellShaped(p)
            && Walk(data, h.commandsEnd, h.filetype, h.ncmds, 32, NOTHING) == Ok((cursor, p))
            && Finish(data, allowMissing, h, cursor, p) == LayoutOf(data, allowMissing)
  {
    hide HeaderOf, Walk, Finish;
    var (h, cursor, p) := ParseOf(data).value;
    HeaderCount(data);
    WalkShape(data, h.commandsEnd, h.filetype, h.ncmds, 32, NOTHING);
  }

  lemma HeaderCount(data: bytes)
    ensures HeaderOf(data).Ok? ==> HeaderOf(data).value.ncmds >= 1
  {
  }

  predicate SignatureFacts(data: bytes, l: Layout) {
    match l.signatureCommand
    case None =>
      && l.signatureOffset == |data| && l.signatureSize == 0
      && l.cpu == CPU_X86_64 && l.subtype == 3
      && 32 <= l.commandsEnd && l.commandsEnd + 16 <= |data|
      && AllZero(data, l.commandsEnd, l.commandsEnd + 16)
    case Some(c) =>
      && 32 <= c && c + 16 <= l.commandsEnd <= |data|
      && U32(data, c) == LC_CODE_SIGNATURE && U32(data, c + 4) == 16
      && U32(data, c + 8) == l.signatureOffset && U32(data, c + 12) == l.signatureSize
      && l.signatureOffset % 16 == 0 && l.signatureSize > 0
      && l.signatureOffset + l.signatureSize == |data|
      && (c + 16 <= l.linkeditCommand || l.linkeditCommand + 72 <= c)
  }

  predicate HeaderFacts(data: bytes, l: Layout) {
    && 32 <= l.commandsEnd <= |data| <= MAX_IMAGE_BYTES
    && data[..4] == THIN_MAGIC
    && l.cpu == U32(data, 4) && l.subtype == U32(data, 8)
    && l.commandCount == U32(data, 16) && l.commandsEnd == 32 + U32(data, 20)
    && 1 <= l.commandCount <= MAX_COMMANDS && l.commandsEnd <= 32 + MAX_COMMAND_BYTES
  }

  predicate LinkeditFacts(data: bytes, l: Layout) {
    && 32 <= l.linkeditCommand && l.linkeditCommand + 72 <= l.commandsEnd <= |data|
    && U32(data, l.linkeditCommand) == LC_SEGMENT_64 && U32(data, l.linkeditCommand + 64) == 0
    && U64(data, l.linkeditCommand + 32) == l.linkeditVmSize
    && U64(data, l.linkeditCommand + 40) == l.linkeditOffset
    && U64(data, l.linkeditCommand + 48) == l.linkeditSize
    && l.commandsEnd <= l.linkeditOffset <= l.signatureOffset <= |data|
    && l.linkeditOffset + l.linkeditSize == |data|
  }

  lemma HeaderOfFacts(data: bytes, allowMissing: bool)
    requires LayoutOf(data, allowMissing).Ok?
    ensures HeaderFacts(data, LayoutOf(data, allowMissing).value)
  {
    hide Walk, Finish, LayoutOf, ParseOf;
    LayoutParts(data, allowMissing);
    var (h, cursor, p) := ParseOf(data).value;
    FinishFacts(data, allowMissing, h, cursor, p);
  }

  /** The accepted image has exactly one linkedit segment, and it was read from a visited command. */
  lemma LinkeditSegment(data: bytes, allowMissing: bool) returns (s: Segment)
    requires LayoutOf(data, allowMissing).Ok?
    ensures ParseOf(data).Ok?
    ensures var (h, _, p) := ParseOf(data).value;
            && Framing(data, h.commandsEnd) && 0 <= h.ncmds
            && Named(p.segments, LINKEDIT) == [s] && s in p.segments && s.nsects == 0
            && SegmentRead(data, h.commandsEnd, s)
            && Reaches(data, h.commandsEnd, h.filetype, h.ncmds, 32, NOTHING, s.command)
    ensures var l := LayoutOf(data, allowMissing).value;
            l.linkeditCommand == s.command && l.linkeditOffset == s.offset
  {
    hide Walk, Finish, LayoutOf, ParseOf, HeaderOf, Reaches, SegmentRead;
    LayoutParts(data, allowMissing);
    var (h, cursor, p) := ParseOf(data).value;
    FinishFacts(data, allowMissing, h, cursor, p);
    var named := Named(p.segments, LINKEDIT);
    s := named[0];
    NamedFound(p.segments, LINKEDIT);
    assert s in named;
    SegmentOrigin(data, h.commandsEnd, h.filetype, h.ncmds, 32, NOTHING, s);
  }

  lemma LinkeditOfFacts(data: bytes, allowMissing: bool)
    requires LayoutOf(data, allowMissing).Ok?
    ensures LinkeditFacts(data, LayoutOf(data, allowMissing).value)
    ensures var l := LayoutOf(data, allowMissing).value; U32(data, l.linkeditCommand + 4) == 72
  {
    hide Walk, Finish, LayoutOf, ParseOf, HeaderOf, Reaches, Framed, DisjointRanges;
    LayoutParts(data, allowMissing);
    var (h, cursor, p) := ParseOf(data).value;
    FinishFacts(data, allowMissing, h, cursor, p);
    var s := LinkeditSegment(data, allowMissing);
  }

  /** The commands that the layout names were visited by the loop. */
  lemma LayoutReached(data: bytes, allowMissing: bool)
    requires LayoutOf(data, allowMissing).Ok?
    ensures ParseOf(data).Ok?
    ensures var l := LayoutOf(data, allowMissing).value;
            var (h, _, _) := ParseOf(data).value;
            && Framing(data, h.commandsEnd) && 0 <= h.ncmds
            && l.commandsEnd == h.commandsEnd
            && Reaches(data, h.commandsEnd, h.filetype, h.ncmds, 32, NOTHING, l.linkeditCommand)
            && (l.signatureCommand.Some? ==>
                  Reaches(data, h.commandsEnd, h.filetype, h.ncmds, 32, NOTHING, l.signatureCommand.value)
                  && SignatureRead(data, h.commandsEnd,
                                   Signature(l.signatureCommand.value, l.signatureOffset, l.signatureSize)))
  {
    hide Walk, Finish, LayoutOf, ParseOf, HeaderOf, Reaches, Framed, DisjointRanges, SegmentRead, SignatureRead;
    LayoutParts(data, allowMissing);
    var (h, cursor, p) := ParseOf(data).value;
    FinishFacts(data, allowMissing, h, cursor, p);
    var s := LinkeditSegment(data, allowMissing);
    SignatureOrigin(data, h.commandsEnd, h.filetype, h.ncmds, 32, NOTHING);
  }

  lemma SignatureOfFacts(data: bytes, allowMissing: bool)
    requires LayoutOf(data, allowMissing).Ok?
    ensures SignatureFacts(data, LayoutOf(data, allowMissing).value)
  {
    hide Walk, Finish, LayoutOf, ParseOf, HeaderOf, Reaches, Framed, DisjointRanges;
    LayoutParts(data, allowMissing);
    LayoutReached(data, allowMissing);
    LinkeditOfFacts(data, allowMissing);
    SectionsFit(data, allowMissing);
    var l := LayoutOf(data, allowMissing).value;
    var (h, cursor, p) := ParseOf(data).value;
    FinishFacts(data, allowMissing, h, cursor, p);
    if l.signatureCommand.Some? {
      var c, le := l.signatureCommand.value, l.linkeditCommand;
      assert c != le;
      if c < le {
        ReachApart(data, h.commandsEnd, h.filetype, h.ncmds, 32, NOTHING, c, le);
      } else {
        ReachApart(data, h.commandsEnd, h.filetype, h.ncmds, 32, NOTHING, le, c);
      }
    }
  }

  // ----- what the section loop collects

  /** File-backed bytes of a segment start after the commands and end inside the image. */
  predicate Backed(data: bytes, ce: int, segments: seq<Segment>, r: Range) {
    && ce <= r.start < r.stop <= |data|
    && exists s | s in segments :: s.nsects > 0 && s.offset <= r.start && r.stop <= s.offset + s.size
  }

  predicate AllBacked(data: bytes, ce: int, p: Parse) {
    && (forall r | r in p.sections :: Backed(data, ce, p.segments, r))
    && (forall r | r in p.zeroPad :: Backed(data, ce, p.segments, r) && 0 <= r.start && AllZero(data, r.start, r.stop))
  }

  lemma SectionStepBacked(data: bytes, ce: int, seg: Segment, raw: bytes, index: nat, p: Parse)
    requires |raw| == 72 + seg.nsects * 80 && index < seg.nsects && 32 <= ce
    requires seg in p.segments && 0 <= seg.offset && seg.offset + seg.size <= |data| && AllBacked(data, ce, p)
    requires SectionStep(data, ce, seg, raw, index, p).Ok?
    ensures SectionStep(data, ce, seg, raw, index, p).value.segments == p.segments
    ensures AllBacked(data, ce, SectionStep(data, ce, seg, raw, index, p).value)
  {
    var b := 72 + index * 80;
    var q := SectionStep(data, ce, seg, raw, index, p).value;
    var address, length := U64(raw, b + 32), U64(raw, b + 40);
    var off, flags := U32(raw, b + 48), U32(raw, b + 64);
    var hit := Range(off, off + length);
    assert q.sections == p.sections || (q.sections == p.sections + [hit] && Backed(data, ce, p.segments, hit));
    assert q.zeroPad == p.zeroPad
        || (q.zeroPad == p.zeroPad + [hit] && ce <= off && 0 < length
            && Backed(data, ce, p.segments, hit) && AllZero(data, hit.start, hit.stop));
  }

  lemma {:induction false} SectionsBacked(data: bytes, ce: int, seg: Segment, raw: bytes, index: nat, p: Parse)
    requires |raw| == 72 + seg.nsects * 80 && index <= seg.nsects && 32 <= ce
    requires seg in p.segments && 0 <= seg.offset && seg.offset + seg.size <= |data| && AllBacked(data, ce, p)
    requires Sections(data, ce, seg, raw, index, p).Ok?
    ensures AllBacked(data, ce, Sections(data, ce, seg, raw, index, p).value)
    decreases seg.nsects - index
  {
    hide SectionStep, AllBacked;
    if index < seg.nsects {
      SectionStepBacked(data, ce, seg, raw, index, p);
      SectionsBacked(data, ce, seg, raw, index + 1, SectionStep(data, ce, seg, raw, index, p).value);
    }
  }

  lemma SegmentCommandBacked(data: bytes, ce: int, cursor: int, raw: bytes, p: Parse)
    requires 32 <= ce && SegmentCommand(data, ce, cursor, raw, p).Ok? && AllBacked(data, ce, p)
    ensures AllBacked(data, ce, SegmentCommand(data, ce, cursor, raw, p).value)
  {
    hide SegmentOf, Sections;
    var seg := SegmentOf(|data|, cursor, raw, p).value;
    var q := p.(segments := p.segments + [seg]);
    assert forall s | s in p.segments :: s in q.segments;
    forall r | Backed(data, ce, p.segments, r) ensures Backed(data, ce, q.segments, r) { }
    assert AllBacked(data, ce, q);
    SectionsBacked(data, ce, seg, raw, 0, q);
  }

  lemma StepBacked(data: bytes, ce: int, filetype: int, cursor: int, p: Parse)
    requires Framing(data, ce) && 32 <= cursor && Step(data, ce, filetype, cursor, p).Ok? && AllBacked(data, ce, p)
    ensures AllBacked(data, ce, Step(data, ce, filetype, cursor, p).value.1)
  {
    hide SegmentCommand, PlainCommand, Backed;
    var (command, size) := CommandAt(data, ce, cursor).value;
    var raw := data[cursor..cursor + size];
    var p' := p.(seen := p.seen + {command});
    if command == LC_SEGMENT_64 {
      SegmentCommandBacked(data, ce, cursor, raw, p');
    } else {
      PlainBacked(filetype, cursor, command, raw, p');
    }
  }

  lemma {:induction false} WalkBacked(data: bytes, ce: int, filetype: int, n: nat, cursor: int, p: Parse)
    requires Framing(data, ce) && 32 <= cursor && AllBacked(data, ce, p)
    requires Walk(data, ce, filetype, n, cursor, p).Ok?
    ensures AllBacked(data, ce, Walk(data, ce, filetype, n, cursor, p).value.1)
  {
    hide Step, AllBacked;
    if n > 0 {
      StepBacked(data, ce, filetype, cursor, p);
      var s := Step(data, ce, filetype, cursor, p).value;
      WalkBacked(data, ce, filetype, n - 1, s.0, s.1);
    }
  }

  lemma SectionsFit(data: bytes, allowMissing: bool)
    requires LayoutOf(data, allowMissing).Ok?
    ensures ParseOf(data).Ok?
    ensures var (h, _, p) := ParseOf(data).value; AllBacked(data, h.commandsEnd, p)
    ensures var l := LayoutOf(data, allowMissing).value;
            l.signatureCommand.None? ==> l.commandsEnd + 16 <= |data|
  {
    hide Walk, Finish, LayoutOf, ParseOf, HeaderOf, Framed, DisjointRanges;
    LayoutParts(data, allowMissing);
    var (h, cursor, p) := ParseOf(data).value;
    FinishFacts(data, allowMissing, h, cursor, p);
    WalkBacked(data, h.commandsEnd, h.filetype, h.ncmds, 32, NOTHING);
    if LayoutOf(data, allowMissing).value.signatureCommand.None? {
      assert p.sections[0] in p.sections;
    }
  }
}
