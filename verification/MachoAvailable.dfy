/** For which signatures an accepted original has an accepted output. */
module MachoAvailable {
  import opened Results
  import opened MachoBytes
  import opened Ranges
  import opened SignatureFrame
  import opened MachoLayout
  import opened MachoWalk
  import opened MachoLockstep
  import opened MachoDelta
  import opened MachoRebuild
  import opened MachoTheorems
  import opened MachoRewalk

  /** Where the commands of an output end. */
  function GrownEnd(before: Layout): int {
    before.commandsEnd + if before.signatureCommand.None? then 16 else 0
  }

  /** The parse of an accepted original. */
  function Parsed(original: bytes): Parse
    requires ParseOf(original).Ok?
  {
    ParseOf(original).value.2
  }

  // ----- the segments of an accepted original

  predicate Ascend(segments: seq<Segment>, cursor: int) {
    && (forall i | 0 <= i < |segments| :: segments[i].command < cursor)
    && forall i, j | 0 <= i < j < |segments| :: segments[i].command < segments[j].command
  }

  lemma {:induction false} WalkAscends(d: bytes, ce: int, filetype: int, n: nat, cursor: int, p: Parse)
    requires Framing(d, ce) && 32 <= cursor && Walk(d, ce, filetype, n, cursor, p).Ok? && Ascend(p.segments, cursor)
    ensures Ascend(Walk(d, ce, filetype, n, cursor, p).value.1.segments, Walk(d, ce, filetype, n, cursor, p).value.0)
  {
    hide Step, SegmentOf;
    if n > 0 {
      StepGrows(d, ce, filetype, cursor, p);
      var s := Step(d, ce, filetype, cursor, p).value;
      WalkAscends(d, ce, filetype, n - 1, s.0, s.1);
    }
  }

  /** A signature command is recorded. */
  lemma {:induction false} SeenIsRecorded(d: bytes, ce: int, filetype: int, n: nat, cursor: int, p: Parse)
    requires Framing(d, ce) && 32 <= cursor && Walk(d, ce, filetype, n, cursor, p).Ok?
    requires LC_CODE_SIGNATURE in p.seen ==> p.signature.Some?
    ensures var q := Walk(d, ce, filetype, n, cursor, p).value.1; LC_CODE_SIGNATURE in q.seen ==> q.signature.Some?
  {
    hide Step;
    if n > 0 {
      StepRecords(d, ce, filetype, cursor, p);
      var s := Step(d, ce, filetype, cursor, p).value;
      SeenIsRecorded(d, ce, filetype, n - 1, s.0, s.1);
    }
  }

  lemma StepRecords(d: bytes, ce: int, filetype: int, cursor: int, p: Parse)
    requires Framing(d, ce) && 32 <= cursor && Step(d, ce, filetype, cursor, p).Ok?
    requires LC_CODE_SIGNATURE in p.seen ==> p.signature.Some?
    ensures var q := Step(d, ce, filetype, cursor, p).value.1; LC_CODE_SIGNATURE in q.seen ==> q.signature.Some?
  {
    hide SegmentCommand, PlainCommand, U32;
    var (command, size) := CommandAt(d, ce, cursor).value;
    var raw := d[cursor..cursor + size];
    var p' := p.(seen := p.seen + {command});
    if command == LC_SEGMENT_64 {
      SegmentSeen(d, ce, cursor, raw, p');
    } else {
      PlainSignature(filetype, cursor, command, raw, p');
      PlainSeen(filetype, cursor, command, raw, p');
    }
  }

  lemma SegmentSeen(d: bytes, ce: int, cursor: int, raw: bytes, p: Parse)
    requires 32 <= ce && SegmentCommand(d, ce, cursor, raw, p).Ok?
    ensures var q := SegmentCommand(d, ce, cursor, raw, p).value; q.seen == p.seen && q.signature == p.signature
  {
    hide SegmentOf, Sections;
    var t := SegmentOf(|d|, cursor, raw, p).value;
    SectionsShape(d, ce, t, raw, 0, p.(segments := p.segments + [t]));
  }

  lemma PlainSeen(filetype: int, cursor: int, command: int, raw: bytes, p: Parse)
    requires |raw| >= 8 && PlainCommand(filetype, cursor, command, raw, p).Ok?
    ensures PlainCommand(filetype, cursor, command, raw, p).value.seen == p.seen
  {
    hide U32, U64, Words, InlineString;
  }

  /** The segments of an accepted original: the linkedit one, by its command, ends the file and every other one with
      file bytes ends before it. */
  predicate SegmentsOk(original: bytes, before: Layout, p: Parse) {
    && (forall i, j | 0 <= i < j < |p.segments| :: p.segments[i].command != p.segments[j].command)
    && (forall s | s in p.segments :: 0 <= s.addr && 0 <= s.vmsize
                                      && 0 <= s.offset && 0 <= s.size && s.offset + s.size <= |original|
                                      && (s.command == before.linkeditCommand <==> s.name == LINKEDIT))
    && (forall s | s in p.segments && s.command == before.linkeditCommand ::
          s.offset == before.linkeditOffset && s.size == before.linkeditSize && s.nsects == 0)
    && (forall s | s in p.segments && s.command != before.linkeditCommand ::
          && 0 <= s.command && 0 <= s.nsects && s.command + 72 + s.nsects * 80 <= |original|
          && (s.size != 0 ==> s.offset + s.size <= before.linkeditOffset))
  }

  lemma {:induction false} FileRangesHave(segments: seq<Segment>)
    ensures forall s | s in segments && s.size != 0 :: Range(s.offset, s.offset + s.size) in FileRanges(segments)
  {
    if segments != [] {
      FileRangesHave(segments[1..]);
      assert segments == [segments[0]] + segments[1..];
    }
  }

  lemma HeadApart(head: Range, rest: seq<Range>, r: Range)
    requires DisjointRanges([head] + rest) && r in rest
    ensures Apart(head, r)
  {
    var k :| 0 <= k < |rest| && rest[k] == r;
    assert ([head] + rest)[0] == head && ([head] + rest)[k + 1] == r;
  }

  lemma SuffixApart(prefix: seq<Range>, rest: seq<Range>)
    requires DisjointRanges(prefix + rest)
    ensures DisjointRanges(rest)
  {
    var all := prefix + rest;
    assert forall k | 0 <= k < |rest| :: rest[k] == all[|prefix| + k];
  }

  lemma {:induction false} FileRangesApart(segments: seq<Segment>, i: nat, j: nat)
    requires DisjointRanges(FileRanges(segments)) && i < j < |segments|
    requires segments[i].size != 0 && segments[j].size != 0
    ensures Apart(Range(segments[i].offset, segments[i].offset + segments[i].size),
                  Range(segments[j].offset, segments[j].offset + segments[j].size))
  {
    hide DisjointRanges;
    var head, rest := segments[0], FileRanges(segments[1..]);
    var first := if head.size != 0 then [Range(head.offset, head.offset + head.size)] else [];
    assert FileRanges(segments) == first + rest;
    if i == 0 {
      FileRangesHave(segments[1..]);
      assert segments[1..][j - 1] == segments[j];
      HeadApart(first[0], rest, Range(segments[j].offset, segments[j].offset + segments[j].size));
    } else {
      SuffixApart(first, rest);
      FileRangesApart(segments[1..], i - 1, j - 1);
    }
  }

  lemma OriginalSegments(original: bytes)
    requires LayoutOf(original, true).Ok?
    ensures ParseOf(original).Ok? && SegmentsOk(original, LayoutOf(original, true).value, Parsed(original))
  {
    hide Walk, Finish, LayoutOf, ParseOf, HeaderOf, Reaches, Framed, FileRanges, Named, SegmentRead;
    LayoutParts(original, true);
    var (h, cursor, p) := ParseOf(original).value;
    FinishFacts(original, true, h, cursor, p);
    WalkAscends(original, h.commandsEnd, h.filetype, h.ncmds, 32, NOTHING);
    var l := LayoutOf(original, true).value;
    var x := LinkeditSegment(original, true);
    NamedFound(p.segments, LINKEDIT);
    assert Named(p.segments, LINKEDIT)[0] == x;
    forall s | s in p.segments ensures SegmentPlaced(original, l, x, s) {
      SegmentOrigin(original, h.commandsEnd, h.filetype, h.ncmds, 32, NOTHING, s);
      OriginalSegment(original, h, cursor, p, l, x, s);
    }
  }

  predicate SegmentPlaced(original: bytes, l: Layout, x: Segment, s: Segment) {
    && 0 <= s.addr && 0 <= s.vmsize && 0 <= s.offset && 0 <= s.size && s.offset + s.size <= |original|
    && (s.command == l.linkeditCommand <==> s.name == LINKEDIT) && (s.command == l.linkeditCommand <==> s == x)
    && 0 <= s.command && 0 <= s.nsects && s.command + 72 + s.nsects * 80 <= |original|
    && (s.command != l.linkeditCommand && s.size != 0 ==> s.offset + s.size <= l.linkeditOffset)
  }

  lemma OriginalSegment(original: bytes, h: Header, cursor: int, p: Parse, l: Layout, x: Segment, s: Segment)
    requires Framing(original, h.commandsEnd) && SegmentRead(original, h.commandsEnd, s)
    requires Ascend(p.segments, cursor) && DisjointRanges(FileRanges(p.segments))
    requires x in p.segments && s in p.segments && x.name == LINKEDIT
    requires forall t | t in p.segments && t.name == LINKEDIT :: t == x
    requires l.linkeditCommand == x.command && l.linkeditOffset == x.offset
    requires 0 <= x.offset && x.size >= 0 && x.offset + x.size == |original|
    ensures SegmentPlaced(original, l, x, s)
  {
    hide U32, U64, DisjointRanges;
    var i :| 0 <= i < |p.segments| && p.segments[i] == s;
    var j :| 0 <= j < |p.segments| && p.segments[j] == x;
    if i < j && s.size != 0 && x.size != 0 { FileRangesApart(p.segments, i, j); }
    if j < i && s.size != 0 && x.size != 0 { FileRangesApart(p.segments, j, i); }
  }

  // ----- the header and the command loop of the rebuilt image

  /** An appended command needs a free place in the header's two counts. */
  predicate CountsFit(before: Layout) {
    before.signatureCommand.None? ==>
      before.commandCount < MAX_COMMANDS && before.commandsEnd + 16 <= 32 + MAX_COMMAND_BYTES
  }

  lemma OriginalHeader(original: bytes)
    requires LayoutOf(original, true).Ok?
    ensures HeaderOf(original).Ok? && 32 <= |original|
    ensures var before, h := LayoutOf(original, true).value, HeaderOf(original).value;
            && h.commandsEnd == before.commandsEnd && h.ncmds == before.commandCount
            && h.commandsEnd == 32 + U32(original, 20) && h.ncmds == U32(original, 16)
  {
    hide LayoutOf, Walk, Finish, ParseOf, U32, HeaderOf, DisjointRanges, Framed;
    LayoutParts(original, true);
    var (h, cursor, p) := ParseOf(original).value;
    FinishFacts(original, true, h, cursor, p);
    LayoutFacts(original, true);
  }

  /** The words of the two headers. */
  lemma HeaderWords(original: bytes, before: Layout, signed: bytes)
    requires IsRebuilt(original, before, signed) && |original| >= 32
    requires before.commandsEnd == 32 + U32(original, 20) && before.commandCount == U32(original, 16)
    ensures |signed| >= 32 && signed[..4] == original[..4]
    ensures U32(signed, 4) == U32(original, 4) && U32(signed, 8) == U32(original, 8)
    ensures U32(signed, 12) == U32(original, 12) && U32(signed, 28) == U32(original, 28)
    ensures var grown := if before.signatureCommand.None? then 1 else 0;
            U32(signed, 16) == U32(original, 16) + grown && U32(signed, 20) == U32(original, 20) + 16 * grown
  {
    hide IsRebuilt, Agree, U32, Facts;
    RebuiltReserved(original, before, signed);
    RebuiltAgrees(original, before, signed);
    SameU32(original, signed, 4);
    SameU32(original, signed, 8);
    SameU32(original, signed, 12);
    SameU32(original, signed, 28);
    if before.signatureCommand.None? {
      RebuiltCounts(original, before, signed);
    } else {
      SameU32(original, signed, 16);
      SameU32(original, signed, 20);
    }
  }

  lemma HeaderIff(original: bytes, signed: bytes)
    requires LayoutOf(original, true).Ok? && IsRebuilt(original, LayoutOf(original, true).value, signed)
    ensures HeaderOf(original).Ok?
    ensures var before, h := LayoutOf(original, true).value, HeaderOf(original).value;
            var grown := Header(h.cpu, h.subtype, h.filetype,
                                h.ncmds + (if before.signatureCommand.None? then 1 else 0), GrownEnd(before));
            && (HeaderOf(signed).Ok? <==> CountsFit(before))
            && (CountsFit(before) ==> HeaderOf(signed) == Ok(grown))
  {
    hide LayoutOf, IsRebuilt, U32, Facts;
    var before := LayoutOf(original, true).value;
    OriginalHeader(original);
    RebuiltFits(original, before, signed);
    HeaderWords(original, before, signed);
  }

  lemma RebuiltFits(original: bytes, before: Layout, signed: bytes)
    requires IsRebuilt(original, before, signed)
    ensures Facts(original, before) && 32 <= before.commandsEnd
    ensures GrownEnd(before) <= before.signatureOffset <= |original| && before.signatureOffset <= |signed|
    ensures before.signatureOffset <= Allocation(original, before) <= |signed| <= MAX_IMAGE_BYTES
  {
    hide Rebuild, Facts;
    RebuiltOrder(original, before, signed);
    OffsetsOrdered(original, before);
  }

  lemma RebuiltReserved(original: bytes, before: Layout, signed: bytes)
    requires IsRebuilt(original, before, signed)
    ensures |original| >= 32 && |signed| >= 32 && forall k | 28 <= k < 32 :: original[k] == signed[k]
  {
    hide IsRebuilt, InField, Fields, Facts;
    RebuiltFits(original, before, signed);
    RebuiltOrder(original, before, signed);
    forall k | 28 <= k < 32 ensures original[k] == signed[k] {
      FieldBytes(before, k);
      RebuiltByte(original, before, signed, k);
    }
  }

  /** Between the commands and the signature nothing has moved. */
  lemma RebuiltBody(original: bytes, before: Layout, signed: bytes, k: int)
    requires IsRebuilt(original, before, signed) && GrownEnd(before) <= k < before.signatureOffset
    ensures k < |original| && k < |signed| && original[k] == signed[k]
  {
    hide IsRebuilt, InField, Fields, Facts;
    RebuiltFits(original, before, signed);
    RebuiltOrder(original, before, signed);
    FieldBytes(before, k);
    RebuiltByte(original, before, signed, k);
  }

  lemma RebuiltIsReady(original: bytes, signed: bytes)
    requires LayoutOf(original, true).Ok? && IsRebuilt(original, LayoutOf(original, true).value, signed)
    ensures ParseOf(original).Ok?
    ensures var before := LayoutOf(original, true).value;
            && 32 <= before.linkeditCommand && before.linkeditCommand + 72 <= |signed| && 32 <= GrownEnd(before)
            && ReadyFrom(original, signed, GrownEnd(before), before.linkeditCommand, Parsed(original).segments, 0)
  {
    hide LayoutOf, ParseOf, IsRebuilt, U64, RoundUp, Facts, Unmoved;
    var before := LayoutOf(original, true).value;
    OriginalSegments(original);
    RebuiltSizes(original, before, signed);
    RebuiltFits(original, before, signed);
    var segments := Parsed(original).segments;
    forall i | 0 <= i < |segments|
      ensures Ready(original, signed, GrownEnd(before), before.linkeditCommand, segments[i])
    {
      var s := segments[i];
      assert s in segments;
      if s.command != before.linkeditCommand { RebuiltUnmoved(original, before, signed, s); }
    }
  }

  lemma RebuiltUnmoved(original: bytes, before: Layout, signed: bytes, s: Segment)
    requires IsRebuilt(original, before, signed)
    requires s.size != 0 ==> s.offset + s.size <= before.linkeditOffset
    ensures 0 <= GrownEnd(before) && Unmoved(original, signed, GrownEnd(before), s)
  {
    hide IsRebuilt, Facts;
    RebuiltFits(original, before, signed);
    RebuiltPlaced(original, before, signed);
    if s.size != 0 {
      forall k | GrownEnd(before) <= k < s.offset + s.size ensures original[k] == signed[k] {
        RebuiltBody(original, before, signed, k);
      }
    }
  }

  lemma RebuiltPlaced(original: bytes, before: Layout, signed: bytes)
    requires IsRebuilt(original, before, signed)
    ensures before.linkeditOffset <= before.signatureOffset
  {
    hide Rebuild, Facts;
    OffsetsOrdered(original, before);
  }

  /** The rebuilt image's loop accepts the original's commands exactly if every segment fits. */
  lemma RebuiltWalkIff(original: bytes, signed: bytes)
    requires LayoutOf(original, true).Ok? && IsRebuilt(original, LayoutOf(original, true).value, signed)
    ensures ParseOf(original).Ok?
    ensures var before := LayoutOf(original, true).value;
            var (h, cursor, p) := ParseOf(original).value;
            && cursor == before.commandsEnd && 0 <= h.ncmds && Framing(signed, GrownEnd(before))
            && 32 <= before.linkeditCommand && before.linkeditCommand + 72 <= |signed|
            && var w := Walk(signed, GrownEnd(before), h.filetype, h.ncmds, 32, NOTHING);
               && (w.Ok? <==> FitFrom(original, signed, GrownEnd(before), before.linkeditCommand, p.segments, 0))
               && (w.Ok? ==> w.value.0 == cursor && Similar(p, w.value.1, before.linkeditCommand))
  {
    hide LayoutOf, Walk, Finish, IsRebuilt, Agree, ParseOf, HeaderOf, Step, Reaches, Similar, SignatureRead, Facts,
      MutableCommands, FitFrom, ReadyFrom;
    var before := LayoutOf(original, true).value;
    LayoutParts(original, true);
    var (h, cursor, p) := ParseOf(original).value;
    FinishFacts(original, true, h, cursor, p);
    LayoutReached(original, true);
    RebuiltAgrees(original, before, signed);
    RebuiltOrder(original, before, signed);
    RebuiltFits(original, before, signed);
    RebuiltIsReady(original, signed);
    MutableKinds(original, before);
    SimilarSelf(before.linkeditCommand);
    WalkIff(original, h.commandsEnd, signed, GrownEnd(before), h.filetype, h.ncmds, 32, NOTHING, NOTHING,
            before.linkeditCommand, SignatureAt(before));
    if Walk(signed, GrownEnd(before), h.filetype, h.ncmds, 32, NOTHING).Ok? {
      Lockstep(original, h.commandsEnd, signed, GrownEnd(before), h.filetype, h.ncmds, 32, NOTHING, NOTHING,
               before.linkeditCommand, SignatureAt(before));
    }
  }

  /** A loop that stops one command early and then accepts that command accepts all. */
  lemma {:induction false} WalkAppend(data: bytes, ce: int, filetype: int, n: nat, cursor: int, p: Parse)
    requires Framing(data, ce) && 32 <= cursor && Walk(data, ce, filetype, n, cursor, p).Ok?
    requires var (c, q) := Walk(data, ce, filetype, n, cursor, p).value;
             32 <= c && Step(data, ce, filetype, c, q).Ok?
    ensures var (c, q) := Walk(data, ce, filetype, n, cursor, p).value;
            Walk(data, ce, filetype, n + 1, cursor, p) == Step(data, ce, filetype, c, q)
  {
    hide Step;
    if n > 0 {
      var s := Step(data, ce, filetype, cursor, p).value;
      WalkAppend(data, ce, filetype, n - 1, s.0, s.1);
    } else {
      var s := Step(data, ce, filetype, cursor, p).value;
      assert Walk(data, ce, filetype, 0, s.0, s.1) == Ok((s.0, s.1));
    }
  }

  /** The appended command is accepted if no signature command was seen before it. */
  lemma AppendedStep(data: bytes, ce: int, filetype: int, cursor: int, p: Parse)
    requires Framing(data, ce) && 32 <= cursor && cursor + 16 == ce && LC_CODE_SIGNATURE !in p.seen
    requires U32(data, cursor) == LC_CODE_SIGNATURE && U32(data, cursor + 4) == 16
    ensures Step(data, ce, filetype, cursor, p)
            == Ok((ce, p.(seen := p.seen + {LC_CODE_SIGNATURE},
                          signature := Some(Signature(cursor, U32(data, cursor + 8), U32(data, cursor + 12))))))
  {
    SliceU32(data, cursor, ce, 8);
    SliceU32(data, cursor, ce, 12);
    hide U32;
    assert CommandAt(data, ce, cursor) == Ok((LC_CODE_SIGNATURE, 16));
  }

  // ----- the parse of the rebuilt image

  /** What the rebuilt image's parse q keeps of the original's parse p, and what it changes. */
  predicate Reparsed(original: bytes, before: Layout, p: Parse, signed: bytes, q: Parse)
    requires 0 <= before.linkeditOffset <= |signed|
  {
    var size := |signed| - before.linkeditOffset;
    && SimilarSegments(p.segments, q.segments, before.linkeditCommand)
    && q.sections == p.sections && q.links == p.links && q.vmRanges == p.vmRanges && q.zeroPad == p.zeroPad
    && q.symtab == p.symtab && q.dysymtab == p.dysymtab && q.entry == p.entry
    && (forall s | s in q.segments && s.command == before.linkeditCommand ::
          s.size == size && s.vmsize == RoundUp(size, 16384))
    && q.signature == Some(Signature(if before.signatureCommand.None? then before.commandsEnd
                                     else before.signatureCommand.value,
                                     Allocation(original, before), |signed| - Allocation(original, before)))
  }

  lemma RebuiltSignatureSize(original: bytes, before: Layout, signed: bytes)
    requires IsRebuilt(original, before, signed) && before.signatureCommand.Some?
    ensures var c := before.signatureCommand.value;
            32 <= c && c + 16 <= |signed| && U32(signed, c + 12) == |signed| - Allocation(original, before)
  {
    hide Rebuild, Facts, U32, E32;
    var c, at := before.signatureCommand.value, Allocation(original, before);
    var o, size := c + 12, |signed| - at;
    var word := E32(size);
    RebuiltOrder(original, before, signed);
    OffsetsOrdered(original, before);
    forall k | 0 <= k < 4 ensures signed[o + k] == word[k] {
      ReplacementByte(original, before, signed[at..], o + k);
    }
    ReadBack32(signed, o, size);
  }

  /** The linkedit segment of the rebuilt image has the forced sizes. */
  lemma RebuiltLinkedit(original: bytes, before: Layout, signed: bytes, ce: int, filetype: int, n: nat, s: Segment)
    requires IsRebuilt(original, before, signed) && Framing(signed, ce)
    requires Walk(signed, ce, filetype, n, 32, NOTHING).Ok?
    requires s in Walk(signed, ce, filetype, n, 32, NOTHING).value.1.segments && s.command == before.linkeditCommand
    ensures 0 <= |signed| - before.linkeditOffset
    ensures s.size == |signed| - before.linkeditOffset && s.vmsize == RoundUp(|signed| - before.linkeditOffset, 16384)
  {
    hide IsRebuilt, Walk, Reaches, U64, RoundUp;
    SegmentOrigin(signed, ce, filetype, n, 32, NOTHING, s);
    RebuiltSizes(original, before, signed);
  }

  /** The parse of an original without a signature, with the appended command added. */
  function Appended(original: bytes, before: Layout, signed: bytes, w: Parse): Parse {
    var at := Allocation(original, before);
    w.(seen := w.seen + {LC_CODE_SIGNATURE}, signature := Some(Signature(before.commandsEnd, at, |signed| - at)))
  }

  /** The loop over the original's commands in the rebuilt image accepts. */
  predicate Loops(original: bytes, signed: bytes)
    requires LayoutOf(original, true).Ok?
  {
    var ce := GrownEnd(LayoutOf(original, true).value);
    && ParseOf(original).Ok? && 0 <= ParseOf(original).value.0.ncmds && Framing(signed, ce)
    && Walk(signed, ce, ParseOf(original).value.0.filetype, ParseOf(original).value.0.ncmds, 32, NOTHING).Ok?
  }

  lemma LoopSizes(original: bytes, signed: bytes)
    requires LayoutOf(original, true).Ok? && IsRebuilt(original, LayoutOf(original, true).value, signed)
    requires Loops(original, signed)
    ensures var before := LayoutOf(original, true).value;
            var (h, _, p) := ParseOf(original).value;
            var w := Walk(signed, GrownEnd(before), h.filetype, h.ncmds, 32, NOTHING).value.1;
            && 0 <= before.linkeditOffset <= |signed|
            && Similar(p, w, before.linkeditCommand)
            && forall s | s in w.segments && s.command == before.linkeditCommand ::
                 && s.size == |signed| - before.linkeditOffset
                 && s.vmsize == RoundUp(|signed| - before.linkeditOffset, 16384)
  {
    hide LayoutOf, Walk, IsRebuilt, ParseOf, Facts, FitFrom, RoundUp, Similar, Allocation;
    var before := LayoutOf(original, true).value;
    var (h, cursor, p) := ParseOf(original).value;
    RebuiltWalkIff(original, signed);
    RebuiltFits(original, before, signed);
    RebuiltPlaced(original, before, signed);
    RebuiltNonNegative(original, before, signed);
    var w := Walk(signed, GrownEnd(before), h.filetype, h.ncmds, 32, NOTHING).value.1;
    forall s | s in w.segments && s.command == before.linkeditCommand
      ensures s.size == |signed| - before.linkeditOffset && s.vmsize == RoundUp(|signed| - before.linkeditOffset, 16384)
    {
      RebuiltLinkedit(original, before, signed, GrownEnd(before), h.filetype, h.ncmds, s);
    }
  }

  /** Where the signature of an accepted original is recorded, and that a missing one was not seen. */
  lemma OriginalSignature(original: bytes)
    requires LayoutOf(original, true).Ok?
    ensures ParseOf(original).Ok?
    ensures var before, p := LayoutOf(original, true).value, Parsed(original);
            match before.signatureCommand
            case None => p.signature.None? && LC_CODE_SIGNATURE !in p.seen
            case Some(c) => p.signature.Some? && p.signature.value.command == c
                            && p.signature.value.offset == before.signatureOffset
  {
    hide LayoutOf, Walk, Finish, ParseOf, HeaderOf, Framed, DisjointRanges, Named;
    LayoutParts(original, true);
    var (h, cursor, p) := ParseOf(original).value;
    FinishFacts(original, true, h, cursor, p);
    SeenIsRecorded(original, h.commandsEnd, h.filetype, h.ncmds, 32, NOTHING);
  }

  lemma ReplacementLoop(original: bytes, signed: bytes)
    requires LayoutOf(original, true).Ok? && IsRebuilt(original, LayoutOf(original, true).value, signed)
    requires Loops(original, signed) && LayoutOf(original, true).value.signatureCommand.Some?
    ensures var before := LayoutOf(original, true).value;
            var (h, _, p) := ParseOf(original).value;
            && 0 <= before.linkeditOffset <= |signed|
            && Reparsed(original, before, p, signed,
                        Walk(signed, GrownEnd(before), h.filetype, h.ncmds, 32, NOTHING).value.1)
  {
    hide LayoutOf, Walk, IsRebuilt, ParseOf, Facts, RoundUp, Reaches, SimilarSegments, U32;
    var before := LayoutOf(original, true).value;
    var (h, cursor, p) := ParseOf(original).value;
    LoopSizes(original, signed);
    OriginalSignature(original);
    RebuiltSignatureSize(original, before, signed);
    SignatureOrigin(signed, GrownEnd(before), h.filetype, h.ncmds, 32, NOTHING);
  }

  lemma AdditionLoop(original: bytes, signed: bytes)
    requires LayoutOf(original, true).Ok? && IsRebuilt(original, LayoutOf(original, true).value, signed)
    requires Loops(original, signed) && LayoutOf(original, true).value.signatureCommand.None?
    ensures var before := LayoutOf(original, true).value;
            var (h, _, p) := ParseOf(original).value;
            var w := Walk(signed, GrownEnd(before), h.filetype, h.ncmds, 32, NOTHING).value.1;
            && 0 <= before.linkeditOffset <= |signed| && LC_CODE_SIGNATURE !in w.seen
            && Reparsed(original, before, p, signed, Appended(original, before, signed, w))
  {
    hide LayoutOf, Walk, IsRebuilt, ParseOf, Facts, RoundUp, SimilarSegments, Allocation;
    LoopSizes(original, signed);
    OriginalSignature(original);
  }

  lemma RebuiltNonNegative(original: bytes, before: Layout, signed: bytes)
    requires IsRebuilt(original, before, signed)
    ensures 0 <= before.linkeditOffset
  {
    hide Rebuild, Facts;
    OffsetsOrdered(original, before);
  }

  /** The rebuilt image has a parse exactly if the header has room and every segment fits. */
  lemma RebuiltParseIff(original: bytes, signed: bytes)
    requires LayoutOf(original, true).Ok? && IsRebuilt(original, LayoutOf(original, true).value, signed)
    ensures ParseOf(original).Ok?
    ensures var before, p := LayoutOf(original, true).value, Parsed(original);
            && 32 <= before.linkeditCommand && before.linkeditCommand + 72 <= |signed|
            && 0 <= before.linkeditOffset <= |signed|
            && (ParseOf(signed).Ok? <==>
                  CountsFit(before)
                  && FitFrom(original, signed, GrownEnd(before), before.linkeditCommand, p.segments, 0))
            && (ParseOf(signed).Ok? ==>
                  var (h, cursor, q) := ParseOf(signed).value;
                  && cursor == h.commandsEnd == GrownEnd(before) && Reparsed(original, before, p, signed, q))
  {
    hide LayoutOf, Walk, Finish, IsRebuilt, HeaderOf, Step, Facts, FitFrom, U32, CountsFit, Reparsed, Similar,
      Allocation;
    var before := LayoutOf(original, true).value;
    LayoutParts(original, true);
    var (h, cursor, p) := ParseOf(original).value;
    HeaderIff(original, signed);
    RebuiltWalkIff(original, signed);
    RebuiltFits(original, before, signed);
    RebuiltPlaced(original, before, signed);
    RebuiltNonNegative(original, before, signed);
    var ce := GrownEnd(before);
    var w := Walk(signed, ce, h.filetype, h.ncmds, 32, NOTHING);
    if before.signatureCommand.Some? {
      if w.Ok? { ReplacementLoop(original, signed); }
    } else {
      if w.Ok? {
        AdditionLoop(original, signed);
        RebuiltCommand(original, before, signed);
        AppendedStep(signed, ce, h.filetype, cursor, w.value.1);
        WalkAppend(signed, ce, h.filetype, h.ncmds, 32, NOTHING);
      } else if Walk(signed, ce, h.filetype, h.ncmds + 1, 32, NOTHING).Ok? {
        WalkOneMore(signed, ce, h.filetype, h.ncmds, 32, NOTHING);
      }
    }
  }

  // ----- the checks after the loop

  lemma {:induction false} VirtualRangesHave(segments: seq<Segment>)
    ensures forall s | s in segments && s.vmsize != 0 :: Range(s.addr, s.addr + s.vmsize) in VirtualRanges(segments)
  {
    if segments != [] {
      VirtualRangesHave(segments[1..]);
      assert segments == [segments[0]] + segments[1..];
    }
  }

  lemma {:induction false} VirtualRangesApart(segments: seq<Segment>, i: nat, j: nat)
    requires DisjointRanges(VirtualRanges(segments)) && i < j < |segments|
    requires segments[i].vmsize != 0 && segments[j].vmsize != 0
    ensures Apart(Range(segments[i].addr, segments[i].addr + segments[i].vmsize),
                  Range(segments[j].addr, segments[j].addr + segments[j].vmsize))
  {
    hide DisjointRanges;
    var head, rest := segments[0], VirtualRanges(segments[1..]);
    var first := if head.vmsize != 0 then [Range(head.addr, head.addr + head.vmsize)] else [];
    assert VirtualRanges(segments) == first + rest;
    if i == 0 {
      VirtualRangesHave(segments[1..]);
      assert segments[1..][j - 1] == segments[j];
      HeadApart(first[0], rest, Range(segments[j].addr, segments[j].addr + segments[j].vmsize));
    } else {
      SuffixApart(first, rest);
      VirtualRangesApart(segments[1..], i - 1, j - 1);
    }
  }

  predicate FilesApart(segments: seq<Segment>) {
    && (forall i | 0 <= i < |segments| :: 0 <= segments[i].offset && 0 <= segments[i].size)
    && forall i, j | 0 <= i < j < |segments| && segments[i].size != 0 && segments[j].size != 0 ::
         Apart(Range(segments[i].offset, segments[i].offset + segments[i].size),
               Range(segments[j].offset, segments[j].offset + segments[j].size))
  }

  predicate AddressesApart(segments: seq<Segment>) {
    && (forall i | 0 <= i < |segments| :: 0 <= segments[i].addr && 0 <= segments[i].vmsize)
    && forall i, j | 0 <= i < j < |segments| && segments[i].vmsize != 0 && segments[j].vmsize != 0 ::
         Apart(Range(segments[i].addr, segments[i].addr + segments[i].vmsize),
               Range(segments[j].addr, segments[j].addr + segments[j].vmsize))
  }

  lemma PrependApart(head: Range, rest: seq<Range>)
    requires DisjointRanges(rest) && 0 <= head.start < head.stop && forall r | r in rest :: Apart(head, r)
    ensures DisjointRanges([head] + rest)
  {
    var all := [head] + rest;
    forall i, j | 0 <= i < j < |all| ensures Apart(all[i], all[j]) {
      assert all[j] == rest[j - 1];
      if i > 0 { assert all[i] == rest[i - 1]; } else { assert rest[j - 1] in rest; }
    }
  }

  lemma {:induction false} FileRangesCome(segments: seq<Segment>, r: Range) returns (i: nat)
    requires r in FileRanges(segments)
    ensures i < |segments| && segments[i].size != 0
    ensures r == Range(segments[i].offset, segments[i].offset + segments[i].size)
  {
    var head := segments[0];
    if head.size != 0 && r == Range(head.offset, head.offset + head.size) {
      i := 0;
    } else {
      i := FileRangesCome(segments[1..], r);
      i := i + 1;
    }
  }

  lemma {:induction false} VirtualRangesCome(segments: seq<Segment>, r: Range) returns (i: nat)
    requires r in VirtualRanges(segments)
    ensures i < |segments| && segments[i].vmsize != 0
    ensures r == Range(segments[i].addr, segments[i].addr + segments[i].vmsize)
  {
    var head := segments[0];
    if head.vmsize != 0 && r == Range(head.addr, head.addr + head.vmsize) {
      i := 0;
    } else {
      i := VirtualRangesCome(segments[1..], r);
      i := i + 1;
    }
  }

  lemma {:induction false} FileRangesFrom(segments: seq<Segment>)
    requires FilesApart(segments)
    ensures DisjointRanges(FileRanges(segments))
  {
    if segments != [] {
      var head, tail := segments[0], segments[1..];
      assert forall i | 0 <= i < |tail| :: tail[i] == segments[i + 1];
      FileRangesFrom(tail);
      if head.size != 0 {
        forall r | r in FileRanges(tail) ensures Apart(Range(head.offset, head.offset + head.size), r) {
          var i := FileRangesCome(tail, r);
          assert segments[i + 1] == tail[i];
        }
        hide DisjointRanges;
        PrependApart(Range(head.offset, head.offset + head.size), FileRanges(tail));
      } else {
        assert FileRanges(segments) == FileRanges(tail);
      }
    }
  }

  lemma {:induction false} VirtualRangesFrom(segments: seq<Segment>)
    requires AddressesApart(segments)
    ensures DisjointRanges(VirtualRanges(segments))
  {
    if segments != [] {
      var head, tail := segments[0], segments[1..];
      assert forall i | 0 <= i < |tail| :: tail[i] == segments[i + 1];
      VirtualRangesFrom(tail);
      if head.vmsize != 0 {
        forall r | r in VirtualRanges(tail) ensures Apart(Range(head.addr, head.addr + head.vmsize), r) {
          var i := VirtualRangesCome(tail, r);
          assert segments[i + 1] == tail[i];
        }
        hide DisjointRanges;
        PrependApart(Range(head.addr, head.addr + head.vmsize), VirtualRanges(tail));
      } else {
        assert VirtualRanges(segments) == VirtualRanges(tail);
      }
    }
  }

  /** All that the checks after the loop say of an accepted original. */
  predicate Accepting(original: bytes, before: Layout, p: Parse) {
    && CheckOverlaps(p).Pass? && WellShaped(p)
    && |Named(p.segments, LINKEDIT)| == 1 && |Named(p.segments, TEXT)| == 1
    && var x, text := Named(p.segments, LINKEDIT)[0], Named(p.segments, TEXT)[0];
       && x.command == before.linkeditCommand && x.offset == before.linkeditOffset
       && x.nsects == 0 && x.maxprot == 1 && x.initprot == 1
       && LinkeditFinal(p.segments, x)
       && text.offset == 0 && text.size >= before.commandsEnd && text.initprot == 5
       && CheckSymbols(before.commandsEnd, text, p).Pass?
       && CheckLinks(p.links, x.offset, before.signatureOffset, 0, []).Ok?
       && DisjointRanges(CheckLinks(p.links, x.offset, before.signatureOffset, 0, []).value)
  }

  lemma OriginalChecked(original: bytes)
    requires LayoutOf(original, true).Ok?
    ensures ParseOf(original).Ok? && Accepting(original, LayoutOf(original, true).value, Parsed(original))
  {
    hide LayoutOf, Walk, ParseOf, HeaderOf, Framed, DisjointRanges, Named, CheckOverlaps, CheckSymbols, CheckLinks,
      LinkeditFinal, SignaturePlace;
    LayoutParts(original, true);
  }

  /** Sections of an original without a signature start after the appended command, and so does the linkedit segment. */
  lemma SectionsAfter(original: bytes)
    requires LayoutOf(original, true).Ok?
    ensures ParseOf(original).Ok?
    ensures var before, p := LayoutOf(original, true).value, Parsed(original);
            && (before.signatureCommand.None? ==> forall r | r in p.sections :: GrownEnd(before) <= r.start)
            && GrownEnd(before) <= before.linkeditOffset
  {
    hide LayoutOf, Walk, Finish, ParseOf, HeaderOf, Framed, DisjointRanges, Named, Reaches, AllZero;
    LayoutParts(original, true);
    var (h, cursor, p) := ParseOf(original).value;
    FinishFacts(original, true, h, cursor, p);
    SectionsFit(original, true);
    OriginalSegments(original);
    if LayoutOf(original, true).value.signatureCommand.None? {
      var r := p.sections[0];
      assert Backed(original, h.commandsEnd, p.segments, r);
    }
  }

  /** The text segment is kept. */
  lemma TextKept(original: bytes, before: Layout, p: Parse, signed: bytes, q: Parse)
    requires SegmentsOk(original, before, p) && |Named(p.segments, TEXT)| == 1
    requires 0 <= before.linkeditOffset <= |signed| && Reparsed(original, before, p, signed, q)
    ensures Named(q.segments, TEXT) == Named(p.segments, TEXT)
  {
    hide Named, RoundUp, Allocation;
    var le, t := before.linkeditCommand, Named(p.segments, TEXT)[0];
    NamedSimilar(p.segments, q.segments, le, TEXT);
    NamedFound(p.segments, TEXT);
    assert t in Named(p.segments, TEXT);
    assert TEXT[2] != LINKEDIT[2];
    hide SegmentsOk, Reparsed;
    assert SimilarSegment(t, Named(q.segments, TEXT)[0], le);
    assert Named(q.segments, TEXT) == [t];
  }

  /** The linkedit segment is kept but for its sizes. */
  lemma LinkeditKept(original: bytes, before: Layout, p: Parse, signed: bytes, q: Parse)
    requires SegmentsOk(original, before, p) && |Named(p.segments, LINKEDIT)| == 1
    requires 0 <= before.linkeditOffset <= |signed| && Reparsed(original, before, p, signed, q)
    ensures |Named(q.segments, LINKEDIT)| == 1
    ensures var size := |signed| - before.linkeditOffset;
            Named(q.segments, LINKEDIT)[0]
            == Named(p.segments, LINKEDIT)[0].(size := size, vmsize := RoundUp(size, 16384))
  {
    hide Named, RoundUp, Allocation, SimilarSegments;
    var le := before.linkeditCommand;
    NamedSimilar(p.segments, q.segments, le, LINKEDIT);
    OnePair(Named(p.segments, LINKEDIT), Named(q.segments, LINKEDIT), le);
    NamedFound(p.segments, LINKEDIT);
    NamedFound(q.segments, LINKEDIT);
    var x, y := Named(p.segments, LINKEDIT)[0], Named(q.segments, LINKEDIT)[0];
    assert x in Named(p.segments, LINKEDIT) && y in Named(q.segments, LINKEDIT);
  }

  lemma OnePair(a: seq<Segment>, b: seq<Segment>, le: int)
    requires SimilarSegments(a, b, le) && |a| == 1
    ensures |b| == 1 && SimilarSegment(a[0], b[0], le)
  {
  }

  /** Every segment but the linkedit one is kept; the linkedit one is last in the file and in memory. */
  lemma SegmentKept(original: bytes, before: Layout, p: Parse, signed: bytes, q: Parse, i: nat)
    requires SegmentsOk(original, before, p) && Accepting(original, before, p)
    requires 0 <= before.linkeditOffset <= |signed| && Reparsed(original, before, p, signed, q) && i < |p.segments|
    ensures |q.segments| == |p.segments|
    ensures p.segments[i].command != before.linkeditCommand ==>
              var s, x := p.segments[i], Named(p.segments, LINKEDIT)[0];
              && q.segments[i] == s && s.name != LINKEDIT && s.addr + s.vmsize <= x.addr
              && (s.size != 0 ==> s.offset + s.size <= before.linkeditOffset)
    ensures p.segments[i].command == before.linkeditCommand ==>
              var x, size := Named(p.segments, LINKEDIT)[0], |signed| - before.linkeditOffset;
              && p.segments[i] == x && x.offset == before.linkeditOffset
              && q.segments[i] == x.(size := size, vmsize := RoundUp(size, 16384))
  {
    hide CheckOverlaps, CheckSymbols, CheckLinks, DisjointRanges, Named, RoundUp;
    var s := p.segments[i];
    assert s in p.segments && q.segments[i] in q.segments && SimilarSegment(s, q.segments[i], before.linkeditCommand);
    NamedFound(p.segments, LINKEDIT);
  }

  lemma FilesStayApart(original: bytes, before: Layout, p: Parse, signed: bytes, q: Parse)
    requires SegmentsOk(original, before, p) && Accepting(original, before, p)
    requires 0 <= before.linkeditOffset <= |signed| && Reparsed(original, before, p, signed, q)
    ensures FilesApart(q.segments)
  {
    hide CheckSymbols, CheckLinks, DisjointRanges, Named, RoundUp, Reparsed, LinkeditFinal;
    var a, b := p.segments, q.segments;
    SimilarLength(original, before, p, signed, q);
    forall i | 0 <= i < |a| ensures 0 <= b[i].offset && 0 <= b[i].size {
      SegmentKept(original, before, p, signed, q, i);
      assert a[i] in a;
    }
    forall i, j | 0 <= i < j < |a| && b[i].size != 0 && b[j].size != 0
      ensures Apart(Range(b[i].offset, b[i].offset + b[i].size), Range(b[j].offset, b[j].offset + b[j].size))
    {
      SegmentKept(original, before, p, signed, q, i);
      SegmentKept(original, before, p, signed, q, j);
      if a[i].size != 0 && a[j].size != 0 { FileRangesApart(a, i, j); }
    }
  }

  lemma SimilarLength(original: bytes, before: Layout, p: Parse, signed: bytes, q: Parse)
    requires 0 <= before.linkeditOffset <= |signed| && Reparsed(original, before, p, signed, q)
    ensures |q.segments| == |p.segments|
  {
    hide RoundUp;
  }

  lemma AddressesStayApart(original: bytes, before: Layout, p: Parse, signed: bytes, q: Parse)
    requires SegmentsOk(original, before, p) && Accepting(original, before, p)
    requires 0 <= before.linkeditOffset <= |signed| && Reparsed(original, before, p, signed, q)
    ensures AddressesApart(q.segments)
  {
    hide CheckSymbols, CheckLinks, DisjointRanges, Named, RoundUp, Reparsed, LinkeditFinal;
    var a, b := p.segments, q.segments;
    SimilarLength(original, before, p, signed, q);
    forall i | 0 <= i < |a| ensures 0 <= b[i].addr && 0 <= b[i].vmsize {
      SegmentKept(original, before, p, signed, q, i);
      assert a[i] in a;
    }
    forall i, j | 0 <= i < j < |a| && b[i].vmsize != 0 && b[j].vmsize != 0
      ensures Apart(Range(b[i].addr, b[i].addr + b[i].vmsize), Range(b[j].addr, b[j].addr + b[j].vmsize))
    {
      SegmentKept(original, before, p, signed, q, i);
      SegmentKept(original, before, p, signed, q, j);
      if a[i].vmsize != 0 && a[j].vmsize != 0 { VirtualRangesApart(a, i, j); }
    }
  }

  lemma {:induction false} LinksReach(links: seq<(int, int)>, lo: int, hi: int, hi': int, i: nat, occupied: seq<Range>)
    requires i <= |links| && hi <= hi' && CheckLinks(links, lo, hi, i, occupied).Ok?
    ensures CheckLinks(links, lo, hi', i, occupied) == CheckLinks(links, lo, hi, i, occupied)
    decreases |links| - i
  {
    if i < |links| {
      var (offset, length) := links[i];
      LinksReach(links, lo, hi, hi', i + 1,
                 if length != 0 then occupied + [Range(offset, offset + length)] else occupied);
    }
  }

  /** The text segment covers the commands of the output. */
  predicate TextCovers(before: Layout, p: Parse) {
    forall s | s in p.segments && s.name == TEXT :: s.size >= GrownEnd(before)
  }

  lemma OverlapsKept(original: bytes, before: Layout, p: Parse, signed: bytes, q: Parse)
    requires SegmentsOk(original, before, p) && Accepting(original, before, p)
    requires 0 <= before.linkeditOffset <= |signed| && Reparsed(original, before, p, signed, q)
    ensures CheckOverlaps(q).Pass?
  {
    FilesStayApart(original, before, p, signed, q);
    AddressesStayApart(original, before, p, signed, q);
    FileRangesFrom(q.segments);
    VirtualRangesFrom(q.segments);
    hide CheckSymbols, CheckLinks, DisjointRanges, Named, RoundUp, FileRanges, VirtualRanges, LinkeditFinal, FilesApart,
      AddressesApart, SegmentsOk, SimilarSegments;
  }

  lemma FinalKept(original: bytes, before: Layout, p: Parse, signed: bytes, q: Parse, y: Segment)
    requires SegmentsOk(original, before, p) && Accepting(original, before, p)
    requires 0 <= before.linkeditOffset <= |signed| && Reparsed(original, before, p, signed, q)
    requires y.addr == Named(p.segments, LINKEDIT)[0].addr
    ensures LinkeditFinal(q.segments, y)
  {
    SimilarLength(original, before, p, signed, q);
    forall s | s in q.segments && s.name != LINKEDIT ensures s.addr + s.vmsize <= y.addr {
      var i :| 0 <= i < |q.segments| && q.segments[i] == s;
      SegmentKept(original, before, p, signed, q, i);
      assert p.segments[i] in p.segments;
    }
  }

  lemma SymbolsKept(ce: int, ce': int, text: Segment, p: Parse, q: Parse)
    requires WellShaped(p) && q.symtab == p.symtab && q.dysymtab == p.dysymtab && q.entry == p.entry
    requires q.sections == p.sections && CheckSymbols(ce, text, p).Pass?
    requires ce == ce' || forall r | r in p.sections :: ce' <= r.start
    ensures WellShaped(q) && CheckSymbols(ce', text, q).Pass?
  {
  }

  lemma PlaceKept(original: bytes, before: Layout, p: Parse, signed: bytes, h: Header, q: Parse)
    requires IsRebuilt(original, before, signed) && h.commandsEnd == GrownEnd(before)
    requires 0 <= before.linkeditOffset <= |signed| && Reparsed(original, before, p, signed, q)
    ensures Framing(signed, h.commandsEnd)
    ensures var at := Allocation(original, before);
            SignaturePlace(signed, false, h, q) == Ok((Some(q.signature.value.command), at, |signed| - at))
  {
    hide Rebuild, IsRebuilt, Facts, SimilarSegments, Allocation, RoundUp;
    RebuiltFits(original, before, signed);
    PlaceAligned(original, before, signed);
  }

  lemma PlaceAligned(original: bytes, before: Layout, signed: bytes)
    requires IsRebuilt(original, before, signed)
    ensures Allocation(original, before) % 16 == 0 && Allocation(original, before) < |signed|
  {
    hide Rebuild, HeaderFacts, LinkeditFacts, U32, U64, AllZero;
  }

  /** The checks after the loop accept the rebuilt image exactly if its text covers the commands and its signature is
      framed. */
  lemma FinishIff(original: bytes, signed: bytes)
    requires LayoutOf(original, true).Ok? && IsRebuilt(original, LayoutOf(original, true).value, signed)
    requires ParseOf(signed).Ok?
    ensures ParseOf(original).Ok?
    ensures var before, p := LayoutOf(original, true).value, Parsed(original);
            var (h, cursor, q) := ParseOf(signed).value;
            && 0 <= Allocation(original, before) <= |signed| && Framing(signed, h.commandsEnd) && WellShaped(q)
            && (Finish(signed, false, h, cursor, q).Ok?
                <==> TextCovers(before, p) && Framed(signed[Allocation(original, before)..]))
  {
    hide LayoutOf, ParseOf, HeaderOf, IsRebuilt, Facts, FitFrom, CountsFit, Framed, SegmentsOk, Named, SimilarSegments,
      DisjointRanges, CheckOverlaps, CheckSymbols, CheckLinks, LinkeditFinal, SignaturePlace, RoundUp, Allocation, Walk;
    RebuiltParseIff(original, signed);
    var before, p := LayoutOf(original, true).value, Parsed(original);
    var (h, cursor, q) := ParseOf(signed).value;
    OriginalChecked(original);
    OriginalSegments(original);
    SectionsAfter(original);
    RebuiltFits(original, before, signed);
    RebuiltPlaced(original, before, signed);
    PlaceKept(original, before, p, signed, h, q);
    TextKept(original, before, p, signed, q);
    LinkeditKept(original, before, p, signed, q);
    OverlapsKept(original, before, p, signed, q);
    FinalKept(original, before, p, signed, q, Named(q.segments, LINKEDIT)[0]);
    SymbolsKept(before.commandsEnd, GrownEnd(before), Named(p.segments, TEXT)[0], p, q);
    LinksReach(p.links, before.linkeditOffset, before.signatureOffset, Allocation(original, before), 0, []);
    TextIsNamed(before, p);
    hide Reparsed, TextCovers;
  }

  lemma TextIsNamed(before: Layout, p: Parse)
    requires |Named(p.segments, TEXT)| == 1
    ensures TextCovers(before, p) <==> Named(p.segments, TEXT)[0].size >= GrownEnd(before)
  {
    NamedFound(p.segments, TEXT);
    assert Named(p.segments, TEXT)[0] in Named(p.segments, TEXT);
  }

  // ----- the theorem

  /** A segment of the original has its place in an output of this length: the linkedit segment stays in the address
      space, every other one ends inside the file and has its sections after the commands. */
  predicate SegmentRoom(original: bytes, before: Layout, length: int, s: Segment) {
    if s.command == before.linkeditCommand then
      before.linkeditOffset <= length && s.addr + RoundUp(length - before.linkeditOffset, 16384) < TWO64
    else
      && s.offset + s.size <= length
      && 0 <= s.command && 0 <= s.nsects && s.command + 72 + s.nsects * 80 <= |original|
      && SectionsClear(original[s.command..s.command + 72 + s.nsects * 80], 0, s.nsects, GrownEnd(before))
  }

  /** An output with a signature of this size has room: in the file, the header, the text and each segment. */
  predicate Room(original: bytes, before: Layout, p: Parse, size: int) {
    var length := Allocation(original, before) + size;
    && length <= MAX_IMAGE_BYTES && CountsFit(before) && TextCovers(before, p)
    && forall s | s in p.segments :: SegmentRoom(original, before, length, s)
  }

  lemma RoomIsFit(original: bytes, before: Layout, signed: bytes, segments: seq<Segment>)
    requires IsRebuilt(original, before, signed)
    ensures var le := before.linkeditCommand;
            && 32 <= le && le + 72 <= |signed|
            && (FitFrom(original, signed, GrownEnd(before), le, segments, 0)
                <==> forall s | s in segments :: SegmentRoom(original, before, |signed|, s))
  {
    hide IsRebuilt, U64, RoundUp, SectionsClear;
    RebuiltSizes(original, before, signed);
    var le := before.linkeditCommand;
    forall s ensures Fits(original, signed, GrownEnd(before), le, s) <==> SegmentRoom(original, before, |signed|, s) {}
    hide Fits, SegmentRoom;
    if FitFrom(original, signed, GrownEnd(before), le, segments, 0) {
      forall s | s in segments ensures SegmentRoom(original, before, |signed|, s) {
        var i :| 0 <= i < |segments| && segments[i] == s;
        assert Fits(original, signed, GrownEnd(before), le, segments[i]);
      }
    }
  }

  /** A rebuilt image is accepted by the layout parser exactly if there is room and the signature is framed. */
  lemma RebuiltLayoutIff(original: bytes, signed: bytes)
    requires LayoutOf(original, true).Ok? && IsRebuilt(original, LayoutOf(original, true).value, signed)
    ensures ParseOf(original).Ok?
    ensures var before := LayoutOf(original, true).value;
            var at := Allocation(original, before);
            && 0 <= at < |signed|
            && (LayoutOf(signed, false).Ok?
                <==> Framed(signed[at..]) && Room(original, before, Parsed(original), |signed| - at))
  {
    hide ParseOf, Facts, FitFrom, CountsFit, Framed, TextCovers, Finish, Reparsed, Rebuild, SegmentRoom, Allocation;
    var before := LayoutOf(original, true).value;
    RebuiltParseIff(original, signed);
    RoomIsFit(original, before, signed, Parsed(original).segments);
    RebuiltFits(original, before, signed);
    if ParseOf(signed).Ok? { FinishIff(original, signed); }
  }

  predicate Suitable(original: bytes, before: Layout, p: Parse, signature: bytes) {
    Framed(signature) && |signature| % 16 == 0 && Room(original, before, p, |signature|)
  }

  /** The output has this signature. */
  predicate EndsWith(original: bytes, before: Layout, signed: bytes, signature: bytes) {
    var at := Allocation(original, before);
    0 <= at <= |signed| && signed[at..] == signature
  }

  lemma AcceptedIsSuitable(original: bytes, signed: bytes, signature: bytes)
    requires ThinAccepted(original, signed) && LayoutOf(original, true).Ok?
    requires EndsWith(original, LayoutOf(original, true).value, signed, signature)
    ensures ParseOf(original).Ok?
    ensures Suitable(original, LayoutOf(original, true).value, Parsed(original), signature)
  {
    hide LayoutOf, ParseOf, ThinAccepted, IsRebuilt, Framed, Room, Allocation;
    AcceptedIffRebuilt(original, signed);
    RebuiltLayoutIff(original, signed);
  }

  lemma SuitableIsAccepted(original: bytes, signature: bytes) returns (signed: bytes)
    requires LayoutOf(original, true).Ok? && ParseOf(original).Ok?
    requires Suitable(original, LayoutOf(original, true).value, Parsed(original), signature)
    ensures ThinAccepted(original, signed)
    ensures EndsWith(original, LayoutOf(original, true).value, signed, signature)
  {
    hide LayoutOf, ParseOf, ThinAccepted, IsRebuilt, Framed, Room, Allocation;
    signed := RoomRebuilds(original, signature);
    RebuiltLayoutIff(original, signed);
    AcceptedIffRebuilt(original, signed);
  }

  /** An accepted original has an accepted output with this signature if and only if the signature is framed, has a size
      that is a multiple of 16, and has room. */
  lemma AvailableIff(original: bytes, signature: bytes)
    requires LayoutOf(original, true).Ok?
    ensures ParseOf(original).Ok?
    ensures var before := LayoutOf(original, true).value;
            (exists signed :: ThinAccepted(original, signed) && EndsWith(original, before, signed, signature))
            <==> Suitable(original, before, Parsed(original), signature)
  {
    hide LayoutOf, ParseOf, ThinAccepted, EndsWith, Suitable;
    var before := LayoutOf(original, true).value;
    LayoutParts(original, true);
    if signed :| ThinAccepted(original, signed) && EndsWith(original, before, signed, signature) {
      AcceptedIsSuitable(original, signed, signature);
    }
    if Suitable(original, before, Parsed(original), signature) {
      var signed := SuitableIsAccepted(original, signature);
    }
  }

  lemma RoomRebuilds(original: bytes, signature: bytes) returns (signed: bytes)
    requires LayoutOf(original, true).Ok? && ParseOf(original).Ok? && Framed(signature)
    requires Room(original, LayoutOf(original, true).value, Parsed(original), |signature|)
    ensures var before := LayoutOf(original, true).value;
            var at := Allocation(original, before);
            IsRebuilt(original, before, signed) && 0 <= at < |signed| && signed[at..] == signature
  {
    hide LayoutOf, ParseOf, Facts, Rebuild, SegmentRoom;
    var before := LayoutOf(original, true).value;
    LayoutFacts(original, true);
    OffsetsOrdered(original, before);
    var at := Allocation(original, before);
    signed := Rebuild(original, before, signature);
    forall k | 0 <= k < |signature| ensures signed[at + k] == signature[k] {
      if before.signatureCommand.Some? {
        ReplacementByte(original, before, signature, at + k);
      } else {
        AdditionByte(original, before, signature, at + k);
      }
    }
    assert signed[at..] == signature;
  }
}
