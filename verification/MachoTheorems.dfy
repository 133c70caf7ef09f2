/** The main results about accepted thin images. */
module MachoTheorems {
  import opened Results
  import opened MachoBytes
  import opened Ranges
  import opened SignatureFrame
  import opened MachoLayout
  import opened MachoWalk
  import opened MachoLockstep
  import opened MachoDelta
  import opened MachoRebuild

  // ----- a rebuilt image that parses is accepted

  /** signed is the forced image for the bytes after the forced offset. */
  predicate IsRebuilt(original: bytes, before: Layout, signed: bytes) {
    var at := Allocation(original, before);
    && 0 <= at < |signed|
    && Rebuildable(original, before, signed[at..])
    && signed == Rebuild(original, before, signed[at..])
  }

  lemma RebuiltByte(original: bytes, before: Layout, signed: bytes, k: int)
    requires IsRebuilt(original, before, signed)
    requires 0 <= k < before.signatureOffset && !InField(Fields(before), 0, k)
    ensures k < |original| && original[k] == signed[k]
  {
    hide Rebuild, Facts, InField, E32, E64, RoundUp;
    var at := Allocation(original, before);
    FieldBytes(before, k);
    OffsetsOrdered(original, before);
    if before.signatureCommand.Some? {
      ReplacementByte(original, before, signed[at..], k);
    } else {
      AdditionByte(original, before, signed[at..], k);
    }
  }

  lemma OffsetsOrdered(original: bytes, before: Layout)
    requires Facts(original, before)
    ensures 32 <= before.linkeditCommand && before.linkeditCommand + 72 <= before.commandsEnd
    ensures before.commandsEnd <= before.linkeditOffset <= before.signatureOffset <= |original|
    ensures before.signatureOffset <= Allocation(original, before)
    ensures before.signatureCommand.None? ==>
              before.signatureOffset == |original| && before.commandsEnd + 16 <= |original|
    ensures before.signatureCommand.Some? ==>
              var c := before.signatureCommand.value;
              && 32 <= c && c + 16 <= before.commandsEnd
              && (c + 16 <= before.linkeditCommand || before.linkeditCommand + 72 <= c)
  {
    hide U32, U64;
  }

  /** An added command reads as the signature command it declares. */
  lemma RebuiltCommand(original: bytes, before: Layout, signed: bytes)
    requires IsRebuilt(original, before, signed) && before.signatureCommand.None?
    ensures var ce, at := before.commandsEnd, Allocation(original, before);
            && 32 <= ce && ce + 16 <= |signed|
            && U32(signed, ce) == LC_CODE_SIGNATURE && U32(signed, ce + 4) == 16
            && U32(signed, ce + 8) == at && U32(signed, ce + 12) == |signed| - at
  {
    hide Rebuild, Facts, U32;
    var ce, at := before.commandsEnd, Allocation(original, before);
    var sig := signed[at..];
    OffsetsOrdered(original, before);
    forall k | 0 <= k < 16 ensures signed[ce + k] == NewCommand(at, |sig|)[k] {
      AdditionByte(original, before, sig, ce + k);
    }
    ReadBack32(signed, ce, LC_CODE_SIGNATURE);
    ReadBack32(signed, ce + 4, 16);
    ReadBack32(signed, ce + 8, at);
    ReadBack32(signed, ce + 12, |sig|);
    hide E32;
    forall k | 0 <= k < 4
      ensures signed[ce + k] == E32(LC_CODE_SIGNATURE)[k] && signed[ce + 4 + k] == E32(16)[k]
           && signed[ce + 8 + k] == E32(at)[k] && signed[ce + 12 + k] == E32(|sig|)[k]
    {
      assert signed[ce + k] == NewCommand(at, |sig|)[k];
      assert signed[ce + (4 + k)] == NewCommand(at, |sig|)[4 + k];
      assert signed[ce + (8 + k)] == NewCommand(at, |sig|)[8 + k];
      assert signed[ce + (12 + k)] == NewCommand(at, |sig|)[12 + k];
    }
  }

  lemma RebuiltCounts(original: bytes, before: Layout, signed: bytes)
    requires IsRebuilt(original, before, signed) && before.signatureCommand.None?
    ensures |signed| >= 24
    ensures U32(signed, 16) == before.commandCount + 1 && U32(signed, 20) == before.commandsEnd - 16
  {
    hide Rebuild, U32;
    var at := Allocation(original, before);
    var sig := signed[at..];
    OffsetsOrdered(original, before);
    forall k | 0 <= k < 8 ensures signed[16 + k] == NewCounts(before)[k] {
      AdditionByte(original, before, sig, 16 + k);
    }
    ReadBack32(signed, 16, before.commandCount + 1);
    ReadBack32(signed, 20, before.commandsEnd - 16);
    hide E32;
    var count, size := E32(before.commandCount + 1), E32(before.commandsEnd - 16);
    forall k | 0 <= k < 4 ensures signed[16 + k] == count[k] && signed[20 + k] == size[k] {
      assert signed[16 + k] == NewCounts(before)[k];
      assert signed[16 + (4 + k)] == NewCounts(before)[4 + k];
    }
  }

  lemma RebuiltSizeByte(original: bytes, before: Layout, signed: bytes, k: int)
    requires IsRebuilt(original, before, signed) && 0 <= k < 8
    ensures var le, size := before.linkeditCommand, |signed| - before.linkeditOffset;
            && 32 <= le && le + 72 <= |signed| && 0 <= size < TWO32
            && signed[le + 32 + k] == E64(RoundUp(size, 16384))[k] && signed[le + 48 + k] == E64(size)[k]
  {
    hide Rebuild, Facts, RoundUp, E64, E32;
    var le, sig := before.linkeditCommand, signed[Allocation(original, before)..];
    OffsetsOrdered(original, before);
    if before.signatureCommand.Some? {
      ReplacementByte(original, before, sig, le + 32 + k);
      ReplacementByte(original, before, sig, le + 48 + k);
    } else {
      AdditionByte(original, before, sig, le + 32 + k);
      AdditionByte(original, before, sig, le + 48 + k);
    }
  }

  lemma RebuiltSizes(original: bytes, before: Layout, signed: bytes)
    requires IsRebuilt(original, before, signed)
    ensures var le := before.linkeditCommand;
            && 32 <= le && le + 72 <= |signed| && 0 <= |signed| - before.linkeditOffset
            && U64(signed, le + 32) == RoundUp(|signed| - before.linkeditOffset, 16384)
            && U64(signed, le + 48) == |signed| - before.linkeditOffset
  {
    hide IsRebuilt, U64, E64, RoundUp;
    var le, size := before.linkeditCommand, |signed| - before.linkeditOffset;
    RebuiltSizeByte(original, before, signed, 0);
    var vm, file := E64(RoundUp(size, 16384)), E64(size);
    forall k | 0 <= k < 8 ensures signed[le + 32 + k] == vm[k] && signed[le + 48 + k] == file[k] {
      RebuiltSizeByte(original, before, signed, k);
    }
    ReadBack64(signed, le + 32, RoundUp(size, 16384));
    ReadBack64(signed, le + 48, size);
  }

  /** Position of the signature command in the original, or nowhere. */
  function SignatureAt(l: Layout): int {
    if l.signatureCommand.Some? then l.signatureCommand.value else NOWHERE
  }

  lemma RebuiltAgrees(original: bytes, before: Layout, signed: bytes)
    requires IsRebuilt(original, before, signed)
    ensures before.commandsEnd <= |original| && before.commandsEnd <= |signed|
    ensures Agree(original, signed, 32, before.commandsEnd, before.linkeditCommand, SignatureAt(before))
    ensures forall k | 0 <= k < 16 :: original[k] == signed[k]
    ensures before.signatureCommand.Some? ==> forall k | 16 <= k < 24 :: original[k] == signed[k]
  {
    hide IsRebuilt, InField, Fields, Facts;
    RebuiltOrder(original, before, signed);
    forall k | 32 <= k < before.commandsEnd && !MutableByte(before.linkeditCommand, SignatureAt(before), k)
      ensures original[k] == signed[k]
    {
      FieldBytes(before, k);
      RebuiltByte(original, before, signed, k);
    }
    forall k | 0 <= k < 16 || (before.signatureCommand.Some? && 16 <= k < 24) ensures original[k] == signed[k] {
      FieldBytes(before, k);
      RebuiltByte(original, before, signed, k);
    }
  }

  lemma RebuiltOrder(original: bytes, before: Layout, signed: bytes)
    requires IsRebuilt(original, before, signed)
    ensures Facts(original, before)
    ensures 32 <= before.linkeditCommand && before.linkeditCommand + 72 <= before.commandsEnd
    ensures before.commandsEnd <= before.signatureOffset <= |original| && before.signatureOffset <= |signed|
    ensures before.signatureCommand.None? ==> before.commandsEnd + 16 <= before.signatureOffset
    ensures before.signatureCommand.Some? ==>
              var c := before.signatureCommand.value;
              && 32 <= c && c + 16 <= before.commandsEnd
              && (c + 16 <= before.linkeditCommand || before.linkeditCommand + 72 <= c)
  {
    hide Rebuild, Facts;
    OffsetsOrdered(original, before);
  }

  /** The headers of an original and of its rebuilt image. */
  lemma RebuiltHeader(original: bytes, signed: bytes)
    requires LayoutOf(original, true).Ok? && LayoutOf(signed, false).Ok?
    requires IsRebuilt(original, LayoutOf(original, true).value, signed)
    ensures HeaderOf(original).Ok? && HeaderOf(signed).Ok?
    ensures var before := LayoutOf(original, true).value;
            var h, h' := HeaderOf(original).value, HeaderOf(signed).value;
            var grown := if before.signatureCommand.None? then 1 else 0;
            && h'.cpu == h.cpu && h'.subtype == h.subtype && h'.filetype == h.filetype
            && h'.ncmds == h.ncmds + grown && h'.commandsEnd == h.commandsEnd + 16 * grown
            && h.ncmds >= 1 && h.commandsEnd == before.commandsEnd
  {
    hide LayoutOf, Walk, Finish, IsRebuilt, Agree, ParseOf, U32;
    LayoutParts(original, true);
    LayoutParts(signed, false);
    var before := LayoutOf(original, true).value;
    var (h, cursor, p) := ParseOf(original).value;
    FinishFacts(original, true, h, cursor, p);
    HeaderCount(original);
    RebuiltAgrees(original, before, signed);
    SameU32(original, signed, 4);
    SameU32(original, signed, 8);
    SameU32(original, signed, 12);
    LayoutFacts(original, true);
    if before.signatureCommand.None? {
      RebuiltCounts(original, before, signed);
    } else {
      SameU32(original, signed, 16);
      SameU32(original, signed, 20);
    }
  }

  /** Both loops over the original's commands agree. */
  lemma RebuiltLockstep(original: bytes, signed: bytes)
    requires LayoutOf(original, true).Ok? && LayoutOf(signed, false).Ok?
    requires IsRebuilt(original, LayoutOf(original, true).value, signed)
    ensures ParseOf(original).Ok? && ParseOf(signed).Ok?
    ensures var before := LayoutOf(original, true).value;
            var (h, cursor, p) := ParseOf(original).value;
            var (h', _, q) := ParseOf(signed).value;
            && Framing(signed, h'.commandsEnd) && h.ncmds >= 0 && cursor == before.commandsEnd
            && var w := Walk(signed, h'.commandsEnd, h'.filetype, h.ncmds, 32, NOTHING);
               && w.Ok? && w.value.0 == cursor && Similar(p, w.value.1, before.linkeditCommand)
               && (before.signatureCommand.Some? ==> w.value.1 == q)
               && (before.signatureCommand.None? ==>
                     && Step(signed, h'.commandsEnd, h'.filetype, cursor, w.value.1).Ok?
                     && Step(signed, h'.commandsEnd, h'.filetype, cursor, w.value.1).value.1 == q)
  {
    hide LayoutOf, Walk, Finish, IsRebuilt, Agree, ParseOf, HeaderOf, Step, Reaches, Similar, SignatureRead, Facts;
    var before := LayoutOf(original, true).value;
    LayoutParts(original, true);
    LayoutParts(signed, false);
    RebuiltHeader(original, signed);
    var (h, cursor, p) := ParseOf(original).value;
    var (h', cursor', q) := ParseOf(signed).value;
    FinishFacts(original, true, h, cursor, p);
    LayoutReached(original, true);
    RebuiltAgrees(original, before, signed);
    RebuiltOrder(original, before, signed);
    MutableKinds(original, before);
    if before.signatureCommand.None? {
      WalkOneMore(signed, h'.commandsEnd, h'.filetype, h.ncmds, 32, NOTHING);
    }
    SimilarSelf(before.linkeditCommand);
    Lockstep(original, h.commandsEnd, signed, h'.commandsEnd, h.filetype, h.ncmds, 32, NOTHING, NOTHING,
             before.linkeditCommand, SignatureAt(before));
  }

  lemma SimilarSelf(le: int)
    ensures Similar(NOTHING, NOTHING, le)
  {
  }

  lemma MutableKinds(original: bytes, before: Layout)
    requires Facts(original, before) && Framing(original, before.commandsEnd)
    ensures MutableCommands(original, before.commandsEnd, before.linkeditCommand, SignatureAt(before))
  {
    hide U32, U64;
  }

  /** The rebuilt image declares the same linkedit segment and the forced signature. */
  lemma RebuiltLayout(original: bytes, signed: bytes)
    requires LayoutOf(original, true).Ok? && LayoutOf(signed, false).Ok?
    requires IsRebuilt(original, LayoutOf(original, true).value, signed)
    ensures var before, after := LayoutOf(original, true).value, LayoutOf(signed, false).value;
            && after.linkeditCommand == before.linkeditCommand && after.linkeditOffset == before.linkeditOffset
            && after.signatureOffset == Allocation(original, before)
            && after.signatureCommand == Some(if before.signatureCommand.None? then before.commandsEnd
                                              else before.signatureCommand.value)
  {
    hide LayoutOf, Walk, Finish, ParseOf, HeaderOf, Reaches, IsRebuilt, Step, SegmentRead, Framed, DisjointRanges,
      Facts;
    var before, after := LayoutOf(original, true).value, LayoutOf(signed, false).value;
    RebuiltLockstep(original, signed);
    LayoutParts(original, true);
    LayoutParts(signed, false);
    RebuiltHeader(original, signed);
    var x := LinkeditSegment(original, true);
    var y := LinkeditSegment(signed, false);
    var (h, cursor, p) := ParseOf(original).value;
    var (h', cursor', q) := ParseOf(signed).value;
    FinishFacts(original, true, h, cursor, p);
    FinishFacts(signed, false, h', cursor', q);
    var w := Walk(signed, h'.commandsEnd, h'.filetype, h.ncmds, 32, NOTHING).value.1;
    NamedSimilar(p.segments, w.segments, before.linkeditCommand, LINKEDIT);
    assert SimilarSegment(Named(p.segments, LINKEDIT)[0], Named(w.segments, LINKEDIT)[0], before.linkeditCommand);
    if before.signatureCommand.None? {
      RebuiltCommand(original, before, signed);
      LastStep(signed, h'.commandsEnd, h'.filetype, cursor, w);
    }
  }

  /** The step that reads an appended signature command only records it. */
  lemma LastStep(data: bytes, ce: int, filetype: int, cursor: int, p: Parse)
    requires Framing(data, ce) && 32 <= cursor && Step(data, ce, filetype, cursor, p).Ok?
    requires cursor + 16 <= |data| && U32(data, cursor) == LC_CODE_SIGNATURE && U32(data, cursor + 4) == 16
    ensures var q := Step(data, ce, filetype, cursor, p).value.1;
            && q.segments == p.segments && q.sections == p.sections && q.zeroPad == p.zeroPad && q.links == p.links
            && q.signature == Some(Signature(cursor, U32(data, cursor + 8), U32(data, cursor + 12)))
  {
    hide PlainCommand, SegmentCommand, U32;
    var raw := data[cursor..cursor + 16];
    var p' := p.(seen := p.seen + {LC_CODE_SIGNATURE});
    assert CommandAt(data, ce, cursor) == Ok((LC_CODE_SIGNATURE, 16));
    PlainSignature(filetype, cursor, LC_CODE_SIGNATURE, raw, p');
    PlainBacked(filetype, cursor, LC_CODE_SIGNATURE, raw, p');
    PlainLinks(filetype, cursor, raw, p');
    SliceU32(data, cursor, cursor + 16, 8);
    SliceU32(data, cursor, cursor + 16, 12);
  }

  lemma PlainLinks(filetype: int, cursor: int, raw: bytes, p: Parse)
    requires |raw| >= 8 && PlainCommand(filetype, cursor, LC_CODE_SIGNATURE, raw, p).Ok?
    ensures PlainCommand(filetype, cursor, LC_CODE_SIGNATURE, raw, p).value.links == p.links
  {
  }

  lemma RebuiltCompares(original: bytes, before: Layout, signed: bytes)
    requires IsRebuilt(original, before, signed) && SaneLayout(before)
    ensures CompareAll(original, signed, before).Ok?
  {
    hide IsRebuilt, Fields, Sorted, InField, Facts;
    RebuiltOrder(original, before, signed);
    SortedFields(original, before);
    SortedMembers(Fields(before));
    var fs := Sorted(Fields(before));
    forall k | 0 <= k < before.signatureOffset && !InField(fs, 0, k) ensures original[k] == signed[k] {
      SameFields(fs, Fields(before), k);
      RebuiltByte(original, before, signed, k);
    }
    CompareAccepts(original, signed, fs, 0, 0, [], before.signatureOffset);
    var (c, kept) := Compare(original, signed, fs, 0, 0, []).value;
    forall k | c <= k < before.signatureOffset ensures original[k] == signed[k] {
      NotBefore(fs, c, k);
    }
    SlicesAgree(original, signed, c, before.signatureOffset);
  }

  lemma NotBefore(fs: seq<Range>, c: int, k: int)
    requires (forall j | 0 <= j < |fs| :: fs[j].stop <= c) && c <= k
    ensures !InField(fs, 0, k)
  {
  }

  lemma RebuiltAccepted(original: bytes, signed: bytes)
    requires LayoutOf(original, true).Ok? && LayoutOf(signed, false).Ok?
    requires IsRebuilt(original, LayoutOf(original, true).value, signed)
    requires (|signed| - Allocation(original, LayoutOf(original, true).value)) % 16 == 0
    ensures ThinAccepted(original, signed)
  {
    hide LayoutOf, HeaderOf, ThinAccepted, CompareAll, IsRebuilt, RoundUp, U32, U64;
    var before, after := LayoutOf(original, true).value, LayoutOf(signed, false).value;
    LayoutFacts(original, true);
    LayoutFacts(signed, false);
    RebuiltLayout(original, signed);
    RebuiltAgrees(original, before, signed);
    RebuiltSizes(original, before, signed);
    RebuiltCompares(original, before, signed);
    SameU32(original, signed, 4);
    SameU32(original, signed, 8);
    if before.signatureCommand.None? {
      RebuiltCounts(original, before, signed);
      RebuiltPadding(original, before, signed);
    }
    ThinParts(original, signed);
  }

  lemma RebuiltPadding(original: bytes, before: Layout, signed: bytes)
    requires IsRebuilt(original, before, signed) && before.signatureCommand.None?
    ensures AllZero(signed, |original|, Allocation(original, before))
  {
    hide Rebuild, Facts;
    var at := Allocation(original, before);
    forall k | |original| <= k < at ensures signed[k] == 0 {
      AdditionByte(original, before, signed[at..], k);
    }
  }

  /** Acceptance is exactly: both images parse and the output is the forced image, 16-aligned. */
  lemma AcceptedIffRebuilt(original: bytes, signed: bytes)
    ensures ThinAccepted(original, signed) <==>
              && LayoutOf(original, true).Ok? && LayoutOf(signed, false).Ok?
              && IsRebuilt(original, LayoutOf(original, true).value, signed)
              && (|signed| - Allocation(original, LayoutOf(original, true).value)) % 16 == 0
  {
    hide LayoutOf, ThinAccepted, Rebuild, Facts, Allocation, Rebuildable;
    if ThinAccepted(original, signed) {
      AcceptedBounds(original, signed);
      AcceptedIsRebuilt(original, signed);
    }
    if LayoutOf(original, true).Ok? && LayoutOf(signed, false).Ok?
       && IsRebuilt(original, LayoutOf(original, true).value, signed)
       && (|signed| - Allocation(original, LayoutOf(original, true).value)) % 16 == 0 {
      RebuiltAccepted(original, signed);
    }
  }

  // ----- accepted outputs of one original are interchangeable

  /** Two layouts that differ only in the size of the signature. */
  predicate Siblings(a: Layout, b: Layout) {
    && a.cpu == b.cpu && a.subtype == b.subtype && a.commandsEnd == b.commandsEnd
    && a.linkeditCommand == b.linkeditCommand && a.linkeditOffset == b.linkeditOffset
    && a.signatureCommand.Some? && a.signatureCommand == b.signatureCommand
    && a.signatureOffset == b.signatureOffset
  }

  lemma {:induction false} LayoutNeedsNoAllowance(data: bytes)
    requires LayoutOf(data, false).Ok?
    ensures LayoutOf(data, true) == LayoutOf(data, false)
  {
    hide HeaderOf, Walk, CheckLinks, CheckOverlaps, CheckSymbols, Framed, DisjointRanges, LinkeditFinal, Named;
  }

  lemma OutputsAreSiblings(original: bytes, a: bytes, b: bytes)
    requires ThinAccepted(original, a) && ThinAccepted(original, b)
    ensures LayoutOf(a, false).Ok? && LayoutOf(b, false).Ok?
    ensures Siblings(LayoutOf(a, false).value, LayoutOf(b, false).value)
  {
    hide LayoutOf, ThinAccepted, CompareAll, RoundUp;
    ThinParts(original, a);
    ThinParts(original, b);
    AcceptedPlace(original, a);
    AcceptedPlace(original, b);
    OutputEnd(original, a);
    OutputEnd(original, b);
  }

  lemma OutputEnd(original: bytes, signed: bytes)
    requires ThinAccepted(original, signed)
    ensures LayoutOf(original, true).Ok? && LayoutOf(signed, false).Ok?
    ensures var before, after := LayoutOf(original, true).value, LayoutOf(signed, false).value;
            after.commandsEnd == before.commandsEnd + if before.signatureCommand.None? then 16 else 0
  {
    hide LayoutOf, ThinAccepted, IsRebuilt, Finish, Walk, ParseOf;
    AcceptedPlace(original, signed);
    AcceptedIffRebuilt(original, signed);
    RebuiltHeader(original, signed);
    LayoutParts(signed, false);
    var (h, cursor, p) := ParseOf(signed).value;
    FinishFacts(signed, false, h, cursor, p);
  }

  /** Two outputs of one original agree below their signatures, except in the size fields. */
  lemma OutputsAgree(original: bytes, a: bytes, b: bytes, k: int)
    requires ThinAccepted(original, a) && ThinAccepted(original, b)
    requires LayoutOf(a, false).Ok?
    requires 0 <= k < LayoutOf(a, false).value.signatureOffset && !InField(Fields(LayoutOf(a, false).value), 0, k)
    ensures k < |a| && k < |b| && a[k] == b[k]
  {
    hide LayoutOf, ThinAccepted, Rebuild, Facts, E32, E64, RoundUp, InField, Fields;
    AcceptedPlace(original, a);
    AcceptedPlace(original, b);
    var before, after := LayoutOf(original, true).value, LayoutOf(a, false).value;
    AcceptedIffRebuilt(original, a);
    AcceptedIffRebuilt(original, b);
    FieldBytes(after, k);
    var at := Allocation(original, before);
    OffsetsOrdered(original, before);
    if before.signatureCommand.Some? {
      ReplacementByte(original, before, a[at..], k);
      ReplacementByte(original, before, b[at..], k);
    } else {
      AdditionByte(original, before, a[at..], k);
      AdditionByte(original, before, b[at..], k);
      if before.commandsEnd <= k < before.commandsEnd + 12 {
        assert NewCommand(at, |a[at..]|)[k - before.commandsEnd] == NewCommand(at, |b[at..]|)[k - before.commandsEnd];
      }
    }
  }

  /** Any two outputs accepted for one original are accepted as changes of one another. */
  lemma OutputsInterchangeable(original: bytes, a: bytes, b: bytes)
    requires ThinAccepted(original, a) && ThinAccepted(original, b)
    ensures ThinAccepted(a, b)
  {
    hide LayoutOf, ThinAccepted, Facts, RoundUp, Fields, Sorted, InField, CompareAll;
    OutputsAreSiblings(original, a, b);
    AcceptedPlace(original, a);
    AcceptedPlace(original, b);
    LayoutNeedsNoAllowance(a);
    LayoutFacts(a, true);
    LayoutFacts(b, false);
    LayoutIsSane(a, true);
    SiblingsCompare(original, a, b);
    ThinParts(a, b);
  }

  lemma SiblingsCompare(original: bytes, a: bytes, b: bytes)
    requires ThinAccepted(original, a) && ThinAccepted(original, b)
    requires LayoutOf(a, false).Ok? && SaneLayout(LayoutOf(a, false).value)
    ensures CompareAll(a, b, LayoutOf(a, false).value).Ok?
  {
    hide LayoutOf, ThinAccepted, Facts, RoundUp, Fields, Sorted, InField;
    var l := LayoutOf(a, false).value;
    LayoutFacts(a, false);
    SortedFields(a, l);
    SortedMembers(Fields(l));
    var fs := Sorted(Fields(l));
    OutputsAreSiblings(original, a, b);
    AcceptedPlace(original, a);
    AcceptedPlace(original, b);
    forall k | 0 <= k < l.signatureOffset && !InField(fs, 0, k) ensures a[k] == b[k] {
      SameFields(fs, Fields(l), k);
      OutputsAgree(original, a, b, k);
    }
    OffsetsOrdered(a, l);
    CompareAccepts(a, b, fs, 0, 0, [], l.signatureOffset);
    var (c, kept) := Compare(a, b, fs, 0, 0, []).value;
    forall k | c <= k < l.signatureOffset ensures a[k] == b[k] { NotBefore(fs, c, k); }
    SlicesAgree(a, b, c, l.signatureOffset);
  }

  /** Re-signing an accepted output gives another accepted output of the original. */
  lemma AcceptedTransitive(original: bytes, a: bytes, b: bytes)
    requires ThinAccepted(original, a) && ThinAccepted(a, b)
    ensures ThinAccepted(original, b)
  {
    hide LayoutOf, ThinAccepted, Rebuild, Facts, RoundUp, Fields, InField, HoldsFields, CheckValues, CompareAll;
    ThinParts(original, a);
    ThinParts(a, b);
    var before := LayoutOf(original, true).value;
    LayoutNeedsNoAllowance(a);
    LayoutFacts(original, true);
    OffsetsOrdered(original, before);
    AcceptedPlace(original, a);
    AcceptedPlace(a, b);
    TransitiveAgrees(original, a, b);
    TransitiveHolds(original, a, b);
    RebuiltFromFields(original, before, b);
    RebuiltAccepted(original, b);
  }

  lemma TransitiveAgrees(original: bytes, a: bytes, b: bytes)
    requires ThinAccepted(original, a) && ThinAccepted(a, b)
    ensures LayoutOf(original, true).Ok? && AgreesOutside(original, b, LayoutOf(original, true).value)
  {
    hide LayoutOf, ThinAccepted, Rebuild, Facts, RoundUp, Fields, InField;
    AcceptedBounds(original, a);
    AcceptedBounds(a, b);
    var before, middle := LayoutOf(original, true).value, LayoutOf(a, true).value;
    LayoutNeedsNoAllowance(a);
    AcceptedPlace(original, a);
    AcceptedPlace(a, b);
    LayoutFacts(original, true);
    OffsetsOrdered(original, before);
    forall k | 0 <= k < before.signatureOffset && !InField(Fields(before), 0, k) ensures original[k] == b[k] {
      FieldBytes(before, k);
      FieldBytes(middle, k);
      AcceptedAgrees(original, a, k);
      AcceptedAgrees(a, b, k);
    }
  }

  lemma TransitiveHolds(original: bytes, a: bytes, b: bytes)
    requires ThinAccepted(original, a) && ThinAccepted(a, b)
    ensures LayoutOf(original, true).Ok?
    ensures var before := LayoutOf(original, true).value; Facts(original, before) && HoldsFields(b, original, before)
  {
    hide LayoutOf, ThinAccepted, RoundUp, Fields, InField, U32, U64;
    AcceptedBounds(original, a);
    AcceptedBounds(a, b);
    var before, middle := LayoutOf(original, true).value, LayoutOf(a, true).value;
    LayoutNeedsNoAllowance(a);
    AcceptedPlace(original, a);
    AcceptedPlace(a, b);
    LayoutFacts(original, true);
    LayoutFacts(b, false);
    AcceptedHolds(original, a);
    if before.signatureCommand.None? {
      TransitiveCounts(original, a, b);
    }
  }

  lemma TransitiveCounts(original: bytes, a: bytes, b: bytes)
    requires ThinAccepted(original, a) && ThinAccepted(a, b)
    requires LayoutOf(original, true).Ok? && LayoutOf(original, true).value.signatureCommand.None?
    ensures |a| >= 24 && |b| >= 24 && U32(b, 16) == U32(a, 16) && U32(b, 20) == U32(a, 20)
    ensures AllZero(b, |original|, Allocation(original, LayoutOf(original, true).value))
  {
    hide LayoutOf, ThinAccepted, RoundUp, Fields, InField, U32, U64, Facts;
    AcceptedBounds(original, a);
    AcceptedBounds(a, b);
    var before, middle := LayoutOf(original, true).value, LayoutOf(a, true).value;
    LayoutNeedsNoAllowance(a);
    AcceptedPlace(original, a);
    AcceptedPlace(a, b);
    LayoutFacts(original, true);
    OffsetsOrdered(original, before);
    OutputEnd(original, a);
    LayoutFacts(a, true);
    OffsetsOrdered(a, middle);
    forall k | 16 <= k < 24 || |original| <= k < middle.signatureOffset ensures a[k] == b[k] {
      FieldBytes(middle, k);
      AcceptedAgrees(a, b, k);
    }
    SameU32(a, b, 16);
    SameU32(a, b, 20);
  }

  /** The check is reflexive exactly on signed images with an aligned signature and a canonical vmsize. */
  lemma ReflexiveIff(image: bytes)
    ensures ThinAccepted(image, image) <==>
              && LayoutOf(image, false).Ok?
              && var l := LayoutOf(image, false).value;
                 && l.signatureSize % 16 == 0
                 && l.linkeditSize >= 0 && l.linkeditVmSize == RoundUp(l.linkeditSize, 16384)
  {
    hide LayoutOf, ThinAccepted, RoundUp, CompareAll;
    ThinParts(image, image);
    if LayoutOf(image, false).Ok? {
      LayoutNeedsNoAllowance(image);
      LayoutFacts(image, true);
      LayoutIsSane(image, true);
      SelfCompares(image, LayoutOf(image, true).value);
      HasSignature(image);
    }
  }

  lemma HasSignature(image: bytes)
    requires LayoutOf(image, false).Ok?
    ensures LayoutOf(image, false).value.signatureCommand.Some?
  {
    hide LayoutOf, Finish, Walk, ParseOf, HeaderOf;
    LayoutParts(image, false);
    var (h, cursor, p) := ParseOf(image).value;
    FinishFacts(image, false, h, cursor, p);
  }

  lemma SelfCompares(image: bytes, l: Layout)
    requires Facts(image, l) && SaneLayout(l)
    ensures CompareAll(image, image, l).Ok?
  {
    hide Fields, Sorted, InField, Facts;
    SortedFields(image, l);
    SortedMembers(Fields(l));
    OffsetsOrdered(image, l);
    CompareAccepts(image, image, Sorted(Fields(l)), 0, 0, [], l.signatureOffset);
  }
}
