/** The signed image that an original and a signature force, byte by byte. */
module MachoRebuild {
  import opened Results
  import opened MachoBytes
  import opened Ranges
  import opened SignatureFrame
  import opened MachoLayout
  import opened MachoWalk
  import opened MachoLockstep
  import opened MachoDelta

  /** Everything the lemmas below need to know of an accepted image. */
  predicate Facts(data: bytes, l: Layout) {
    HeaderFacts(data, l) && LinkeditFacts(data, l) && SignatureFacts(data, l)
  }

  lemma LayoutFacts(data: bytes, allowMissing: bool)
    requires LayoutOf(data, allowMissing).Ok?
    ensures Facts(data, LayoutOf(data, allowMissing).value)
  {
    hide LayoutOf, HeaderFacts, LinkeditFacts, SignatureFacts;
    HeaderOfFacts(data, allowMissing);
    LinkeditOfFacts(data, allowMissing);
    SignatureOfFacts(data, allowMissing);
  }

  /** Where the signature of every accepted output starts. */
  function Allocation(original: bytes, before: Layout): int {
    if before.signatureCommand.None? then RoundUp(|original|, 16) else before.signatureOffset
  }

  /** The check of the linkedit resize repeats the others: both layouts end at their files, so an output whose linkedit
      starts where the original's does and whose signature starts at the forced place grows by the difference. */
  lemma ResizeFollows(original: bytes, signed: bytes)
    requires LayoutOf(original, true).Ok? && LayoutOf(signed, false).Ok?
    requires var before, after := LayoutOf(original, true).value, LayoutOf(signed, false).value;
             after.linkeditOffset == before.linkeditOffset && after.signatureOffset == Allocation(original, before)
    ensures var before, after := LayoutOf(original, true).value, LayoutOf(signed, false).value;
            after.linkeditSize - before.linkeditSize
            == after.signatureSize - before.signatureSize + Padding(original, before)
  {
    hide LayoutOf, HeaderFacts, RoundUp, U32, U64;
    LayoutFacts(original, true);
    LayoutFacts(signed, false);
  }

  predicate Rebuildable(original: bytes, before: Layout, signature: bytes) {
    Facts(original, before) && Allocation(original, before) + |signature| <= MAX_IMAGE_BYTES
  }

  /** The linkedit size that a signature forces. */
  function NewSize(original: bytes, before: Layout, signature: bytes): int {
    Allocation(original, before) + |signature| - before.linkeditOffset
  }

  function Resized(original: bytes, before: Layout, signature: bytes): (r: bytes)
    requires Rebuildable(original, before, signature)
    ensures |r| == before.signatureOffset
  {
    var le, size := before.linkeditCommand, NewSize(original, before, signature);
    Patch(Patch(original[..before.signatureOffset], le + 32, E64(RoundUp(size, 16384))), le + 48, E64(size))
  }

  /** An appended LC_CODE_SIGNATURE command. */
  function NewCommand(at: int, size: int): (r: bytes)
    requires 0 <= at < TWO32 && 0 <= size < TWO32
    ensures |r| == 16
  {
    E32(LC_CODE_SIGNATURE) + E32(16) + E32(at) + E32(size)
  }

  function NewCounts(before: Layout): (r: bytes)
    requires 0 <= before.commandCount <= MAX_COMMANDS && 32 <= before.commandsEnd <= 32 + MAX_COMMAND_BYTES
    ensures |r| == 8
  {
    E32(before.commandCount + 1) + E32(before.commandsEnd - 16)
  }

  /** The only image that the checker accepts for this original and this signature. */
  function Rebuild(original: bytes, before: Layout, signature: bytes): (r: bytes)
    requires Rebuildable(original, before, signature)
    ensures |r| == Allocation(original, before) + |signature|
  {
    var body, at := Resized(original, before, signature), Allocation(original, before);
    match before.signatureCommand
    case Some(c) => Patch(body, c + 12, E32(|signature|)) + signature
    case None =>
      Patch(Patch(body, 16, NewCounts(before)), before.commandsEnd, NewCommand(at, |signature|))
      + Zeros(at - |original|) + signature
  }

  // ----- the mutable fields

  lemma FieldsApart(data: bytes, l: Layout)
    requires Facts(data, l)
    ensures DisjointRanges(Fields(l))
    ensures forall f | f in Fields(l) :: 16 <= f.start && f.stop <= l.signatureOffset
    ensures forall f | f in Fields(l) ::
            f.stop <= if l.signatureCommand.None? then l.commandsEnd + 16 else l.commandsEnd
  {
  }

  lemma SameFields(fs: seq<Range>, gs: seq<Range>, k: int)
    requires forall f :: f in fs <==> f in gs
    ensures InField(fs, 0, k) <==> InField(gs, 0, k)
  {
    if InField(fs, 0, k) { var j :| 0 <= j < |fs| && fs[j].start <= k < fs[j].stop; assert fs[j] in gs; }
    if InField(gs, 0, k) { var j :| 0 <= j < |gs| && gs[j].start <= k < gs[j].stop; assert gs[j] in fs; }
  }

  lemma SortedFields(data: bytes, l: Layout)
    requires Facts(data, l)
    ensures var fs := Sorted(Fields(l));
            && (forall f :: f in fs <==> f in Fields(l))
            && (forall j | 0 <= j < |fs| :: 16 <= fs[j].start < fs[j].stop <= l.signatureOffset)
            && (forall i, j | 0 <= i < j < |fs| :: fs[i].stop <= fs[j].start)
  {
    FieldsApart(data, l);
    SortedMembers(Fields(l));
    SortedDisjoint(Fields(l));
    hide Fields, Sorted, Facts;
    var fs := Sorted(Fields(l));
    forall j | 0 <= j < |fs| ensures 16 <= fs[j].start < fs[j].stop <= l.signatureOffset { assert fs[j] in fs; }
    forall i, j | 0 <= i < j < |fs| ensures fs[i].stop <= fs[j].start { assert Apart(fs[i], fs[j]); }
  }

  /** Which bytes the fields hold. */
  lemma FieldBytes(l: Layout, k: int)
    ensures InField(Fields(l), 0, k) <==>
              || l.linkeditCommand + 32 <= k < l.linkeditCommand + 40
              || l.linkeditCommand + 48 <= k < l.linkeditCommand + 56
              || (l.signatureCommand.None? && (16 <= k < 24 || l.commandsEnd <= k < l.commandsEnd + 16))
              || (l.signatureCommand.Some? && l.signatureCommand.value + 12 <= k < l.signatureCommand.value + 16)
  {
    var fs := Fields(l);
    assert fs[0] == Range(l.linkeditCommand + 32, l.linkeditCommand + 40);
    assert fs[1] == Range(l.linkeditCommand + 48, l.linkeditCommand + 56);
    match l.signatureCommand
    case None => assert |fs| == 4 && fs[2] == Range(16, 24) && fs[3] == Range(l.commandsEnd, l.commandsEnd + 16);
    case Some(c) => assert |fs| == 3 && fs[2] == Range(c + 12, c + 16);
  }

  // ----- accepted means equal outside the fields

  lemma AcceptedAgrees(original: bytes, signed: bytes, k: int)
    requires ThinAccepted(original, signed) && LayoutOf(original, true).Ok?
    requires 0 <= k < LayoutOf(original, true).value.signatureOffset
    requires !InField(Fields(LayoutOf(original, true).value), 0, k)
    ensures k < |original| && k < |signed| && original[k] == signed[k]
  {
    hide LayoutOf, ThinAccepted, CheckValues, Facts, Fields, Sorted, InField;
    AcceptedBounds(original, signed);
    ThinParts(original, signed);
    var before := LayoutOf(original, true).value;
    LayoutFacts(original, true);
    SortedFields(original, before);
    var fs := Sorted(Fields(before));
    SameFields(fs, Fields(before), k);
    forall f | f in fs ensures 0 <= f.stop && f.start <= |original| && f.start <= |signed| {
      var j :| 0 <= j < |fs| && fs[j] == f;
    }
    var (c, kept) := Compare(original, signed, fs, 0, 0, []).value;
    CompareMeans(original, signed, fs, 0, 0, [], k);
    SlicesAgree(original, signed, c, before.signatureOffset);
  }

  /** The signature of an accepted output starts at the forced offset and fills the file. */
  lemma AcceptedPlace(original: bytes, signed: bytes)
    requires ThinAccepted(original, signed)
    ensures LayoutOf(original, true).Ok? && LayoutOf(signed, false).Ok?
    ensures var before, after := LayoutOf(original, true).value, LayoutOf(signed, false).value;
            && after.signatureOffset == Allocation(original, before)
            && after.signatureOffset + after.signatureSize == |signed|
            && after.signatureCommand == Some(if before.signatureCommand.None? then before.commandsEnd
                                              else before.signatureCommand.value)
            && after.signatureSize % 16 == 0 && after.signatureSize > 0
            && after.linkeditCommand == before.linkeditCommand
            && after.linkeditOffset == before.linkeditOffset
            && after.linkeditSize == |signed| - before.linkeditOffset >= 0
            && after.linkeditVmSize == RoundUp(|signed| - before.linkeditOffset, 16384)
            && (before.signatureCommand.None? ==>
                  && after.commandCount == before.commandCount + 1
                  && after.commandsEnd == before.commandsEnd + 16
                  && AllZero(signed, |original|, after.signatureOffset))
  {
    hide LayoutOf, ThinAccepted, CompareAll, HeaderFacts, RoundUp;
    ThinParts(original, signed);
    LayoutFacts(original, true);
    LayoutFacts(signed, false);
    hide U32, U64;
  }

  lemma AcceptedBounds(original: bytes, signed: bytes)
    requires ThinAccepted(original, signed)
    ensures LayoutOf(original, true).Ok? && LayoutOf(signed, false).Ok?
    ensures LayoutOf(original, true).value.signatureOffset <= |original|
    ensures LayoutOf(original, true).value.signatureOffset <= |signed|
  {
    hide LayoutOf, ThinAccepted, U32, U64;
    AcceptedPlace(original, signed);
    LayoutFacts(original, true);
  }

  predicate AgreesOutside(original: bytes, signed: bytes, before: Layout) {
    && before.signatureOffset <= |original| && before.signatureOffset <= |signed|
    && forall k | 0 <= k < before.signatureOffset && !InField(Fields(before), 0, k) :: original[k] == signed[k]
  }

  /** What the fields of an output hold, given its total size. */
  predicate HoldsFields(signed: bytes, original: bytes, before: Layout)
    requires Facts(original, before)
  {
    var at := Allocation(original, before);
    && at <= |signed| <= MAX_IMAGE_BYTES
    && U64(signed, before.linkeditCommand + 32) == RoundUp(|signed| - before.linkeditOffset, 16384)
    && U64(signed, before.linkeditCommand + 48) == |signed| - before.linkeditOffset
    && match before.signatureCommand
       case Some(c) => U32(signed, c + 12) == |signed| - at
       case None =>
         && U32(signed, 16) == before.commandCount + 1 && U32(signed, 20) == before.commandsEnd - 16
         && U32(signed, before.commandsEnd) == LC_CODE_SIGNATURE && U32(signed, before.commandsEnd + 4) == 16
         && U32(signed, before.commandsEnd + 8) == at && U32(signed, before.commandsEnd + 12) == |signed| - at
         && AllZero(signed, |original|, at)
  }

  lemma AcceptedHolds(original: bytes, signed: bytes)
    requires ThinAccepted(original, signed)
    ensures LayoutOf(original, true).Ok?
    ensures var before := LayoutOf(original, true).value;
            Facts(original, before) && HoldsFields(signed, original, before)
  {
    hide LayoutOf, ThinAccepted, RoundUp, U32, U64;
    AcceptedPlace(original, signed);
    LayoutFacts(original, true);
    LayoutFacts(signed, false);
  }

  // ----- the fields and the bytes outside them are the whole image

  /** One byte of a rebuilt replacement. */
  lemma ReplacementByte(original: bytes, before: Layout, signature: bytes, k: int)
    requires Rebuildable(original, before, signature) && before.signatureCommand.Some?
    requires 0 <= k < Allocation(original, before) + |signature|
    ensures var le, c, at := before.linkeditCommand, before.signatureCommand.value, Allocation(original, before);
            var size := NewSize(original, before, signature);
            Rebuild(original, before, signature)[k]
            == if k >= at then signature[k - at]
               else if c + 12 <= k < c + 16 then E32(|signature|)[k - c - 12]
               else if le + 48 <= k < le + 56 then E64(size)[k - le - 48]
               else if le + 32 <= k < le + 40 then E64(RoundUp(size, 16384))[k - le - 32]
               else original[k]
  {
    hide E64, E32, U32, U64, RoundUp, Patch;
  }

  /** One byte of a rebuilt addition. */
  lemma AdditionByte(original: bytes, before: Layout, signature: bytes, k: int)
    requires Rebuildable(original, before, signature) && before.signatureCommand.None?
    requires 0 <= k < Allocation(original, before) + |signature|
    ensures var le, ce, at := before.linkeditCommand, before.commandsEnd, Allocation(original, before);
            var size := NewSize(original, before, signature);
            Rebuild(original, before, signature)[k]
            == if k >= at then signature[k - at]
               else if k >= |original| then 0
               else if ce <= k < ce + 16 then NewCommand(at, |signature|)[k - ce]
               else if 16 <= k < 24 then NewCounts(before)[k - 16]
               else if le + 48 <= k < le + 56 then E64(size)[k - le - 48]
               else if le + 32 <= k < le + 40 then E64(RoundUp(size, 16384))[k - le - 32]
               else original[k]
  {
    hide E64, E32, U32, U64, Patch, NewCommand, NewCounts;
  }

  lemma SizesHold(signed: bytes, o: int, v: int, k: int)
    requires 0 <= o && o + 8 <= |signed| && 0 <= v < TWO64 && U64(signed, o) == v && o <= k < o + 8
    ensures signed[k] == E64(v)[k - o]
  {
    ReadBack64(signed, o, v);
    assert signed[o + (k - o)] == E64(v)[k - o];
  }

  lemma SizeHolds(signed: bytes, o: int, v: int, k: int)
    requires 0 <= o && o + 4 <= |signed| && 0 <= v < TWO32 && U32(signed, o) == v && o <= k < o + 4
    ensures signed[k] == E32(v)[k - o]
  {
    ReadBack32(signed, o, v);
    assert signed[o + (k - o)] == E32(v)[k - o];
  }

  lemma RebuildAtReplacement(original: bytes, before: Layout, signed: bytes, k: int)
    requires Facts(original, before) && before.signatureCommand.Some?
    requires HoldsFields(signed, original, before) && AgreesOutside(original, signed, before)
    requires 0 <= k < |signed|
    ensures signed[k] == Rebuild(original, before, signed[Allocation(original, before)..])[k]
  {
    hide E64, E32, U64, U32, RoundUp, Rebuild, InField;
    var at, le, c := Allocation(original, before), before.linkeditCommand, before.signatureCommand.value;
    var size := |signed| - before.linkeditOffset;
    ReplacementByte(original, before, signed[at..], k);
    FieldBytes(before, k);
    if k >= at {
    } else if le + 32 <= k < le + 40 {
      SizesHold(signed, le + 32, RoundUp(size, 16384), k);
    } else if le + 48 <= k < le + 56 {
      SizesHold(signed, le + 48, size, k);
    } else if c + 12 <= k < c + 16 {
      SizeHolds(signed, c + 12, |signed| - at, k);
    }
  }

  lemma RebuildAtAddition(original: bytes, before: Layout, signed: bytes, k: int)
    requires Facts(original, before) && before.signatureCommand.None?
    requires HoldsFields(signed, original, before) && AgreesOutside(original, signed, before)
    requires 0 <= k < |signed|
    ensures signed[k] == Rebuild(original, before, signed[Allocation(original, before)..])[k]
  {
    hide E64, E32, U64, U32, Rebuild, InField, NewCommand, NewCounts;
    var at, le, ce := Allocation(original, before), before.linkeditCommand, before.commandsEnd;
    var size := |signed| - before.linkeditOffset;
    AdditionByte(original, before, signed[at..], k);
    FieldBytes(before, k);
    if k >= |original| {
    } else if le + 32 <= k < le + 40 {
      SizesHold(signed, le + 32, RoundUp(size, 16384), k);
    } else if le + 48 <= k < le + 56 {
      SizesHold(signed, le + 48, size, k);
    } else if 16 <= k < 24 {
      CountsHold(signed, before, k);
    } else if ce <= k < ce + 16 {
      CommandHolds(signed, ce, at, |signed| - at, k);
    }
  }

  lemma CountsHold(signed: bytes, before: Layout, k: int)
    requires 0 <= before.commandCount <= MAX_COMMANDS && 32 <= before.commandsEnd <= 32 + MAX_COMMAND_BYTES
    requires |signed| >= 24 && 16 <= k < 24
    requires U32(signed, 16) == before.commandCount + 1 && U32(signed, 20) == before.commandsEnd - 16
    ensures signed[k] == NewCounts(before)[k - 16]
  {
    ReadBack32(signed, 16, before.commandCount + 1);
    ReadBack32(signed, 20, before.commandsEnd - 16);
    hide U32, E32;
    if k < 20 { assert signed[16 + (k - 16)] == E32(before.commandCount + 1)[k - 16]; }
    else { assert signed[20 + (k - 20)] == E32(before.commandsEnd - 16)[k - 20]; }
  }

  lemma CommandHolds(signed: bytes, ce: int, at: int, size: int, k: int)
    requires 0 <= ce && ce + 16 <= |signed| && ce <= k < ce + 16
    requires 0 <= at < TWO32 && 0 <= size < TWO32
    requires U32(signed, ce) == LC_CODE_SIGNATURE && U32(signed, ce + 4) == 16
    requires U32(signed, ce + 8) == at && U32(signed, ce + 12) == size
    ensures signed[k] == NewCommand(at, size)[k - ce]
  {
    ReadBack32(signed, ce, LC_CODE_SIGNATURE);
    ReadBack32(signed, ce + 4, 16);
    ReadBack32(signed, ce + 8, at);
    ReadBack32(signed, ce + 12, size);
    hide U32, E32;
    if k < ce + 4 { assert signed[ce + (k - ce)] == E32(LC_CODE_SIGNATURE)[k - ce]; }
    else if k < ce + 8 { assert signed[ce + 4 + (k - ce - 4)] == E32(16)[k - ce - 4]; }
    else if k < ce + 12 { assert signed[ce + 8 + (k - ce - 8)] == E32(at)[k - ce - 8]; }
    else { assert signed[ce + 12 + (k - ce - 12)] == E32(size)[k - ce - 12]; }
  }

  lemma RebuiltFromFields(original: bytes, before: Layout, signed: bytes)
    requires Facts(original, before)
    requires HoldsFields(signed, original, before) && AgreesOutside(original, signed, before)
    ensures var at := Allocation(original, before);
            && 0 <= at <= |signed| && Rebuildable(original, before, signed[at..])
            && signed == Rebuild(original, before, signed[at..])
  {
    hide Rebuild, AgreesOutside, U32, U64;
    var at := Allocation(original, before);
    forall k | 0 <= k < |signed| ensures signed[k] == Rebuild(original, before, signed[at..])[k] {
      if before.signatureCommand.Some? {
        RebuildAtReplacement(original, before, signed, k);
      } else {
        RebuildAtAddition(original, before, signed, k);
      }
    }
  }

  /** Nothing in an accepted output is free except the bytes of its signature. */
  lemma AcceptedIsRebuilt(original: bytes, signed: bytes)
    requires ThinAccepted(original, signed)
    ensures LayoutOf(original, true).Ok?
    ensures var before := LayoutOf(original, true).value;
            var at := Allocation(original, before);
            && 0 <= at < |signed|
            && Rebuildable(original, before, signed[at..])
            && signed == Rebuild(original, before, signed[at..])
            && Framed(signed[at..]) && (|signed| - at) % 16 == 0
  {
    hide LayoutOf, ThinAccepted, Rebuild, Framed, HoldsFields, InField, Rebuildable, Facts;
    AcceptedBounds(original, signed);
    AcceptedHolds(original, signed);
    AcceptedPlace(original, signed);
    var before := LayoutOf(original, true).value;
    forall k | 0 <= k < before.signatureOffset && !InField(Fields(before), 0, k) ensures original[k] == signed[k] {
      AcceptedAgrees(original, signed, k);
    }
    hide Fields, AllZero, RoundUp;
    RebuiltFromFields(original, before, signed);
    SignatureIsFramed(signed);
  }

  lemma SignatureIsFramed(signed: bytes)
    requires LayoutOf(signed, false).Ok?
    ensures var l := LayoutOf(signed, false).value;
            0 <= l.signatureOffset <= |signed| && Framed(signed[l.signatureOffset..])
  {
    hide LayoutOf, Framed, Finish, Walk, ParseOf, HeaderOf;
    LayoutParts(signed, false);
    var (h, cursor, p) := ParseOf(signed).value;
    FinishFacts(signed, false, h, cursor, p);
  }
}
