/** _fat_slices and verify_signature_only_change: the two-slice envelope. */
module MachoFat {
  import opened Results
  import opened MachoBytes
  import opened Ranges
  import opened SignatureFrame
  import opened MachoLayout
  import opened MachoDelta
  import opened MachoRebuild
  import opened MachoTheorems

  datatype Slice = Slice(cpu: int, subtype: int, offset: int, size: int, align: int, thin: bytes)

  const FAT_MAGIC: bytes := [0xCA, 0xFE, 0xBA, 0xBE]

  function SliceCpu(index: int): int {
    if index == 0 then CPU_X86_64 else CPU_ARM64
  }

  function SliceSubtype(index: int): int {
    if index == 0 then 3 else 0
  }

  predicate FatHeader(data: bytes) {
    48 <= |data| <= MAX_IMAGE_BYTES && data[..4] == FAT_MAGIC && B32(data, 4) == 2
  }

  predicate AlignAllowed(index: int, output: bool, align: int) {
    align == 14 || (index == 0 && !output && (align == 12 || align == 13))
  }

  /** One iteration of the slice loop. */
  function SliceAt(data: bytes, output: bool, index: int, end: int): (r: Checked<Slice>)
    requires FatHeader(data) && 0 <= index < 2 && 48 <= end <= |data|
    ensures r.Ok? ==> var s := r.value;
                      && end <= s.offset && 32 <= s.size && s.offset + s.size <= |data| <= MAX_IMAGE_BYTES
                      && s.thin == data[s.offset..s.offset + s.size]
                      && 12 <= s.align <= 14 && (output ==> s.align == 14)
                      && s.offset == RoundUp(end, Pow2(s.align))
                      && AllZero(data, end, s.offset)
                      && s.cpu == SliceCpu(index) && s.subtype == SliceSubtype(index)
  {
    var b := 8 + index * 20;
    var cpu, subtype, offset := B32(data, b), B32(data, b + 4), B32(data, b + 8);
    var size, align := B32(data, b + 12), B32(data, b + 16);
    if !(cpu == SliceCpu(index) && subtype == SliceSubtype(index) && AlignAllowed(index, output, align))
    then Refused(FatArchUnsupported)
    else if !(offset == RoundUp(end, Pow2(align)) && 32 <= size && offset + size <= |data|)
    then Refused(FatSliceBounds)
    else if !AllZero(data, end, offset) then Refused(FatNonzeroPadding)
    else
      var thin := data[offset..offset + size];
      :- Need(thin[..4] == THIN_MAGIC && U32(thin, 4) == cpu && U32(thin, 8) == subtype, FatSliceIdentity);
      Ok(Slice(cpu, subtype, offset, size, align, thin))
  }

  /** _fat_slices */
  function FatSlices(data: bytes, output: bool): (r: Checked<seq<Slice>>)
    ensures r.Ok? ==> |r.value| == 2
  {
    if !(48 <= |data| <= MAX_IMAGE_BYTES) then Refused(ImageSize)
    else if !FatHeader(data) then Refused(FatUnsupported)
    else
      var x :- SliceAt(data, output, 0, 48);
      var y :- SliceAt(data, output, 1, x.offset + x.size);
      :- Need(y.offset + y.size == |data|, FatTrailingBytes);
      Ok([x, y])
  }

  method ReadSlices(data: bytes, output: bool) returns (r: Checked<seq<Slice>>)
    ensures r == FatSlices(data, output)
  {
    hide SliceAt, RoundUp, Pow2, AllZero, U32, B32;
    if !(48 <= |data| <= MAX_IMAGE_BYTES) { return Refused(ImageSize); }
    if !FatHeader(data) { return Refused(FatUnsupported); }
    var slices: seq<Slice>, end, index := [], 48, 0;
    while index < 2
      invariant 0 <= index <= 2 && |slices| == index && 48 <= end <= |data|
      invariant index >= 1 ==> SliceAt(data, output, 0, 48) == Ok(slices[0])
      invariant index == 0 ==> end == 48
      invariant index == 1 ==> end == slices[0].offset + slices[0].size
      invariant index == 2 ==>
                  && 48 <= slices[0].offset + slices[0].size <= |data|
                  && SliceAt(data, output, 1, slices[0].offset + slices[0].size) == Ok(slices[1])
                  && end == slices[1].offset + slices[1].size
    {
      var s := SliceAt(data, output, index, end);
      if s.Refused? { return Refused(s.reason); }
      slices := slices + [s.value];
      end, index := s.value.offset + s.value.size, index + 1;
    }
    if end != |data| { return Refused(FatTrailingBytes); }
    assert slices == [slices[0], slices[1]];
    return Ok(slices);
  }

  datatype Transition = Transition(originalOffset: int, signedOffset: int,
                                   originalAlign: int, signedAlign: int, evidence: Evidence)

  datatype Report = Thin(evidence: Evidence) | Fat(slices: seq<Transition>)

  function SliceTransition(given: Slice, made: Slice): Checked<Transition> {
    if !(given.cpu == made.cpu && given.subtype == made.subtype) then Refused(FatArchChanged)
    else
      var evidence :- ThinDelta(given.thin, made.thin);
      Ok(Transition(given.offset, made.offset, given.align, made.align, evidence))
  }

  /** verify_signature_only_change */
  function SigningDelta(original: bytes, signed: bytes): Checked<Report> {
    if IsFat(original) != IsFat(signed) then Refused(ContainerChanged)
    else if !IsFat(original) then
      var evidence :- ThinDelta(original, signed);
      Ok(Thin(evidence))
    else
      var before :- FatSlices(original, false);
      var after :- FatSlices(signed, true);
      var x :- SliceTransition(before[0], after[0]);
      var y :- SliceTransition(before[1], after[1]);
      Ok(Fat([x, y]))
  }

  predicate Accepted(original: bytes, signed: bytes) {
    SigningDelta(original, signed).Ok?
  }

  method VerifySignatureOnlyChange(original: bytes, signed: bytes) returns (r: Checked<Report>)
    ensures r == SigningDelta(original, signed)
  {
    hide ThinDelta, FatSlices;
    if IsFat(original) != IsFat(signed) { return Refused(ContainerChanged); }
    if !IsFat(original) {
      var thin := VerifyThin(original, signed);
      if thin.Refused? { return Refused(thin.reason); }
      return Ok(Thin(thin.value));
    }
    var before := ReadSlices(original, false);
    if before.Refused? { return Refused(before.reason); }
    var after := ReadSlices(signed, true);
    if after.Refused? { return Refused(after.reason); }
    var transitions: seq<Transition>, i := [], 0;
    while i < 2
      invariant 0 <= i <= 2 && |transitions| == i
      invariant i >= 1 ==> SliceTransition(before.value[0], after.value[0]) == Ok(transitions[0])
      invariant i >= 2 ==> SliceTransition(before.value[1], after.value[1]) == Ok(transitions[1])
    {
      var given, made := before.value[i], after.value[i];
      if !(given.cpu == made.cpu && given.subtype == made.subtype) { return Refused(FatArchChanged); }
      var evidence := VerifyThin(given.thin, made.thin);
      if evidence.Refused? { return Refused(evidence.reason); }
      transitions := transitions + [Transition(given.offset, made.offset, given.align, made.align, evidence.value)];
      i := i + 1;
    }
    assert transitions == [transitions[0], transitions[1]];
    return Ok(Fat(transitions));
  }

  // ----- the envelope holds no information beyond its slices

  function FatEntry(index: int, offset: int, size: int, align: int): (r: bytes)
    requires 0 <= index < 2 && 0 <= offset < TWO32 && 0 <= size < TWO32 && 0 <= align < TWO32
    ensures |r| == 20
  {
    EB32(SliceCpu(index)) + EB32(SliceSubtype(index)) + EB32(offset) + EB32(size) + EB32(align)
  }

  predicate Packable(align: int, x: bytes, y: bytes) {
    && 0 <= align <= 14
    && RoundUp(48, Pow2(align)) + |x| < TWO32
    && RoundUp(RoundUp(48, Pow2(align)) + |x|, Pow2(14)) + |y| < TWO32
  }

  /** The minimal packing of two slices, with the first slice aligned to 2^align. */
  function Pack(align: int, x: bytes, y: bytes): bytes
    requires Packable(align, x, y)
  {
    var ox := RoundUp(48, Pow2(align));
    var oy := RoundUp(ox + |x|, Pow2(14));
    FAT_MAGIC + EB32(2) + FatEntry(0, ox, |x|, align) + FatEntry(1, oy, |y|, 14)
    + Zeros(ox - 48) + x + Zeros(oy - ox - |x|) + y
  }

  lemma FiveWords(data: bytes, b: int)
    requires 0 <= b && b + 20 <= |data|
    ensures data[b..b + 20] == data[b..b + 4] + data[b + 4..b + 8] + data[b + 8..b + 12]
                               + data[b + 12..b + 16] + data[b + 16..b + 20]
  {
  }

  lemma EntryBytes(data: bytes, output: bool, index: int, end: int)
    requires FatHeader(data) && 0 <= index < 2 && 48 <= end <= |data| && SliceAt(data, output, index, end).Ok?
    ensures var s := SliceAt(data, output, index, end).value;
            data[8 + index * 20..28 + index * 20] == FatEntry(index, s.offset, s.size, s.align)
  {
    hide RoundUp, Pow2, U32, B32, EB32, AllZero;
    var b := 8 + index * 20;
    WriteOfB32(data, b);
    WriteOfB32(data, b + 4);
    WriteOfB32(data, b + 8);
    WriteOfB32(data, b + 12);
    WriteOfB32(data, b + 16);
    FiveWords(data, b);
  }

  lemma EightParts(d: bytes, a: int, b: int, c: int)
    requires 48 <= a <= b <= c <= |d|
    ensures d == d[..4] + d[4..8] + d[8..28] + d[28..48] + d[48..a] + d[a..b] + d[b..c] + d[c..]
  {
  }

  lemma ZeroPart(d: bytes, from: int, to: int)
    requires 0 <= from <= to <= |d| && AllZero(d, from, to)
    ensures d[from..to] == Zeros(to - from)
  {
  }

  lemma SlicePlaces(data: bytes, output: bool)
    requires FatSlices(data, output).Ok?
    ensures FatHeader(data)
    ensures var s := FatSlices(data, output).value;
            var ex := s[0].offset + s[0].size;
            && SliceAt(data, output, 0, 48) == Ok(s[0]) && 48 <= ex <= |data|
            && SliceAt(data, output, 1, ex) == Ok(s[1])
            && s[1].offset + s[1].size == |data| && s[1].align == 14
  {
    hide SliceAt;
    SecondAlign(data, FatSlices(data, output).value[0].offset + FatSlices(data, output).value[0].size);
  }

  /** The parts of a packing, joined. */
  lemma JoinsToPack(data: bytes, align: int, x: bytes, y: bytes, ox: int, oy: int)
    requires Packable(align, x, y) && ox == RoundUp(48, Pow2(align)) && oy == RoundUp(ox + |x|, Pow2(14))
    requires |data| == oy + |y| && data[..4] == FAT_MAGIC && data[4..8] == EB32(2)
    requires data[8..28] == FatEntry(0, ox, |x|, align) && data[28..48] == FatEntry(1, oy, |y|, 14)
    requires data[48..ox] == Zeros(ox - 48) && data[ox..ox + |x|] == x
    requires data[ox + |x|..oy] == Zeros(oy - ox - |x|) && data[oy..] == y
    ensures data == Pack(align, x, y)
  {
    hide RoundUp, Pow2, EB32, FatEntry, Zeros;
    EightParts(data, ox, ox + |x|, oy);
  }

  /** What one slice says of its bytes. */
  predicate SlicePlaced(data: bytes, s: Slice, end: int) {
    && 0 <= end <= s.offset && 32 <= s.size == |s.thin| && s.offset + s.size <= |data|
    && s.offset == RoundUp(end, Pow2(14)) && data[s.offset..s.offset + s.size] == s.thin && AllZero(data, end, s.offset)
  }

  lemma SliceIsPlaced(data: bytes, output: bool, index: int, end: int)
    requires FatHeader(data) && 0 <= index < 2 && 48 <= end <= |data| && SliceAt(data, output, index, end).Ok?
    ensures var s := SliceAt(data, output, index, end).value;
            && 12 <= s.align <= 14 && (output ==> s.align == 14)
            && (s.align == 14 ==> SlicePlaced(data, s, end))
            && end <= s.offset == RoundUp(end, Pow2(s.align)) && s.size == |s.thin|
            && s.offset + s.size <= |data| <= MAX_IMAGE_BYTES
            && data[s.offset..s.offset + s.size] == s.thin && AllZero(data, end, s.offset)
  {
    hide B32, U32, RoundUp, Pow2, AllZero, FatHeader;
  }

  /** What the slices say of the whole file. */
  lemma SlicesPack(data: bytes, output: bool)
    requires FatSlices(data, output).Ok?
    ensures var s := FatSlices(data, output).value;
            && 12 <= s[0].align <= 14 && (output ==> s[0].align == 14) && s[1].align == 14
            && 48 <= s[0].offset == RoundUp(48, Pow2(s[0].align)) && s[0].size == |s[0].thin|
            && s[0].offset + s[0].size <= |data| <= MAX_IMAGE_BYTES
            && data[s[0].offset..s[0].offset + s[0].size] == s[0].thin && AllZero(data, 48, s[0].offset)
            && SlicePlaced(data, s[1], s[0].offset + s[0].size) && |data| == s[1].offset + s[1].size
  {
    hide FatSlices, SliceAt, RoundUp, Pow2, U32, B32, AllZero, SlicePlaced, FatHeader;
    SlicePlaces(data, output);
    var s := FatSlices(data, output).value;
    SliceIsPlaced(data, output, 0, 48);
    SliceIsPlaced(data, output, 1, s[0].offset + s[0].size);
  }

  lemma SlicesArePackable(data: bytes, x: Slice, y: Slice)
    requires 12 <= x.align <= 14 && x.offset == RoundUp(48, Pow2(x.align)) && x.size == |x.thin|
    requires 48 <= x.offset && SlicePlaced(data, y, x.offset + x.size) && |data| <= MAX_IMAGE_BYTES
    ensures Packable(x.align, x.thin, y.thin)
  {
    hide RoundUp, Pow2, AllZero;
  }

  /** An accepted FAT file is the minimal packing of its two slices. */
  lemma FatIsPacked(data: bytes, output: bool)
    requires FatSlices(data, output).Ok?
    ensures var s := FatSlices(data, output).value;
            && Packable(s[0].align, s[0].thin, s[1].thin)
            && data == Pack(s[0].align, s[0].thin, s[1].thin)
            && (output ==> s[0].align == 14)
  {
    hide FatSlices, SliceAt, RoundUp, Pow2, U32, B32, EB32, FatEntry, AllZero, Zeros, Pack, Packable;
    var s := FatSlices(data, output).value;
    SlicePlaces(data, output);
    SlicesPack(data, output);
    var ox, oy, ex := s[0].offset, s[1].offset, s[0].offset + s[0].size;
    EntryBytes(data, output, 0, 48);
    EntryBytes(data, output, 1, ex);
    WriteOfB32(data, 4);
    ZeroPart(data, 48, ox);
    ZeroPart(data, ex, oy);
    assert data[oy..] == data[oy..oy + s[1].size];
    assert Packable(s[0].align, s[0].thin, s[1].thin) by { SlicesArePackable(data, s[0], s[1]); }
    JoinsToPack(data, s[0].align, s[0].thin, s[1].thin, ox, oy);
  }

  lemma SecondAlign(data: bytes, end: int)
    requires FatHeader(data) && 48 <= end <= |data|
    ensures forall output | SliceAt(data, output, 1, end).Ok? :: SliceAt(data, output, 1, end).value.align == 14
  {
    hide RoundUp, Pow2, U32, B32, AllZero;
  }

  lemma OutputReadsAsInput(data: bytes)
    requires FatSlices(data, true).Ok?
    ensures FatSlices(data, false) == FatSlices(data, true)
  {
    hide RoundUp, Pow2, U32, B32, AllZero;
  }

  lemma FatParts(original: bytes, signed: bytes)
    requires IsFat(original) && IsFat(signed)
    ensures Accepted(original, signed) <==>
              && FatSlices(original, false).Ok? && FatSlices(signed, true).Ok?
              && var b, a := FatSlices(original, false).value, FatSlices(signed, true).value;
                 ThinAccepted(b[0].thin, a[0].thin) && ThinAccepted(b[1].thin, a[1].thin)
  {
    hide ThinDelta, FatSlices;
    if FatSlices(original, false).Ok? { SliceIdentity(original, false); }
    if FatSlices(signed, true).Ok? { SliceIdentity(signed, true); }
  }

  lemma SliceIdentity(data: bytes, output: bool)
    requires FatSlices(data, output).Ok?
    ensures var s := FatSlices(data, output).value;
            && s[0].cpu == CPU_X86_64 && s[0].subtype == 3 && s[1].cpu == CPU_ARM64 && s[1].subtype == 0
  {
    hide SliceAt;
  }

  lemma AcceptedNotFat(original: bytes, signed: bytes)
    requires Accepted(original, signed)
    ensures IsFat(original) == IsFat(signed)
    ensures !IsFat(original) ==> ThinAccepted(original, signed)
  {
    hide ThinDelta, FatSlices;
  }

  /** Accepted outputs of one original, thin or FAT, are accepted as changes of one another. */
  lemma OutputsEquivalent(original: bytes, a: bytes, b: bytes)
    requires Accepted(original, a) && Accepted(original, b)
    ensures Accepted(a, b) && Accepted(b, a) && Accepted(a, a)
  {
    OutputAcceptedFrom(original, a, b);
    OutputAcceptedFrom(original, b, a);
    OutputAcceptedFrom(original, a, a);
  }

  lemma OutputAcceptedFrom(original: bytes, a: bytes, b: bytes)
    requires Accepted(original, a) && Accepted(original, b)
    ensures Accepted(a, b)
  {
    hide FatSlices, ThinAccepted, Accepted, IsFat;
    AcceptedNotFat(original, a);
    AcceptedNotFat(original, b);
    if IsFat(original) {
      FatParts(original, a);
      FatParts(original, b);
      var s := FatSlices(original, false).value;
      var x, y := FatSlices(a, true).value, FatSlices(b, true).value;
      OutputsInterchangeable(s[0].thin, x[0].thin, y[0].thin);
      OutputsInterchangeable(s[1].thin, x[1].thin, y[1].thin);
      OutputReadsAsInput(a);
      FatParts(a, b);
    } else {
      OutputsInterchangeable(original, a, b);
      ThinIsAccepted(a, b);
    }
  }

  lemma ThinIsAccepted(original: bytes, signed: bytes)
    requires !IsFat(original) && !IsFat(signed) && ThinAccepted(original, signed)
    ensures Accepted(original, signed)
  {
    hide ThinDelta, FatSlices, IsFat;
  }

  /** A signed output, re-signed, is still an output of the first original. */
  lemma ResigningChains(original: bytes, a: bytes, b: bytes)
    requires Accepted(original, a) && Accepted(a, b)
    ensures Accepted(original, b)
  {
    hide FatSlices, ThinAccepted, Accepted, IsFat;
    AcceptedNotFat(original, a);
    AcceptedNotFat(a, b);
    if IsFat(original) {
      FatParts(original, a);
      FatParts(a, b);
      OutputReadsAsInput(a);
      var s := FatSlices(original, false).value;
      var x, y := FatSlices(a, true).value, FatSlices(b, true).value;
      AcceptedTransitive(s[0].thin, x[0].thin, y[0].thin);
      AcceptedTransitive(s[1].thin, x[1].thin, y[1].thin);
      FatParts(original, b);
    } else {
      AcceptedTransitive(original, a, b);
      ThinIsAccepted(original, b);
    }
  }

  /** A FAT output is the packing, at 16 KiB, of the two images that its slices force. */
  lemma FatOutputForced(original: bytes, signed: bytes)
    requires IsFat(original) && Accepted(original, signed)
    ensures FatSlices(original, false).Ok? && FatSlices(signed, true).Ok?
    ensures var o, s := FatSlices(original, false).value, FatSlices(signed, true).value;
            && LayoutOf(o[0].thin, true).Ok? && LayoutOf(o[1].thin, true).Ok?
            && IsRebuilt(o[0].thin, LayoutOf(o[0].thin, true).value, s[0].thin)
            && IsRebuilt(o[1].thin, LayoutOf(o[1].thin, true).value, s[1].thin)
            && Packable(14, s[0].thin, s[1].thin)
            && signed == Pack(14, s[0].thin, s[1].thin)
  {
    hide FatSlices, ThinAccepted, Accepted, IsFat, IsRebuilt, LayoutOf, Pack, Packable;
    AcceptedNotFat(original, signed);
    FatParts(original, signed);
    var o, s := FatSlices(original, false).value, FatSlices(signed, true).value;
    SliceForced(o[0].thin, s[0].thin);
    SliceForced(o[1].thin, s[1].thin);
    FatIsPacked(signed, true);
  }

  lemma SliceForced(original: bytes, signed: bytes)
    requires ThinAccepted(original, signed)
    ensures LayoutOf(original, true).Ok? && IsRebuilt(original, LayoutOf(original, true).value, signed)
  {
    hide ThinAccepted, IsRebuilt, LayoutOf;
    AcceptedIffRebuilt(original, signed);
  }
}
