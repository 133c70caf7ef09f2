/** For which signatures an accepted FAT original has an accepted output, and when it is its own. */
module MachoFatAvailable {
  import opened Results
  import opened MachoBytes
  import opened SignatureFrame
  import opened MachoLayout
  import opened MachoWalk
  import opened MachoDelta
  import opened MachoRebuild
  import opened MachoTheorems
  import opened MachoAvailable
  import opened MachoFat

  // ----- a packing reads back as its slices

  lemma ReadOfEB32(v: int)
    requires 0 <= v < TWO32
    ensures B32(EB32(v), 0) == v
  {
    var v1 := v / 0x100;
    var v2 := v1 / 0x100;
    assert v / 0x1_0000 == v2 && v / 0x100_0000 == v2 / 0x100;
    assert v == v % 0x100 + 0x100 * v1 && v1 == v1 % 0x100 + 0x100 * v2 && v2 == v2 % 0x100 + 0x100 * (v2 / 0x100);
  }

  /** A word written in the middle reads back. */
  lemma WordReads(before: bytes, v: int, after: bytes)
    requires 0 <= v < TWO32
    ensures var d := before + EB32(v) + after;
            |d| == |before| + 4 + |after| && B32(d, |before|) == v
  {
    ReadOfEB32(v);
    hide EB32;
    var d := before + EB32(v) + after;
    assert forall k | 0 <= k < 4 :: d[|before| + k] == EB32(v)[k];
  }

  /** The five words of one entry read back. */
  lemma EntryReads(before: bytes, index: int, offset: int, size: int, align: int, after: bytes)
    requires 0 <= index < 2 && 0 <= offset < TWO32 && 0 <= size < TWO32 && 0 <= align < TWO32
    ensures var d, b := before + FatEntry(index, offset, size, align) + after, |before|;
            && |d| == b + 20 + |after| && B32(d, b) == SliceCpu(index) && B32(d, b + 4) == SliceSubtype(index)
            && B32(d, b + 8) == offset && B32(d, b + 12) == size && B32(d, b + 16) == align
  {
    hide EB32, B32;
    var cpu, subtype := EB32(SliceCpu(index)), EB32(SliceSubtype(index));
    var d := before + FatEntry(index, offset, size, align) + after;
    WordReads(before, SliceCpu(index), subtype + EB32(offset) + EB32(size) + EB32(align) + after);
    WordReads(before + cpu, SliceSubtype(index), EB32(offset) + EB32(size) + EB32(align) + after);
    WordReads(before + cpu + subtype, offset, EB32(size) + EB32(align) + after);
    WordReads(before + cpu + subtype + EB32(offset), size, EB32(align) + after);
    WordReads(before + cpu + subtype + EB32(offset) + EB32(size), align, after);
    assert d == before + cpu + (subtype + EB32(offset) + EB32(size) + EB32(align) + after);
    assert d == before + cpu + subtype + (EB32(offset) + EB32(size) + EB32(align) + after);
    assert d == before + cpu + subtype + EB32(offset) + (EB32(size) + EB32(align) + after);
    assert d == before + cpu + subtype + EB32(offset) + EB32(size) + (EB32(align) + after);
    assert d == before + cpu + subtype + EB32(offset) + EB32(size) + EB32(align) + after;
  }

  /** What the envelope asks of one slice. */
  predicate SliceHeader(index: int, thin: bytes) {
    && |thin| >= 32 && thin[..4] == THIN_MAGIC
    && U32(thin, 4) == SliceCpu(index) && U32(thin, 8) == SliceSubtype(index)
  }

  function FirstOffset(): int {
    RoundUp(48, Pow2(14))
  }

  function SecondOffset(x: bytes): int {
    RoundUp(FirstOffset() + |x|, Pow2(14))
  }

  /** The packing at 16 KiB, part by part. */
  function Packed(x: bytes, y: bytes): bytes
    requires SecondOffset(x) + |y| <= MAX_IMAGE_BYTES
  {
    var ox, oy := FirstOffset(), SecondOffset(x);
    FAT_MAGIC + EB32(2) + FatEntry(0, ox, |x|, 14) + FatEntry(1, oy, |y|, 14)
    + Zeros(ox - 48) + x + Zeros(oy - ox - |x|) + y
  }

  lemma PackedIsPack(x: bytes, y: bytes)
    requires SecondOffset(x) + |y| <= MAX_IMAGE_BYTES
    ensures Packable(14, x, y) && Pack(14, x, y) == Packed(x, y)
  {
    hide EB32, FatEntry, RoundUp, Pow2;
  }

  /** The bytes and the words of a packing. */
  lemma PackedReads(x: bytes, y: bytes)
    requires SecondOffset(x) + |y| <= MAX_IMAGE_BYTES
    ensures var d, ox, oy := Packed(x, y), FirstOffset(), SecondOffset(x);
            && |d| == oy + |y| && d[..4] == FAT_MAGIC && B32(d, 4) == 2 && 48 <= ox && ox + |x| <= oy
            && d[ox..ox + |x|] == x && d[oy..oy + |y|] == y && AllZero(d, 48, ox) && AllZero(d, ox + |x|, oy)
            && B32(d, 8) == SliceCpu(0) && B32(d, 12) == SliceSubtype(0) && B32(d, 16) == ox && B32(d, 20) == |x|
            && B32(d, 24) == 14
            && B32(d, 28) == SliceCpu(1) && B32(d, 32) == SliceSubtype(1) && B32(d, 36) == oy && B32(d, 40) == |y|
            && B32(d, 44) == 14
  {
    hide EB32, B32, RoundUp, Pow2, FatEntry, AllZero, Zeros;
    var ox, oy := FirstOffset(), SecondOffset(x);
    var first, second := FatEntry(0, ox, |x|, 14), FatEntry(1, oy, |y|, 14);
    var tail := Zeros(ox - 48) + x + Zeros(oy - ox - |x|) + y;
    var d := Packed(x, y);
    assert d == FAT_MAGIC + EB32(2) + (first + second + tail);
    assert d == (FAT_MAGIC + EB32(2)) + first + (second + tail);
    assert d == (FAT_MAGIC + EB32(2) + first) + second + tail;
    WordReads(FAT_MAGIC, 2, first + second + tail);
    EntryReads(FAT_MAGIC + EB32(2), 0, ox, |x|, 14, second + tail);
    EntryReads(FAT_MAGIC + EB32(2) + first, 1, oy, |y|, 14, tail);
    TailReads(FAT_MAGIC + EB32(2) + first + second, x, y, ox, oy);
    assert d == FAT_MAGIC + EB32(2) + first + second + tail;
  }

  lemma TailReads(head: bytes, x: bytes, y: bytes, ox: int, oy: int)
    requires |head| == 48 <= ox && ox + |x| <= oy
    ensures var d := head + (Zeros(ox - 48) + x + Zeros(oy - ox - |x|) + y);
            && |d| == oy + |y| && d[ox..ox + |x|] == x && d[oy..oy + |y|] == y
            && AllZero(d, 48, ox) && AllZero(d, ox + |x|, oy)
  {
  }

  /** A packing of two slices with proper headers is read as these slices, as an input and as an output. */
  lemma PackReads(x: bytes, y: bytes)
    requires SecondOffset(x) + |y| <= MAX_IMAGE_BYTES && SliceHeader(0, x) && SliceHeader(1, y)
    ensures var r := FatSlices(Packed(x, y), true);
            IsFat(Packed(x, y)) && r.Ok? && r.value[0].thin == x && r.value[1].thin == y
  {
    hide B32, U32, RoundUp, Pow2, AllZero, Packed, FatEntry;
    var d := Packed(x, y);
    PackedReads(x, y);
    assert SliceAt(d, true, 0, 48).Ok?;
    assert SliceAt(d, true, 1, FirstOffset() + |x|).Ok?;
  }

  // ----- availability

  /** The slice has a layout and room for this signature. */
  predicate SliceSuits(thin: bytes, signature: bytes) {
    && LayoutOf(thin, true).Ok? && ParseOf(thin).Ok?
    && Suitable(thin, LayoutOf(thin, true).value, Parsed(thin), signature)
  }

  /** The length of the slice with this signature. */
  function SliceLength(thin: bytes, signature: bytes): int
    requires LayoutOf(thin, true).Ok?
  {
    Allocation(thin, LayoutOf(thin, true).value) + |signature|
  }

  predicate SliceEnds(thin: bytes, signed: bytes, signature: bytes) {
    LayoutOf(thin, true).Ok? && EndsWith(thin, LayoutOf(thin, true).value, signed, signature)
  }

  /** The two signed slices fit into one packing at 16 KiB. */
  predicate PackingFits(first: int, second: int)
    requires 0 <= first
  {
    RoundUp(FirstOffset() + first, Pow2(14)) + second <= MAX_IMAGE_BYTES
  }

  /** A signed slice keeps the header of its original, and its length is given by the signature. */
  lemma SignedSlice(index: int, thin: bytes, signed: bytes, signature: bytes)
    requires 0 <= index < 2 && ThinAccepted(thin, signed) && SliceHeader(index, thin)
             && SliceEnds(thin, signed, signature)
    ensures SliceHeader(index, signed) && |signed| == SliceLength(thin, signature) && SliceSuits(thin, signature)
  {
    hide LayoutOf, ParseOf, ThinAccepted, Suitable, EndsWith, U32, Facts, IsRebuilt;
    var before := LayoutOf(thin, true).value;
    EndsLength(thin, before, signed, signature);
    AcceptedIsSuitable(thin, signed, signature);
    AcceptedIffRebuilt(thin, signed);
    RebuiltReserved(thin, before, signed);
    RebuiltAgrees(thin, before, signed);
    SameU32(thin, signed, 4);
    SameU32(thin, signed, 8);
    assert signed[..4] == thin[..4];
  }

  lemma EndsLength(thin: bytes, before: Layout, signed: bytes, signature: bytes)
    requires EndsWith(thin, before, signed, signature)
    ensures |signed| == Allocation(thin, before) + |signature| && Allocation(thin, before) >= 0
  {
    hide Allocation;
  }

  lemma SlicesHaveHeaders(data: bytes, output: bool)
    requires FatSlices(data, output).Ok?
    ensures var s := FatSlices(data, output).value; SliceHeader(0, s[0].thin) && SliceHeader(1, s[1].thin)
  {
    hide RoundUp, Pow2, AllZero, B32, U32;
  }

  /** Every signed FAT file is at the length that its slices need. */
  lemma PackedLength(data: bytes)
    requires FatSlices(data, true).Ok?
    ensures var s := FatSlices(data, true).value;
            && |data| == SecondOffset(s[0].thin) + |s[1].thin| && |data| <= MAX_IMAGE_BYTES
  {
    hide FatSlices, AllZero, RoundUp, Pow2;
    SlicesPack(data, true);
  }

  /** The output ends its two slices with these signatures. */
  predicate FatEnds(original: bytes, signed: bytes, first: bytes, second: bytes) {
    && FatSlices(original, false).Ok? && FatSlices(signed, true).Ok?
    && SliceEnds(FatSlices(original, false).value[0].thin, FatSlices(signed, true).value[0].thin, first)
    && SliceEnds(FatSlices(original, false).value[1].thin, FatSlices(signed, true).value[1].thin, second)
  }

  /** Both signatures suit their slices and the two signed slices fit into one file. */
  predicate FatSuits(original: bytes, first: bytes, second: bytes) {
    && FatSlices(original, false).Ok?
    && var s := FatSlices(original, false).value;
       && SliceSuits(s[0].thin, first) && SliceSuits(s[1].thin, second)
       && 0 <= SliceLength(s[0].thin, first)
       && PackingFits(SliceLength(s[0].thin, first), SliceLength(s[1].thin, second))
  }

  lemma FatAcceptedSuits(original: bytes, signed: bytes, first: bytes, second: bytes)
    requires IsFat(original) && Accepted(original, signed) && FatEnds(original, signed, first, second)
    ensures FatSuits(original, first, second)
  {
    hide FatSlices, Accepted, ThinAccepted, IsFat, SliceEnds, SliceSuits, SliceHeader, LayoutOf, RoundUp, Pow2,
      Allocation;
    AcceptedNotFat(original, signed);
    FatParts(original, signed);
    SlicesHaveHeaders(original, false);
    var s, e := FatSlices(original, false).value, FatSlices(signed, true).value;
    SignedSlice(0, s[0].thin, e[0].thin, first);
    SignedSlice(1, s[1].thin, e[1].thin, second);
    PackedLength(signed);
    assert SliceSuits(s[0].thin, first) ==> LayoutOf(s[0].thin, true).Ok? by { SuitsParses(s[0].thin, first); }
    assert SliceSuits(s[1].thin, second) ==> LayoutOf(s[1].thin, true).Ok? by { SuitsParses(s[1].thin, second); }
  }

  lemma SuitsParses(thin: bytes, signature: bytes)
    ensures SliceSuits(thin, signature) ==> LayoutOf(thin, true).Ok? && ParseOf(thin).Ok?
  {
    hide LayoutOf, ParseOf, Suitable;
  }

  lemma SliceIsSigned(index: int, thin: bytes, signature: bytes) returns (signed: bytes)
    requires 0 <= index < 2 && SliceSuits(thin, signature) && SliceHeader(index, thin)
    ensures ThinAccepted(thin, signed) && SliceEnds(thin, signed, signature) && SliceHeader(index, signed)
    ensures LayoutOf(thin, true).Ok? && |signed| == SliceLength(thin, signature)
  {
    hide LayoutOf, ParseOf, Suitable, ThinAccepted, EndsWith, SliceHeader;
    signed := SuitableIsAccepted(thin, signature);
    SignedSlice(index, thin, signed, signature);
  }

  lemma FatSuitsIsAccepted(original: bytes, first: bytes, second: bytes) returns (signed: bytes)
    requires IsFat(original) && FatSuits(original, first, second)
    ensures Accepted(original, signed) && FatEnds(original, signed, first, second)
  {
    hide FatSlices, Accepted, ThinAccepted, IsFat, SliceEnds, SliceSuits, SliceHeader, LayoutOf, RoundUp, Pow2, Packed,
      Allocation;
    SlicesHaveHeaders(original, false);
    var s := FatSlices(original, false).value;
    var x := SliceIsSigned(0, s[0].thin, first);
    var y := SliceIsSigned(1, s[1].thin, second);
    signed := Packed(x, y);
    PackReads(x, y);
    FatParts(original, signed);
  }

  /** A FAT original has an accepted output whose slices end with two given signatures if and only if each signature
      suits its slice and the two signed slices fit into one packing at 16 KiB. */
  lemma FatAvailableIff(original: bytes, first: bytes, second: bytes)
    requires IsFat(original)
    ensures (exists signed :: Accepted(original, signed) && FatEnds(original, signed, first, second))
            <==> FatSuits(original, first, second)
  {
    hide Accepted, FatEnds, FatSuits, IsFat;
    if signed :| Accepted(original, signed) && FatEnds(original, signed, first, second) {
      FatAcceptedSuits(original, signed, first, second);
    }
    if FatSuits(original, first, second) {
      var signed := FatSuitsIsAccepted(original, first, second);
    }
  }

  /** The condition on one image under which it is its own output. */
  predicate Canonical(image: bytes) {
    && LayoutOf(image, false).Ok?
    && var l := LayoutOf(image, false).value;
       && l.signatureSize % 16 == 0 && l.linkeditSize >= 0 && l.linkeditVmSize == RoundUp(l.linkeditSize, 16384)
  }

  /** A FAT file is its own output if and only if it is packed as an output and both slices are signed, with an aligned
      signature and a canonical linkedit memory size. */
  lemma FatReflexiveIff(image: bytes)
    requires IsFat(image)
    ensures Accepted(image, image) <==>
              && FatSlices(image, true).Ok?
              && Canonical(FatSlices(image, true).value[0].thin) && Canonical(FatSlices(image, true).value[1].thin)
  {
    hide Accepted, FatSlices, ThinAccepted, IsFat, LayoutOf, RoundUp;
    FatParts(image, image);
    if FatSlices(image, true).Ok? {
      OutputReadsAsInput(image);
      ReflexiveIff(FatSlices(image, true).value[0].thin);
      ReflexiveIff(FatSlices(image, true).value[1].thin);
    }
  }
}
