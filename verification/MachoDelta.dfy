/** _verify_thin: the signing-delta comparison, and the image that it forces. */
module MachoDelta {
  import opened Results
  import opened MachoBytes
  import opened Ranges
  import opened SignatureFrame
  import opened MachoLayout
  import opened MachoWalk
  import opened MachoLockstep

  datatype Kind = Addition | Replacement

  /** The evidence dictionary; digests are left to the bytes they digest. */
  datatype Evidence = Evidence(
    kind: Kind, arm64: bool, signatureOffset: int,
    originalSignatureSize: int, signedSignatureSize: int,
    mutableFields: seq<Range>, preserved: bytes)

  /** mutable_fields, as ranges in the original image, before sorting. */
  function Fields(before: Layout): seq<Range> {
    var le := before.linkeditCommand;
    [Range(le + 32, le + 40), Range(le + 48, le + 56)]
    + match before.signatureCommand
      case None => [Range(16, 24), Range(before.commandsEnd, before.commandsEnd + 16)]
      case Some(c) => [Range(c + 12, c + 16)]
  }

  /** d[from:to] in Python for non-negative bounds. */
  function PySlice(d: bytes, from: int, to: int): bytes
    requires 0 <= from
  {
    var stop := if to < |d| then to else |d|;
    if from >= stop then [] else d[from..stop]
  }

  /** The comparison loop over the sorted fields: the final cursor and the preserved bytes. */
  function Compare(original: bytes, signed: bytes, fields: seq<Range>, i: nat, cursor: int, kept: bytes)
    : (r: Checked<(int, bytes)>)
    requires i <= |fields| && 0 <= cursor && forall f | f in fields :: 0 <= f.stop
    ensures r.Ok? ==> 0 <= r.value.0
    decreases |fields| - i
  {
    if i == |fields| then Ok((cursor, kept))
    else
      var f := fields[i];
      var same := PySlice(original, cursor, f.start);
      :- Need(same == PySlice(signed, cursor, f.start), PayloadChanged);
      Compare(original, signed, fields, i + 1, f.stop, kept + same)
  }

  /** The checks that constrain every mutable value. */
  function CheckValues(original: bytes, signed: bytes, before: Layout, after: Layout): Outcome<Reason> {
    if !(before.cpu == after.cpu && before.subtype == after.subtype
         && before.linkeditCommand == after.linkeditCommand
         && before.linkeditOffset == after.linkeditOffset) then Fail(LayoutChanged)
    else if before.signatureCommand.None?
            && !(after.commandCount == before.commandCount + 1
                 && after.commandsEnd == before.commandsEnd + 16
                 && after.signatureCommand == Some(before.commandsEnd)) then Fail(SignatureAdditionCommands)
    else if before.signatureCommand.None?
            && !(after.signatureOffset == RoundUp(|original|, 16)
                 && AllZero(signed, |original|, RoundUp(|original|, 16))) then Fail(SignatureAdditionPadding)
    else if before.signatureCommand.Some?
            && !(before.signatureCommand == after.signatureCommand
                 && before.signatureOffset == after.signatureOffset) then Fail(LayoutChanged)
    else if after.linkeditSize - before.linkeditSize
            != after.signatureSize - before.signatureSize + Padding(original, before) then Fail(LinkeditResize)
    else if after.signatureSize % 16 != 0 then Fail(SignatureAllocationAlignment)
    else Need(after.linkeditSize >= 0
              && after.linkeditVmSize == RoundUp(after.linkeditSize, 16384), LinkeditVmResize)
  }

  function Padding(original: bytes, before: Layout): int {
    if before.signatureCommand.None? then RoundUp(|original|, 16) - |original| else 0
  }

  function CompareAll(original: bytes, signed: bytes, before: Layout): (r: Checked<bytes>)
    requires 0 <= before.linkeditCommand && 0 <= before.commandsEnd
    requires before.signatureCommand.Some? ==> 0 <= before.signatureCommand.value
  {
    SortedMembers(Fields(before));
    var c :- Compare(original, signed, Sorted(Fields(before)), 0, 0, []);
    var rest := PySlice(original, c.0, before.signatureOffset);
    :- Need(rest == PySlice(signed, c.0, before.signatureOffset), PayloadChanged);
    Ok(c.1 + rest)
  }

  predicate SaneLayout(l: Layout) {
    && 0 <= l.linkeditCommand && 0 <= l.commandsEnd
    && (l.signatureCommand.Some? ==> 0 <= l.signatureCommand.value)
  }

  lemma LayoutIsSane(data: bytes, allowMissing: bool)
    requires LayoutOf(data, allowMissing).Ok?
    ensures SaneLayout(LayoutOf(data, allowMissing).value)
  {
    hide LayoutOf;
    LinkeditOfFacts(data, allowMissing);
    SignatureOfFacts(data, allowMissing);
  }

  /** _verify_thin */
  function ThinDelta(original: bytes, signed: bytes): Checked<Evidence> {
    var before :- LayoutOf(original, true);
    var after :- LayoutOf(signed, false);
    :- CheckValues(original, signed, before, after);
    LayoutIsSane(original, true);
    var preserved :- CompareAll(original, signed, before);
    Ok(Evidence(if before.signatureCommand.None? then Addition else Replacement,
                before.cpu == CPU_ARM64, after.signatureOffset,
                before.signatureSize, after.signatureSize, Sorted(Fields(before)), preserved))
  }

  predicate ThinAccepted(original: bytes, signed: bytes) {
    ThinDelta(original, signed).Ok?
  }

  /** Acceptance is the two parses, the value checks and the comparison. */
  lemma ThinParts(original: bytes, signed: bytes)
    ensures ThinAccepted(original, signed) <==>
              && LayoutOf(original, true).Ok? && LayoutOf(signed, false).Ok?
              && CheckValues(original, signed, LayoutOf(original, true).value, LayoutOf(signed, false).value).Pass?
              && SaneLayout(LayoutOf(original, true).value)
              && CompareAll(original, signed, LayoutOf(original, true).value).Ok?
  {
    hide LayoutOf, CheckValues, CompareAll;
    if LayoutOf(original, true).Ok? { LayoutIsSane(original, true); }
  }

  method VerifyThin(original: bytes, signed: bytes) returns (r: Checked<Evidence>)
    ensures r == ThinDelta(original, signed)
  {
    hide LayoutOf, CheckValues, PySlice, Sorted;
    var b := ParseLayout(original, true);
    if b.Refused? { return Refused(b.reason); }
    var a := ParseLayout(signed, false);
    if a.Refused? { return Refused(a.reason); }
    var before, after := b.value, a.value;
    var values := CheckValues(original, signed, before, after);
    if values.Fail? { return Refused(values.reason); }
    LayoutIsSane(original, true);
    SortedMembers(Fields(before));
    var fields := Sorted(Fields(before));
    assert forall f | f in fields :: 0 <= f.stop;
    hide Fields;
    var cursor, i, preserved: bytes := 0, 0, [];
    while i < |fields|
      invariant 0 <= i <= |fields| && 0 <= cursor
      invariant Compare(original, signed, fields, i, cursor, preserved) == Compare(original, signed, fields, 0, 0, [])
    {
      var f := fields[i];
      assert f in fields;
      var same := PySlice(original, cursor, f.start);
      if same != PySlice(signed, cursor, f.start) { return Refused(PayloadChanged); }
      preserved := preserved + same;
      cursor, i := f.stop, i + 1;
    }
    var rest := PySlice(original, cursor, before.signatureOffset);
    if rest != PySlice(signed, cursor, before.signatureOffset) { return Refused(PayloadChanged); }
    return Ok(Evidence(if before.signatureCommand.None? then Addition else Replacement,
                       before.cpu == CPU_ARM64, after.signatureOffset,
                       before.signatureSize, after.signatureSize, fields, preserved + rest));
  }

  // ----- the comparison loop is equality outside the fields

  predicate InField(fields: seq<Range>, from: int, k: int)
    requires 0 <= from
  {
    exists j | from <= j < |fields| :: fields[j].start <= k < fields[j].stop
  }

  lemma SlicesAgree(a: bytes, b: bytes, from: int, to: int)
    requires 0 <= from && to <= |a| && to <= |b|
    ensures PySlice(a, from, to) == PySlice(b, from, to) <==> forall k | from <= k < to :: a[k] == b[k]
  {
    var x, y := PySlice(a, from, to), PySlice(b, from, to);
    assert forall k | from <= k < to :: x[k - from] == a[k] && y[k - from] == b[k];
  }

  /** Bytes outside every field are equal up to the cursor at which the loop ends. */
  lemma {:induction false} CompareMeans(a: bytes, b: bytes, fields: seq<Range>, i: nat, cursor: int, kept: bytes,
                                        k: int)
    requires i <= |fields| && 0 <= cursor
    requires forall f | f in fields :: 0 <= f.stop && f.start <= |a| && f.start <= |b|
    requires Compare(a, b, fields, i, cursor, kept).Ok?
    requires cursor <= k && !InField(fields, i, k)
    ensures k >= Compare(a, b, fields, i, cursor, kept).value.0 || (k < |a| && k < |b| && a[k] == b[k])
    decreases |fields| - i
  {
    if i < |fields| {
      var f := fields[i];
      assert f in fields;
      SlicesAgree(a, b, cursor, f.start);
      if k >= f.start {
        CompareMeans(a, b, fields, i + 1, f.stop, kept + PySlice(a, cursor, f.start), k);
      }
    }
  }

  /** Equality outside disjoint ascending fields is enough for the loop to pass. */
  lemma {:induction false} CompareAccepts(a: bytes, b: bytes, fields: seq<Range>, i: nat, cursor: int, kept: bytes,
                                          hi: int)
    requires i <= |fields| && 0 <= cursor && 0 <= hi <= |a| && hi <= |b|
    requires forall j | 0 <= j < |fields| :: 0 <= fields[j].start <= fields[j].stop && fields[j].start <= hi
    requires forall j, l | 0 <= j < l < |fields| :: fields[j].stop <= fields[l].start
    requires forall j | 0 <= j < i :: fields[j].stop <= cursor
    requires forall k | 0 <= k < hi && !InField(fields, 0, k) :: a[k] == b[k]
    ensures Compare(a, b, fields, i, cursor, kept).Ok?
    ensures var c := Compare(a, b, fields, i, cursor, kept).value.0;
            forall j | 0 <= j < |fields| :: fields[j].stop <= c
    decreases |fields| - i
  {
    if i < |fields| {
      var f := fields[i];
      forall k | cursor <= k < f.start ensures a[k] == b[k] {
        assert !InField(fields, 0, k);
      }
      SlicesAgree(a, b, cursor, f.start);
      CompareAccepts(a, b, fields, i + 1, f.stop, kept + PySlice(a, cursor, f.start), hi);
    }
  }
}
