/** _signature_frame: the declared framing of an embedded-signature SuperBlob. */
module SignatureFrame {
  import opened MachoBytes
  import opened Ranges

  const MAX_SIGNATURE_BYTES: int := 16 * 1024 * 1024

  predicate HeaderOk(raw: bytes) {
    && 12 <= |raw| <= MAX_SIGNATURE_BYTES
    && B32(raw, 0) == 0xFADE0CC0
    && 1 <= B32(raw, 8) <= 128
    && 12 + B32(raw, 8) * 8 <= B32(raw, 4) <= |raw|
  }

  function BlobLength(raw: bytes): int
    requires HeaderOk(raw)
  {
    B32(raw, 4)
  }

  function Count(raw: bytes): int
    requires HeaderOk(raw)
  {
    B32(raw, 8)
  }

  function IndexEnd(raw: bytes): int
    requires HeaderOk(raw)
  {
    12 + Count(raw) * 8
  }

  function Slot(raw: bytes, i: int): int
    requires HeaderOk(raw) && 0 <= i < Count(raw)
  {
    B32(raw, 12 + 8 * i)
  }

  function Offset(raw: bytes, i: int): int
    requires HeaderOk(raw) && 0 <= i < Count(raw)
  {
    B32(raw, 12 + 8 * i + 4)
  }

  predicate ComponentOk(raw: bytes, i: int)
    requires HeaderOk(raw) && 0 <= i < Count(raw)
  {
    var o := Offset(raw, i);
    && IndexEnd(raw) <= o <= BlobLength(raw) - 8
    && B32(raw, o + 4) >= 8 && o + B32(raw, o + 4) <= BlobLength(raw)
    && (Slot(raw, i) == 0 ==> B32(raw, o) == 0xFADE0C02 && B32(raw, o + 4) >= 44)
  }

  function Component(raw: bytes, i: int): Range
    requires HeaderOk(raw) && 0 <= i < Count(raw) && ComponentOk(raw, i)
  {
    var o := Offset(raw, i);
    Range(o, o + B32(raw, o + 4))
  }

  predicate Inside(r: Range, k: int) {
    r.start <= k < r.stop
  }

  /** Every component is well formed. */
  predicate ComponentsOk(raw: bytes)
    requires HeaderOk(raw)
  {
    forall i | 0 <= i < Count(raw) :: ComponentOk(raw, i)
  }

  function Components(raw: bytes): (spans: seq<Range>)
    requires HeaderOk(raw) && ComponentsOk(raw)
    ensures |spans| == Count(raw) && forall i | 0 <= i < |spans| :: spans[i] == Component(raw, i)
  {
    seq(Count(raw), i requires 0 <= i < Count(raw) => Component(raw, i))
  }

  predicate Covered(spans: seq<Range>, k: int) {
    exists i | 0 <= i < |spans| :: Inside(spans[i], k)
  }

  /** The declared blob is tiled by its header, its components and zero gaps. */
  predicate Framed(raw: bytes) {
    && HeaderOk(raw)
    && ComponentsOk(raw)
    && (forall i, j | 0 <= i < j < Count(raw) :: Slot(raw, i) != Slot(raw, j))
    && (exists i | 0 <= i < Count(raw) :: Slot(raw, i) == 0)
    && DisjointRanges(Components(raw))
    && (forall k | IndexEnd(raw) <= k < BlobLength(raw) :: Covered(Components(raw), k) || raw[k] == 0)
  }

  /** Sorted and disjoint, every span starts after the ones before it. */
  lemma LaterStart(sorted: seq<Range>, i: nat)
    requires DisjointRanges(sorted) && Ascending(sorted) && i < |sorted|
    ensures forall j | i < j < |sorted| :: sorted[i].stop <= sorted[j].start
  {
    forall j | i < j < |sorted| ensures sorted[i].stop <= sorted[j].start { assert Apart(sorted[i], sorted[j]); }
  }

  /** A byte after the first spans and before the rest is in none. */
  lemma BetweenSpans(sorted: seq<Range>, i: nat, cursor: int, k: int)
    requires i <= |sorted| && cursor <= k && (forall j | 0 <= j < i :: sorted[j].stop <= cursor)
    requires forall j | i <= j < |sorted| :: k < sorted[j].start
    ensures !Covered(sorted, k)
  {
  }

  lemma InSpan(sorted: seq<Range>, i: nat, k: int)
    requires i < |sorted| && Inside(sorted[i], k)
    ensures Covered(sorted, k)
  {
  }

  /** Gap scan over ascending disjoint spans, ending with the tail up to the declared length. */
  method CheckGaps(raw: bytes, spans: seq<Range>, first: int, length: int) returns (ok: bool)
    requires DisjointRanges(spans) && 0 <= first <= length <= |raw|
    requires forall i | 0 <= i < |spans| :: first <= spans[i].start && spans[i].stop <= length
    ensures ok <==> forall k | first <= k < length :: Covered(spans, k) || raw[k] == 0
  {
    SortedDisjoint(spans);
    SortedMembers(spans);
    var sorted := Sorted(spans);
    assert forall i | 0 <= i < |sorted| :: sorted[i] in spans;
    SameCover(spans, sorted);
    ok := ScanGaps(raw, sorted, first, length);
  }

  /** The loop over the sorted spans. */
  method ScanGaps(raw: bytes, sorted: seq<Range>, first: int, length: int) returns (ok: bool)
    requires DisjointRanges(sorted) && Ascending(sorted) && 0 <= first <= length <= |raw|
    requires forall i | 0 <= i < |sorted| :: first <= sorted[i].start <= sorted[i].stop <= length
    ensures ok <==> forall k | first <= k < length :: Covered(sorted, k) || raw[k] == 0
  {
    hide Covered, DisjointRanges, Ascending;
    var cursor, i := first, 0;
    while i < |sorted|
      invariant 0 <= i <= |sorted| && first <= cursor <= length
      invariant forall j | 0 <= j < i :: sorted[j].stop <= cursor
      invariant forall j | i <= j < |sorted| :: cursor <= sorted[j].start
      invariant forall k | first <= k < cursor :: Covered(sorted, k) || raw[k] == 0
    {
      var r := sorted[i];
      LaterStart(sorted, i);
      if !AllZero(raw, cursor, r.start) {
        ghost var k :| cursor <= k < r.start && raw[k] != 0;
        BetweenSpans(sorted, i, cursor, k);
        return false;
      }
      forall k | cursor <= k < r.stop ensures Covered(sorted, k) || raw[k] == 0 {
        if r.start <= k { InSpan(sorted, i, k); }
      }
      cursor, i := r.stop, i + 1;
    }
    ok := AllZero(raw, cursor, length);
    if !ok {
      ghost var k :| cursor <= k < length && raw[k] != 0;
      BetweenSpans(sorted, i, cursor, k);
    }
  }

  lemma SameCover(a: seq<Range>, b: seq<Range>)
    requires forall x :: x in a <==> x in b
    ensures forall k :: Covered(a, k) <==> Covered(b, k)
  {
    forall k ensures Covered(a, k) <==> Covered(b, k) {
      if Covered(a, k) {
        var i :| 0 <= i < |a| && Inside(a[i], k);
        assert a[i] in b;
      }
      if Covered(b, k) {
        var i :| 0 <= i < |b| && Inside(b[i], k);
        assert b[i] in a;
      }
    }
  }

  /** The component loop: one range per component, and the slots. */
  method ReadComponents(raw: bytes) returns (spans: seq<Range>, slots: set<int>, ok: bool)
    requires HeaderOk(raw)
    ensures ok <==> ComponentsOk(raw) && forall i, j | 0 <= i < j < Count(raw) :: Slot(raw, i) != Slot(raw, j)
    ensures ok ==> spans == Components(raw)
    ensures ok ==> forall s :: s in slots <==> exists i | 0 <= i < Count(raw) :: Slot(raw, i) == s
  {
    hide B32;
    var length, count := BlobLength(raw), Count(raw);
    var index := 0;
    spans, slots := [], {};
    while index < count
      invariant 0 <= index <= count && |spans| == index
      invariant forall i | 0 <= i < index :: ComponentOk(raw, i) && spans[i] == Component(raw, i)
      invariant forall i | 0 <= i < index :: Slot(raw, i) in slots
      invariant forall s | s in slots :: exists i | 0 <= i < index :: Slot(raw, i) == s
      invariant forall i, j | 0 <= i < j < index :: Slot(raw, i) != Slot(raw, j)
    {
      var slot, offset := B32(raw, 12 + 8 * index), B32(raw, 12 + 8 * index + 4);
      assert slot == Slot(raw, index) && offset == Offset(raw, index);
      if slot in slots {
        ghost var i :| 0 <= i < index && Slot(raw, i) == slot;
        assert Slot(raw, i) == Slot(raw, index);
        return [], {}, false;
      }
      if !(12 + count * 8 <= offset <= length - 8) {
        assert !ComponentOk(raw, index);
        return [], {}, false;
      }
      slots := slots + {slot};
      var blobMagic, size := B32(raw, offset), B32(raw, offset + 4);
      if !(size >= 8 && offset + size <= length) || (slot == 0 && !(blobMagic == 0xFADE0C02 && size >= 44)) {
        assert !ComponentOk(raw, index);
        return [], {}, false;
      }
      spans := spans + [Range(offset, offset + size)];
      index := index + 1;
    }
    ok := true;
  }

  /** _signature_frame */
  method CheckSignatureFrame(raw: bytes) returns (ok: bool)
    ensures ok <==> Framed(raw)
  {
    if !(12 <= |raw| <= MAX_SIGNATURE_BYTES) { return false; }
    var magic, length, count := B32(raw, 0), B32(raw, 4), B32(raw, 8);
    if !(magic == 0xFADE0CC0 && 1 <= count <= 128 && 12 + count * 8 <= length <= |raw|) { return false; }
    hide B32, Slot, ComponentOk, Component, Covered, DisjointRanges;
    var spans, slots, distinct := ReadComponents(raw);
    if !distinct || 0 !in slots { return false; }
    var apart := CheckDisjoint(spans);
    if !apart { return false; }
    ComponentBounds(raw);
    ok := CheckGaps(raw, spans, 12 + count * 8, length);
  }

  lemma ComponentBounds(raw: bytes)
    requires HeaderOk(raw) && ComponentsOk(raw)
    ensures var spans := Components(raw);
            forall i | 0 <= i < |spans| :: IndexEnd(raw) <= spans[i].start && spans[i].stop <= BlobLength(raw)
  {
    hide B32;
    forall i | 0 <= i < Count(raw)
      ensures IndexEnd(raw) <= Component(raw, i).start && Component(raw, i).stop <= BlobLength(raw)
    {
      assert ComponentOk(raw, i);
    }
  }

  /** No byte lies in two components. */
  lemma ComponentsApart(raw: bytes, i: int, j: int, k: int)
    requires Framed(raw) && 0 <= i < Count(raw) && 0 <= j < Count(raw)
    requires Inside(Component(raw, i), k) && Inside(Component(raw, j), k)
    ensures i == j
  {
    var spans := Components(raw);
    assert spans[i] == Component(raw, i) && spans[j] == Component(raw, j);
    assert i < j ==> Apart(spans[i], spans[j]);
    assert j < i ==> Apart(spans[j], spans[i]);
  }

  /** Exactly one component is the code directory. */
  lemma OneCodeDirectory(raw: bytes) returns (i: int)
    requires Framed(raw)
    ensures 0 <= i < Count(raw) && Slot(raw, i) == 0
    ensures ComponentOk(raw, i) && B32(raw, Offset(raw, i)) == 0xFADE0C02
    ensures forall j | 0 <= j < Count(raw) && Slot(raw, j) == 0 :: j == i
  {
    i :| 0 <= i < Count(raw) && Slot(raw, i) == 0;
    assert ComponentOk(raw, i);
    forall j | 0 <= j < Count(raw) && Slot(raw, j) == 0 ensures j == i {
    }
  }

  /** The role of one byte below the declared length: 0 header or index, 1 component, 2 zero gap. */
  lemma FrameIsTiled(raw: bytes, k: int)
    requires Framed(raw) && 0 <= k < BlobLength(raw)
    ensures k < IndexEnd(raw) ==> forall i | 0 <= i < Count(raw) :: !Inside(Component(raw, i), k)
    ensures k >= IndexEnd(raw) ==>
              || raw[k] == 0
              || exists i | 0 <= i < Count(raw) ::
                   && Inside(Component(raw, i), k)
                   && forall j | 0 <= j < Count(raw) && Inside(Component(raw, j), k) :: j == i
  {
    forall i | 0 <= i < Count(raw) ensures IndexEnd(raw) <= Component(raw, i).start {
      assert ComponentOk(raw, i);
    }
    if k >= IndexEnd(raw) && raw[k] != 0 {
      var spans := Components(raw);
      var i :| 0 <= i < |spans| && Inside(spans[i], k);
      forall j | 0 <= j < Count(raw) && Inside(Component(raw, j), k) ensures j == i {
        ComponentsApart(raw, i, j, k);
      }
    }
  }
}
