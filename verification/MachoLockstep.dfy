/** Two images whose commands differ only in the mutable fields parse alike. */
module MachoLockstep {
  import opened Results
  import opened MachoBytes
  import opened Ranges
  import opened MachoLayout
  import opened MachoWalk

  /** No command is here; stands for an absent signature command. */
  const NOWHERE: int := -1024

  /** The bytes in which a signed image may differ: two linkedit sizes and the signature size. */
  predicate MutableByte(le: int, sc: int, k: int) {
    le + 32 <= k < le + 40 || le + 48 <= k < le + 56 || sc + 12 <= k < sc + 16
  }

  predicate Agree(d: bytes, e: bytes, from: int, to: int, le: int, sc: int)
    requires 0 <= from && to <= |d| && to <= |e|
  {
    forall k | from <= k < to && !MutableByte(le, sc, k) :: d[k] == e[k]
  }

  predicate SimilarSegment(a: Segment, b: Segment, le: int) {
    a == b || (a.command == le && b == a.(size := b.size, vmsize := b.vmsize))
  }

  predicate SimilarSegments(a: seq<Segment>, b: seq<Segment>, le: int) {
    |a| == |b| && forall i | 0 <= i < |a| :: SimilarSegment(a[i], b[i], le)
  }

  predicate SimilarSignature(a: Option<Signature>, b: Option<Signature>) {
    match (a, b)
    case (None, None) => true
    case (Some(x), Some(y)) => x.command == y.command && x.offset == y.offset
    case _ => false
  }

  /** Equal in everything but the three mutable fields. */
  predicate Similar(p: Parse, q: Parse, le: int) {
    && p.seen == q.seen && p.sections == q.sections && p.links == q.links
    && p.vmRanges == q.vmRanges && p.zeroPad == q.zeroPad
    && p.symtab == q.symtab && p.dysymtab == q.dysymtab && p.entry == q.entry
    && SimilarSegments(p.segments, q.segments, le)
    && SimilarSignature(p.signature, q.signature)
  }

  /** What a section adds to the parse; a refused section adds nothing. */
  function SectionAdds(s: Segment, raw: bytes, index: nat, p: Parse): Parse
    requires |raw| == 72 + s.nsects * 80 && index < s.nsects
  {
    var b := 72 + index * 80;
    var address, length, off := U64(raw, b + 32), U64(raw, b + 40), U32(raw, b + 48);
    var reloff, nreloc, zerofill := U32(raw, b + 56), U32(raw, b + 60), ZerofillKind(U32(raw, b + 64));
    p.(vmRanges := p.vmRanges + if length != 0 then [Range(address, address + length)] else [],
       zeroPad := p.zeroPad + if zerofill && off != 0 && length != 0 then [Range(off, off + length)] else [],
       sections := p.sections + if !zerofill && length != 0 then [Range(off, off + length)] else [],
       links := p.links + if nreloc != 0 then [(reloff, nreloc * 8)] else [])
  }

  lemma SectionStepAdds(d: bytes, ce: int, s: Segment, raw: bytes, index: nat, p: Parse)
    requires |raw| == 72 + s.nsects * 80 && index < s.nsects && 32 <= ce && SectionStep(d, ce, s, raw, index, p).Ok?
    ensures SectionStep(d, ce, s, raw, index, p).value == SectionAdds(s, raw, index, p)
  {
    hide FixedName, U32, U64, Pow2, ZerofillKind, AllZero;
    assert p.vmRanges + [] == p.vmRanges && p.zeroPad + [] == p.zeroPad;
    assert p.sections + [] == p.sections && p.links + [] == p.links;
  }

  lemma SectionStepSimilar(d: bytes, ce: int, e: bytes, ce': int, s: Segment, raw: bytes, index: nat,
                           p: Parse, q: Parse, le: int)
    requires |raw| == 72 + s.nsects * 80 && index < s.nsects && 32 <= ce && 32 <= ce' && Similar(p, q, le)
    requires SectionStep(d, ce, s, raw, index, p).Ok? && SectionStep(e, ce', s, raw, index, q).Ok?
    ensures Similar(SectionStep(d, ce, s, raw, index, p).value, SectionStep(e, ce', s, raw, index, q).value, le)
  {
    hide SectionStep, U32, U64, ZerofillKind, SimilarSegments, SimilarSignature;
    SectionStepAdds(d, ce, s, raw, index, p);
    SectionStepAdds(e, ce', s, raw, index, q);
  }

  lemma {:induction false} SectionsSimilar(d: bytes, ce: int, e: bytes, ce': int, s: Segment, raw: bytes, index: nat,
                                           p: Parse, q: Parse, le: int)
    requires |raw| == 72 + s.nsects * 80 && index <= s.nsects && 32 <= ce && 32 <= ce' && Similar(p, q, le)
    requires Sections(d, ce, s, raw, index, p).Ok? && Sections(e, ce', s, raw, index, q).Ok?
    ensures Similar(Sections(d, ce, s, raw, index, p).value, Sections(e, ce', s, raw, index, q).value, le)
    decreases s.nsects - index
  {
    hide SectionStep, Similar;
    if index < s.nsects {
      SectionStepSimilar(d, ce, e, ce', s, raw, index, p, q, le);
      SectionsSimilar(d, ce, e, ce', s, raw, index + 1,
                      SectionStep(d, ce, s, raw, index, p).value, SectionStep(e, ce', s, raw, index, q).value, le);
    }
  }

  lemma AppendSimilar(p: Parse, q: Parse, a: Segment, b: Segment, le: int)
    requires Similar(p, q, le) && SimilarSegment(a, b, le)
    ensures Similar(p.(segments := p.segments + [a]), q.(segments := q.segments + [b]), le)
  {
  }

  /** The same command bytes declare the same segment. */
  lemma SameSegmentOf(n: nat, m: nat, cursor: int, raw: bytes, p: Parse, q: Parse)
    requires SegmentOf(n, cursor, raw, p).Ok? && SegmentOf(m, cursor, raw, q).Ok?
    ensures SegmentOf(n, cursor, raw, p).value == SegmentOf(m, cursor, raw, q).value
  {
    hide FixedName, U32, U64, I32, NoExtraBits;
  }

  lemma SegmentCommandSimilar(d: bytes, ce: int, e: bytes, ce': int, cursor: int, raw: bytes, p: Parse, q: Parse,
                              le: int)
    requires 32 <= ce && 32 <= ce' && Similar(p, q, le)
    requires SegmentCommand(d, ce, cursor, raw, p).Ok? && SegmentCommand(e, ce', cursor, raw, q).Ok?
    ensures Similar(SegmentCommand(d, ce, cursor, raw, p).value, SegmentCommand(e, ce', cursor, raw, q).value, le)
  {
    hide SegmentOf, Sections, Similar;
    var s := SegmentOf(|d|, cursor, raw, p).value;
    SameSegmentOf(|d|, |e|, cursor, raw, p, q);
    AppendSimilar(p, q, s, s, le);
    SectionsSimilar(d, ce, e, ce', s, raw, 0, p.(segments := p.segments + [s]), q.(segments := q.segments + [s]), le);
  }

  lemma LinkCommandSimilar(cursor: int, command: int, raw: bytes, p: Parse, q: Parse, le: int)
    requires |raw| >= 8 && IsLinkCommand(command) && Similar(p, q, le)
    requires LinkCommand(cursor, command, raw, p).Ok? && LinkCommand(cursor, command, raw, q).Ok?
    ensures Similar(LinkCommand(cursor, command, raw, p).value, LinkCommand(cursor, command, raw, q).value, le)
  {
    hide SimilarSegments, U32, Words;
  }

  lemma OtherCommandSimilar(filetype: int, command: int, raw: bytes, p: Parse, q: Parse, le: int)
    requires |raw| >= 8 && Similar(p, q, le)
    requires OtherCommand(filetype, command, raw, p).Ok? && OtherCommand(filetype, command, raw, q).Ok?
    ensures Similar(OtherCommand(filetype, command, raw, p).value, OtherCommand(filetype, command, raw, q).value, le)
  {
    hide SimilarSegments, SimilarSignature, InlineString, U32, U64;
  }

  lemma PlainSimilar(filetype: int, cursor: int, command: int, raw: bytes, p: Parse, q: Parse, le: int)
    requires |raw| >= 8 && Similar(p, q, le)
    requires PlainCommand(filetype, cursor, command, raw, p).Ok? && PlainCommand(filetype, cursor, command, raw, q).Ok?
    ensures Similar(PlainCommand(filetype, cursor, command, raw, p).value,
                    PlainCommand(filetype, cursor, command, raw, q).value, le)
  {
    hide LinkCommand, OtherCommand, Similar;
    if IsLinkCommand(command) {
      LinkCommandSimilar(cursor, command, raw, p, q, le);
    } else {
      OtherCommandSimilar(filetype, command, raw, p, q, le);
    }
  }

  /** The linkedit command declares no sections, so only its two sizes can differ. */
  lemma LinkeditSimilar(d: bytes, ce: int, e: bytes, ce': int, cursor: int, raw: bytes, raw': bytes,
                        p: Parse, q: Parse)
    requires 32 <= ce && 32 <= ce' && Similar(p, q, cursor)
    requires |raw| == |raw'| && |raw| >= 72 && U32(raw, 64) == 0
    requires forall k | 0 <= k < |raw| && !(32 <= k < 40 || 48 <= k < 56) :: raw[k] == raw'[k]
    requires SegmentCommand(d, ce, cursor, raw, p).Ok? && SegmentCommand(e, ce', cursor, raw', q).Ok?
    ensures Similar(SegmentCommand(d, ce, cursor, raw, p).value, SegmentCommand(e, ce', cursor, raw', q).value, cursor)
  {
    hide Similar, NoExtraBits, FixedName;
    assert raw[8..24] == raw'[8..24];
    SameU64(raw, raw', 24);
    SameU64(raw, raw', 40);
    SameU32(raw, raw', 64);
    hide U64;
    var s := SegmentOf(|d|, cursor, raw, p).value;
    var t := SegmentOf(|e|, cursor, raw', q).value;
    assert s.nsects == 0 && t == s.(size := t.size, vmsize := t.vmsize);
    AppendSimilar(p, q, s, t, cursor);
  }

  /** The signature command differs only in its size field. */
  lemma SignatureSimilar(filetype: int, cursor: int, raw: bytes, raw': bytes, p: Parse, q: Parse, le: int)
    requires |raw| == |raw'| == 16 && Similar(p, q, le)
    requires forall k | 0 <= k < 12 :: raw[k] == raw'[k]
    requires PlainCommand(filetype, cursor, LC_CODE_SIGNATURE, raw, p).Ok?
    requires PlainCommand(filetype, cursor, LC_CODE_SIGNATURE, raw', q).Ok?
    ensures Similar(PlainCommand(filetype, cursor, LC_CODE_SIGNATURE, raw, p).value,
                    PlainCommand(filetype, cursor, LC_CODE_SIGNATURE, raw', q).value, le)
  {
    SameU32(raw, raw', 8);
    hide SimilarSegments;
  }

  /** The position of a mutable command relative to the loop. */
  predicate Ahead(data: bytes, ce: int, filetype: int, n: nat, cursor: int, p: Parse, c: int, size: int)
    requires Framing(data, ce) && 32 <= cursor
  {
    c + size <= cursor || Reaches(data, ce, filetype, n, cursor, p, c)
  }

  predicate MutableCommands(d: bytes, ce: int, le: int, sc: int)
    requires Framing(d, ce)
  {
    && (32 <= le && le + 72 <= ce ==> U32(d, le) == LC_SEGMENT_64 && U32(d, le + 64) == 0)
    && (32 <= sc && sc + 16 <= ce ==> U32(d, sc) == LC_CODE_SIGNATURE)
  }

  /** The next step keeps a mutable command ahead or behind, and its bytes out of other commands. */
  lemma StillAhead(d: bytes, ce: int, filetype: int, n: nat, cursor: int, p: Parse, c: int, size: int)
    requires Framing(d, ce) && 32 <= cursor && n > 0 && Step(d, ce, filetype, cursor, p).Ok?
    requires Ahead(d, ce, filetype, n, cursor, p, c, size)
    requires c == cursor ==> CommandAt(d, ce, cursor).value.1 >= size
    ensures var s := Step(d, ce, filetype, cursor, p).value;
            && Ahead(d, ce, filetype, n - 1, s.0, s.1, c, size)
            && (c != cursor ==> c + size <= cursor || s.0 <= c)
  {
    hide SegmentCommand, PlainCommand;
    var next := Step(d, ce, filetype, cursor, p).value;
    if c != cursor && !(c + size <= cursor) {
      ReachBounds(d, ce, filetype, n - 1, next.0, next.1, c);
    }
  }

  lemma StepSimilar(d: bytes, ce: int, e: bytes, ce': int, filetype: int, cursor: int,
                    p: Parse, q: Parse, le: int, sc: int)
    requires Framing(d, ce) && Framing(e, ce') && 32 <= cursor && ce <= ce'
    requires Agree(d, e, 32, ce, le, sc) && Similar(p, q, le) && MutableCommands(d, ce, le, sc)
    requires le + 72 <= ce && sc + 16 <= ce
    requires Step(d, ce, filetype, cursor, p).Ok? && Step(e, ce', filetype, cursor, q).Ok?
    requires var next := Step(d, ce, filetype, cursor, p).value.0;
             && (le != cursor ==> le + 72 <= cursor || next <= le)
             && (sc != cursor ==> sc + 16 <= cursor || next <= sc)
    ensures Step(d, ce, filetype, cursor, p).value.0 == Step(e, ce', filetype, cursor, q).value.0
    ensures Similar(Step(d, ce, filetype, cursor, p).value.1, Step(e, ce', filetype, cursor, q).value.1, le)
  {
    hide SegmentCommand, PlainCommand, Similar;
    var (command, size) := CommandAt(d, ce, cursor).value;
    var raw := d[cursor..cursor + size];
    assert command == U32(d, cursor) && size == U32(d, cursor + 4);
    CommandSizes(d, ce, filetype, cursor, p);
    assert forall k | cursor <= k < cursor + 8 :: d[k] == e[k];
    SameU32(d, e, cursor);
    SameU32(d, e, cursor + 4);
    hide U32;
    assert CommandAt(e, ce', cursor) == Ok((command, size));
    var raw' := e[cursor..cursor + size];
    SeenSimilar(p, q, command, le);
    var p', q' := p.(seen := p.seen + {command}), q.(seen := q.seen + {command});
    if cursor == le {
      SliceU32(d, cursor, cursor + size, 64);
      forall k | 0 <= k < |raw| && !(32 <= k < 40 || 48 <= k < 56) ensures raw[k] == raw'[k] {
        assert d[cursor + k] == e[cursor + k];
      }
      LinkeditSimilar(d, ce, e, ce', cursor, raw, raw', p', q');
    } else if cursor == sc {
      forall k | 0 <= k < 12 ensures raw[k] == raw'[k] { assert d[cursor + k] == e[cursor + k]; }
      SignatureSimilar(filetype, cursor, raw, raw', p', q', le);
    } else {
      assert forall k | cursor <= k < cursor + size :: d[k] == e[k];
      assert raw == raw';
      if command == LC_SEGMENT_64 {
        SegmentCommandSimilar(d, ce, e, ce', cursor, raw, p', q', le);
      } else {
        PlainSimilar(filetype, cursor, command, raw, p', q', le);
      }
    }
  }

  lemma SeenSimilar(p: Parse, q: Parse, command: int, le: int)
    requires Similar(p, q, le)
    ensures Similar(p.(seen := p.seen + {command}), q.(seen := q.seen + {command}), le)
  {
  }

  lemma CommandSizes(d: bytes, ce: int, filetype: int, cursor: int, p: Parse)
    requires Framing(d, ce) && 32 <= cursor && Step(d, ce, filetype, cursor, p).Ok?
    ensures var (command, size) := CommandAt(d, ce, cursor).value;
            && (command == LC_SEGMENT_64 ==> size >= 72)
            && (command == LC_CODE_SIGNATURE ==> size == 16)
  {
    hide Sections, FixedName;
  }

  lemma AheadSizes(d: bytes, ce: int, filetype: int, cursor: int, p: Parse, le: int, sc: int)
    requires Framing(d, ce) && 32 <= cursor && Step(d, ce, filetype, cursor, p).Ok?
    requires MutableCommands(d, ce, le, sc)
    requires (le == cursor ==> le + 72 <= ce) && (sc == cursor ==> sc + 16 <= ce)
    ensures le == cursor ==> CommandAt(d, ce, cursor).value.1 >= 72
    ensures sc == cursor ==> CommandAt(d, ce, cursor).value.1 >= 16
  {
    hide SegmentCommand, PlainCommand;
    CommandSizes(d, ce, filetype, cursor, p);
  }

  /** Both loops, run for the same number of commands, end at the same cursor with similar parses. */
  lemma {:induction false} Lockstep(d: bytes, ce: int, e: bytes, ce': int, filetype: int, n: nat, cursor: int,
                                    p: Parse, q: Parse, le: int, sc: int)
    requires Framing(d, ce) && Framing(e, ce') && 32 <= cursor && ce <= ce'
    requires Agree(d, e, 32, ce, le, sc) && Similar(p, q, le) && MutableCommands(d, ce, le, sc)
    requires le + 72 <= ce && sc + 16 <= ce
    requires Walk(d, ce, filetype, n, cursor, p).Ok? && Walk(e, ce', filetype, n, cursor, q).Ok?
    requires Ahead(d, ce, filetype, n, cursor, p, le, 72) && Ahead(d, ce, filetype, n, cursor, p, sc, 16)
    ensures Walk(d, ce, filetype, n, cursor, p).value.0 == Walk(e, ce', filetype, n, cursor, q).value.0
    ensures Similar(Walk(d, ce, filetype, n, cursor, p).value.1, Walk(e, ce', filetype, n, cursor, q).value.1, le)
  {
    hide Step, Similar, Agree, MutableCommands, Ahead;
    if n > 0 {
      AheadSizes(d, ce, filetype, cursor, p, le, sc);
      StillAhead(d, ce, filetype, n, cursor, p, le, 72);
      StillAhead(d, ce, filetype, n, cursor, p, sc, 16);
      StepSimilar(d, ce, e, ce', filetype, cursor, p, q, le, sc);
      var s := Step(d, ce, filetype, cursor, p).value;
      var t := Step(e, ce', filetype, cursor, q).value;
      Lockstep(d, ce, e, ce', filetype, n - 1, s.0, s.1, t.1, le, sc);
    }
  }

  /** One more command is one more step. */
  lemma {:induction false} WalkOneMore(d: bytes, ce: int, filetype: int, n: nat, cursor: int, p: Parse)
    requires Framing(d, ce) && 32 <= cursor
    requires Walk(d, ce, filetype, n + 1, cursor, p).Ok?
    ensures Walk(d, ce, filetype, n, cursor, p).Ok?
    ensures var (c, q) := Walk(d, ce, filetype, n, cursor, p).value;
            && 32 <= c && Step(d, ce, filetype, c, q).Ok?
            && Walk(d, ce, filetype, n + 1, cursor, p) == Step(d, ce, filetype, c, q)
  {
    hide Step;
    var s := Step(d, ce, filetype, cursor, p).value;
    if n > 0 {
      WalkOneMore(d, ce, filetype, n - 1, s.0, s.1);
    } else {
      assert Walk(d, ce, filetype, 0, s.0, s.1) == Ok((s.0, s.1));
    }
  }

  lemma SameName(a: Segment, b: Segment, le: int)
    requires SimilarSegment(a, b, le)
    ensures a.name == b.name
  {
  }

  lemma {:induction false} NamedSimilar(a: seq<Segment>, b: seq<Segment>, le: int, name: bytes)
    requires SimilarSegments(a, b, le)
    ensures SimilarSegments(Named(a, name), Named(b, name), le)
  {
    if a != [] {
      assert SimilarSegment(a[0], b[0], le);
      assert forall i | 0 <= i < |a| - 1 :: a[1..][i] == a[i + 1] && b[1..][i] == b[i + 1];
      NamedSimilar(a[1..], b[1..], le, name);
      hide SimilarSegment;
      assert a[0].name == b[0].name by { SameName(a[0], b[0], le); }
    }
  }
}
