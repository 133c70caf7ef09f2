/** When the commands of an accepted image parse again in an image of another length. */
module MachoRewalk {
  import opened Results
  import opened MachoBytes
  import opened Ranges
  import opened MachoLayout
  import opened MachoWalk
  import opened MachoLockstep

  /** A section's file offset is zero or after the command area. */
  predicate SectionClear(raw: bytes, index: nat, ce: int)
    requires |raw| >= 72 + (index + 1) * 80
  {
    var off := U32(raw, 72 + index * 80 + 48);
    off == 0 || ce <= off
  }

  predicate SectionsClear(raw: bytes, from: nat, nsects: int, ce: int)
    requires |raw| == 72 + nsects * 80
  {
    forall i | from <= i < nsects :: SectionClear(raw, i, ce)
  }

  /** The file bytes of a segment are in both images, and equal after the command area. */
  predicate Unmoved(d: bytes, e: bytes, ce: int, s: Segment)
    requires 0 <= ce
  {
    s.size != 0 ==>
      && s.offset + s.size <= |d| && s.offset + s.size <= |e|
      && forall k | ce <= k < s.offset + s.size :: d[k] == e[k]
  }

  lemma SectionStepIff(d: bytes, ce: int, e: bytes, ce': int, s: Segment, raw: bytes, index: nat, p: Parse, q: Parse)
    requires |raw| == 72 + s.nsects * 80 && index < s.nsects && 32 <= ce <= ce'
    requires SectionStep(d, ce, s, raw, index, p).Ok? && Unmoved(d, e, ce', s) && s.size >= 0
    ensures SectionStep(e, ce', s, raw, index, q).Ok? <==> SectionClear(raw, index, ce')
  {
    hide FixedName, U32, U64, Pow2, ZerofillKind;
  }

  lemma {:induction false} SectionsIff(d: bytes, ce: int, e: bytes, ce': int, s: Segment, raw: bytes, index: nat,
                                       p: Parse, q: Parse)
    requires |raw| == 72 + s.nsects * 80 && index <= s.nsects && 32 <= ce <= ce'
    requires Sections(d, ce, s, raw, index, p).Ok? && Unmoved(d, e, ce', s) && s.size >= 0
    ensures Sections(e, ce', s, raw, index, q).Ok? <==> SectionsClear(raw, index, s.nsects, ce')
    decreases s.nsects - index
  {
    hide SectionStep, SectionClear, Unmoved;
    if index < s.nsects {
      SectionStepIff(d, ce, e, ce', s, raw, index, p, q);
      if SectionStep(e, ce', s, raw, index, q).Ok? {
        SectionsIff(d, ce, e, ce', s, raw, index + 1,
                    SectionStep(d, ce, s, raw, index, p).value, SectionStep(e, ce', s, raw, index, q).value);
      }
    }
  }

  lemma SameNames(a: seq<Segment>, b: seq<Segment>, le: int, name: bytes)
    requires SimilarSegments(a, b, le)
    ensures (forall s | s in a :: s.name != name) <==> (forall s | s in b :: s.name != name)
  {
    forall i | 0 <= i < |a| ensures a[i].name == b[i].name { assert SimilarSegment(a[i], b[i], le); }
    if forall s | s in a :: s.name != name {
      forall s | s in b ensures s.name != name { var i :| 0 <= i < |b| && b[i] == s; assert a[i] in a; }
    }
    if forall s | s in b :: s.name != name {
      forall s | s in a ensures s.name != name { var i :| 0 <= i < |a| && a[i] == s; assert b[i] in b; }
    }
  }

  /** The same command bytes declare a segment of the other image exactly if the segment ends inside it. */
  lemma SegmentOfIff(n: nat, m: nat, cursor: int, raw: bytes, p: Parse, q: Parse, le: int)
    requires SegmentOf(n, cursor, raw, p).Ok? && SimilarSegments(p.segments, q.segments, le)
    ensures var s := SegmentOf(n, cursor, raw, p).value;
            && s.size >= 0
            && (SegmentOf(m, cursor, raw, q).Ok? <==> s.offset + s.size <= m)
  {
    SameNames(p.segments, q.segments, le, FixedName(raw[8..24]).value);
    hide FixedName, U32, I32, NoExtraBits, SimilarSegments;
  }

  lemma SegmentCommandIff(d: bytes, ce: int, e: bytes, ce': int, cursor: int, raw: bytes, p: Parse, q: Parse, le: int)
    requires 32 <= ce <= ce' && Similar(p, q, le) && SegmentCommand(d, ce, cursor, raw, p).Ok?
    requires Unmoved(d, e, ce', SegmentOf(|d|, cursor, raw, p).value)
    ensures var s := SegmentOf(|d|, cursor, raw, p).value;
            SegmentCommand(e, ce', cursor, raw, q).Ok?
            <==> s.offset + s.size <= |e| && SectionsClear(raw, 0, s.nsects, ce')
  {
    hide SegmentOf, Sections, SectionsClear, Unmoved, SimilarSegments;
    var s := SegmentOf(|d|, cursor, raw, p).value;
    SegmentOfIff(|d|, |e|, cursor, raw, p, q, le);
    if SegmentOf(|e|, cursor, raw, q).Ok? {
      SameSegmentOf(|d|, |e|, cursor, raw, p, q);
      SectionsIff(d, ce, e, ce', s, raw, 0, p.(segments := p.segments + [s]), q.(segments := q.segments + [s]));
    }
  }

  /** The linkedit command with other sizes declares a segment exactly if its addresses stay in range. */
  lemma LinkeditIff(d: bytes, ce: int, e: bytes, ce': int, cursor: int, raw: bytes, raw': bytes, p: Parse, q: Parse)
    requires 32 <= ce <= ce' && Similar(p, q, cursor)
    requires |raw| == |raw'| && |raw| >= 72 && U32(raw, 64) == 0
    requires forall k | 0 <= k < |raw| && !(32 <= k < 40 || 48 <= k < 56) :: raw[k] == raw'[k]
    requires SegmentCommand(d, ce, cursor, raw, p).Ok?
    requires var s := SegmentOf(|d|, cursor, raw, p).value;
             U64(raw', 48) <= U64(raw', 32) && s.offset + U64(raw', 48) <= |e|
    ensures SegmentCommand(e, ce', cursor, raw', q).Ok?
            <==> SegmentOf(|d|, cursor, raw, p).value.addr + U64(raw', 32) < TWO64
  {
    hide NoExtraBits, SimilarSegments;
    assert raw[8..24] == raw'[8..24];
    SameNames(p.segments, q.segments, cursor, FixedName(raw[8..24]).value);
    SameU64(raw, raw', 24);
    SameU64(raw, raw', 40);
    SameU32(raw, raw', 56);
    SameU32(raw, raw', 60);
    SameU32(raw, raw', 64);
    SameU32(raw, raw', 68);
    hide U32, U64, FixedName;
  }

  lemma PlainFollows(filetype: int, cursor: int, command: int, raw: bytes, p: Parse, q: Parse)
    requires |raw| >= 8 && p.seen == q.seen && PlainCommand(filetype, cursor, command, raw, p).Ok?
    ensures PlainCommand(filetype, cursor, command, raw, q).Ok?
  {
    hide U32, U64, Words, InlineString;
  }

  lemma SignatureFollows(filetype: int, cursor: int, raw: bytes, q: Parse)
    requires |raw| == 16
    ensures PlainCommand(filetype, cursor, LC_CODE_SIGNATURE, raw, q).Ok?
  {
  }

  // ----- the command loop

  /** What the other image asks of one segment of this one. */
  predicate Fits(d: bytes, e: bytes, ce: int, le: int, s: Segment)
    requires 0 <= le && le + 40 <= |e|
  {
    if s.command == le then s.addr + U64(e, le + 32) < TWO64
    else
      && s.offset + s.size <= |e|
      && 0 <= s.command && 0 <= s.nsects && s.command + 72 + s.nsects * 80 <= |d|
      && SectionsClear(d[s.command..s.command + 72 + s.nsects * 80], 0, s.nsects, ce)
  }

  /** What the lemmas below need to know of the two images and one segment. */
  predicate Ready(d: bytes, e: bytes, ce: int, le: int, s: Segment)
    requires 0 <= ce && 0 <= le && le + 56 <= |e|
  {
    if s.command == le then U64(e, le + 48) <= U64(e, le + 32) && s.offset + U64(e, le + 48) <= |e|
    else Unmoved(d, e, ce, s)
  }

  lemma StepGrows(d: bytes, ce: int, filetype: int, cursor: int, p: Parse)
    requires Framing(d, ce) && 32 <= cursor && Step(d, ce, filetype, cursor, p).Ok?
    ensures var (command, size) := CommandAt(d, ce, cursor).value;
            var next := Step(d, ce, filetype, cursor, p).value.1;
            && cursor + size <= |d|
            && if command == LC_SEGMENT_64 then
                 && SegmentOf(|d|, cursor, d[cursor..cursor + size], p.(seen := p.seen + {command})).Ok?
                 && next.segments == p.segments
                      + [SegmentOf(|d|, cursor, d[cursor..cursor + size], p.(seen := p.seen + {command})).value]
               else next.segments == p.segments
  {
    hide SegmentCommand, PlainCommand, SegmentOf;
    var (command, size) := CommandAt(d, ce, cursor).value;
    var raw := d[cursor..cursor + size];
    var p' := p.(seen := p.seen + {command});
    if command == LC_SEGMENT_64 {
      SegmentCommandSegments(d, ce, cursor, raw, p');
    } else {
      PlainBacked(filetype, cursor, command, raw, p');
    }
  }

  lemma SimilarSeen(p: Parse, q: Parse, le: int)
    requires Similar(p, q, le)
    ensures p.seen == q.seen
  {
  }

  /** The position and the bytes that the lemmas about one step rest on. */
  predicate InStep(d: bytes, ce: int, e: bytes, ce': int, filetype: int, cursor: int, p: Parse, le: int, sc: int)
    requires Framing(d, ce) && Framing(e, ce') && 32 <= cursor && ce <= ce' && 32 <= le
  {
    && le + 72 <= ce && sc + 16 <= ce
    && Agree(d, e, 32, ce, le, sc) && MutableCommands(d, ce, le, sc)
    && Step(d, ce, filetype, cursor, p).Ok?
    && var next := Step(d, ce, filetype, cursor, p).value;
       && (le != cursor ==> le + 72 <= cursor || next.0 <= le)
       && (sc != cursor ==> sc + 16 <= cursor || next.0 <= sc)
       && forall i | |p.segments| <= i < |next.1.segments| :: Ready(d, e, ce', le, next.1.segments[i])
  }

  /** Both images have the same command here. */
  lemma SameCommand(d: bytes, ce: int, e: bytes, ce': int, filetype: int, cursor: int, p: Parse, le: int, sc: int)
    requires Framing(d, ce) && Framing(e, ce') && 32 <= cursor && ce <= ce' && 32 <= le
    requires InStep(d, ce, e, ce', filetype, cursor, p, le, sc)
    ensures Step(d, ce, filetype, cursor, p).Ok? && CommandAt(e, ce', cursor) == CommandAt(d, ce, cursor)
    ensures var next := Step(d, ce, filetype, cursor, p).value.1.segments;
            forall i | |p.segments| <= i < |next| :: Ready(d, e, ce', le, next[i])
    ensures var (command, size) := CommandAt(d, ce, cursor).value;
            && cursor + size <= |d| && cursor + size <= |e|
            && (command == LC_SEGMENT_64 ==> size >= 72) && (command == LC_CODE_SIGNATURE ==> size == 16)
            && (cursor == le ==> command == LC_SEGMENT_64 && U32(d, cursor + 64) == 0)
            && (cursor == sc ==> command == LC_CODE_SIGNATURE)
            && le + 72 <= ce
            && (cursor == le ==>
                  forall k | cursor <= k < cursor + size && !(le + 32 <= k < le + 40 || le + 48 <= k < le + 56) ::
                    d[k] == e[k])
    ensures var (_, size) := CommandAt(d, ce, cursor).value;
            cursor != le && cursor != sc ==> d[cursor..cursor + size] == e[cursor..cursor + size]
  {
    hide SegmentCommand, PlainCommand, Ready;
    var (command, size) := CommandAt(d, ce, cursor).value;
    CommandSizes(d, ce, filetype, cursor, p);
    SameU32(d, e, cursor);
    SameU32(d, e, cursor + 4);
    hide U32;
    if cursor != le && cursor != sc {
      assert forall k | cursor <= k < cursor + size :: d[k] == e[k];
    }
  }

  /** The step that reads the linkedit command. */
  lemma LinkeditStepIff(d: bytes, ce: int, e: bytes, ce': int, filetype: int, cursor: int, p: Parse, q: Parse, sc: int)
    requires Framing(d, ce) && Framing(e, ce') && 32 <= cursor && ce <= ce'
    requires InStep(d, ce, e, ce', filetype, cursor, p, cursor, sc) && Similar(p, q, cursor)
    ensures var next := Step(d, ce, filetype, cursor, p).value.1;
            && |next.segments| == |p.segments| + 1
            && (Step(e, ce', filetype, cursor, q).Ok? <==> Fits(d, e, ce', cursor, next.segments[|p.segments|]))
  {
    hide SegmentCommand, PlainCommand, Similar, SegmentOf, Agree, MutableCommands, InStep, U32, U64;
    SameCommand(d, ce, e, ce', filetype, cursor, p, cursor, sc);
    var (command, size) := CommandAt(d, ce, cursor).value;
    var raw, raw' := d[cursor..cursor + size], e[cursor..cursor + size];
    StepGrows(d, ce, filetype, cursor, p);
    SeenSimilar(p, q, command, cursor);
    SimilarSeen(p, q, cursor);
    SliceU32(d, cursor, cursor + size, 64);
    SliceU64(e, cursor, cursor + size, 32);
    SliceU64(e, cursor, cursor + size, 48);
    var next := Step(d, ce, filetype, cursor, p).value.1;
    assert next.segments[|p.segments|].command == cursor;
    assert Ready(d, e, ce', cursor, next.segments[|p.segments|]);
    forall k | 0 <= k < |raw| && !(32 <= k < 40 || 48 <= k < 56) ensures raw[k] == raw'[k] {
      assert d[cursor + k] == e[cursor + k];
    }
    LinkeditIff(d, ce, e, ce', cursor, raw, raw', p.(seen := p.seen + {command}), q.(seen := q.seen + {command}));
  }

  /** The step that reads any other segment command. */
  lemma SegmentStepIff(d: bytes, ce: int, e: bytes, ce': int, filetype: int, cursor: int, p: Parse, q: Parse,
                       le: int, sc: int)
    requires Framing(d, ce) && Framing(e, ce') && 32 <= cursor && ce <= ce' && 32 <= le
    requires InStep(d, ce, e, ce', filetype, cursor, p, le, sc) && Similar(p, q, le)
    requires cursor != le && cursor != sc && CommandAt(d, ce, cursor).value.0 == LC_SEGMENT_64
    ensures var next := Step(d, ce, filetype, cursor, p).value.1;
            && |next.segments| == |p.segments| + 1
            && (Step(e, ce', filetype, cursor, q).Ok? <==> Fits(d, e, ce', le, next.segments[|p.segments|]))
  {
    hide SegmentCommand, PlainCommand, Similar, SegmentOf, Agree, MutableCommands, Unmoved, SectionsClear, U32, U64,
      InStep;
    SameCommand(d, ce, e, ce', filetype, cursor, p, le, sc);
    var (command, size) := CommandAt(d, ce, cursor).value;
    StepGrows(d, ce, filetype, cursor, p);
    SeenSimilar(p, q, command, le);
    SimilarSeen(p, q, le);
    var next := Step(d, ce, filetype, cursor, p).value.1;
    assert next.segments[|p.segments|].command == cursor;
    assert Ready(d, e, ce', le, next.segments[|p.segments|]);
    SegmentCommandIff(d, ce, e, ce', cursor, d[cursor..cursor + size],
                      p.(seen := p.seen + {command}), q.(seen := q.seen + {command}), le);
  }

  /** A step that reads no segment is never refused. */
  lemma PlainStepFollows(d: bytes, ce: int, e: bytes, ce': int, filetype: int, cursor: int, p: Parse, q: Parse,
                         le: int, sc: int)
    requires Framing(d, ce) && Framing(e, ce') && 32 <= cursor && ce <= ce' && 32 <= le
    requires InStep(d, ce, e, ce', filetype, cursor, p, le, sc) && Similar(p, q, le)
    requires CommandAt(d, ce, cursor).value.0 != LC_SEGMENT_64
    ensures Step(e, ce', filetype, cursor, q).Ok?
    ensures Step(d, ce, filetype, cursor, p).value.1.segments == p.segments
  {
    hide SegmentCommand, PlainCommand, Similar, SegmentOf, Agree, MutableCommands, Ready, U32, U64, InStep;
    SameCommand(d, ce, e, ce', filetype, cursor, p, le, sc);
    var (command, size) := CommandAt(d, ce, cursor).value;
    StepGrows(d, ce, filetype, cursor, p);
    SimilarSeen(p, q, le);
    if command == LC_CODE_SIGNATURE {
      SignatureFollows(filetype, cursor, e[cursor..cursor + size], q.(seen := q.seen + {command}));
    } else {
      PlainFollows(filetype, cursor, command, d[cursor..cursor + size],
                   p.(seen := p.seen + {command}), q.(seen := q.seen + {command}));
    }
  }

  predicate FitFrom(d: bytes, e: bytes, ce: int, le: int, segments: seq<Segment>, from: nat)
    requires 0 <= le && le + 40 <= |e|
  {
    forall i | from <= i < |segments| :: Fits(d, e, ce, le, segments[i])
  }

  predicate ReadyFrom(d: bytes, e: bytes, ce: int, le: int, segments: seq<Segment>, from: nat)
    requires 0 <= ce && 0 <= le && le + 56 <= |e|
  {
    forall i | from <= i < |segments| :: Ready(d, e, ce, le, segments[i])
  }

  /** One step of this image is one of the other exactly if the segment that it adds fits. */
  lemma StepIff(d: bytes, ce: int, e: bytes, ce': int, filetype: int, cursor: int,
                p: Parse, q: Parse, le: int, sc: int)
    requires Framing(d, ce) && Framing(e, ce') && 32 <= cursor && ce <= ce' && 32 <= le
    requires InStep(d, ce, e, ce', filetype, cursor, p, le, sc) && Similar(p, q, le)
    ensures p.segments <= Step(d, ce, filetype, cursor, p).value.1.segments
    ensures Step(e, ce', filetype, cursor, q).Ok?
            <==> FitFrom(d, e, ce', le, Step(d, ce, filetype, cursor, p).value.1.segments, |p.segments|)
  {
    SameCommand(d, ce, e, ce', filetype, cursor, p, le, sc);
    StepGrows(d, ce, filetype, cursor, p);
    hide Step, Similar, InStep, Fits, U32, U64, SegmentOf;
    if cursor == le {
      LinkeditStepIff(d, ce, e, ce', filetype, cursor, p, q, sc);
    } else if CommandAt(d, ce, cursor).value.0 == LC_SEGMENT_64 {
      SegmentStepIff(d, ce, e, ce', filetype, cursor, p, q, le, sc);
    } else {
      PlainStepFollows(d, ce, e, ce', filetype, cursor, p, q, le, sc);
    }
  }

  /** Segments are only added. */
  lemma {:induction false} WalkGrows(d: bytes, ce: int, filetype: int, n: nat, cursor: int, p: Parse)
    requires Framing(d, ce) && 32 <= cursor && Walk(d, ce, filetype, n, cursor, p).Ok?
    ensures p.segments <= Walk(d, ce, filetype, n, cursor, p).value.1.segments
  {
    hide Step;
    if n > 0 {
      StepGrows(d, ce, filetype, cursor, p);
      var s := Step(d, ce, filetype, cursor, p).value;
      WalkGrows(d, ce, filetype, n - 1, s.0, s.1);
    }
  }

  /** The other image's loop accepts the same commands exactly if every segment fits. */
  lemma {:induction false} WalkIff(d: bytes, ce: int, e: bytes, ce': int, filetype: int, n: nat, cursor: int,
                                   p: Parse, q: Parse, le: int, sc: int)
    requires Framing(d, ce) && Framing(e, ce') && 32 <= cursor && ce <= ce' && 32 <= le
    requires Agree(d, e, 32, ce, le, sc) && Similar(p, q, le) && MutableCommands(d, ce, le, sc)
    requires le + 72 <= ce && sc + 16 <= ce
    requires Walk(d, ce, filetype, n, cursor, p).Ok?
    requires Ahead(d, ce, filetype, n, cursor, p, le, 72) && Ahead(d, ce, filetype, n, cursor, p, sc, 16)
    requires ReadyFrom(d, e, ce', le, Walk(d, ce, filetype, n, cursor, p).value.1.segments, |p.segments|)
    ensures Walk(e, ce', filetype, n, cursor, q).Ok?
            <==> FitFrom(d, e, ce', le, Walk(d, ce, filetype, n, cursor, p).value.1.segments, |p.segments|)
  {
    hide Step, Similar, Agree, MutableCommands, Ahead, Fits, Ready;
    if n > 0 {
      var s := Step(d, ce, filetype, cursor, p).value;
      var last := Walk(d, ce, filetype, n, cursor, p).value.1.segments;
      WalkGrows(d, ce, filetype, n - 1, s.0, s.1);
      StepGrows(d, ce, filetype, cursor, p);
      AheadSizes(d, ce, filetype, cursor, p, le, sc);
      StillAhead(d, ce, filetype, n, cursor, p, le, 72);
      StillAhead(d, ce, filetype, n, cursor, p, sc, 16);
      assert forall i | |p.segments| <= i < |s.1.segments| :: Ready(d, e, ce', le, s.1.segments[i]);
      StepIff(d, ce, e, ce', filetype, cursor, p, q, le, sc);
      if Step(e, ce', filetype, cursor, q).Ok? {
        StepSimilar(d, ce, e, ce', filetype, cursor, p, q, le, sc);
        WalkIff(d, ce, e, ce', filetype, n - 1, s.0, s.1, Step(e, ce', filetype, cursor, q).value.1, le, sc);
      } else {
        var i :| |p.segments| <= i < |s.1.segments| && !Fits(d, e, ce', le, s.1.segments[i]);
        assert last[i] == s.1.segments[i];
      }
    }
  }
}
