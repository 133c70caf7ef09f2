/** _layout: the bounded load-command parser, and the facts every accepted parse has. */
module MachoLayout {
  import opened Results
  import opened MachoBytes
  import opened Ranges
  import opened SignatureFrame

  const MAX_IMAGE_BYTES: int := 512 * 1024 * 1024
  const MAX_COMMANDS: int := 4096
  const MAX_COMMAND_BYTES: int := 4 * 1024 * 1024
  const LC_SEGMENT_64: int := 0x19
  const LC_CODE_SIGNATURE: int := 0x1D
  const CPU_ARM64: int := 0x0100000C
  const CPU_X86_64: int := 0x01000007
  const THIN_MAGIC: bytes := [0xCF, 0xFA, 0xED, 0xFE]
  const LINKEDIT: bytes := [0x5F, 0x5F, 0x4C, 0x49, 0x4E, 0x4B, 0x45, 0x44, 0x49, 0x54]
  const TEXT: bytes := [0x5F, 0x5F, 0x54, 0x45, 0x58, 0x54]

  /** The suffixes of the ValueError texts that the checker raises. */
  datatype Reason =
    | ImageSize | FatUnsupported | FormatUnsupported | CpuUnsupported | FiletypeUnsupported
    | LoadCommands | CommandSize | DuplicateCommand | InvalidName | SegmentSize | SegmentBounds
    | DuplicateSegment | SectionBounds | ZerofillOffset | EmptySectionOffset | EmptyRelocationOffset
    | DyldInfo | CommandString | BuildVersion | EntryPoint | CommandUnsupported(command: int)
    | SignatureAdditionUnsupported | SignatureHeaderSpace | SignatureTerminalBounds
    | RequiredSegments | LinkeditLayout | TextLayout | SegmentOverlap | VirtualOverlap
    | SectionOverlap | SectionVirtualOverlap | ZerofillPaddingOverlap | LinkeditNotFinal
    | SymbolIndexes | LinkeditReferenceBounds | EmptyLinkeditReference | LinkeditReferenceOverlap
    | SignatureFrameRefused
    | LayoutChanged | SignatureAdditionCommands | SignatureAdditionPadding | LinkeditResize
    | SignatureAllocationAlignment | LinkeditVmResize | PayloadChanged
    | ContainerChanged | FatArchUnsupported | FatSliceBounds | FatNonzeroPadding | FatSliceIdentity
    | FatTrailingBytes | FatArchChanged

  type Checked<+T> = Result<T, Reason>

  predicate IsLinkeditData(c: int) {
    c == 0x1E || c == 0x26 || c == 0x29 || c == 0x2B || c == 0x2E || c == 0x80000033 || c == 0x80000034
  }

  predicate IsDylib(c: int) {
    c == 0xC || c == 0xD || c == 0x80000018 || c == 0x8000001F || c == 0x20 || c == 0x80000023
  }

  predicate IsString(c: int) {
    c == 0xE || c == 0xF || c == 0x8000001C
  }

  predicate Repeatable(c: int) {
    (IsDylib(c) && c != 0xD) || c == LC_SEGMENT_64 || c == 0x8000001C
  }

  function Head4(d: bytes): bytes {
    if |d| < 4 then d else d[..4]
  }

  predicate IsFat(d: bytes) {
    var h := Head4(d);
    || h == [0xCA, 0xFE, 0xBA, 0xBE] || h == [0xBE, 0xBA, 0xFE, 0xCA]
    || h == [0xCA, 0xFE, 0xBA, 0xBF] || h == [0xBF, 0xBA, 0xFE, 0xCA]
  }

  // ----- parsed entities

  datatype Segment = Segment(name: bytes, addr: int, vmsize: int, offset: int, size: int,
                             command: int, nsects: int, maxprot: int, initprot: int)

  datatype Signature = Signature(command: int, offset: int, size: int)

  /** Everything the command loop accumulates. */
  datatype Parse = Parse(
    seen: set<int>,
    segments: seq<Segment>,
    sections: seq<Range>,
    links: seq<(int, int)>,
    vmRanges: seq<Range>,
    zeroPad: seq<Range>,
    signature: Option<Signature>,
    symtab: Option<seq<int>>,
    dysymtab: Option<seq<int>>,
    entry: Option<int>)

  const NOTHING: Parse := Parse({}, [], [], [], [], [], None, None, None, None)

  datatype Header = Header(cpu: int, subtype: int, filetype: int, ncmds: int, commandsEnd: int)

  datatype Layout = Layout(
    cpu: int, subtype: int, commandCount: int, commandsEnd: int,
    signatureCommand: Option<int>, signatureOffset: int, signatureSize: int,
    linkeditCommand: int, linkeditOffset: int, linkeditSize: int, linkeditVmSize: int)

  // ----- names and strings

  function FirstZero(raw: bytes, from: nat): (k: int)
    requires from <= |raw|
    ensures from <= k <= |raw|
    ensures forall j | from <= j < k :: raw[j] != 0
    ensures k < |raw| ==> raw[k] == 0
    decreases |raw| - from
  {
    if from == |raw| || raw[from] == 0 then from else FirstZero(raw, from + 1)
  }

  /** _fixed_name */
  function FixedName(raw: bytes): Checked<bytes> {
    var k := FirstZero(raw, 0);
    :- Need(k > 0 && AllZero(raw, k, |raw|), InvalidName);
    Ok(raw[..k])
  }

  /** _inline_string */
  predicate InlineString(raw: bytes, minimum: int)
    requires minimum >= 12
  {
    && |raw| >= minimum
    && var offset := U32(raw, 8);
       && minimum <= offset < |raw| && AllZero(raw, minimum, offset)
       && var end := FirstZero(raw, offset);
          end < |raw| && end > offset && AllZero(raw, end, |raw|)
  }

  /** The five _require calls of _inline_string share two reasons. */
  function CheckInlineString(raw: bytes, minimum: int): Outcome<Reason>
    requires minimum >= 12
  {
    if |raw| < minimum then Fail(CommandSize)
    else Need(InlineString(raw, minimum), CommandString)
  }

  predicate NoExtraBits(initprot: int, maxprot: int)
    requires 0 <= initprot <= 7 && 0 <= maxprot <= 7
  {
    && (initprot % 2 == 1 ==> maxprot % 2 == 1)
    && (initprot / 2 % 2 == 1 ==> maxprot / 2 % 2 == 1)
    && (initprot / 4 == 1 ==> maxprot / 4 == 1)
  }

  function Pow2(n: nat): (r: int)
    ensures r >= 1
  {
    if n == 0 then 1 else 2 * Pow2(n - 1)
  }

  // ----- LC_SEGMENT_64

  predicate ZerofillKind(flags: int) {
    var kind := flags % 256;
    kind == 1 || kind == 0xC || kind == 0x12
  }

  /** One iteration of the section loop. */
  function SectionStep(data: bytes, ce: int, seg: Segment, raw: bytes, index: nat, p: Parse): Checked<Parse>
    requires |raw| == 72 + seg.nsects * 80 && index < seg.nsects && 32 <= ce
  {
    var b := 72 + index * 80;
    var _ :- FixedName(raw[b..b + 16]);
    var segname :- FixedName(raw[b + 16..b + 32]);
    var address, length := U64(raw, b + 32), U64(raw, b + 40);
    var off, align := U32(raw, b + 48), U32(raw, b + 52);
    var reloff, nreloc, flags := U32(raw, b + 56), U32(raw, b + 60), U32(raw, b + 64);
    :- Need(segname == seg.name && align <= 31
            && seg.addr <= address && address + length <= seg.addr + seg.vmsize, SectionBounds);
    var vm := if length != 0 then p.vmRanges + [Range(address, address + length)] else p.vmRanges;
    if ZerofillKind(flags) then
      :- Need(off == 0 || (flags % 256 == 0x12 && off == seg.offset + address - seg.addr
                           && ce <= off && off + length <= seg.offset + seg.size
                           && AllZero(data, off, off + length)), ZerofillOffset);
      var pad := if off != 0 && length != 0 then p.zeroPad + [Range(off, off + length)] else p.zeroPad;
      Relocations(p.(vmRanges := vm, zeroPad := pad), reloff, nreloc)
    else if length != 0 then
      :- Need(ce <= off && seg.offset <= off && off + length <= seg.offset + seg.size
              && off % Pow2(align) == 0 && address - seg.addr == off - seg.offset, SectionBounds);
      Relocations(p.(vmRanges := vm, sections := p.sections + [Range(off, off + length)]), reloff, nreloc)
    else
      :- Need(off == 0 || (ce <= off && seg.offset <= off && off <= seg.offset + seg.size), EmptySectionOffset);
      Relocations(p.(vmRanges := vm), reloff, nreloc)
  }

  function Relocations(p: Parse, reloff: int, nreloc: int): Checked<Parse> {
    if nreloc != 0 then Ok(p.(links := p.links + [(reloff, nreloc * 8)]))
    else
      :- Need(reloff == 0, EmptyRelocationOffset);
      Ok(p)
  }

  function Sections(data: bytes, ce: int, seg: Segment, raw: bytes, index: nat, p: Parse): Checked<Parse>
    requires |raw| == 72 + seg.nsects * 80 && index <= seg.nsects && 32 <= ce
    decreases seg.nsects - index
  {
    if index == seg.nsects then Ok(p)
    else
      var q :- SectionStep(data, ce, seg, raw, index, p);
      Sections(data, ce, seg, raw, index + 1, q)
  }

  /** The segment that an LC_SEGMENT_64 command at this cursor declares. */
  function SegmentOf(dataLength: nat, cursor: int, raw: bytes, p: Parse): (r: Checked<Segment>)
    ensures r.Ok? ==> 0 <= r.value.nsects && |raw| == 72 + r.value.nsects * 80
    ensures r.Ok? ==> r.value.command == cursor
                      && 0 <= r.value.offset && r.value.offset + r.value.size <= dataLength
  {
    if |raw| < 72 then Refused(SegmentSize) else
    var name :- FixedName(raw[8..24]);
    var addr, vmsize, offset, count := U64(raw, 24), U64(raw, 32), U64(raw, 40), U64(raw, 48);
    var maxprot, initprot := I32(raw, 56), I32(raw, 60);
    var nsects, flags := U32(raw, 64), U32(raw, 68);
    :- Need(|raw| == 72 + nsects * 80 && nsects <= MAX_COMMANDS, SegmentSize);
    :- Need(addr + vmsize < TWO64 && count <= vmsize
            && offset <= dataLength && offset + count <= dataLength
            && (flags == 0 || flags == 0x10)
            && 0 <= initprot <= maxprot <= 7 && NoExtraBits(initprot, maxprot), SegmentBounds);
    :- Need(forall s | s in p.segments :: s.name != name, DuplicateSegment);
    Ok(Segment(name, addr, vmsize, offset, count, cursor, nsects, maxprot, initprot))
  }

  function SegmentCommand(data: bytes, ce: int, cursor: int, raw: bytes, p: Parse): Checked<Parse>
    requires 32 <= ce
  {
    var seg :- SegmentOf(|data|, cursor, raw, p);
    assert |raw| == 72 + seg.nsects * 80;
    Sections(data, ce, seg, raw, 0, p.(segments := p.segments + [seg]))
  }

  // ----- every other command

  function Words(raw: bytes, at: nat, n: nat): (w: seq<int>)
    requires at + 4 * n <= |raw|
    ensures |w| == n && forall i | 0 <= i < n :: w[i] == U32(raw, at + 4 * i)
  {
    seq(n, i requires 0 <= i < n => U32(raw, at + 4 * i))
  }

  predicate IsLinkCommand(c: int) {
    || c == LC_CODE_SIGNATURE || IsLinkeditData(c)
    || c == 2 || c == 0xB || c == 0x22 || c == 0x80000022 || c == 0x16
  }

  /** Commands that refer to bytes of the linkedit segment. */
  function LinkCommand(cursor: int, command: int, raw: bytes, p: Parse): Checked<Parse>
    requires |raw| >= 8 && IsLinkCommand(command)
  {
    var size := |raw|;
    if command == LC_CODE_SIGNATURE || IsLinkeditData(command) then
      :- Need(size == 16, CommandSize);
      var off, length := U32(raw, 8), U32(raw, 12);
      if command == LC_CODE_SIGNATURE then Ok(p.(signature := Some(Signature(cursor, off, length))))
      else Ok(p.(links := p.links + [(off, length)]))
    else if command == 2 then
      :- Need(size == 24, CommandSize);
      var w := Words(raw, 8, 4);
      Ok(p.(symtab := Some(w), links := p.links + [(w[0], w[1] * 16), (w[2], w[3])]))
    else if command == 0xB then
      :- Need(size == 80, CommandSize);
      var w := Words(raw, 8, 18);
      Ok(p.(dysymtab := Some(w),
            links := p.links + [(w[6], w[7] * 8), (w[8], w[9] * 56), (w[10], w[11] * 4),
                                (w[12], w[13] * 4), (w[14], w[15] * 8), (w[16], w[17] * 8)]))
    else if command == 0x22 || command == 0x80000022 then
      :- Need(size == 48 && (if command == 0x22 then 0x80000022 else 0x22) !in p.seen, DyldInfo);
      var w := Words(raw, 8, 10);
      Ok(p.(links := p.links + [(w[0], w[1]), (w[2], w[3]), (w[4], w[5]), (w[6], w[7]), (w[8], w[9])]))
    else
      :- Need(size == 16, CommandSize);
      Ok(p.(links := p.links + [(U32(raw, 8), U32(raw, 12) * 4)]))
  }

  /** The remaining commands carry no file reference. */
  function OtherCommand(filetype: int, command: int, raw: bytes, p: Parse): Checked<Parse>
    requires |raw| >= 8
  {
    var size := |raw|;
    if IsDylib(command) then
      :- CheckInlineString(raw, 24);
      Ok(p)
    else if IsString(command) then
      :- CheckInlineString(raw, 12);
      Ok(p)
    else if command == 0x1B || command == 0x24 || command == 0x2A then
      :- Need(size == (if command == 0x1B then 24 else 16), CommandSize);
      Ok(p)
    else if command == 0x32 then
      :- Need(size >= 24, CommandSize);
      :- Need(U32(raw, 8) == 1 && size == 24 + U32(raw, 20) * 8, BuildVersion);
      Ok(p)
    else if command == 0x80000028 then
      :- Need(size == 24 && filetype == 2, EntryPoint);
      Ok(p.(entry := Some(U64(raw, 8))))
    else Refused(CommandUnsupported(command))
  }

  function PlainCommand(filetype: int, cursor: int, command: int, raw: bytes, p: Parse): Checked<Parse>
    requires |raw| >= 8
  {
    if IsLinkCommand(command) then LinkCommand(cursor, command, raw, p)
    else OtherCommand(filetype, command, raw, p)
  }

  // ----- the command loop

  predicate Framing(data: bytes, ce: int) {
    32 <= ce <= |data|
  }

  /** The bounds of the command at this cursor: its id and its size. */
  function CommandAt(data: bytes, ce: int, cursor: int): Checked<(int, int)>
    requires Framing(data, ce) && 32 <= cursor
  {
    if cursor + 8 > ce then Refused(LoadCommands) else
    var command, size := U32(data, cursor), U32(data, cursor + 4);
    :- Need(size >= 8 && size % 8 == 0 && cursor + size <= ce, CommandSize);
    Ok((command, size))
  }

  /** One iteration of the command loop: the next cursor and the new parse. */
  function Step(data: bytes, ce: int, filetype: int, cursor: int, p: Parse): (r: Checked<(int, Parse)>)
    requires Framing(data, ce) && 32 <= cursor
    ensures r.Ok? ==> cursor + 8 <= r.value.0 <= ce && r.value.0 == cursor + U32(data, cursor + 4)
  {
    var c :- CommandAt(data, ce, cursor);
    var (command, size) := c;
    var raw := data[cursor..cursor + size];
    :- Need(Repeatable(command) || command !in p.seen, DuplicateCommand);
    var p' := p.(seen := p.seen + {command});
    var q :- if command == LC_SEGMENT_64 then SegmentCommand(data, ce, cursor, raw, p')
             else PlainCommand(filetype, cursor, command, raw, p');
    Ok((cursor + size, q))
  }

  function Walk(data: bytes, ce: int, filetype: int, n: nat, cursor: int, p: Parse): Checked<(int, Parse)>
    requires Framing(data, ce) && 32 <= cursor
  {
    if n == 0 then Ok((cursor, p))
    else
      var s :- Step(data, ce, filetype, cursor, p);
      Walk(data, ce, filetype, n - 1, s.0, s.1)
  }

  // ----- the whole-image checks

  function HeaderOf(data: bytes): (r: Checked<Header>)
    ensures r.Ok? ==> Framing(data, r.value.commandsEnd)
  {
    if !(32 <= |data| <= MAX_IMAGE_BYTES) then Refused(ImageSize) else
    :- Need(!IsFat(data), FatUnsupported);
    :- Need(data[..4] == THIN_MAGIC, FormatUnsupported);
    var cpu, subtype, filetype := U32(data, 4), U32(data, 8), U32(data, 12);
    var ncmds, cmdbytes, reserved := U32(data, 16), U32(data, 20), U32(data, 28);
    :- Need(cpu == CPU_ARM64 || cpu == CPU_X86_64, CpuUnsupported);
    :- Need(if cpu == CPU_ARM64 then subtype == 0 || subtype == 1 || subtype == 2 || subtype == 0x80000002
            else subtype == 3 || subtype == 8 || subtype == 0x80000003, CpuUnsupported);
    :- Need((filetype == 2 || filetype == 6 || filetype == 8) && reserved == 0, FiletypeUnsupported);
    :- Need(1 <= ncmds <= MAX_COMMANDS && ncmds * 8 <= cmdbytes <= MAX_COMMAND_BYTES
            && cmdbytes % 8 == 0 && 32 + cmdbytes <= |data|, LoadCommands);
    Ok(Header(cpu, subtype, filetype, ncmds, 32 + cmdbytes))
  }

  function Named(segments: seq<Segment>, name: bytes): seq<Segment> {
    if segments == [] then []
    else (if segments[0].name == name then [segments[0]] else []) + Named(segments[1..], name)
  }

  /** Where the signature is, or where it would be appended. */
  function SignaturePlace(data: bytes, allowMissing: bool, h: Header, p: Parse): (r: Checked<(Option<int>, int, int)>)
    requires Framing(data, h.commandsEnd)
    ensures r.Ok? ==> h.commandsEnd <= r.value.1 <= |data|
  {
    match p.signature
    case None =>
      :- Need(allowMissing && h.cpu == CPU_X86_64 && h.subtype == 3, SignatureAdditionUnsupported);
      :- Need(p.sections != [] && (forall s | s in p.sections :: h.commandsEnd + 16 <= s.start)
              && AllZero(data, h.commandsEnd, h.commandsEnd + 16), SignatureHeaderSpace);
      Ok((None, |data|, 0))
    case Some(s) =>
      :- Need(s.offset >= h.commandsEnd && s.offset % 16 == 0 && s.size > 0
              && s.offset + s.size == |data|, SignatureTerminalBounds);
      Ok((Some(s.command), s.offset, s.size))
  }

  function FileRanges(segments: seq<Segment>): seq<Range> {
    if segments == [] then []
    else (if segments[0].size != 0
          then [Range(segments[0].offset, segments[0].offset + segments[0].size)] else [])
         + FileRanges(segments[1..])
  }

  function VirtualRanges(segments: seq<Segment>): seq<Range> {
    if segments == [] then []
    else (if segments[0].vmsize != 0
          then [Range(segments[0].addr, segments[0].addr + segments[0].vmsize)] else [])
         + VirtualRanges(segments[1..])
  }

  predicate LinkeditFinal(segments: seq<Segment>, linkedit: Segment) {
    forall s | s in segments && s.name != LINKEDIT :: s.addr + s.vmsize <= linkedit.addr
  }

  function CheckOverlaps(p: Parse): Outcome<Reason> {
    if !DisjointRanges(FileRanges(p.segments)) then Fail(SegmentOverlap)
    else if !DisjointRanges(VirtualRanges(p.segments)) then Fail(VirtualOverlap)
    else if !DisjointRanges(p.sections) then Fail(SectionOverlap)
    else if !DisjointRanges(p.vmRanges) then Fail(SectionVirtualOverlap)
    else Need(DisjointRanges(p.sections + p.zeroPad), ZerofillPaddingOverlap)
  }

  function CheckSymbols(ce: int, text: Segment, p: Parse): Outcome<Reason>
    requires p.symtab.Some? ==> |p.symtab.value| == 4
    requires p.dysymtab.Some? ==> |p.dysymtab.value| == 18
  {
    if p.entry.Some? && !(ce <= p.entry.value < text.size
                          && exists s | s in p.sections :: s.start <= p.entry.value < s.stop)
    then Fail(EntryPoint)
    else if p.dysymtab.None? then Pass
    else
      var d := p.dysymtab.value;
      Need(p.symtab.Some?
           && d[0] + d[1] <= p.symtab.value[1] && d[2] + d[3] <= p.symtab.value[1]
           && d[4] + d[5] <= p.symtab.value[1], SymbolIndexes)
  }

  /** The occupied linkedit references, or the first reference out of place. */
  function CheckLinks(links: seq<(int, int)>, lo: int, hi: int, i: nat, occupied: seq<Range>): Checked<seq<Range>>
    requires i <= |links|
    decreases |links| - i
  {
    if i == |links| then Ok(occupied)
    else
      var (offset, length) := links[i];
      if length != 0 then
        :- Need(lo <= offset < offset + length <= hi, LinkeditReferenceBounds);
        CheckLinks(links, lo, hi, i + 1, occupied + [Range(offset, offset + length)])
      else
        :- Need(offset == 0 || lo <= offset <= hi, EmptyLinkeditReference);
        CheckLinks(links, lo, hi, i + 1, occupied)
  }

  predicate WellShaped(p: Parse) {
    && (p.symtab.Some? ==> |p.symtab.value| == 4)
    && (p.dysymtab.Some? ==> |p.dysymtab.value| == 18)
  }

  function Finish(data: bytes, allowMissing: bool, h: Header, cursor: int, p: Parse): Checked<Layout>
    requires Framing(data, h.commandsEnd) && WellShaped(p)
  {
    var ce := h.commandsEnd;
    :- Need(cursor == ce, LoadCommands);
    var place :- SignaturePlace(data, allowMissing, h, p);
    var (sigcmd, sigoff, sigsize) := place;
    var linkedits, texts := Named(p.segments, LINKEDIT), Named(p.segments, TEXT);
    :- Need(|linkedits| == 1 && |texts| == 1, RequiredSegments);
    var linkedit, text := linkedits[0], texts[0];
    :- Need(linkedit.nsects == 0 && linkedit.maxprot == 1 && linkedit.initprot == 1
            && ce <= linkedit.offset <= sigoff && linkedit.offset + linkedit.size == |data|, LinkeditLayout);
    :- Need(text.offset == 0 && text.size >= ce && text.initprot == 5, TextLayout);
    :- CheckOverlaps(p);
    :- Need(LinkeditFinal(p.segments, linkedit), LinkeditNotFinal);
    :- CheckSymbols(ce, text, p);
    var occupied :- CheckLinks(p.links, linkedit.offset, sigoff, 0, []);
    :- Need(DisjointRanges(occupied), LinkeditReferenceOverlap);
    :- Need(p.signature.Some? ==> Framed(data[sigoff..]), SignatureFrameRefused);
    Ok(Layout(h.cpu, h.subtype, h.ncmds, ce, sigcmd, sigoff, sigsize,
              linkedit.command, linkedit.offset, linkedit.size, linkedit.vmsize))
  }

  /** The parse that precedes the whole-image checks. */
  function ParseOf(data: bytes): Checked<(Header, int, Parse)> {
    var h :- HeaderOf(data);
    var w :- Walk(data, h.commandsEnd, h.filetype, h.ncmds, 32, NOTHING);
    Ok((h, w.0, w.1))
  }

  /** _layout */
  function LayoutOf(data: bytes, allowMissing: bool): Checked<Layout> {
    var w :- ParseOf(data);
    WalkShape(data, w.0.commandsEnd, w.0.filetype, w.0.ncmds, 32, NOTHING);
    Finish(data, allowMissing, w.0, w.1, w.2)
  }

  // ----- the loops

  method ParseSections(data: bytes, ce: int, seg: Segment, raw: bytes, p: Parse) returns (r: Checked<Parse>)
    requires |raw| == 72 + seg.nsects * 80 && 0 <= seg.nsects && 32 <= ce
    ensures r == Sections(data, ce, seg, raw, 0, p)
  {
    var q, index := p, 0;
    while index < seg.nsects
      invariant 0 <= index <= seg.nsects
      invariant Sections(data, ce, seg, raw, index, q) == Sections(data, ce, seg, raw, 0, p)
    {
      var s := SectionStep(data, ce, seg, raw, index, q);
      if s.Refused? { return Refused(s.reason); }
      q, index := s.value, index + 1;
    }
    return Ok(q);
  }

  method ParseCommand(data: bytes, ce: int, filetype: int, cursor: int, p: Parse) returns (r: Checked<(int, Parse)>)
    requires Framing(data, ce) && 32 <= cursor
    ensures r == Step(data, ce, filetype, cursor, p)
  {
    hide PlainCommand, SegmentOf, Sections;
    var c := CommandAt(data, ce, cursor);
    if c.Refused? { return Refused(c.reason); }
    var (command, size) := c.value;
    var raw := data[cursor..cursor + size];
    if !(Repeatable(command) || command !in p.seen) { return Refused(DuplicateCommand); }
    var q := p.(seen := p.seen + {command});
    var parsed: Checked<Parse>;
    if command == LC_SEGMENT_64 {
      var seg := SegmentOf(|data|, cursor, raw, q);
      if seg.Refused? { return Refused(seg.reason); }
      parsed := ParseSections(data, ce, seg.value, raw, q.(segments := q.segments + [seg.value]));
    } else {
      parsed := PlainCommand(filetype, cursor, command, raw, q);
    }
    if parsed.Refused? { return Refused(parsed.reason); }
    return Ok((cursor + size, parsed.value));
  }

  method FinishLayout(data: bytes, allowMissing: bool, h: Header, cursor: int, p: Parse) returns (r: Checked<Layout>)
    requires Framing(data, h.commandsEnd) && WellShaped(p)
    ensures r == Finish(data, allowMissing, h, cursor, p)
  {
    var ce := h.commandsEnd;
    if cursor != ce { return Refused(LoadCommands); }
    var place := SignaturePlace(data, allowMissing, h, p);
    if place.Refused? { return Refused(place.reason); }
    var (sigcmd, sigoff, sigsize) := place.value;
    var linkedits, texts := Named(p.segments, LINKEDIT), Named(p.segments, TEXT);
    if !(|linkedits| == 1 && |texts| == 1) { return Refused(RequiredSegments); }
    var linkedit, text := linkedits[0], texts[0];
    if !(linkedit.nsects == 0 && linkedit.maxprot == 1 && linkedit.initprot == 1
         && ce <= linkedit.offset <= sigoff && linkedit.offset + linkedit.size == |data|) {
      return Refused(LinkeditLayout);
    }
    if !(text.offset == 0 && text.size >= ce && text.initprot == 5) { return Refused(TextLayout); }
    var ok := CheckDisjoint(FileRanges(p.segments));
    if !ok { return Refused(SegmentOverlap); }
    ok := CheckDisjoint(VirtualRanges(p.segments));
    if !ok { return Refused(VirtualOverlap); }
    ok := CheckDisjoint(p.sections);
    if !ok { return Refused(SectionOverlap); }
    ok := CheckDisjoint(p.vmRanges);
    if !ok { return Refused(SectionVirtualOverlap); }
    ok := CheckDisjoint(p.sections + p.zeroPad);
    if !ok { return Refused(ZerofillPaddingOverlap); }
    if !LinkeditFinal(p.segments, linkedit) { return Refused(LinkeditNotFinal); }
    var symbols := CheckSymbols(ce, text, p);
    if symbols.Fail? { return Refused(symbols.reason); }
    var occupied: seq<Range>, i := [], 0;
    while i < |p.links|
      invariant 0 <= i <= |p.links|
      invariant CheckLinks(p.links, linkedit.offset, sigoff, i, occupied)
             == CheckLinks(p.links, linkedit.offset, sigoff, 0, [])
    {
      var (offset, length) := p.links[i];
      if length != 0 {
        if !(linkedit.offset <= offset < offset + length <= sigoff) { return Refused(LinkeditReferenceBounds); }
        occupied := occupied + [Range(offset, offset + length)];
      } else if !(offset == 0 || linkedit.offset <= offset <= sigoff) {
        return Refused(EmptyLinkeditReference);
      }
      i := i + 1;
    }
    ok := CheckDisjoint(occupied);
    if !ok { return Refused(LinkeditReferenceOverlap); }
    if p.signature.Some? {
      ok := CheckSignatureFrame(data[sigoff..]);
      if !ok { return Refused(SignatureFrameRefused); }
    }
    return Ok(Layout(h.cpu, h.subtype, h.ncmds, ce, sigcmd, sigoff, sigsize,
                     linkedit.command, linkedit.offset, linkedit.size, linkedit.vmsize));
  }

  method WalkCommands(data: bytes, ce: int, filetype: int, ncmds: nat) returns (r: Checked<(int, Parse)>)
    requires Framing(data, ce)
    ensures r == Walk(data, ce, filetype, ncmds, 32, NOTHING)
  {
    hide Step;
    var cursor, p, i := 32, NOTHING, 0;
    while i < ncmds
      invariant 0 <= i <= ncmds && 32 <= cursor
      invariant Walk(data, ce, filetype, ncmds - i, cursor, p) == Walk(data, ce, filetype, ncmds, 32, NOTHING)
    {
      var step := ParseCommand(data, ce, filetype, cursor, p);
      if step.Refused? { return Refused(step.reason); }
      cursor, p, i := step.value.0, step.value.1, i + 1;
    }
    return Ok((cursor, p));
  }

  method ParseLayout(data: bytes, allowMissing: bool) returns (r: Checked<Layout>)
    ensures r == LayoutOf(data, allowMissing)
  {
    hide Walk, Finish;
    var header := HeaderOf(data);
    if header.Refused? { return Refused(header.reason); }
    var h := header.value;
    var walked := WalkCommands(data, h.commandsEnd, h.filetype, h.ncmds);
    if walked.Refused? { return Refused(walked.reason); }
    WalkShape(data, h.commandsEnd, h.filetype, h.ncmds, 32, NOTHING);
    r := FinishLayout(data, allowMissing, h, walked.value.0, walked.value.1);
  }

  /** The section loop changes only the range and link lists. */
  predicate SameShape(p: Parse, q: Parse) {
    && q.segments == p.segments && q.signature == p.signature && q.symtab == p.symtab
    && q.dysymtab == p.dysymtab && q.entry == p.entry && q.seen == p.seen
  }

  lemma SectionStepShape(data: bytes, ce: int, seg: Segment, raw: bytes, index: nat, p: Parse)
    requires |raw| == 72 + seg.nsects * 80 && index < seg.nsects && 32 <= ce
    requires SectionStep(data, ce, seg, raw, index, p).Ok?
    ensures SameShape(p, SectionStep(data, ce, seg, raw, index, p).value)
  {
    hide U32, U64, FixedName, Pow2, ZerofillKind;
  }

  lemma {:induction false} SectionsShape(data: bytes, ce: int, seg: Segment, raw: bytes, index: nat, p: Parse)
    requires |raw| == 72 + seg.nsects * 80 && index <= seg.nsects && 32 <= ce
    requires Sections(data, ce, seg, raw, index, p).Ok?
    ensures SameShape(p, Sections(data, ce, seg, raw, index, p).value)
    decreases seg.nsects - index
  {
    hide SectionStep;
    if index < seg.nsects {
      SectionStepShape(data, ce, seg, raw, index, p);
      SectionsShape(data, ce, seg, raw, index + 1, SectionStep(data, ce, seg, raw, index, p).value);
    }
  }

  lemma {:induction false} WalkShape(data: bytes, ce: int, filetype: int, n: nat, cursor: int, p: Parse)
    requires Framing(data, ce) && 32 <= cursor && WellShaped(p)
    ensures Walk(data, ce, filetype, n, cursor, p).Ok? ==>
              WellShaped(Walk(data, ce, filetype, n, cursor, p).value.1)
  {
    hide Step;
    if n > 0 && Step(data, ce, filetype, cursor, p).Ok? {
      StepShape(data, ce, filetype, cursor, p);
      var s := Step(data, ce, filetype, cursor, p).value;
      WalkShape(data, ce, filetype, n - 1, s.0, s.1);
    }
  }

  lemma StepShape(data: bytes, ce: int, filetype: int, cursor: int, p: Parse)
    requires Framing(data, ce) && 32 <= cursor && WellShaped(p)
    requires Step(data, ce, filetype, cursor, p).Ok?
    ensures WellShaped(Step(data, ce, filetype, cursor, p).value.1)
  {
    hide SegmentOf, Sections;
    var (command, size) := CommandAt(data, ce, cursor).value;
    var raw := data[cursor..cursor + size];
    var p' := p.(seen := p.seen + {command});
    if command == LC_SEGMENT_64 {
      hide PlainCommand;
      var seg := SegmentOf(|data|, cursor, raw, p').value;
      SectionsShape(data, ce, seg, raw, 0, p'.(segments := p'.segments + [seg]));
    }
  }
}
