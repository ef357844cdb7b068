/** How the headers of an ELF file lie in its bytes (System V gABI, chapters 4 and 5), and that the fields which
    relocation takes from them are the right ones, for both classes and both byte orders. */
module ElfLayout {
  import opened Wrappers
  import opened Bytes
  import opened ElfBytes
  import opened ElfHeader

  /** A number and how many bytes it takes. */
  type Packed = (nat, nat)

  function Number(f: Packed, little: bool): (r: Data)
    ensures |r| == f.1
  {
    if little then Pack(f.0, f.1) else Reversed(Pack(f.0, f.1))
  }

  function Layout(fields: seq<Packed>, little: bool): Data {
    if fields == [] then [] else Number(fields[0], little) + Layout(fields[1..], little)
  }

  function Start(fields: seq<Packed>, i: nat): nat
    requires i <= |fields|
  {
    if i == 0 then 0 else fields[0].1 + Start(fields[1..], i - 1)
  }

  predicate AllFit(fields: seq<Packed>) {
    forall i | 0 <= i < |fields| :: fields[i].0 < Limit(fields[i].1)
  }

  lemma ReversedTwice(b: Data)
    ensures Reversed(Reversed(b)) == b
  {
  }

  lemma NumberReadBack(f: Packed, little: bool)
    requires f.0 < Limit(f.1)
    ensures Value(Number(f, little), little) == f.0
  {
    LittlePack(f.0, f.1);
    ReversedTwice(Pack(f.0, f.1));
  }

  /** Each field is read back at its start, whatever is behind the fields. */
  lemma {:induction false} FieldReadBack(c: Data, fields: seq<Packed>, little: bool, before: Data, rest: Data, i: nat)
    requires i < |fields| && AllFit(fields) && c == before + Layout(fields, little) + rest
    ensures Field(c, |before| + Start(fields, i), fields[i].1, little) == fields[i].0
    decreases |fields|
  {
    var first, tail := Number(fields[0], little), Layout(fields[1..], little);
    FourParts(before, first, tail, rest);
    if i == 0 {
      NumberReadBack(fields[0], little);
    } else {
      FitTail(fields);
      FieldReadBack(c, fields[1..], little, before + first, rest, i - 1);
      assert fields[1..][i - 1] == fields[i] && |before + first| == |before| + fields[0].1;
    }
  }

  lemma FourParts(before: Data, first: Data, tail: Data, rest: Data)
    ensures before + (first + tail) + rest == before + first + tail + rest
    ensures ReadAt(before + (first + tail) + rest, |before|, |first|) == first
  {
  }

  lemma FitTail(fields: seq<Packed>)
    requires fields != [] && AllFit(fields)
    ensures AllFit(fields[1..])
  {
  }

  lemma {:induction false} LayoutLength(fields: seq<Packed>, little: bool)
    ensures |Layout(fields, little)| == Start(fields, |fields|)
  {
    if fields != [] {
      LayoutLength(fields[1..], little);
    }
  }

  lemma EntryReadBack(b: Data, fields: seq<Packed>, little: bool, i: nat, at: nat)
    requires i < |fields| && AllFit(fields) && b == Layout(fields, little) && at == Start(fields, i)
    ensures Field(b, at, fields[i].1, little) == fields[i].0
  {
    var none := NothingAround(b);
    FieldReadBack(b, fields, little, none, none, i);
  }

  lemma NothingAround(b: Data) returns (none: Data)
    ensures |none| == 0 && none + b + none == b
  {
    none := [];
  }

  lemma {:induction false} StartStep(fields: seq<Packed>, i: nat)
    requires i < |fields|
    ensures Start(fields, i + 1) == Start(fields, i) + fields[i].1
  {
    if i > 0 {
      StartStep(fields[1..], i - 1);
    }
  }

  /** Addresses and offsets. */
  function Word(arch: Arch): nat {
    if arch.Elf32? then 4 else 8
  }

  // Section headers

  datatype SectionHeader = SectionHeader(name: nat, kind: nat, flags: nat, addr: nat, offset: nat, size: nat,
                                         link: nat, info: nat, addralign: nat, entsize: nat)

  function SectionFields(h: SectionHeader, w: nat): seq<Packed> {
    [(h.name, 4), (h.kind, 4), (h.flags, w), (h.addr, w), (h.offset, w), (h.size, w),
     (h.link, 4), (h.info, 4), (h.addralign, w), (h.entsize, w)]
  }

  /** Of a section header, relocation sees its name, type, offset and size. */
  lemma SectionReadBack(e: Elf, h: SectionHeader)
    requires AllFit(SectionFields(h, Word(e.arch)))
    ensures SectionOf(e, Layout(SectionFields(h, Word(e.arch)), e.little)) ==
            Some(Section(h.name, h.kind, h.offset, h.size))
  {
    var w, fields := Word(e.arch), SectionFields(h, Word(e.arch));
    SectionStarts(h, w);
    LayoutLength(fields, e.little);
    var b := Layout(fields, e.little);
    EntryReadBack(b, fields, e.little, 0, 0);
    EntryReadBack(b, fields, e.little, 1, 4);
    EntryReadBack(b, fields, e.little, 4, 8 + 2 * w);
    EntryReadBack(b, fields, e.little, 5, 8 + 3 * w);
  }

  lemma SectionStarts(h: SectionHeader, w: nat)
    ensures var f := SectionFields(h, w);
            && Start(f, 0) == 0 && Start(f, 1) == 4 && Start(f, 4) == 8 + 2 * w && Start(f, 5) == 8 + 3 * w
            && Start(f, |f|) == 16 + 6 * w
  {
    var f := SectionFields(h, w);
    StartStep(f, 0);
    StartStep(f, 1);
    StartStep(f, 2);
    StartStep(f, 3);
    StartStep(f, 4);
    StartStep(f, 5);
    StartStep(f, 6);
    StartStep(f, 7);
    StartStep(f, 8);
    StartStep(f, 9);
  }

  // Program headers

  datatype ProgramHeader = ProgramHeader(kind: nat, flags: nat, offset: nat, vaddr: nat, paddr: nat, filesz: nat,
                                         memsz: nat, align: nat)

  /** The flags stand in another place in 64-bit files. */
  function ProgramFields(h: ProgramHeader, arch: Arch): seq<Packed> {
    if arch.Elf32? then
      [(h.kind, 4), (h.offset, 4), (h.vaddr, 4), (h.paddr, 4), (h.filesz, 4), (h.memsz, 4), (h.flags, 4), (h.align, 4)]
    else
      [(h.kind, 4), (h.flags, 4), (h.offset, 8), (h.vaddr, 8), (h.paddr, 8), (h.filesz, 8), (h.memsz, 8), (h.align, 8)]
  }

  /** Of a program header, relocation sees its type, its offset and its size in the file. */
  lemma ProgramReadBack(e: Elf, h: ProgramHeader)
    requires AllFit(ProgramFields(h, e.arch))
    ensures SegmentOf(e, Layout(ProgramFields(h, e.arch), e.little)) == Some(Segment(h.kind, h.offset, h.filesz))
  {
    var f := ProgramFields(h, e.arch);
    ProgramStarts(h, e.arch);
    LayoutLength(f, e.little);
    var b := Layout(f, e.little);
    EntryReadBack(b, f, e.little, 0, 0);
    if e.arch.Elf32? {
      EntryReadBack(b, f, e.little, 1, 4);
      EntryReadBack(b, f, e.little, 4, 16);
    } else {
      EntryReadBack(b, f, e.little, 2, 8);
      EntryReadBack(b, f, e.little, 5, 32);
    }
  }

  lemma ProgramStarts(h: ProgramHeader, arch: Arch)
    ensures var f := ProgramFields(h, arch);
            && Start(f, 0) == 0 && Start(f, |f|) == (if arch.Elf32? then 32 else 56)
            && (arch.Elf32? ==> Start(f, 1) == 4 && Start(f, 4) == 16)
            && (arch.Elf64? ==> Start(f, 2) == 8 && Start(f, 5) == 32)
  {
    var f := ProgramFields(h, arch);
    StartStep(f, 0);
    StartStep(f, 1);
    StartStep(f, 2);
    StartStep(f, 3);
    StartStep(f, 4);
    StartStep(f, 5);
    StartStep(f, 6);
    StartStep(f, 7);
  }

  // The file header

  datatype FileHeader = FileHeader(kind: nat, machine: nat, version: nat, entry: nat, phoff: nat, shoff: nat,
                                   flags: nat,
                                   ehsize: nat, phentsize: nat, phnum: nat, shentsize: nat, shnum: nat, shstrndx: nat)

  function FileFields(h: FileHeader, w: nat): seq<Packed> {
    [(h.kind, 2), (h.machine, 2), (h.version, 4), (h.entry, w), (h.phoff, w), (h.shoff, w), (h.flags, 4),
     (h.ehsize, 2), (h.phentsize, 2), (h.phnum, 2), (h.shentsize, 2), (h.shnum, 2), (h.shstrndx, 2)]
  }

  /** A file: sixteen bytes of identification, of which the sixth tells the byte order, then the header and the rest. */
  predicate IsFile(c: Data, ident: Data, h: FileHeader, w: nat, rest: Data) {
    && |ident| == 16 && |c| >= 64 && AllFit(FileFields(h, w))
    && c == ident + Layout(FileFields(h, w), ident[5] == 1) + rest
  }

  lemma HeaderReadBack(c: Data, ident: Data, h: FileHeader, arch: Arch, rest: Data)
    requires IsFile(c, ident, h, Word(arch), rest)
    ensures Parsed(c, arch) ==
            Elf(arch, ident[5] == 1, h.phoff, h.shoff, h.phentsize, h.phnum, h.shentsize, h.shnum, h.shstrndx)
  {
    var w := Word(arch);
    FileStarts(h, w);
    FileFieldsRead(c, ident, FileFields(h, w), h, w, rest);
  }

  /** The fifth byte of the identification tells the class, and the first is checked. */
  lemma ClassReadBack(c: Data, ident: Data, rest: Data)
    requires |c| >= 64 && |ident| == 16 && c == ident + rest
    ensures ArchOf(c) == Some(Elf32) <==> ident[0] == 0x7F && ident[4] == 1
    ensures ArchOf(c) == Some(Elf64) <==> ident[0] == 0x7F && ident[4] == 2
  {
    assert c[0] == ident[0] && c[4] == ident[4];
  }

  /** Which number stands where. */
  predicate StandsAt(fields: seq<Packed>, i: nat, at: nat, f: Packed) {
    i < |fields| && fields[i] == f && Start(fields, i) == at
  }

  ghost predicate FieldsStand(fields: seq<Packed>, h: FileHeader, w: nat) {
    && StandsAt(fields, 4, 8 + w, (h.phoff, w)) && StandsAt(fields, 5, 8 + 2 * w, (h.shoff, w))
    && StandsAt(fields, 8, 14 + 3 * w, (h.phentsize, 2)) && StandsAt(fields, 9, 16 + 3 * w, (h.phnum, 2))
    && StandsAt(fields, 10, 18 + 3 * w, (h.shentsize, 2)) && StandsAt(fields, 11, 20 + 3 * w, (h.shnum, 2))
    && StandsAt(fields, 12, 22 + 3 * w, (h.shstrndx, 2))
  }

  lemma ByteOrder(c: Data, ident: Data, layout: Data, rest: Data)
    requires |ident| == 16 && c == ident + layout + rest
    ensures c[5] == ident[5]
  {
  }

  lemma FileFieldsRead(c: Data, ident: Data, fields: seq<Packed>, h: FileHeader, w: nat, rest: Data)
    requires |ident| == 16 && |c| >= 64 && AllFit(fields) && c == ident + Layout(fields, ident[5] == 1) + rest
    requires FieldsStand(fields, h, w)
    ensures c[5] == ident[5]
    ensures OffsetsRead(c, h, w, c[5] == 1) && CountsRead(c, h, w, c[5] == 1)
  {
    ByteOrder(c, ident, Layout(fields, ident[5] == 1), rest);
    OffsetsReadBack(c, ident, fields, h, w, rest, ident[5] == 1);
    CountsReadBack(c, ident, fields, h, w, rest, ident[5] == 1);
  }

  ghost predicate OffsetsRead(c: Data, h: FileHeader, w: nat, little: bool) {
    && Field(c, 24 + w, w, little) == h.phoff && Field(c, 24 + 2 * w, w, little) == h.shoff
    && Field(c, 30 + 3 * w, 2, little) == h.phentsize
  }

  ghost predicate CountsRead(c: Data, h: FileHeader, w: nat, little: bool) {
    && Field(c, 32 + 3 * w, 2, little) == h.phnum && Field(c, 34 + 3 * w, 2, little) == h.shentsize
    && Field(c, 36 + 3 * w, 2, little) == h.shnum && Field(c, 38 + 3 * w, 2, little) == h.shstrndx
  }

  lemma OffsetsReadBack(c: Data, ident: Data, fields: seq<Packed>, h: FileHeader, w: nat, rest: Data, little: bool)
    requires |ident| == 16 && AllFit(fields) && c == ident + Layout(fields, little) + rest && FieldsStand(fields, h, w)
    ensures OffsetsRead(c, h, w, little)
  {
    FileFieldIs(c, ident, fields, little, rest, 4, 8 + w, (h.phoff, w));
    FileFieldIs(c, ident, fields, little, rest, 5, 8 + 2 * w, (h.shoff, w));
    FileFieldIs(c, ident, fields, little, rest, 8, 14 + 3 * w, (h.phentsize, 2));
  }

  lemma CountsReadBack(c: Data, ident: Data, fields: seq<Packed>, h: FileHeader, w: nat, rest: Data, little: bool)
    requires |ident| == 16 && AllFit(fields) && c == ident + Layout(fields, little) + rest && FieldsStand(fields, h, w)
    ensures CountsRead(c, h, w, little)
  {
    FileFieldIs(c, ident, fields, little, rest, 9, 16 + 3 * w, (h.phnum, 2));
    FileFieldIs(c, ident, fields, little, rest, 10, 18 + 3 * w, (h.shentsize, 2));
    FileFieldIs(c, ident, fields, little, rest, 11, 20 + 3 * w, (h.shnum, 2));
    FileFieldIs(c, ident, fields, little, rest, 12, 22 + 3 * w, (h.shstrndx, 2));
  }

  lemma FileFieldIs(c: Data, ident: Data, fields: seq<Packed>, little: bool, rest: Data, i: nat, at: nat, f: Packed)
    requires |ident| == 16 && AllFit(fields) && c == ident + Layout(fields, little) + rest && StandsAt(fields, i, at, f)
    ensures Field(c, 16 + at, f.1, little) == f.0
  {
    FieldReadBack(c, fields, little, ident, rest, i);
  }

  lemma FileStarts(h: FileHeader, w: nat)
    ensures FieldsStand(FileFields(h, w), h, w)
  {
    var f := FileFields(h, w);
    StartStep(f, 0);
    StartStep(f, 1);
    StartStep(f, 2);
    StartStep(f, 3);
    StartStep(f, 4);
    StartStep(f, 5);
    StartStep(f, 6);
    StartStep(f, 7);
    StartStep(f, 8);
    StartStep(f, 9);
    StartStep(f, 10);
    StartStep(f, 11);
  }
}
