/** Rewriting the sections of the dynamic loader and of gcc: `change_dl_sysdirs` in relocate_sdk.py. */
module ElfSections {
  import opened Text
  import opened Wrappers
  import opened Bytes
  import opened ElfBytes
  import opened ElfHeader

  const SLOT: nat := 4096
  const PROGBITS := 1

  /** What the names of sections mean here. */
  datatype Role = SysDirs | SysDirsLen | LdSoCache | GccRelocPrefix | Other

  function AsBytes(s: string): Data {
    seq(|s|, i requires 0 <= i < |s| => (s[i] as int % 256) as Byte)
  }

  function RoleOf(name: Data): Role {
    if name == AsBytes(".sysdirs") then SysDirs
    else if name == AsBytes(".sysdirslen") then SysDirsLen
    else if name == AsBytes(".ldsocache") then LdSoCache
    else if name == AsBytes(".gccrelocprefix") then GccRelocPrefix
    else Other
  }

  /** The placeholder in the files, and what it is replaced by; the latter has no backslash, which would be special
      in a replacement text. */
  datatype Prefixes = Prefixes(was: Data, now: Data)

  predicate Usable(p: Prefixes) {
    p.was != []
  }

  /** How a run ends; when it stops early the file stays as it is at that moment. */
  datatype Outcome = Done | Exits | Raises

  /** Text that has been relocated, without its trailing zeros. */
  function Relocated(s: Data, p: Prefixes): Data
    requires Usable(p)
  {
    StripNuls(Substitute(s, p.was, p.now))
  }

  // Slots

  datatype Written = Written(content: Data, outcome: Outcome)

  /** Rewrites the slots of a section, from slot `k` on. */
  function SlotsFrom(c: Data, off: nat, size: nat, k: nat, p: Prefixes): Written
    requires Usable(p)
    decreases size - k * SLOT
  {
    if (k + 1) * SLOT > size then Written(c, Done)
    else
      var path := Relocated(ReadAt(c, off + k * SLOT, SLOT), p);
      if |path| >= SLOT then Written(c, Exits)
      else SlotsFrom(WriteAt(c, off + k * SLOT, Padded(path, SLOT)), off, size, k + 1, p)
  }

  function SlotAt(c: Data, off: nat, k: nat): Data {
    ReadAt(c, off + k * SLOT, SLOT)
  }

  /** A slot after relocation: as long as before, with a zero at its end, holding the relocated path. */
  ghost predicate IsSlotOf(slot: Data, path: Data) {
    |path| < SLOT && slot == Padded(path, SLOT) && |slot| == SLOT && slot[SLOT - 1] == 0
  }

  lemma PaddedIsSlot(path: Data)
    requires |path| < SLOT
    ensures IsSlotOf(Padded(path, SLOT), path)
  {
  }

  /** Where the slots of a section end. */
  function SlotsEnd(off: nat, size: nat): nat {
    off + size / SLOT * SLOT
  }

  /** Equal but for the bytes from `lo` up to `hi`. */
  ghost predicate SameOutside(c: Data, d: Data, lo: nat, hi: nat) {
    |c| == |d| && forall p | 0 <= p < |c| && !(lo <= p < hi) :: c[p] == d[p]
  }

  lemma WriteSlot(c: Data, off: nat, k: nat, b: Data)
    requires off + (k + 1) * SLOT <= |c| && |b| == SLOT
    ensures var d := WriteAt(c, off + k * SLOT, b);
            && SameOutside(c, d, off + k * SLOT, off + (k + 1) * SLOT)
            && SlotAt(d, off, k) == b
            && forall j: nat | j != k && off + (j + 1) * SLOT <= |c| :: SlotAt(d, off, j) == SlotAt(c, off, j)
  {
    var d := WriteAt(c, off + k * SLOT, b);
    WriteInside(c, off + k * SLOT, b);
    forall j: nat | j != k && off + (j + 1) * SLOT <= |c| ensures SlotAt(d, off, j) == SlotAt(c, off, j) {
      SameSlice(c, d, off + j * SLOT, SLOT);
    }
  }

  ghost predicate SlotFits(c: Data, off: nat, j: nat, p: Prefixes)
    requires Usable(p)
  {
    |Relocated(SlotAt(c, off, j), p)| < SLOT
  }

  ghost predicate SlotRewritten(c: Data, d: Data, off: nat, j: nat, p: Prefixes)
    requires Usable(p)
  {
    IsSlotOf(SlotAt(d, off, j), Relocated(SlotAt(c, off, j), p))
  }

  ghost predicate SlotsFit(c: Data, off: nat, size: nat, k: nat, p: Prefixes)
    requires Usable(p)
  {
    forall j | k <= j && (j + 1) * SLOT <= size :: SlotFits(c, off, j, p)
  }

  ghost predicate SlotsRewritten(c: Data, d: Data, off: nat, size: nat, k: nat, p: Prefixes)
    requires Usable(p)
  {
    forall j | k <= j && (j + 1) * SLOT <= size :: SlotRewritten(c, d, off, j, p)
  }

  lemma {:induction false} SlotsStayInside(c: Data, off: nat, size: nat, k: nat, p: Prefixes)
    requires Usable(p) && off + size <= |c| && k * SLOT <= size
    ensures SameOutside(c, SlotsFrom(c, off, size, k, p).content, off + k * SLOT, SlotsEnd(off, size))
    ensures !SlotsFrom(c, off, size, k, p).outcome.Raises?
    decreases size - k * SLOT
  {
    if (k + 1) * SLOT <= size {
      var path := Relocated(SlotAt(c, off, k), p);
      if |path| < SLOT {
        var b := Padded(path, SLOT);
        WriteSlot(c, off, k, b);
        SlotsStayInside(WriteAt(c, off + k * SLOT, b), off, size, k + 1, p);
        OutsideBoth(c, WriteAt(c, off + k * SLOT, b), SlotsFrom(c, off, size, k, p).content,
                    off + k * SLOT, off + (k + 1) * SLOT, SlotsEnd(off, size));
      }
    }
  }

  lemma OutsideBoth(c: Data, d: Data, r: Data, lo: nat, mid: nat, hi: nat)
    requires lo <= mid <= hi && SameOutside(c, d, lo, mid) && SameOutside(d, r, mid, hi)
    ensures SameOutside(c, r, lo, hi)
  {
  }

  /** Going on after slot `k` has been written is the same as going on with the slots of the original. */
  lemma NextSlots(c: Data, d: Data, r: Data, off: nat, size: nat, k: nat, p: Prefixes)
    requires Usable(p) && (k + 1) * SLOT <= size
    requires forall j: nat | j != k && (j + 1) * SLOT <= size :: SlotAt(d, off, j) == SlotAt(c, off, j)
    requires SlotFits(c, off, k, p)
    ensures SlotsFit(c, off, size, k, p) <==> SlotsFit(d, off, size, k + 1, p)
    ensures SlotRewritten(c, r, off, k, p) && SlotsRewritten(d, r, off, size, k + 1, p) ==>
            SlotsRewritten(c, r, off, size, k, p)
  {
    forall j | k + 1 <= j && (j + 1) * SLOT <= size
      ensures SlotFits(c, off, j, p) <==> SlotFits(d, off, j, p)
      ensures SlotRewritten(c, r, off, j, p) <==> SlotRewritten(d, r, off, j, p)
    {
      assert SlotAt(d, off, j) == SlotAt(c, off, j);
    }
  }

  lemma OneSlot(c: Data, off: nat, size: nat, k: nat, p: Prefixes, path: Data, d: Data, r: Data)
    requires Usable(p) && off + size <= |c| && (k + 1) * SLOT <= size
    requires path == Relocated(SlotAt(c, off, k), p) && |path| < SLOT
    requires d == WriteAt(c, off + k * SLOT, Padded(path, SLOT))
    requires SameOutside(d, r, off + (k + 1) * SLOT, SlotsEnd(off, size))
    ensures |d| == |c| && SlotRewritten(c, r, off, k, p)
    ensures forall j: nat | j != k && (j + 1) * SLOT <= size :: SlotAt(d, off, j) == SlotAt(c, off, j)
  {
    PaddedIsSlot(path);
    WriteSlot(c, off, k, Padded(path, SLOT));
    SameSlice(d, r, off + k * SLOT, SLOT);
  }

  /** Each slot is rewritten on its own, from what it held at the start. */
  lemma {:induction false} SlotsAreIndependent(c: Data, off: nat, size: nat, k: nat, p: Prefixes)
    requires Usable(p) && off + size <= |c| && k * SLOT <= size
    ensures SlotsFrom(c, off, size, k, p).outcome == Done <==> SlotsFit(c, off, size, k, p)
    ensures SlotsFit(c, off, size, k, p) ==> SlotsRewritten(c, SlotsFrom(c, off, size, k, p).content, off, size, k, p)
    decreases size - k * SLOT
  {
    if (k + 1) * SLOT <= size {
      var path := Relocated(SlotAt(c, off, k), p);
      if |path| >= SLOT {
        assert !SlotFits(c, off, k, p);
      } else {
        var d := WriteAt(c, off + k * SLOT, Padded(path, SLOT));
        var r := SlotsFrom(c, off, size, k, p).content;
        WriteSlot(c, off, k, Padded(path, SLOT));
        SlotsStayInside(d, off, size, k + 1, p);
        OneSlot(c, off, size, k, p, path, d, r);
        SlotsAreIndependent(d, off, size, k + 1, p);
        NextSlots(c, d, r, off, size, k, p);
      }
    }
  }

  // The walk over the sections

  datatype Dirs = Dirs(bytes: Data, offset: nat, size: nat)

  /** What the walk remembers for the end: the directories, and where their lengths are. */
  datatype Tables = Tables(dirs: Option<Dirs>, lens: Option<nat>)

  datatype Walk = Walk(content: Data, tables: Tables, outcome: Outcome)

  function StepOn(c: Data, s: Section, role: Role, t: Tables, p: Prefixes): Walk
    requires Usable(p)
  {
    if s.kind != PROGBITS then Walk(c, t, Done)
    else match role
      case SysDirs => Walk(c, t.(dirs := Some(Dirs(ReadAt(c, s.offset, s.size), s.offset, s.size))), Done)
      case SysDirsLen => Walk(c, t.(lens := Some(s.offset)), Done)
      case LdSoCache =>
        var path := Relocated(ReadAt(c, s.offset, s.size), p);
        if |path| >= s.size then Walk(c, t, Exits) else Walk(WriteAt(c, s.offset, Padded(path, s.size)), t, Done)
      case GccRelocPrefix =>
        var r := SlotsFrom(c, s.offset, s.size, 0, p);
        Walk(r.content, t, r.outcome)
      case Other => Walk(c, t, Done)
  }

  /** Each header is read from the file as the earlier sections have left it. */
  function SectionsFrom(e: Elf, c: Data, i: nat, t: Tables, p: Prefixes, role: Section -> Role): Walk
    requires Usable(p)
    decreases e.shnum - i
  {
    if i >= e.shnum then Walk(c, t, Done)
    else match SectionAt(e, c, i)
      case None => Walk(c, t, Raises)
      case Some(s) =>
        var w := StepOn(c, s, role(s), t, p);
        if w.outcome != Done then w else SectionsFrom(e, w.content, i + 1, w.tables, p, role)
  }

  // The tables of directories

  function UntilEmpty(parts: seq<Data>): (r: seq<Data>)
    ensures forall x | x in r :: x in parts && x != []
  {
    if parts == [] || parts[0] == [] then [] else [parts[0]] + UntilEmpty(parts[1..])
  }

  function Paths(dirs: Data): (r: seq<Data>)
    ensures forall x | x in r :: x != [] && 0 !in x
  {
    UntilEmpty(Split(dirs, 0))
  }

  function NewPaths(paths: seq<Data>, p: Prefixes): (r: seq<Data>)
    requires Usable(p)
    ensures |r| == |paths| && forall i | 0 <= i < |r| :: r[i] == Substitute(paths[i], p.was, p.now)
  {
    if paths == [] then [] else NewPaths(paths[..|paths| - 1], p) + [Substitute(paths[|paths| - 1], p.was, p.now)]
  }

  function Strings(paths: seq<Data>): Data {
    if paths == [] then [] else Strings(paths[..|paths| - 1]) + paths[|paths| - 1] + [0]
  }

  function Lengths(paths: seq<Data>, width: nat): (r: Data)
    ensures |r| == |paths| * width
  {
    if paths == [] then [] else Lengths(paths[..|paths| - 1], width) + Pack(|paths[|paths| - 1]|, width)
  }

  predicate Packable(paths: seq<Data>, width: nat) {
    forall x | x in paths :: |x| < Limit(width)
  }

  /** Lengths are always packed with the least significant byte first. */
  function TablesWritten(e: Elf, c: Data, t: Tables, p: Prefixes): Written
    requires Usable(p)
  {
    match (t.dirs, t.lens)
    case (None, _) => Written(c, Done)
    case (Some(_), None) => Written(c, Raises)
    case (Some(d), Some(lens)) =>
      var paths := NewPaths(Paths(d.bytes), p);
      if !Packable(paths, LengthWidth(e)) then Written(c, Raises)
      else
        var c' := WriteAt(c, d.offset, Padded(Strings(paths), d.size));
        Written(WriteAt(c', lens, Lengths(paths, LengthWidth(e))), Done)
  }

  function RoleIn(strtab: Data): Section -> Role {
    (s: Section) => RoleOf(NameAt(strtab, s.name))
  }

  function Changed(e: Elf, c: Data, p: Prefixes): Written
    requires Usable(p)
  {
    match SectionAt(e, c, e.shstrndx)
    case None => Written(c, Raises)
    case Some(names) =>
      var w := SectionsFrom(e, c, 0, Tables(None, None), p, RoleIn(ReadAt(c, names.offset, names.size)));
      if w.outcome != Done then Written(w.content, w.outcome) else TablesWritten(e, w.content, w.tables, p)
  }

  // Sections that lie apart

  predicate IsNamed(s: Section, role: Section -> Role) {
    s.kind == PROGBITS && role(s) != Other
  }

  predicate Apart(a: nat, n: nat, b: nat, m: nat) {
    a + n <= b || b + m <= a
  }

  ghost predicate Reads(e: Elf, c: Data, table: seq<Section>) {
    |table| == e.shnum && forall i | 0 <= i < e.shnum :: SectionAt(e, c, i) == Some(table[i])
  }

  /** The sections that are rewritten lie in a file of `n` bytes, apart from each other and from the headers. */
  ghost predicate LaidOut(e: Elf, n: nat, table: seq<Section>, role: Section -> Role) {
    && (forall i | 0 <= i < |table| && IsNamed(table[i], role) ::
          && table[i].offset + table[i].size <= n
          && Apart(table[i].offset, table[i].size, e.shoff, e.shnum * e.shentsize))
    && (forall i, j | 0 <= i < j < |table| && IsNamed(table[i], role) && IsNamed(table[j], role) ::
          Apart(table[i].offset, table[i].size, table[j].offset, table[j].size))
  }

  /** What the walk writes of a section. */
  function WrittenPart(s: Section, role: Section -> Role): nat {
    if s.kind != PROGBITS then 0
    else match role(s)
      case LdSoCache => s.size
      case GccRelocPrefix => s.size / SLOT * SLOT
      case _ => 0
  }

  ghost predicate Fits(s: Section, role: Section -> Role, o: Data, p: Prefixes)
    requires Usable(p)
  {
    s.kind == PROGBITS ==>
      match role(s)
      case LdSoCache => |Relocated(ReadAt(o, s.offset, s.size), p)| < s.size
      case GccRelocPrefix => SlotsFit(o, s.offset, s.size, 0, p)
      case _ => true
  }

  /** A section of `c` is what relocating the same section of `o` gives. */
  ghost predicate Rewritten(s: Section, role: Section -> Role, o: Data, c: Data, p: Prefixes)
    requires Usable(p)
  {
    s.kind == PROGBITS ==>
      match role(s)
      case LdSoCache => ReadAt(c, s.offset, s.size) == Padded(Relocated(ReadAt(o, s.offset, s.size), p), s.size)
      case GccRelocPrefix => SlotsRewritten(o, c, s.offset, s.size, 0, p)
      case _ => ReadAt(c, s.offset, s.size) == ReadAt(o, s.offset, s.size)
  }

  ghost predicate SameIn(c: Data, d: Data, off: nat, n: nat) {
    |c| == |d| && forall q | off <= q < off + n && q < |c| :: c[q] == d[q]
  }

  lemma SameRead(c: Data, d: Data, off: nat, n: nat)
    requires SameIn(c, d, off, n)
    ensures ReadAt(c, off, n) == ReadAt(d, off, n)
  {
    assert forall i | 0 <= i < |ReadAt(c, off, n)| :: ReadAt(c, off, n)[i] == ReadAt(d, off, n)[i];
  }

  lemma EntryInside(i: nat, n: nat, size: nat)
    requires i < n
    ensures i * size + size <= n * size
  {
    var rest := n - (i + 1);
    assert n * size == i * size + size + rest * size;
  }

  /** Headers that nothing overwrote are read the same. */
  lemma HeaderStays(e: Elf, c: Data, d: Data, i: nat)
    requires i < e.shnum && SameIn(c, d, e.shoff, e.shnum * e.shentsize)
    ensures SectionAt(e, c, i) == SectionAt(e, d, i)
  {
    EntryInside(i, e.shnum, e.shentsize);
    SameRead(c, d, e.shoff + i * e.shentsize, e.shentsize);
  }

  /** One step changes at most the part of the section that it writes, and does to it what it should. */
  lemma StepRewrites(c: Data, s: Section, role: Section -> Role, t: Tables, p: Prefixes)
    requires Usable(p) && (IsNamed(s, role) ==> s.offset + s.size <= |c|)
    ensures var w := StepOn(c, s, role(s), t, p);
            && SameOutside(c, w.content, s.offset, s.offset + WrittenPart(s, role))
            && (w.outcome == Done <==> Fits(s, role, c, p))
            && (w.outcome == Done ==> Rewritten(s, role, c, w.content, p))
            && !w.outcome.Raises?
  {
    if s.kind == PROGBITS {
      match role(s)
      case LdSoCache =>
        var path := Relocated(ReadAt(c, s.offset, s.size), p);
        if |path| < s.size {
          WriteInside(c, s.offset, Padded(path, s.size));
        }
      case GccRelocPrefix =>
        SlotsStayInside(c, s.offset, s.size, 0, p);
        SlotsAreIndependent(c, s.offset, s.size, 0, p);
      case _ =>
    }
  }

  // The whole walk

  /** Whether byte `q` lies in what the walk writes of one of the first `n` sections. */
  ghost predicate Covered(q: nat, table: seq<Section>, n: nat, role: Section -> Role) {
    exists j :: 0 <= j < n && j < |table| && table[j].offset <= q < table[j].offset + WrittenPart(table[j], role)
  }

  ghost predicate SameUncovered(o: Data, c: Data, table: seq<Section>, n: nat, role: Section -> Role) {
    |o| == |c| && forall q | 0 <= q < |o| && !Covered(q, table, n, role) :: c[q] == o[q]
  }

  lemma WrittenPartInside(s: Section, role: Section -> Role)
    ensures WrittenPart(s, role) <= s.size && (!IsNamed(s, role) ==> WrittenPart(s, role) == 0)
  {
  }

  /** Sections that lie apart are not in what is written of the others. */
  lemma NotCovered(e: Elf, size: nat, table: seq<Section>, n: nat, role: Section -> Role, i: nat, q: nat)
    requires n <= |table| && i < |table| && LaidOut(e, size, table, role)
    requires IsNamed(table[i], role) && n <= i && table[i].offset <= q < table[i].offset + table[i].size
    ensures !Covered(q, table, n, role)
  {
    forall j | 0 <= j < n ensures !(table[j].offset <= q < table[j].offset + WrittenPart(table[j], role)) {
      WrittenPartInside(table[j], role);
    }
  }

  lemma HeadersNotCovered(e: Elf, size: nat, table: seq<Section>, n: nat, role: Section -> Role, q: nat)
    requires n <= |table| && LaidOut(e, size, table, role) && e.shoff <= q < e.shoff + e.shnum * e.shentsize
    ensures !Covered(q, table, n, role)
  {
    forall j | 0 <= j < n ensures !(table[j].offset <= q < table[j].offset + WrittenPart(table[j], role)) {
      WrittenPartInside(table[j], role);
    }
  }

  /** Before section `i` is looked at, it and the headers are as they were. */
  lemma StillOriginal(e: Elf, o: Data, c: Data, table: seq<Section>, i: nat, role: Section -> Role)
    requires i < |table| == e.shnum && LaidOut(e, |o|, table, role) && SameUncovered(o, c, table, i, role)
    ensures SectionAt(e, c, i) == SectionAt(e, o, i)
    ensures IsNamed(table[i], role) ==> SameIn(o, c, table[i].offset, table[i].size)
  {
    forall q | e.shoff <= q < e.shoff + e.shnum * e.shentsize && q < |o| ensures c[q] == o[q] {
      HeadersNotCovered(e, |o|, table, i, role, q);
    }
    HeaderStays(e, c, o, i);
    if IsNamed(table[i], role) {
      forall q | table[i].offset <= q < table[i].offset + table[i].size && q < |o| ensures c[q] == o[q] {
        NotCovered(e, |o|, table, i, role, i, q);
      }
    }
  }

  /** A section's relocation depends on its own bytes only. */
  lemma DependsOnOwnBytes(s: Section, role: Section -> Role, o: Data, c: Data, o': Data, c': Data, p: Prefixes)
    requires Usable(p) && SameIn(o, o', s.offset, s.size) && SameIn(c, c', s.offset, s.size)
    ensures Fits(s, role, o, p) <==> Fits(s, role, o', p)
    ensures Rewritten(s, role, o, c, p) <==> Rewritten(s, role, o', c', p)
  {
    SameRead(o, o', s.offset, s.size);
    SameRead(c, c', s.offset, s.size);
    forall j: nat | (j + 1) * SLOT <= s.size
      ensures SlotAt(o, s.offset, j) == SlotAt(o', s.offset, j) && SlotAt(c, s.offset, j) == SlotAt(c', s.offset, j)
    {
      SameRead(o, o', s.offset + j * SLOT, SLOT);
      SameRead(c, c', s.offset + j * SLOT, SLOT);
    }
    SlotsDepend(s, o, c, o', c', p);
  }

  lemma SlotsDepend(s: Section, o: Data, c: Data, o': Data, c': Data, p: Prefixes)
    requires Usable(p)
    requires forall j: nat | (j + 1) * SLOT <= s.size ::
               SlotAt(o, s.offset, j) == SlotAt(o', s.offset, j) && SlotAt(c, s.offset, j) == SlotAt(c', s.offset, j)
    ensures SlotsFit(o, s.offset, s.size, 0, p) <==> SlotsFit(o', s.offset, s.size, 0, p)
    ensures SlotsRewritten(o, c, s.offset, s.size, 0, p) <==> SlotsRewritten(o', c', s.offset, s.size, 0, p)
  {
    forall j | 0 <= j && (j + 1) * SLOT <= s.size
      ensures SlotFits(o, s.offset, j, p) <==> SlotFits(o', s.offset, j, p)
      ensures SlotRewritten(o, c, s.offset, j, p) <==> SlotRewritten(o', c', s.offset, j, p)
    {
      assert SlotAt(o, s.offset, j) == SlotAt(o', s.offset, j) && SlotAt(c, s.offset, j) == SlotAt(c', s.offset, j);
    }
  }

  ghost predicate AllRewritten(o: Data, c: Data, table: seq<Section>, n: nat, role: Section -> Role, p: Prefixes)
    requires Usable(p)
  {
    forall j | 0 <= j < n && j < |table| && IsNamed(table[j], role) :: Rewritten(table[j], role, o, c, p)
  }

  ghost predicate AllFit(o: Data, table: seq<Section>, n: nat, role: Section -> Role, p: Prefixes)
    requires Usable(p)
  {
    forall j | n <= j < |table| && IsNamed(table[j], role) :: Fits(table[j], role, o, p)
  }

  /** One more section of the table. */
  lemma OneMoreSection(e: Elf, o: Data, c: Data, d: Data, table: seq<Section>, i: nat, role: Section -> Role,
                       p: Prefixes)
    requires Usable(p) && i < |table| == e.shnum && LaidOut(e, |o|, table, role)
    requires SameUncovered(o, c, table, i, role) && AllRewritten(o, c, table, i, role, p)
    requires SameOutside(c, d, table[i].offset, table[i].offset + WrittenPart(table[i], role))
    ensures SameUncovered(o, d, table, i + 1, role)
    ensures Rewritten(table[i], role, c, d, p) ==> AllRewritten(o, d, table, i + 1, role, p)
  {
    forall q | 0 <= q < |o| && !Covered(q, table, i + 1, role) ensures d[q] == o[q] {
      assert !(table[i].offset <= q < table[i].offset + WrittenPart(table[i], role));
      assert !Covered(q, table, i, role);
    }
    StillOriginal(e, o, c, table, i, role);
    WrittenPartInside(table[i], role);
    if Rewritten(table[i], role, c, d, p) {
      forall j | 0 <= j < i + 1 && IsNamed(table[j], role) ensures Rewritten(table[j], role, o, d, p) {
        if j == i {
          DependsOnOwnBytes(table[i], role, o, d, c, d, p);
        } else {
          DependsOnOwnBytes(table[j], role, o, c, o, d, p);
        }
      }
    }
  }

  lemma OneStepOfWalk(e: Elf, o: Data, c: Data, table: seq<Section>, i: nat, t: Tables, p: Prefixes,
                      role: Section -> Role)
    requires Usable(p) && i < |table| == e.shnum && LaidOut(e, |o|, table, role)
    requires SameUncovered(o, c, table, i, role) && AllRewritten(o, c, table, i, role, p)
    ensures var w := StepOn(c, table[i], role(table[i]), t, p);
            && SameUncovered(o, w.content, table, i + 1, role)
            && (w.outcome == Done <==> IsNamed(table[i], role) ==> Fits(table[i], role, o, p))
            && (w.outcome == Done ==> AllRewritten(o, w.content, table, i + 1, role, p))
            && !w.outcome.Raises?
  {
    StillOriginal(e, o, c, table, i, role);
    var w := StepOn(c, table[i], role(table[i]), t, p);
    StepRewrites(c, table[i], role, t, p);
    OneMoreSection(e, o, c, w.content, table, i, role, p);
    if IsNamed(table[i], role) {
      DependsOnOwnBytes(table[i], role, o, c, c, c, p);
    }
  }

  lemma OneMoreFits(o: Data, table: seq<Section>, i: nat, role: Section -> Role, p: Prefixes)
    requires Usable(p) && i < |table|
    ensures AllFit(o, table, i, role, p) <==>
              (IsNamed(table[i], role) ==> Fits(table[i], role, o, p)) && AllFit(o, table, i + 1, role, p)
  {
  }

  /** The walk rewrites each section from its original bytes and nothing else, unless one does not fit. */
  lemma {:induction false} WalkRewrites(e: Elf, o: Data, c: Data, table: seq<Section>, i: nat, t: Tables, p: Prefixes,
                                        role: Section -> Role)
    requires Usable(p) && Reads(e, o, table) && LaidOut(e, |o|, table, role) && i <= |table|
    requires SameUncovered(o, c, table, i, role) && AllRewritten(o, c, table, i, role, p)
    ensures var w := SectionsFrom(e, c, i, t, p, role);
            && SameUncovered(o, w.content, table, |table|, role)
            && (w.outcome == Done <==> AllFit(o, table, i, role, p))
            && (w.outcome == Done ==> AllRewritten(o, w.content, table, |table|, role, p))
            && !w.outcome.Raises?
    decreases |table| - i
  {
    if i < |table| {
      StillOriginal(e, o, c, table, i, role);
      OneStepOfWalk(e, o, c, table, i, t, p, role);
      OneMoreFits(o, table, i, role, p);
      var w := StepOn(c, table[i], role(table[i]), t, p);
      if w.outcome == Done {
        WalkRewrites(e, o, w.content, table, i + 1, w.tables, p, role);
      } else {
        MoreCovered(o, w.content, table, i + 1, role);
      }
    }
  }

  lemma MoreCovered(o: Data, c: Data, table: seq<Section>, n: nat, role: Section -> Role)
    requires n <= |table| && SameUncovered(o, c, table, n, role)
    ensures SameUncovered(o, c, table, |table|, role)
  {
    forall q: nat | Covered(q, table, n, role) ensures Covered(q, table, |table|, role) {
      var j :| 0 <= j < n && j < |table| && table[j].offset <= q < table[j].offset + WrittenPart(table[j], role);
    }
  }
}
