/** Relocating a whole file: the main loop of relocate_sdk.py. */
module ElfFile {
  import opened ElfBytes
  import opened ElfHeader
  import opened ElfSections
  import opened ElfTexts
  import opened ElfRelocate
  import opened ElfInterpreter

  datatype Report = Report(content: Data, answer: Answer, outcome: Outcome)

  /** Small files and files of no known class are left alone; the header is parsed once.  A path that is too long for
      the segment is reported, and the sections are still rewritten. */
  function Relocation(c: Data, path: Data, p: Prefixes): Report
    requires Usable(p)
  {
    if |c| < 64 || ArchOf(c).None? then Report(c, Fine, Done)
    else
      RelocationBy(Parsed(c, ArchOf(c).value), c, path, p)
  }

  function RelocationBy(e: Elf, c: Data, path: Data, p: Prefixes): Report
    requires Usable(p)
  {
    var i := WithInterpreter(e, c, path);
    if i.answer == Broken then Report(c, Broken, Raises)
    else
      var w := Changed(e, i.content, p);
      Report(w.content, i.answer, w.outcome)
  }

  method Relocate(f: File, path: Data, p: Prefixes) returns (answer: Answer, outcome: Outcome)
    requires Usable(p)
    modifies f
    ensures Report(f.content, answer, outcome) == Relocation(old(f.content), path, p)
  {
    answer, outcome := Fine, Done;
    if |f.content| >= 64 {
      var arch := ArchOf(f.content);
      if arch.Some? {
        answer, outcome := RelocateBy(f, Parsed(f.content, arch.value), path, p);
      }
    }
  }

  method RelocateBy(f: File, e: Elf, path: Data, p: Prefixes) returns (answer: Answer, outcome: Outcome)
    requires Usable(p)
    modifies f
    ensures Report(f.content, answer, outcome) == RelocationBy(e, old(f.content), path, p)
  {
    answer := ChangeInterpreter(f, e, path);
    if answer == Broken {
      return answer, Raises;
    }
    outcome := ChangeDlSysdirs(f, e, p);
  }

  /** Files of less than 64 bytes, without the magic number or of no known class are left alone; any other is relocated
      by its own header. */
  lemma RelocationIsByHeader(c: Data, path: Data, p: Prefixes)
    requires Usable(p)
    ensures |c| < 64 || c[0] != 0x7F || c[4] !in {1, 2} ==> Relocation(c, path, p) == Report(c, Fine, Done)
    ensures |c| >= 64 && c[0] == 0x7F && c[4] in {1, 2} ==>
              Relocation(c, path, p) == RelocationBy(Parsed(c, if c[4] == 1 then Elf32 else Elf64), c, path, p)
  {
  }

  // The two steps together

  /** The segment lies in the file, apart from what is needed to find the sections and from the named ones. */
  ghost predicate SegmentApart(e: Elf, n: nat, s: Segment, table: seq<Section>, names: Section, role: Section -> Role) {
    && s.offset + s.filesz <= n && e.shstrndx < e.shnum
    && Apart(s.offset, s.filesz, e.shoff, e.shnum * e.shentsize)
    && Apart(s.offset, s.filesz, names.offset, names.size)
    && forall j | 0 <= j < |table| && IsNamed(table[j], role) ::
         Apart(s.offset, s.filesz, table[j].offset, table[j].size)
  }

  ghost predicate SameNamed(c: Data, m: Data, table: seq<Section>, role: Section -> Role) {
    forall j | 0 <= j < |table| && IsNamed(table[j], role) :: SameIn(c, m, table[j].offset, table[j].size)
  }

  lemma StillWellFormed(e: Elf, c: Data, m: Data, s: Segment, table: seq<Section>, names: Section,
                        role: Section -> Role)
    requires WellFormed(e, c, table, names) && role == RoleIn(ReadAt(c, names.offset, names.size))
    requires SegmentApart(e, |c|, s, table, names, role) && SameOutside(c, m, s.offset, s.offset + s.filesz)
    ensures WellFormed(e, m, table, names) && role == RoleIn(ReadAt(m, names.offset, names.size))
    ensures SameNamed(c, m, table, role)
  {
    forall i | 0 <= i < e.shnum ensures SectionAt(e, m, i) == SectionAt(e, c, i) {
      HeaderStays(e, m, c, i);
    }
    SameRead(m, c, names.offset, names.size);
  }

  lemma SameTables(e: Elf, c: Data, m: Data, table: seq<Section>, role: Section -> Role)
    requires SameNamed(c, m, table, role)
    ensures forall r | r == SysDirs || r == SysDirsLen :: LastOf(table, |table|, role, r).Some? ==>
              DirsAt(c, table[LastOf(table, |table|, role, r).value]) ==
              DirsAt(m, table[LastOf(table, |table|, role, r).value])
  {
    forall r | r == SysDirs || r == SysDirsLen
      ensures LastOf(table, |table|, role, r).Some? ==>
                DirsAt(c, table[LastOf(table, |table|, role, r).value]) ==
                DirsAt(m, table[LastOf(table, |table|, role, r).value])
    {
      var k := LastOf(table, |table|, role, r);
      if k.Some? {
        SameRead(c, m, table[k.value].offset, table[k.value].size);
      }
    }
  }

  lemma StillEndsWell(e: Elf, c: Data, m: Data, table: seq<Section>, role: Section -> Role, p: Prefixes)
    requires Usable(p) && SameNamed(c, m, table, role)
    ensures EndsWell(e, c, table, role, p) <==> EndsWell(e, m, table, role, p)
    ensures TablesFit(e, c, table, role, p) <==> TablesFit(e, m, table, role, p)
  {
    forall j | 0 <= j < |table| && IsNamed(table[j], role)
      ensures Fits(table[j], role, c, p) <==> Fits(table[j], role, m, p)
    {
      DependsOnOwnBytes(table[j], role, c, c, m, c, p);
    }
    SameTables(e, c, m, table, role);
  }

  /** The named sections are what relocating the original file's sections gives. */
  ghost predicate AllRelocated(e: Elf, c: Data, r: Data, table: seq<Section>, role: Section -> Role, p: Prefixes)
    requires Usable(p)
  {
    && (forall j | 0 <= j < |table| && IsNamed(table[j], role) && role(table[j]) in {LdSoCache, GccRelocPrefix} ::
          Rewritten(table[j], role, c, r, p))
    && TablesRewritten(e, c, r, table, role, p)
  }

  lemma StillRelocated(e: Elf, c: Data, m: Data, r: Data, table: seq<Section>, role: Section -> Role, p: Prefixes)
    requires Usable(p) && |r| == |c| == |m| && SameNamed(c, m, table, role) && InPlace(e, m, r, table, role, p)
    ensures AllRelocated(e, c, r, table, role, p)
  {
    forall j | 0 <= j < |table| && IsNamed(table[j], role) && role(table[j]) in {LdSoCache, GccRelocPrefix}
      ensures Rewritten(table[j], role, c, r, p)
    {
      DependsOnOwnBytes(table[j], role, c, r, m, r, p);
    }
    var d, l := LastOf(table, |table|, role, SysDirs), LastOf(table, |table|, role, SysDirsLen);
    if d.Some? && l.Some? {
      SameRead(c, m, table[d.value].offset, table[d.value].size);
      assert SameIn(c, m, table[l.value].offset, table[l.value].size);
    }
  }

  /** As long as before, and the same outside the segment and the named sections. */
  ghost predicate SameElsewhere(c: Data, r: Data, s: Segment, table: seq<Section>, role: Section -> Role) {
    |r| == |c| && forall q | 0 <= q < |c| && !(s.offset <= q < s.offset + s.filesz) && !InNamed(q, table, role) ::
      r[q] == c[q]
  }

  /** Relocating a file whose parts lie apart and whose new texts fit: it keeps its length, nothing outside the
      interpreter segment and the named sections changes, and these are what they should be. */
  lemma FileIsRelocatedInPlace(c: Data, e: Elf, s: Segment, table: seq<Section>, names: Section, role: Section -> Role,
                               path: Data, p: Prefixes)
    requires Usable(p) && WellFormed(e, c, table, names) && role == RoleIn(ReadAt(c, names.offset, names.size))
    requires FindInterp(e, c, 0) == Found(s) && SegmentApart(e, |c|, s, table, names, role)
    requires EndsWell(e, c, table, role, p) && TablesFit(e, c, table, role, p)
    ensures var r := RelocationBy(e, c, path, p);
            && r.outcome == Done
            && (r.answer == if !OfHost(ReadAt(c, s.offset, 11)) && 0 < s.filesz <= |path| then TooLong else Fine)
            && SameElsewhere(c, r.content, s, table, role)
            && (if IsWritten(c, s, path) then HoldsPath(ReadAt(r.content, s.offset, s.filesz), path)
                else ReadAt(r.content, s.offset, s.filesz) == ReadAt(c, s.offset, s.filesz))
            && AllRelocated(e, c, r.content, table, role, p) && AllHoldText(c, r.content, table, role, p)
  {
    InterpreterIsInPlace(c, s, path);
    SectionsAfterSegment(c, e, s, table, names, role, Replaced(c, s, path).content, p);
    AllTexts(e, c, RelocationBy(e, c, path, p).content, table, role, p);
  }

  /** A file without an interpreter, as the dynamic loader is: the sections are all that changes. */
  lemma LoaderIsRelocatedInPlace(c: Data, e: Elf, table: seq<Section>, names: Section, role: Section -> Role,
                                 path: Data, p: Prefixes)
    requires Usable(p) && WellFormed(e, c, table, names) && role == RoleIn(ReadAt(c, names.offset, names.size))
    requires FindInterp(e, c, 0) == Absent && EndsWell(e, c, table, role, p) && TablesFit(e, c, table, role, p)
    ensures var r := RelocationBy(e, c, path, p);
            r.outcome == Done && r.answer == Fine && InPlace(e, c, r.content, table, role, p)
            && AllHoldText(c, r.content, table, role, p)
  {
    OutcomeOfRun(e, c, table, names, p);
    RelocationIsInPlace(e, c, table, names, p, role);
  }

  lemma SectionsAfterSegment(c: Data, e: Elf, s: Segment, table: seq<Section>, names: Section, role: Section -> Role,
                             m: Data, p: Prefixes)
    requires Usable(p) && WellFormed(e, c, table, names) && role == RoleIn(ReadAt(c, names.offset, names.size))
    requires SegmentApart(e, |c|, s, table, names, role) && SameOutside(c, m, s.offset, s.offset + s.filesz)
    requires EndsWell(e, c, table, role, p) && TablesFit(e, c, table, role, p)
    ensures var r := Changed(e, m, p);
            r.outcome == Done && SameElsewhere(c, r.content, s, table, role)
            && ReadAt(r.content, s.offset, s.filesz) == ReadAt(m, s.offset, s.filesz)
            && AllRelocated(e, c, r.content, table, role, p)
  {
    StillWellFormed(e, c, m, s, table, names, role);
    StillEndsWell(e, c, m, table, role, p);
    OutcomeOfRun(e, m, table, names, p);
    RelocationIsInPlace(e, m, table, names, p, role);
    var r := Changed(e, m, p).content;
    StillRelocated(e, c, m, r, table, role, p);
    SegmentStays(e, c, m, r, s, table, names, role);
  }

  lemma SegmentStays(e: Elf, c: Data, m: Data, r: Data, s: Segment, table: seq<Section>, names: Section,
                     role: Section -> Role)
    requires SegmentApart(e, |c|, s, table, names, role) && SameOutside(c, m, s.offset, s.offset + s.filesz)
    requires |r| == |m| && forall q | 0 <= q < |m| && !InNamed(q, table, role) :: r[q] == m[q]
    ensures SameElsewhere(c, r, s, table, role)
    ensures ReadAt(r, s.offset, s.filesz) == ReadAt(m, s.offset, s.filesz)
  {
    forall q | s.offset <= q < s.offset + s.filesz ensures r[q] == m[q] {
      SegmentNotNamed(e, |c|, s, table, names, role, q);
    }
    SameRead(r, m, s.offset, s.filesz);
  }

  lemma SegmentNotNamed(e: Elf, n: nat, s: Segment, table: seq<Section>, names: Section, role: Section -> Role, q: nat)
    requires SegmentApart(e, n, s, table, names, role) && s.offset <= q < s.offset + s.filesz
    ensures !InNamed(q, table, role)
  {
  }
}
