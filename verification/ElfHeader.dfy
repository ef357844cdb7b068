/** The parts of ELF headers that relocation reads: `get_arch`, `parse_elf_header` and the entry formats in
    relocate_sdk.py (System V gABI, chapters 4 and 5). */
module ElfHeader {
  import opened Bytes
  import opened ElfBytes
  import opened Wrappers

  datatype Arch = Elf32 | Elf64

  /** The fields of the file header that are used. */
  datatype Elf = Elf(arch: Arch, little: bool, phoff: nat, shoff: nat, phentsize: nat, phnum: nat,
                     shentsize: nat, shnum: nat, shstrndx: nat)

  datatype Section = Section(name: nat, kind: nat, offset: nat, size: nat)

  datatype Segment = Segment(kind: nat, offset: nat, filesz: nat)

  function Field(b: Data, off: nat, n: nat, little: bool): nat {
    Value(ReadAt(b, off, n), little)
  }

  /** Magic numbers other than the first byte are not looked at; class 0 and unknown classes are not relocated. */
  function ArchOf(c: Data): Option<Arch>
    requires |c| >= 64
  {
    if c[0] != 0x7F || c[4] == 0 then None
    else if c[4] == 1 then Some(Elf32)
    else if c[4] == 2 then Some(Elf64)
    else None
  }

  function Parsed(c: Data, arch: Arch): Elf
    requires |c| >= 64
  {
    var little := c[5] == 1;
    if arch.Elf32? then
      Elf(arch, little, Field(c, 28, 4, little), Field(c, 32, 4, little), Field(c, 42, 2, little),
          Field(c, 44, 2, little),
          Field(c, 46, 2, little), Field(c, 48, 2, little), Field(c, 50, 2, little))
    else
      Elf(arch, little, Field(c, 32, 8, little), Field(c, 40, 8, little), Field(c, 54, 2, little),
          Field(c, 56, 2, little),
          Field(c, 58, 2, little), Field(c, 60, 2, little), Field(c, 62, 2, little))
  }

  /** Unpacking fails when the entry has another length than the format. */
  function SectionOf(e: Elf, b: Data): Option<Section> {
    if |b| != (if e.arch.Elf32? then 40 else 64) then None
    else if e.arch.Elf32? then
      Some(Section(Field(b, 0, 4, e.little), Field(b, 4, 4, e.little), Field(b, 16, 4, e.little),
                   Field(b, 20, 4, e.little)))
    else
      Some(Section(Field(b, 0, 4, e.little), Field(b, 4, 4, e.little), Field(b, 24, 8, e.little),
                   Field(b, 32, 8, e.little)))
  }

  function SegmentOf(e: Elf, b: Data): Option<Segment> {
    if |b| != (if e.arch.Elf32? then 32 else 56) then None
    else if e.arch.Elf32? then
      Some(Segment(Field(b, 0, 4, e.little), Field(b, 4, 4, e.little), Field(b, 16, 4, e.little)))
    else
      Some(Segment(Field(b, 0, 4, e.little), Field(b, 8, 8, e.little), Field(b, 32, 8, e.little)))
  }

  function SectionAt(e: Elf, c: Data, i: nat): Option<Section> {
    SectionOf(e, ReadAt(c, e.shoff + i * e.shentsize, e.shentsize))
  }

  function SegmentAt(e: Elf, c: Data, i: nat): Option<Segment> {
    SegmentOf(e, ReadAt(c, e.phoff + i * e.phentsize, e.phentsize))
  }

  /** The length of an entry of the table of path lengths. */
  function LengthWidth(e: Elf): nat {
    if e.arch.Elf32? then 4 else 8
  }

  function IndexOfNul(s: Data, from: nat): Option<nat>
    requires from <= |s|
    decreases |s| - from
  {
    if from == |s| then None else if s[from] == 0 then Some(from) else IndexOfNul(s, from + 1)
  }

  lemma {:induction false} IndexOfNulInside(s: Data, from: nat)
    requires from <= |s|
    ensures var r := IndexOfNul(s, from);
            r.Some? ==> from <= r.value < |s| && s[r.value] == 0 && 0 !in s[from..r.value]
    decreases |s| - from
  {
    if from < |s| && s[from] != 0 {
      IndexOfNulInside(s, from + 1);
      var r := IndexOfNul(s, from);
      if r.Some? {
        assert s[from..r.value] == [s[from]] + s[from + 1..r.value];
      }
    }
  }

  lemma {:induction false} IndexOfFirst(s: Data, from: nat, k: nat)
    requires from <= k < |s| && s[k] == 0 && forall i | from <= i < k :: s[i] != 0
    ensures IndexOfNul(s, from) == Some(k)
    decreases k - from
  {
    if from < k {
      IndexOfFirst(s, from + 1, k);
    }
  }

  lemma {:induction false} NoIndex(s: Data, from: nat)
    requires from <= |s| && forall i | from <= i < |s| :: s[i] != 0
    ensures IndexOfNul(s, from) == None
    decreases |s| - from
  {
    if from < |s| {
      NoIndex(s, from + 1);
    }
  }

  /** A name that stands in the table with its terminator is read as it is; at the end of the table and without one it
      loses its last byte. */
  lemma NameReadBack(before: Data, name: Data, last: Byte, rest: Data)
    requires 0 !in name
    ensures NameAt(before + name + [0] + rest, |before|) == name
    ensures last != 0 ==> NameAt(before + name + [last], |before|) == name
  {
    var s := before + name + [0] + rest;
    IndexOfFirst(s, |before|, |before| + |name|);
    assert s[|before|..|before| + |name|] == name;
    var t := before + name + [last];
    if last != 0 {
      NoIndex(t, |before|);
      assert t[|before|..|t| - 1] == name;
    }
  }

  /** A name in the string table; without a terminator the slice stops one byte early. */
  function NameAt(strtab: Data, n: nat): Data {
    if n >= |strtab| then []
    else
      IndexOfNulInside(strtab, n);
      var end := IndexOfNul(strtab, n);
      if end.Some? then strtab[n..end.value] else strtab[n..|strtab| - 1]
  }
}
