/** Relocating one file: the result of `change_dl_sysdirs`, and `change_interpreter`, in relocate_sdk.py. */
module ElfRelocate {
  import opened Text
  import opened Wrappers
  import opened Bytes
  import opened ElfBytes
  import opened ElfHeader
  import opened ElfSections
  import opened ElfTexts

  // The tables of directories

  lemma SplitText(a: Data)
    requires 0 !in a
    ensures Split(a, 0) == [a]
  {
  }

  lemma UntilEmptyAppend(a: Data, parts: seq<Data>)
    requires a != []
    ensures UntilEmpty([a] + parts) == [a] + UntilEmpty(parts)
  {
    assert ([a] + parts)[1..] == parts;
  }

  lemma ZerosHoldNoPath(n: nat)
    ensures Paths(Zeros(n)) == []
  {
    if n > 0 {
      var z := Zeros(n);
      assert z == [] + [0] + z[1..];
      SplitAppend([], 0, z[1..]);
      assert Split(z, 0)[0] == [];
    }
  }

  lemma PathInFront(x: Data, rest: Data)
    requires x != [] && 0 !in x
    ensures Paths(x + [0] + rest) == [x] + Paths(rest)
  {
    SplitAppend(x, 0, rest);
    SplitText(x);
    UntilEmptyAppend(x, Split(rest, 0));
  }

  /** Texts with their terminators, and zeros after them, are read back as those texts. */
  lemma {:induction false} PathsReadBack(paths: seq<Data>, rest: Data)
    requires forall x | x in paths :: x != [] && 0 !in x
    ensures Paths(Strings(paths) + rest) == paths + Paths(rest)
    decreases |paths|
  {
    if paths == [] {
      assert Strings(paths) + rest == rest;
    } else {
      var before, x := paths[..|paths| - 1], paths[|paths| - 1];
      assert Strings(paths) + rest == Strings(before) + (x + [0] + rest);
      assert forall y | y in before :: y in paths;
      PathsReadBack(before, x + [0] + rest);
      assert x in paths;
      PathInFront(x, rest);
      assert before + ([x] + Paths(rest)) == paths + Paths(rest);
    }
  }

  /** Nothing that comes behind an empty text counts as a path. */
  lemma PathsEndAtEmpty(paths: seq<Data>, rest: Data)
    requires forall x | x in paths :: x != [] && 0 !in x
    ensures Paths(Strings(paths) + ([0] + rest)) == paths
  {
    PathsReadBack(paths, [0] + rest);
    assert [0] + rest == [] + [0] + rest;
    SplitAppend([], 0, rest);
    assert Split([0] + rest, 0)[0] == [];
    assert paths + [] == paths;
  }

  lemma SliceOfFirst(a: Data, b: Data, lo: nat, hi: nat)
    requires lo <= hi <= |a|
    ensures (a + b)[lo..hi] == a[lo..hi]
  {
  }

  lemma SliceOfSecond(a: Data, b: Data)
    ensures (a + b)[|a|..|a| + |b|] == b
  {
  }

  lemma LastLength(paths: seq<Data>, width: nat, at: nat)
    requires paths != [] && Packable(paths, width) && at == (|paths| - 1) * width
    ensures at + width == |Lengths(paths, width)|
    ensures Value(Lengths(paths, width)[at..at + width], true) == |paths[|paths| - 1]|
  {
    var before, n := paths[..|paths| - 1], |paths[|paths| - 1]|;
    SliceOfSecond(Lengths(before, width), Pack(n, width));
    LittlePack(n, width);
  }

  lemma EarlierLength(paths: seq<Data>, table: Data, width: nat, at: nat)
    requires paths != [] && table == Lengths(paths[..|paths| - 1], width) && at + width <= |table|
    ensures at + width <= |Lengths(paths, width)|
    ensures Lengths(paths, width)[at..at + width] == table[at..at + width]
  {
    SliceOfFirst(table, Pack(|paths[|paths| - 1]|, width), at, at + width);
  }

  /** Entry `i` of the table of lengths, in the order in which a little-endian loader reads it. */
  lemma {:induction false} LengthEntry(paths: seq<Data>, width: nat, i: nat, at: nat)
    requires i < |paths| && Packable(paths, width) && at == i * width
    ensures at + width <= |Lengths(paths, width)|
    ensures Value(Lengths(paths, width)[at..at + width], true) == |paths[i]|
    decreases |paths|
  {
    if i == |paths| - 1 {
      LastLength(paths, width, at);
    } else {
      assert forall y | y in paths[..|paths| - 1] :: y in paths;
      LengthEntry(paths[..|paths| - 1], width, i, at);
      EarlierLength(paths, Lengths(paths[..|paths| - 1], width), width, at);
    }
  }

  lemma NewPathsAreTexts(paths: seq<Data>, p: Prefixes)
    requires Usable(p) && p.now != [] && 0 !in p.now && forall x | x in paths :: x != [] && 0 !in x
    ensures forall x | x in NewPaths(paths, p) :: x != [] && 0 !in x
  {
    forall i | 0 <= i < |paths| ensures NewPaths(paths, p)[i] != [] && 0 !in NewPaths(paths, p)[i] {
      SubstituteKeepsText(paths[i], p.was, p.now);
    }
  }

  /** The directories read back from the section are the relocated ones. */
  lemma DirsReadBack(dirs: Data, size: nat, p: Prefixes, paths: seq<Data>)
    requires Usable(p) && p.now != [] && 0 !in p.now && paths == NewPaths(Paths(dirs), p)
    ensures Paths(Padded(Strings(paths), size)) == paths
  {
    NewPathsAreTexts(Paths(dirs), p);
    var fill := if |Strings(paths)| <= size then size - |Strings(paths)| else 0;
    PathsReadBack(paths, Zeros(fill));
    ZerosHoldNoPath(fill);
    assert paths + [] == paths;
  }

  /** Entry for entry, the bytes hold the lengths of the paths. */
  ghost predicate HoldsLengths(lens: Data, paths: seq<Data>, width: nat) {
    forall i | 0 <= i < |paths| :: Value(ReadAt(lens, i * width, width), true) == |paths[i]|
  }

  lemma LengthsHold(paths: seq<Data>, width: nat, lengths: Data, bytes: Data)
    requires Packable(paths, width) && lengths == Lengths(paths, width) && lengths <= bytes
    ensures HoldsLengths(bytes, paths, width)
  {
    forall i | 0 <= i < |paths| ensures Value(ReadAt(bytes, i * width, width), true) == |paths[i]| {
      LengthAt(paths, width, lengths, bytes, i, i * width);
    }
  }

  lemma LengthAt(paths: seq<Data>, width: nat, lengths: Data, bytes: Data, i: nat, at: nat)
    requires i < |paths| && Packable(paths, width) && at == i * width && lengths == Lengths(paths, width) &&
             lengths <= bytes
    ensures Value(ReadAt(bytes, at, width), true) == |paths[i]|
  {
    LengthEntry(paths, width, i, at);
    ReadInside(bytes, at, width);
    assert bytes[at..at + width] == lengths[at..at + width];
  }

  // What the walk remembers

  /** The last section of a role among the first `n`. */
  function LastOf(table: seq<Section>, n: nat, role: Section -> Role, r: Role): (k: Option<nat>)
    requires n <= |table|
    ensures k.Some? ==> k.value < n && table[k.value].kind == PROGBITS && role(table[k.value]) == r
    ensures k.None? ==> forall j | 0 <= j < n && table[j].kind == PROGBITS :: role(table[j]) != r
  {
    if n == 0 then None
    else if table[n - 1].kind == PROGBITS && role(table[n - 1]) == r then Some(n - 1)
    else LastOf(table, n - 1, role, r)
  }

  function DirsAt(o: Data, s: Section): Dirs {
    Dirs(ReadAt(o, s.offset, s.size), s.offset, s.size)
  }

  function DirsOf(o: Data, table: seq<Section>, n: nat, role: Section -> Role): Option<Dirs>
    requires n <= |table|
  {
    var k := LastOf(table, n, role, SysDirs);
    if k.Some? then Some(DirsAt(o, table[k.value])) else None
  }

  function LensOf(table: seq<Section>, n: nat, role: Section -> Role): Option<nat>
    requires n <= |table|
  {
    var k := LastOf(table, n, role, SysDirsLen);
    if k.Some? then Some(table[k.value].offset) else None
  }

  lemma StepRemembers(o: Data, c: Data, table: seq<Section>, i: nat, t: Tables, p: Prefixes, role: Section -> Role)
    requires Usable(p) && i < |table|
    requires IsNamed(table[i], role) ==> SameIn(o, c, table[i].offset, table[i].size)
    requires t == Tables(DirsOf(o, table, i, role), LensOf(table, i, role))
    ensures var w := StepOn(c, table[i], role(table[i]), t, p);
            w.tables == Tables(DirsOf(o, table, i + 1, role), LensOf(table, i + 1, role))
  {
    if IsNamed(table[i], role) {
      SameRead(o, c, table[i].offset, table[i].size);
    }
  }

  lemma {:induction false} WalkRemembers(e: Elf, o: Data, c: Data, table: seq<Section>, i: nat, t: Tables, p: Prefixes,
                                         role: Section -> Role)
    requires Usable(p) && Reads(e, o, table) && LaidOut(e, |o|, table, role) && i <= |table|
    requires SameUncovered(o, c, table, i, role) && AllRewritten(o, c, table, i, role, p)
    requires t == Tables(DirsOf(o, table, i, role), LensOf(table, i, role))
    ensures var w := SectionsFrom(e, c, i, t, p, role);
            w.outcome == Done ==> w.tables == Tables(DirsOf(o, table, |table|, role), LensOf(table, |table|, role))
    decreases |table| - i
  {
    if i < |table| {
      StillOriginal(e, o, c, table, i, role);
      var w := StepOn(c, table[i], role(table[i]), t, p);
      StepRewrites(c, table[i], role, t, p);
      OneMoreSection(e, o, c, w.content, table, i, role, p);
      StepRemembers(o, c, table, i, t, p, role);
      if w.outcome == Done {
        WalkRemembers(e, o, w.content, table, i + 1, w.tables, p, role);
      }
    }
  }

  // The result

  ghost predicate InNamed(q: nat, table: seq<Section>, role: Section -> Role) {
    exists j :: 0 <= j < |table| && IsNamed(table[j], role) && table[j].offset <= q < table[j].offset + table[j].size
  }

  /** A file with readable headers, whose sections lie apart. */
  ghost predicate WellFormed(e: Elf, o: Data, table: seq<Section>, names: Section) {
    && SectionAt(e, o, e.shstrndx) == Some(names) && Reads(e, o, table)
    && LaidOut(e, |o|, table, RoleIn(ReadAt(o, names.offset, names.size)))
  }

  /** The relocated tables are not longer than their sections. */
  ghost predicate TablesFit(e: Elf, o: Data, table: seq<Section>, role: Section -> Role, p: Prefixes)
    requires Usable(p)
  {
    var d, l := LastOf(table, |table|, role, SysDirs), LastOf(table, |table|, role, SysDirsLen);
    d.Some? && l.Some? ==>
      var paths := NewPaths(Paths(DirsAt(o, table[d.value]).bytes), p);
      |Strings(paths)| <= table[d.value].size && |Lengths(paths, LengthWidth(e))| <= table[l.value].size
  }

  /** When the run ends well: exactly when everything fits and a table of directories has its table of lengths. */
  ghost predicate EndsWell(e: Elf, o: Data, table: seq<Section>, role: Section -> Role, p: Prefixes)
    requires Usable(p)
  {
    var d, l := LastOf(table, |table|, role, SysDirs), LastOf(table, |table|, role, SysDirsLen);
    && AllFit(o, table, 0, role, p)
    && (d.Some? ==> l.Some? && Packable(NewPaths(Paths(DirsAt(o, table[d.value]).bytes), p), LengthWidth(e)))
  }

  lemma WholeWalk(e: Elf, o: Data, table: seq<Section>, p: Prefixes, role: Section -> Role) returns (w: Walk)
    requires Usable(p) && Reads(e, o, table) && LaidOut(e, |o|, table, role)
    ensures w == SectionsFrom(e, o, 0, Tables(None, None), p, role)
    ensures SameUncovered(o, w.content, table, |table|, role)
    ensures w.outcome == Done <==> AllFit(o, table, 0, role, p)
    ensures w.outcome == Done ==> AllRewritten(o, w.content, table, |table|, role, p) &&
                                  w.tables == Tables(DirsOf(o, table, |table|, role), LensOf(table, |table|, role))
    ensures w.outcome != Raises
  {
    w := SectionsFrom(e, o, 0, Tables(None, None), p, role);
    WalkRewrites(e, o, o, table, 0, Tables(None, None), p, role);
    WalkRemembers(e, o, o, table, 0, Tables(None, None), p, role);
  }

  /** How the run ends. */
  lemma OutcomeOfRun(e: Elf, o: Data, table: seq<Section>, names: Section, p: Prefixes)
    requires Usable(p) && WellFormed(e, o, table, names)
    ensures var role := RoleIn(ReadAt(o, names.offset, names.size));
            && (Changed(e, o, p).outcome == Done <==> EndsWell(e, o, table, role, p))
            && (Changed(e, o, p).outcome == Exits <==> !AllFit(o, table, 0, role, p))
  {
    var role := RoleIn(ReadAt(o, names.offset, names.size));
    var w := WholeWalk(e, o, table, p, role);
  }

  lemma SectionsApart(e: Elf, n: nat, table: seq<Section>, role: Section -> Role, i: nat, j: nat)
    requires LaidOut(e, n, table, role) && i < |table| && j < |table| && i != j
    requires IsNamed(table[i], role) && IsNamed(table[j], role)
    ensures Apart(table[i].offset, table[i].size, table[j].offset, table[j].size)
  {
    if i > j {
      assert Apart(table[j].offset, table[j].size, table[i].offset, table[i].size);
    }
  }

  /** Two writes into sections that lie apart. */
  lemma TwoWrites(m: Data, d: Section, l: Section, dirs: Data, lens: Data) returns (r: Data)
    requires d.offset + d.size <= |m| && l.offset + l.size <= |m| && Apart(d.offset, d.size, l.offset, l.size)
    requires |dirs| == d.size && |lens| <= l.size
    ensures r == WriteAt(WriteAt(m, d.offset, dirs), l.offset, lens) && |r| == |m|
    ensures ReadAt(r, d.offset, d.size) == dirs
    ensures lens <= ReadAt(r, l.offset, l.size)
    ensures forall q | 0 <= q < |m| && !(d.offset <= q < d.offset + d.size) && !(l.offset <= q < l.offset + |lens|) ::
              r[q] == m[q]
  {
    var m' := WriteAt(m, d.offset, dirs);
    r := WriteAt(m', l.offset, lens);
    WriteInside(m, d.offset, dirs);
    WriteInside(m', l.offset, lens);
    SameSlice(m', r, d.offset, d.size);
    assert ReadAt(r, l.offset, l.size)[..|lens|] == r[l.offset..l.offset + |lens|];
  }

  /** The file after a run that ends well: as long as before, the same outside the named sections, and each of
      these what it should be. */
  ghost predicate InPlace(e: Elf, o: Data, r: Data, table: seq<Section>, role: Section -> Role, p: Prefixes)
    requires Usable(p)
  {
    && |r| == |o|
    && (forall q | 0 <= q < |o| && !InNamed(q, table, role) :: r[q] == o[q])
    && (forall j | 0 <= j < |table| && IsNamed(table[j], role) && role(table[j]) in {LdSoCache, GccRelocPrefix} ::
          Rewritten(table[j], role, o, r, p))
    && TablesRewritten(e, o, r, table, role, p)
  }

  ghost predicate TablesRewritten(e: Elf, o: Data, r: Data, table: seq<Section>, role: Section -> Role, p: Prefixes)
    requires Usable(p)
  {
    var d, l := LastOf(table, |table|, role, SysDirs), LastOf(table, |table|, role, SysDirsLen);
    d.Some? && l.Some? ==>
      var dirs, lens := table[d.value], table[l.value];
      var paths := NewPaths(Paths(ReadAt(o, dirs.offset, dirs.size)), p);
      var lengths := Lengths(paths, LengthWidth(e));
      && ReadAt(r, dirs.offset, dirs.size) == Padded(Strings(paths), dirs.size)
      && lengths <= ReadAt(r, lens.offset, lens.size)
      && forall q | lens.offset + |lengths| <= q < lens.offset + lens.size && q < |o| && q < |r| :: r[q] == o[q]
  }

  lemma CoveredIsNamed(q: nat, table: seq<Section>, role: Section -> Role)
    requires Covered(q, table, |table|, role)
    ensures InNamed(q, table, role)
  {
    var j :| 0 <= j < |table| && table[j].offset <= q < table[j].offset + WrittenPart(table[j], role);
    WrittenPartInside(table[j], role);
  }

  lemma InPlaceWithoutTables(e: Elf, o: Data, m: Data, table: seq<Section>, role: Section -> Role, p: Prefixes)
    requires Usable(p) && SameUncovered(o, m, table, |table|, role) && AllRewritten(o, m, table, |table|, role, p)
    requires LastOf(table, |table|, role, SysDirs).None?
    ensures InPlace(e, o, m, table, role, p)
  {
    forall q | 0 <= q < |o| && !InNamed(q, table, role) ensures m[q] == o[q] {
      if Covered(q, table, |table|, role) {
        CoveredIsNamed(q, table, role);
      }
    }
  }

  /** The walk writes nothing into the section of the lengths. */
  lemma NotWalked(e: Elf, o: Data, m: Data, table: seq<Section>, role: Section -> Role, l: nat, q: nat)
    requires LaidOut(e, |o|, table, role) && SameUncovered(o, m, table, |table|, role)
    requires l < |table| && IsNamed(table[l], role) && role(table[l]) == SysDirsLen
    requires table[l].offset <= q < table[l].offset + table[l].size && q < |o|
    ensures m[q] == o[q]
  {
    forall j | 0 <= j < |table| ensures !(table[j].offset <= q < table[j].offset + WrittenPart(table[j], role)) {
      WrittenPartInside(table[j], role);
      if j != l && IsNamed(table[j], role) {
        SectionsApart(e, |o|, table, role, l, j);
      }
    }
  }

  lemma InPlaceWithTables(e: Elf, o: Data, m: Data, table: seq<Section>, role: Section -> Role, p: Prefixes,
                          d: nat, l: nat, paths: seq<Data>, lengths: Data) returns (r: Data)
    requires Usable(p) && SameUncovered(o, m, table, |table|, role) && AllRewritten(o, m, table, |table|, role, p)
    requires LaidOut(e, |o|, table, role)
    requires LastOf(table, |table|, role, SysDirs) == Some(d) && LastOf(table, |table|, role, SysDirsLen) == Some(l)
    requires paths == NewPaths(Paths(ReadAt(o, table[d].offset, table[d].size)), p) &&
             lengths == Lengths(paths, LengthWidth(e))
    requires |Strings(paths)| <= table[d].size && |lengths| <= table[l].size
    ensures r == WriteAt(WriteAt(m, table[d].offset, Padded(Strings(paths), table[d].size)), table[l].offset, lengths)
    ensures InPlace(e, o, r, table, role, p)
  {
    SectionsApart(e, |o|, table, role, d, l);
    r := TwoWrites(m, table[d], table[l], Padded(Strings(paths), table[d].size), lengths);
    forall q | 0 <= q < |o| && !InNamed(q, table, role) ensures r[q] == o[q] {
      if Covered(q, table, |table|, role) {
        CoveredIsNamed(q, table, role);
      }
    }
    forall j | 0 <= j < |table| && IsNamed(table[j], role) && role(table[j]) in {LdSoCache, GccRelocPrefix}
      ensures Rewritten(table[j], role, o, r, p)
    {
      SectionsApart(e, |o|, table, role, d, j);
      SectionsApart(e, |o|, table, role, l, j);
      DependsOnOwnBytes(table[j], role, o, m, o, r, p);
    }
    forall q | table[l].offset + |lengths| <= q < table[l].offset + table[l].size && q < |o| ensures r[q] == o[q] {
      NotWalked(e, o, m, table, role, l, q);
    }
  }

  /** Relocation is in place: a run that ends well, with tables that fit, changes what it should and nothing else. */
  lemma RelocationIsInPlace(e: Elf, o: Data, table: seq<Section>, names: Section, p: Prefixes, role: Section -> Role)
    requires Usable(p) && WellFormed(e, o, table, names) && role == RoleIn(ReadAt(o, names.offset, names.size))
    requires EndsWell(e, o, table, role, p) && TablesFit(e, o, table, role, p)
    ensures InPlace(e, o, Changed(e, o, p).content, table, role, p)
    ensures AllHoldText(o, Changed(e, o, p).content, table, role, p)
  {
    var w := WholeWalk(e, o, table, p, role);
    var d, l := LastOf(table, |table|, role, SysDirs), LastOf(table, |table|, role, SysDirsLen);
    if d.None? {
      InPlaceWithoutTables(e, o, w.content, table, role, p);
    } else {
      var paths := NewPaths(Paths(ReadAt(o, table[d.value].offset, table[d.value].size)), p);
      var r := InPlaceWithTables(e, o, w.content, table, role, p, d.value, l.value, paths,
                                 Lengths(paths, LengthWidth(e)));
    }
    AllTexts(e, o, Changed(e, o, p).content, table, role, p);
  }

  /** In the relocated file the directories are the relocated ones, and entry i of the table of lengths is the
      length of directory i. */
  lemma RelocatedTablesAgree(e: Elf, o: Data, r: Data, table: seq<Section>, role: Section -> Role, p: Prefixes)
    requires Usable(p) && p.now != [] && 0 !in p.now && EndsWell(e, o, table, role, p)
    requires TablesRewritten(e, o, r, table, role, p)
    ensures var d, l := LastOf(table, |table|, role, SysDirs), LastOf(table, |table|, role, SysDirsLen);
            d.Some? ==>
              var paths := Paths(ReadAt(r, table[d.value].offset, table[d.value].size));
              && paths == NewPaths(Paths(ReadAt(o, table[d.value].offset, table[d.value].size)), p)
              && HoldsLengths(ReadAt(r, table[l.value].offset, table[l.value].size), paths,
                              if e.arch.Elf32? then 4 else 8)
  {
    var d, l := LastOf(table, |table|, role, SysDirs), LastOf(table, |table|, role, SysDirsLen);
    if d.Some? {
      var dirs, lens, width := table[d.value], table[l.value], LengthWidth(e);
      var paths := NewPaths(Paths(ReadAt(o, dirs.offset, dirs.size)), p);
      DirsReadBack(ReadAt(o, dirs.offset, dirs.size), dirs.size, p, paths);
      LengthsHold(paths, width, Lengths(paths, width), ReadAt(r, lens.offset, lens.size));
    }
  }
}
