/** The interpreter of an executable and the relocation of a whole file: `change_interpreter` and the main loop of
    relocate_sdk.py (System V gABI, Program Header, PT_INTERP). */
module ElfInterpreter {
  import opened Text
  import opened Sequences
  import opened Wrappers
  import opened Bytes
  import opened ElfBytes
  import opened ElfHeader
  import opened ElfSections

  const PT_INTERP := 3

  // Finding the segment

  datatype Search = Absent | Unreadable | Found(segment: Segment)

  function FindInterp(e: Elf, c: Data, i: nat): Search
    decreases e.phnum - i
  {
    if i >= e.phnum then Absent
    else match SegmentAt(e, c, i)
      case None => Unreadable
      case Some(s) => if s.kind == PT_INTERP then Found(s) else FindInterp(e, c, i + 1)
  }

  ghost predicate PlainBefore(e: Elf, c: Data, from: nat, k: nat) {
    forall j | from <= j < k :: SegmentAt(e, c, j).Some? && SegmentAt(e, c, j).value.kind != 3
  }

  /** The first interpreter segment (type 3), with only readable headers of other segments before it. */
  lemma {:induction false} FindsFirst(e: Elf, c: Data, i: nat)
    ensures match FindInterp(e, c, i)
            case Absent => PlainBefore(e, c, i, e.phnum)
            case Unreadable => exists k :: i <= k < e.phnum && PlainBefore(e, c, i, k) && SegmentAt(e, c, k).None?
            case Found(s) =>
              s.kind == 3 && exists k ::
                i <= k < e.phnum && PlainBefore(e, c, i, k) && SegmentAt(e, c, k) == Some(s)
    decreases e.phnum - i
  {
    if i < e.phnum {
      assert PlainBefore(e, c, i, i);
      var s := SegmentAt(e, c, i);
      if s.Some? && s.value.kind != PT_INTERP {
        FindsFirst(e, c, i + 1);
        forall k | i + 1 <= k && PlainBefore(e, c, i + 1, k) ensures PlainBefore(e, c, i, k) {
        }
      }
    }
  }

  // Replacing it

  predicate StartsWith(s: Data, prefix: Data) {
    prefix <= s
  }

  /** Interpreters that are taken for the host's and left alone, by the first bytes of their paths. */
  predicate OfHost(start: Data) {
    || StartsWith(start, AsBytes("/lib/")) || StartsWith(start, AsBytes("/lib64/"))
    || StartsWith(start, AsBytes("/lib32/"))
    || StartsWith(start, AsBytes("/usr/lib32/")) || StartsWith(start, AsBytes("/usr/lib64/"))
  }

  datatype Answer = Fine | TooLong | Broken

  datatype Interpreted = Interpreted(content: Data, answer: Answer)

  function WithInterpreter(e: Elf, c: Data, path: Data): Interpreted {
    match FindInterp(e, c, 0)
    case Absent => Interpreted(c, Fine)
    case Unreadable => Interpreted(c, Broken)
    case Found(s) => Replaced(c, s, path)
  }

  function Replaced(c: Data, s: Segment, path: Data): Interpreted {
    if OfHost(ReadAt(c, s.offset, 11)) || s.filesz == 0 then Interpreted(c, Fine)
    else if |path| >= s.filesz then Interpreted(c, TooLong)
    else Interpreted(WriteAt(c, s.offset, Padded(path, s.filesz)), Fine)
  }

  /** The path is written exactly for interpreters that are not the host's, when it fits with a zero after it. */
  predicate IsWritten(c: Data, s: Segment, path: Data) {
    !OfHost(ReadAt(c, s.offset, 11)) && |path| < s.filesz
  }

  ghost predicate HoldsPath(bytes: Data, path: Data) {
    path <= bytes && |path| < |bytes| && forall i | |path| <= i < |bytes| :: bytes[i] == 0
  }

  /** Only the segment changes: when the path is written it holds the path and zeros after it, and otherwise the file is
      as before; a path that is too long is reported. */
  lemma InterpreterIsInPlace(c: Data, s: Segment, path: Data)
    requires s.offset + s.filesz <= |c|
    ensures SameOutside(c, Replaced(c, s, path).content, s.offset, s.offset + s.filesz)
    ensures IsWritten(c, s, path) ==>
              var bytes := ReadAt(Replaced(c, s, path).content, s.offset, s.filesz);
              |bytes| == s.filesz && HoldsPath(bytes, path)
    ensures !IsWritten(c, s, path) ==> Replaced(c, s, path).content == c
    ensures Replaced(c, s, path).answer == TooLong <==> !OfHost(ReadAt(c, s.offset, 11)) && 0 < s.filesz <= |path|
    ensures Replaced(c, s, path).answer != Broken
  {
    if IsWritten(c, s, path) {
      WriteInside(c, s.offset, Padded(path, s.filesz));
    }
  }

  // Which interpreters are the host's

  /** A variant of the library directory: `/lib` or `/usr/lib`, and a suffix. */
  function LibDir(usr: bool, suffix: Data): Data {
    (if usr then AsBytes("/usr/lib") else AsBytes("/lib")) + suffix + AsBytes("/")
  }

  /** A path below such a directory; the suffix is the rest of the directory's name. */
  predicate BelowLib(bytes: Data, usr: bool, suffix: Data) {
    '/' as int !in suffix && LibDir(usr, suffix) <= bytes
  }

  /** The suffix is a width, or there is none and the directory is not below `/usr`. */
  predicate PlainOrWidth(usr: bool, suffix: Data) {
    suffix == AsBytes("32") || suffix == AsBytes("64") || (!usr && suffix == [])
  }

  lemma LibDirAt(bytes: Data, usr: bool, suffix: Data)
    requires BelowLib(bytes, usr, suffix)
    ensures var n := if usr then 8 else 4; var k := |suffix|;
            && n + k < |bytes| && bytes[n..n + k] == suffix && bytes[n + k] == '/' as int
            && (forall i | n <= i < n + k :: bytes[i] != '/' as int)
            && (bytes[1] == 'u' as int <==> usr)
  {
    var n, dir := if usr then 8 else 4, LibDir(usr, suffix);
    assert |dir| == n + |suffix| + 1 && dir[n..n + |suffix|] == suffix && dir[n + |suffix|] == '/' as int;
    assert dir[1] == (if usr then 'u' else 'l') as int;
    assert bytes[..|dir|] == dir;
    assert bytes[n..n + |suffix|] == dir[n..n + |suffix|];
    assert forall i | n <= i < n + |suffix| :: bytes[i] == suffix[i - n];
  }

  /** A path is below at most one of these directories. */
  lemma LibDirIsUnique(bytes: Data, usr: bool, suffix: Data, other: bool, width: Data)
    requires BelowLib(bytes, usr, suffix) && BelowLib(bytes, other, width)
    ensures usr == other && suffix == width
  {
    LibDirAt(bytes, usr, suffix);
    LibDirAt(bytes, other, width);
  }

  lemma HostDirs()
    ensures AsBytes("/lib/") == LibDir(false, []) && AsBytes("/lib64/") == LibDir(false, AsBytes("64"))
    ensures AsBytes("/lib32/") == LibDir(false, AsBytes("32")) && AsBytes("/usr/lib32/") == LibDir(true, AsBytes("32"))
    ensures AsBytes("/usr/lib64/") == LibDir(true, AsBytes("64"))
    ensures |AsBytes("32")| == |AsBytes("64")| == 2 && '/' as int !in AsBytes("32") && '/' as int !in AsBytes("64")
  {
  }

  /** Eleven bytes are enough to see a directory of at most eleven. */
  lemma StartIsEnough(c: Data, off: nat, dir: Data, usr: bool, suffix: Data)
    requires off <= |c| && |dir| <= 11 && dir == LibDir(usr, suffix) && '/' as int !in suffix
    ensures StartsWith(ReadAt(c, off, 11), dir) <==> BelowLib(c[off..], usr, suffix)
  {
    var start := ReadAt(c, off, 11);
    assert start <= c[off..];
    if dir <= c[off..] {
      assert dir == c[off..][..|dir|] == start[..|dir|];
    }
  }

  lemma HostIsBelow(c: Data, off: nat)
    requires off <= |c|
    ensures var none: Data := []; OfHost(ReadAt(c, off, 11)) <==>
              || BelowLib(c[off..], false, none)
              || BelowLib(c[off..], false, AsBytes("64")) || BelowLib(c[off..], false, AsBytes("32"))
              || BelowLib(c[off..], true, AsBytes("32")) || BelowLib(c[off..], true, AsBytes("64"))
  {
    HostDirs();
    StartIsEnough(c, off, AsBytes("/lib/"), false, []);
    StartIsEnough(c, off, AsBytes("/lib64/"), false, AsBytes("64"));
    StartIsEnough(c, off, AsBytes("/lib32/"), false, AsBytes("32"));
    StartIsEnough(c, off, AsBytes("/usr/lib32/"), true, AsBytes("32"));
    StartIsEnough(c, off, AsBytes("/usr/lib64/"), true, AsBytes("64"));
  }

  /** The test accepts exactly what is below `/lib`, or below `/lib` or `/usr/lib` with a width of 32 or 64. */
  lemma HostIffPlainOrWidth(c: Data, off: nat)
    requires off <= |c|
    ensures OfHost(ReadAt(c, off, 11)) <==>
            exists usr, suffix :: PlainOrWidth(usr, suffix) && BelowLib(c[off..], usr, suffix)
  {
    HostIsBelow(c, off);
    if OfHost(ReadAt(c, off, 11)) {
      assert PlainOrWidth(false, []) && PlainOrWidth(false, AsBytes("64")) && PlainOrWidth(false, AsBytes("32"));
      assert PlainOrWidth(true, AsBytes("32")) && PlainOrWidth(true, AsBytes("64"));
    }
  }

  /** Of the interpreters below any variant of the library directory, however long its suffix is, those are left alone
      whose directory is `/lib` or has a width of 32 or 64; any other one is replaced when the path fits. */
  lemma LeftAloneIffPlainOrWidth(c: Data, s: Segment, path: Data, usr: bool, suffix: Data)
    requires s.offset + s.filesz <= |c| && |path| < s.filesz && BelowLib(c[s.offset..], usr, suffix)
    ensures IsWritten(c, s, path) <==> !PlainOrWidth(usr, suffix)
    ensures PlainOrWidth(usr, suffix) ==> Replaced(c, s, path).content == c
    ensures !PlainOrWidth(usr, suffix) ==>
              HoldsPath(ReadAt(Replaced(c, s, path).content, s.offset, s.filesz), path)
  {
    HostIffPlainOrWidth(c, s.offset);
    if other, width :| PlainOrWidth(other, width) && BelowLib(c[s.offset..], other, width) {
      LibDirIsUnique(c[s.offset..], usr, suffix, other, width);
    }
    InterpreterIsInPlace(c, s, path);
  }

  /** Two variants that the test does not know: an interpreter of the host below `/usr/lib/` or `/libx32/` is
      overwritten. */
  lemma UsrLibAndX32AreReplaced(c: Data, s: Segment, path: Data)
    requires s.offset + s.filesz <= |c| && |path| < s.filesz
    requires StartsWith(c[s.offset..], AsBytes("/usr/lib/")) || StartsWith(c[s.offset..], AsBytes("/libx32/"))
    ensures HoldsPath(ReadAt(Replaced(c, s, path).content, s.offset, s.filesz), path)
  {
    var x32 := AsBytes("x32");
    assert x32[0] == 'x' as int && |x32| == 3;
    assert AsBytes("/usr/lib/") == LibDir(true, []) && AsBytes("/libx32/") == LibDir(false, x32);
    if StartsWith(c[s.offset..], AsBytes("/usr/lib/")) {
      LeftAloneIffPlainOrWidth(c, s, path, true, []);
    } else {
      LeftAloneIffPlainOrWidth(c, s, path, false, x32);
    }
  }

  lemma FindStep(e: Elf, c: Data, i: nat)
    requires i < e.phnum
    ensures var s := SegmentOf(e, ReadAt(c, e.phoff + i * e.phentsize, e.phentsize));
            FindInterp(e, c, i) ==
              if s.None? then Unreadable
              else if s.value.kind == PT_INTERP then Found(s.value)
              else FindInterp(e, c, i + 1)
  {
  }

  method Find(f: File, e: Elf) returns (found: Search)
    modifies f`pos
    ensures found == FindInterp(e, f.content, 0)
  {
    ghost var result := FindInterp(e, f.content, 0);
    var i := 0;
    while i < e.phnum
      invariant 0 <= i <= e.phnum && FindInterp(e, f.content, i) == result
    {
      FindStep(e, f.content, i);
      f.Seek(e.phoff + i * e.phentsize);
      var header := f.Read(e.phentsize);
      var s := SegmentOf(e, header);
      if s.None? {
        return Unreadable;
      }
      if s.value.kind == PT_INTERP {
        return Found(s.value);
      }
      i := i + 1;
    }
    return Absent;
  }

  method ChangeInterpreter(f: File, e: Elf, path: Data) returns (answer: Answer)
    modifies f
    ensures Interpreted(f.content, answer) == WithInterpreter(e, old(f.content), path)
  {
    var found := Find(f, e);
    match found {
      case Absent => return Fine;
      case Unreadable => return Broken;
      case Found(s) =>
        f.Seek(s.offset);
        var start := f.Read(11);
        if OfHost(start) || s.filesz == 0 {
          return Fine;
        }
        if |path| >= s.filesz {
          return TooLong;
        }
        f.Seek(s.offset);
        f.Write(Padded(path, s.filesz));
        return Fine;
    }
  }

  // The sections, in place

  method RewriteSlots(f: File, off: nat, size: nat, p: Prefixes) returns (outcome: Outcome)
    requires Usable(p) && f.pos == off
    modifies f
    ensures Written(f.content, outcome) == SlotsFrom(old(f.content), off, size, 0, p)
  {
    ghost var result := SlotsFrom(f.content, off, size, 0, p);
    var k := 0;
    while (k + 1) * SLOT <= size
      invariant f.pos == off + k * SLOT
      invariant SlotsFrom(f.content, off, size, k, p) == result
      decreases size - k * SLOT
    {
      SlotStep(f.content, off, size, k, p);
      var fits := RewriteSlot(f, off + k * SLOT, p);
      if !fits {
        return Exits;
      }
      k := k + 1;
    }
    return Done;
  }

  /** One slot, at the position of the file; afterwards the position is that of the next one. */
  method RewriteSlot(f: File, at: nat, p: Prefixes) returns (fits: bool)
    requires Usable(p) && f.pos == at
    modifies f
    ensures var path := Relocated(ReadAt(old(f.content), at, SLOT), p);
            && fits == (|path| < SLOT)
            && (fits ==> f.content == WriteAt(old(f.content), at, Padded(path, SLOT)) && f.pos == at + SLOT)
            && (!fits ==> f.content == old(f.content))
  {
    var slot := f.Read(SLOT);
    var path := Relocated(slot, p);
    fits := |path| < SLOT;
    if fits {
      f.Seek(at);
      f.Write(Padded(path, SLOT));
    }
  }

  lemma SlotStep(c: Data, off: nat, size: nat, k: nat, p: Prefixes)
    requires Usable(p) && (k + 1) * SLOT <= size
    ensures var path := Relocated(ReadAt(c, off + k * SLOT, SLOT), p);
            SlotsFrom(c, off, size, k, p) ==
              if |path| >= SLOT then Written(c, Exits)
              else SlotsFrom(WriteAt(c, off + k * SLOT, Padded(path, SLOT)), off, size, k + 1, p)
  {
  }

  /** What the loop does with one section. */
  method RewriteSection(f: File, s: Section, role: Role, t: Tables, p: Prefixes) returns (t': Tables, outcome: Outcome)
    requires Usable(p)
    modifies f
    ensures Walk(f.content, t', outcome) == StepOn(old(f.content), s, role, t, p)
  {
    t', outcome := t, Done;
    if s.kind == PROGBITS {
      f.Seek(s.offset);
      match role {
        case SysDirs =>
          var bytes := f.Read(s.size);
          t' := t.(dirs := Some(Dirs(bytes, s.offset, s.size)));
        case SysDirsLen =>
          var bytes := f.Read(s.size);
          t' := t.(lens := Some(s.offset));
        case LdSoCache =>
          var cached := f.Read(s.size);
          var path := Relocated(cached, p);
          if |path| >= s.size {
            outcome := Exits;
          } else {
            f.Seek(s.offset);
            f.Write(Padded(path, s.size));
          }
        case GccRelocPrefix =>
          outcome := RewriteSlots(f, s.offset, s.size, p);
        case Other =>
      }
    }
  }

  predicate AreTables(dirs: Data, lens: Data, paths: seq<Data>, width: nat) {
    dirs == Strings(paths) && lens == Lengths(paths, width)
  }

  /** The tables grown so far: those of the paths before part `i`, when each length could be packed. */
  ghost predicate GrownTo(dirs: Data, lens: Data, done: seq<Data>, width: nat, p: Prefixes)
    requires Usable(p)
  {
    Packable(NewPaths(done, p), width) && AreTables(dirs, lens, NewPaths(done, p), width)
  }

  /** The two tables, grown path by path up to the first empty one. */
  method BuildTables(parts: seq<Data>, width: nat, p: Prefixes) returns (dirs: Data, lens: Data, ok: bool)
    requires Usable(p)
    ensures ok ==> GrownTo(dirs, lens, UntilEmpty(parts), width, p)
    ensures !ok ==> !Packable(NewPaths(UntilEmpty(parts), p), width)
  {
    dirs, lens := [], [];
    var i := 0;
    while i < |parts| && parts[i] != []
      invariant 0 <= i <= |parts| && UntilEmpty(parts) == parts[..i] + UntilEmpty(parts[i..])
      invariant GrownTo(dirs, lens, parts[..i], width, p)
    {
      var path := Substitute(parts[i], p.was, p.now);
      NextPart(parts, i);
      NextTables(dirs, lens, parts, i, path, width, p);
      dirs := dirs + path + [0];
      if |path| >= Limit(width) {
        return dirs, lens, false;
      }
      lens := lens + Pack(|path|, width);
      i := i + 1;
    }
    NoNextPart(parts, i);
    ok := true;
  }

  lemma NextPart(parts: seq<Data>, i: nat)
    requires i < |parts| && parts[i] != [] && UntilEmpty(parts) == parts[..i] + UntilEmpty(parts[i..])
    ensures UntilEmpty(parts) == parts[..i + 1] + UntilEmpty(parts[i + 1..])
  {
    UntilEmptyStep(parts, i);
    PrefixSnoc(parts, i);
    Regroup(parts[..i], [parts[i]], UntilEmpty(parts[i + 1..]));
  }

  lemma PrefixSnoc<T>(s: seq<T>, i: nat)
    requires i < |s|
    ensures s[..i + 1] == s[..i] + [s[i]]
  {
  }

  lemma UntilEmptyStep(parts: seq<Data>, i: nat)
    requires i < |parts| && parts[i] != []
    ensures UntilEmpty(parts[i..]) == [parts[i]] + UntilEmpty(parts[i + 1..])
  {
    assert parts[i..][1..] == parts[i + 1..] && parts[i..][0] == parts[i];
  }

  lemma NoNextPart(parts: seq<Data>, i: nat)
    requires i <= |parts| && (i < |parts| ==> parts[i] == []) &&
             UntilEmpty(parts) == parts[..i] + UntilEmpty(parts[i..])
    ensures UntilEmpty(parts) == parts[..i]
  {
    assert UntilEmpty(parts[i..]) == [];
    assert parts[..i] + [] == parts[..i];
  }

  lemma NextTables(dirs: Data, lens: Data, parts: seq<Data>, i: nat, path: Data, width: nat, p: Prefixes)
    requires Usable(p) && i < |parts| && path == Substitute(parts[i], p.was, p.now)
    requires GrownTo(dirs, lens, parts[..i], width, p)
    requires parts[..i + 1] <= UntilEmpty(parts)
    ensures |path| < Limit(width) ==> GrownTo(dirs + path + [0], lens + Pack(|path|, width), parts[..i + 1], width, p)
    ensures |path| >= Limit(width) ==> !Packable(NewPaths(UntilEmpty(parts), p), width)
  {
    PrefixSnoc(parts, i);
    NewPathsStep(parts[..i], parts[i], p);
    TablesStep(dirs, lens, NewPaths(parts[..i], p), path, width);
    if |path| >= Limit(width) {
      PathTooLong(UntilEmpty(parts), parts, i, path, width, p);
    }
  }

  lemma PathTooLong(texts: seq<Data>, parts: seq<Data>, i: nat, path: Data, width: nat, p: Prefixes)
    requires Usable(p) && i < |parts| && path == Substitute(parts[i], p.was, p.now) && |path| >= Limit(width)
    requires parts[..i + 1] <= texts
    ensures !Packable(NewPaths(texts, p), width)
  {
    assert texts[i] == parts[i] && NewPaths(texts, p)[i] == path;
  }

  lemma NewPathsStep(done: seq<Data>, x: Data, p: Prefixes)
    requires Usable(p)
    ensures NewPaths(done + [x], p) == NewPaths(done, p) + [Substitute(x, p.was, p.now)]
  {
    assert (done + [x])[..|done|] == done;
  }

  lemma TablesStep(dirs: Data, lens: Data, paths: seq<Data>, path: Data, width: nat)
    requires AreTables(dirs, lens, paths, width)
    ensures AreTables(dirs + path + [0], lens + Pack(|path|, width), paths + [path], width)
    ensures Packable(paths, width) && |path| < Limit(width) ==> Packable(paths + [path], width)
  {
    assert (paths + [path])[..|paths|] == paths;
  }

  method WriteTables(f: File, e: Elf, t: Tables, p: Prefixes) returns (outcome: Outcome)
    requires Usable(p)
    modifies f
    ensures Written(f.content, outcome) == TablesWritten(e, old(f.content), t, p)
  {
    if t.dirs.None? {
      return Done;
    }
    if t.lens.None? {
      return Raises;
    }
    var d := t.dirs.value;
    var dirs, lens, ok := BuildTables(Split(d.bytes, 0), LengthWidth(e), p);
    if !ok {
      return Raises;
    }
    f.Seek(d.offset);
    f.Write(Padded(dirs, d.size));
    f.Seek(t.lens.value);
    f.Write(lens);
    return Done;
  }

  method RewriteSections(f: File, e: Elf, p: Prefixes, role: Section -> Role) returns (t: Tables, outcome: Outcome)
    requires Usable(p)
    modifies f
    ensures Walk(f.content, t, outcome) == SectionsFrom(e, old(f.content), 0, Tables(None, None), p, role)
  {
    t := Tables(None, None);
    ghost var result := SectionsFrom(e, f.content, 0, t, p, role);
    var i := 0;
    while i < e.shnum
      invariant SectionsFrom(e, f.content, i, t, p, role) == result
      decreases e.shnum - i
    {
      SectionStep(e, f.content, i, t, p, role);
      f.Seek(e.shoff + i * e.shentsize);
      var header := f.Read(e.shentsize);
      var s := SectionOf(e, header);
      if s.None? {
        return t, Raises;
      }
      t, outcome := RewriteSection(f, s.value, role(s.value), t, p);
      if outcome != Done {
        return t, outcome;
      }
      i := i + 1;
    }
    outcome := Done;
  }

  lemma SectionStep(e: Elf, c: Data, i: nat, t: Tables, p: Prefixes, role: Section -> Role)
    requires Usable(p) && i < e.shnum
    ensures var s := SectionAt(e, c, i);
            SectionsFrom(e, c, i, t, p, role) ==
              if s.None? then Walk(c, t, Raises)
              else
                var w := StepOn(c, s.value, role(s.value), t, p);
                if w.outcome != Done then w else SectionsFrom(e, w.content, i + 1, w.tables, p, role)
  {
  }

  method ChangeDlSysdirs(f: File, e: Elf, p: Prefixes) returns (outcome: Outcome)
    requires Usable(p)
    modifies f
    ensures Written(f.content, outcome) == Changed(e, old(f.content), p)
  {
    f.Seek(e.shoff + e.shstrndx * e.shentsize);
    var header := f.Read(e.shentsize);
    var names := SectionOf(e, header);
    if names.None? {
      return Raises;
    }
    f.Seek(names.value.offset);
    var strtab := f.Read(names.value.size);
    var t;
    t, outcome := RewriteSections(f, e, p, RoleIn(strtab));
    if outcome == Done {
      outcome := WriteTables(f, e, t, p);
    }
  }
}
