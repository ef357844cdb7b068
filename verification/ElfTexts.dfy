/** What the sections of the dynamic loader and of gcc say after relocation, in terms of the text that was in them. */
module ElfTexts {
  import opened Text
  import opened Bytes
  import opened ElfBytes
  import opened ElfHeader
  import opened ElfSections

  /** Empty, or not ended by a zero. */
  predicate Trimmed(text: Data) {
    text == [] || Last(text) != 0
  }

  /** `parts` are what the placeholder stood between, found from left to right, and `text` is the same with the new
      prefix in its places, up to trailing zeros; it stands in as many bytes as before, with a zero behind it. */
  ghost predicate IsRelocation(before: Data, after: Data, p: Prefixes, parts: seq<Data>, text: Data, z: nat) {
    && LeftmostCut(parts, p.was) && Concat(parts, p.was) == before
    && Concat(parts, p.now) == text + Zeros(z) && Trimmed(text)
    && |text| < |before| && after == text + Zeros(|before| - |text|)
  }

  ghost predicate TextRelocated(before: Data, after: Data, p: Prefixes) {
    exists parts, text, z :: IsRelocation(before, after, p, parts, text, z)
  }

  lemma RelocatedText(before: Data, after: Data, p: Prefixes)
    requires Usable(p) && |Relocated(before, p)| < |before| && after == Padded(Relocated(before, p), |before|)
    ensures TextRelocated(before, after, p)
  {
    var parts := SubstituteReplaces(before, p.was, p.now);
    var text := Relocated(before, p);
    var s := Concat(parts, p.now);
    StripNulsIs(s);
    assert IsRelocation(before, after, p, parts, text, |s| - |text|);
  }

  lemma SameTrimmed(a: Data, m: nat, b: Data, n: nat)
    requires Trimmed(a) && Trimmed(b) && a + Zeros(m) == b + Zeros(n)
    ensures a == b
  {
    var s, t := a + Zeros(m), b + Zeros(n);
    assert (forall i | |a| <= i < |s| :: s[i] == 0) && (a != [] ==> s[|a| - 1] == Last(a));
    assert (forall i | |b| <= i < |t| :: t[i] == 0) && (b != [] ==> t[|b| - 1] == Last(b));
    assert |a| == |b|;
    assert a == s[..|a|] && b == t[..|b|];
  }

  /** There is only one outcome. */
  lemma RelocationIsUnique(before: Data, after: Data, other: Data, p: Prefixes)
    requires Usable(p) && TextRelocated(before, after, p) && TextRelocated(before, other, p)
    ensures after == other
  {
    var parts, text, z :| IsRelocation(before, after, p, parts, text, z);
    var parts', text', z' :| IsRelocation(before, other, p, parts', text', z');
    SubstituteOfCut(parts, p.was, p.now);
    SubstituteOfCut(parts', p.was, p.now);
    SameTrimmed(text, z, text', z');
  }

  lemma CutWithZeros(parts: seq<Data>, last: Data, n: nat, was: Data)
    requires was != [] && 0 !in was && LeftmostCut(parts + [last], was)
    ensures LeftmostCut(parts + [last + Zeros(n)], was)
  {
    var a, b := parts + [last], parts + [last + Zeros(n)];
    var s := last + Zeros(n);
    forall k: nat | k + |was| <= |s| ensures !OccursAt(s, was, k) {
      if k + |was| <= |last| {
        assert s[k..k + |was|] == last[k..k + |was|];
        assert !OccursAt(a[|a| - 1], was, k);
      } else {
        assert s[k..k + |was|][|was| - 1] == 0;
        assert was[|was| - 1] in was;
      }
    }
    forall i | 0 <= i < |b| - 1 ensures NothingBefore(b[i], was) {
      assert b[i] == a[i];
    }
  }

  lemma {:induction false} ConcatTail(parts: seq<Data>, last: Data, more: Data, sep: Data)
    ensures Concat(parts + [last + more], sep) == Concat(parts + [last], sep) + more
    decreases |parts|
  {
    if parts != [] {
      var a, b := parts + [last], parts + [last + more];
      assert a[1..] == parts[1..] + [last] && b[1..] == parts[1..] + [last + more];
      ConcatTail(parts[1..], last, more, sep);
      assert parts[0] + sep + (Concat(a[1..], sep) + more) == parts[0] + sep + Concat(a[1..], sep) + more;
    }
  }

  /** A section or a slot that holds a text with the placeholder in it, and zeros behind, holds the text with the new
      prefix afterwards, and zeros behind. */
  lemma PlaceholderIsReplaced(parts: seq<Data>, last: Data, n: nat, before: Data, after: Data, p: Prefixes)
    requires Usable(p) && 0 !in p.was && LeftmostCut(parts + [last], p.was) && TextRelocated(before, after, p)
    requires before == Concat(parts + [last], p.was) + Zeros(n) && Trimmed(Concat(parts + [last], p.now))
    ensures var text := Concat(parts + [last], p.now);
            |text| < |before| && after == text + Zeros(|before| - |text|)
  {
    var all := parts + [last + Zeros(n)];
    var goal := Concat(parts + [last], p.now);
    CutWithZeros(parts, last, n, p.was);
    ConcatTail(parts, last, Zeros(n), p.was);
    ConcatTail(parts, last, Zeros(n), p.now);
    var found, text, z :| IsRelocation(before, after, p, found, text, z);
    SubstituteOfCut(all, p.was, p.now);
    SubstituteOfCut(found, p.was, p.now);
    SameTrimmed(goal, n, text, z);
  }

  // Sections

  /** What is relocated in a section: all of it, or each slot on its own. */
  ghost predicate HoldsText(s: Section, role: Role, o: Data, r: Data, p: Prefixes) {
    match role
    case LdSoCache => TextRelocated(ReadAt(o, s.offset, s.size), ReadAt(r, s.offset, s.size), p)
    case GccRelocPrefix =>
      forall j: nat | (j + 1) * SLOT <= s.size :: TextRelocated(SlotAt(o, s.offset, j), SlotAt(r, s.offset, j), p)
    case _ => true
  }

  lemma RewrittenHoldsText(s: Section, role: Section -> Role, o: Data, r: Data, p: Prefixes)
    requires Usable(p) && IsNamed(s, role) && s.offset + s.size <= |o| == |r| && Rewritten(s, role, o, r, p)
    requires Fits(s, role, o, p)
    ensures HoldsText(s, role(s), o, r, p)
  {
    if role(s) == LdSoCache {
      RelocatedText(ReadAt(o, s.offset, s.size), ReadAt(r, s.offset, s.size), p);
    } else if role(s) == GccRelocPrefix {
      forall j: nat | (j + 1) * SLOT <= s.size
        ensures TextRelocated(SlotAt(o, s.offset, j), SlotAt(r, s.offset, j), p) {
        assert SlotFits(o, s.offset, j, p) && SlotRewritten(o, r, s.offset, j, p);
        RelocatedText(SlotAt(o, s.offset, j), SlotAt(r, s.offset, j), p);
      }
    }
  }

  /** What decides whether a text fits. */
  lemma RelocatedIsText(before: Data, p: Prefixes, parts: seq<Data>, text: Data, z: nat)
    requires Usable(p) && LeftmostCut(parts, p.was) && Concat(parts, p.was) == before
    requires Concat(parts, p.now) == text + Zeros(z) && Trimmed(text)
    ensures Relocated(before, p) == text
  {
    SubstituteOfCut(parts, p.was, p.now);
    StripNulsIs(Concat(parts, p.now));
    SameTrimmed(text, z, Relocated(before, p), |Concat(parts, p.now)| - |Relocated(before, p)|);
  }

  // Names

  /** The sections that are rewritten are those of type 1 whose names in the string table are these four. */
  lemma RolesByName(before: Data, name: string, rest: Data, s: Section)
    requires (forall i | 0 <= i < |name| :: 0 < name[i] as int < 128) && s.name == |before|
    ensures var role := RoleIn(before + AsBytes(name) + [0] + rest);
            && (name == ".sysdirs" ==> role(s) == SysDirs) && (name == ".sysdirslen" ==> role(s) == SysDirsLen)
            && (name == ".ldsocache" ==> role(s) == LdSoCache) &&
               (name == ".gccrelocprefix" ==> role(s) == GccRelocPrefix)
            && (IsNamed(s, role) <==>
                s.kind == 1 && name in {".sysdirs", ".sysdirslen", ".ldsocache", ".gccrelocprefix"})
  {
    NameReadBack(before, AsBytes(name), 0, rest);
    RoleOfName(name);
  }

  lemma RoleOfName(name: string)
    requires forall i | 0 <= i < |name| :: 0 < name[i] as int < 128
    ensures RoleOf(AsBytes(name)) ==
            if name == ".sysdirs" then SysDirs
            else if name == ".sysdirslen" then SysDirsLen
            else if name == ".ldsocache" then LdSoCache
            else if name == ".gccrelocprefix" then GccRelocPrefix
            else Other
  {
    SameBytes(name, ".sysdirs");
    SameBytes(name, ".sysdirslen");
    SameBytes(name, ".ldsocache");
    SameBytes(name, ".gccrelocprefix");
  }

  lemma SameBytes(a: string, b: string)
    requires forall i | 0 <= i < |a| :: 0 < a[i] as int < 128
    requires forall i | 0 <= i < |b| :: 0 < b[i] as int < 128
    ensures AsBytes(a) == AsBytes(b) <==> a == b
  {
    if AsBytes(a) == AsBytes(b) {
      assert |a| == |AsBytes(a)| && |b| == |AsBytes(b)|;
      forall i | 0 <= i < |a| ensures a[i] == b[i] {
        assert AsBytes(a)[i] == AsBytes(b)[i];
      }
    }
  }

  /** Slot `j` of a section after the loop over them, each of 4096 bytes. */
  lemma SlotTexts(c: Data, off: nat, size: nat, p: Prefixes, j: nat)
    requires Usable(p) && off + size <= |c| && SlotsFrom(c, off, size, 0, p).outcome == Done && (j + 1) * 4096 <= size
    ensures TextRelocated(ReadAt(c, off + j * 4096, 4096),
                          ReadAt(SlotsFrom(c, off, size, 0, p).content, off + j * 4096, 4096), p)
  {
    var r := SlotsFrom(c, off, size, 0, p).content;
    SlotsAreIndependent(c, off, size, 0, p);
    SlotsStayInside(c, off, size, 0, p);
    assert SlotFits(c, off, j, p) && SlotRewritten(c, r, off, j, p);
    RelocatedText(SlotAt(c, off, j), SlotAt(r, off, j), p);
  }

  /** Every named section holds its relocated text. */
  ghost predicate AllHoldText(o: Data, r: Data, table: seq<Section>, role: Section -> Role, p: Prefixes) {
    forall j | 0 <= j < |table| && IsNamed(table[j], role) :: HoldsText(table[j], role(table[j]), o, r, p)
  }

  lemma AllTexts(e: Elf, o: Data, r: Data, table: seq<Section>, role: Section -> Role, p: Prefixes)
    requires Usable(p) && LaidOut(e, |o|, table, role) && |o| == |r| && AllFit(o, table, 0, role, p)
    requires forall j | 0 <= j < |table| && IsNamed(table[j], role) && role(table[j]) in {LdSoCache, GccRelocPrefix} ::
               Rewritten(table[j], role, o, r, p)
    ensures AllHoldText(o, r, table, role, p)
  {
    forall j | 0 <= j < |table| && IsNamed(table[j], role) ensures HoldsText(table[j], role(table[j]), o, r, p) {
      if role(table[j]) in {LdSoCache, GccRelocPrefix} {
        RewrittenHoldsText(table[j], role, o, r, p);
      }
    }
  }
}
