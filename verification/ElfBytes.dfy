/** A file as a program sees it that seeks, reads and writes in place, and text in bytes. */
module ElfBytes {
  import opened Sequences
  import opened Bytes

  type Data = seq<Byte>

  function Min(a: nat, b: nat): nat {
    if a < b then a else b
  }

  /** At most `n` bytes from `off` on; less at the end of the file. */
  function ReadAt(c: Data, off: nat, n: nat): Data {
    c[Min(off, |c|)..Min(off + n, |c|)]
  }

  /** Writing past the end makes the file longer. */
  function WriteAt(c: Data, off: nat, b: Data): Data {
    if b == [] then c
    else if off + |b| <= |c| then c[..off] + b + c[off + |b|..]
    else if off <= |c| then c[..off] + b
    else c + Zeros(off - |c|) + b
  }

  /** A write inside the file changes only the bytes that it covers. */
  lemma WriteInside(c: Data, off: nat, b: Data)
    requires off + |b| <= |c|
    ensures |WriteAt(c, off, b)| == |c|
    ensures WriteAt(c, off, b)[off..off + |b|] == b
    ensures forall p | 0 <= p < |c| && !(off <= p < off + |b|) :: WriteAt(c, off, b)[p] == c[p]
  {
    if b == [] {
      assert c[off..off] == [];
    }
  }

  lemma ReadInside(c: Data, off: nat, n: nat)
    requires off + n <= |c|
    ensures ReadAt(c, off, n) == c[off..off + n]
  {
  }

  lemma SameSlice(c: Data, d: Data, off: nat, n: nat)
    requires |c| == |d| && off + n <= |c| && forall p | off <= p < off + n :: c[p] == d[p]
    ensures c[off..off + n] == d[off..off + n] && ReadAt(c, off, n) == ReadAt(d, off, n)
  {
  }

  class File {
    var content: Data
    var pos: nat

    constructor (content: Data)
      ensures this.content == content && pos == 0
    {
      this.content, pos := content, 0;
    }

    method Seek(off: nat)
      modifies this`pos
      ensures pos == off
    {
      pos := off;
    }

    method Read(n: nat) returns (b: Data)
      modifies this`pos
      ensures b == ReadAt(content, old(pos), n) && pos == old(pos) + |b|
    {
      b := ReadAt(content, pos, n);
      pos := pos + |b|;
    }

    method Write(b: Data)
      modifies this
      ensures content == WriteAt(old(content), old(pos), b) && pos == old(pos) + |b|
    {
      content := WriteAt(content, pos, b);
      pos := pos + |b|;
    }
  }

  // Numbers

  function Reversed(b: Data): Data {
    seq(|b|, i requires 0 <= i < |b| => b[|b| - 1 - i])
  }

  function Value(b: Data, little: bool): nat {
    Little(if little then b else Reversed(b))
  }

  // Text in bytes

  /** Every leftmost occurrence of `old`, replaced. */
  function Substitute(s: Data, was: Data, now: Data): Data
    requires was != []
    decreases |s|
  {
    if |s| < |was| then s
    else if s[..|was|] == was then now + Substitute(s[|was|..], was, now)
    else [s[0]] + Substitute(s[1..], was, now)
  }

  function StripNuls(s: Data): (r: Data)
    ensures |r| <= |s| && (r != [] ==> r[|r| - 1] != 0)
  {
    if s != [] && s[|s| - 1] == 0 then StripNuls(s[..|s| - 1]) else s
  }

  function Padded(s: Data, n: nat): Data {
    s + Zeros(if |s| <= n then n - |s| else 0)
  }

  ghost predicate OccursAt(s: Data, was: Data, k: nat) {
    k + |was| <= |s| && s[k..k + |was|] == was
  }

  ghost predicate Occurs(s: Data, was: Data) {
    exists k :: OccursAt(s, was, k)
  }

  function Concat(parts: seq<Data>, sep: Data): Data {
    if parts == [] then [] else if |parts| == 1 then parts[0] else parts[0] + sep + Concat(parts[1..], sep)
  }

  /** The cut of a text at the occurrences that are found from left to right: no part, with the text that it was cut at
      behind it, has an earlier occurrence.  That the parts have none is not enough,
      because a text may overlap itself. */
  ghost predicate LeftmostCut(parts: seq<Data>, was: Data) {
    && parts != [] && !Occurs(parts[|parts| - 1], was)
    && forall i | 0 <= i < |parts| - 1 :: NothingBefore(parts[i], was)
  }

  ghost predicate NothingBefore(part: Data, was: Data) {
    forall k: nat | k < |part| :: !OccursAt(part + was, was, k)
  }

  /** Substituting cuts the text at occurrences and puts the new text where they were: the pieces are the same. */
  lemma {:induction false} SubstituteReplaces(s: Data, was: Data, now: Data) returns (parts: seq<Data>)
    requires was != []
    ensures LeftmostCut(parts, was) && Concat(parts, was) == s && Concat(parts, now) == Substitute(s, was, now)
    ensures forall p | p in parts :: !Occurs(p, was)
    decreases |s|
  {
    if |s| < |was| {
      parts := [s];
    } else if s[..|was|] == was {
      var rest := SubstituteReplaces(s[|was|..], was, now);
      parts := [[]] + rest;
      ConcatCons([], rest, was);
      ConcatCons([], rest, now);
      assert s == [] + was + s[|was|..] && [] + now == now;
      CutGrows([], rest, was);
    } else {
      var rest := SubstituteReplaces(s[1..], was, now);
      parts := [[s[0]] + rest[0]] + rest[1..];
      ConcatGrow(s[0], rest, was);
      ConcatGrow(s[0], rest, now);
      assert [s[0]] + s[1..] == s;
      FirstPartOf(s, rest, was);
      LaterStart(s, rest, was);
    }
  }

  lemma ConcatCons(first: Data, rest: seq<Data>, sep: Data)
    requires rest != []
    ensures Concat([first] + rest, sep) == first + sep + Concat(rest, sep)
  {
    assert ([first] + rest)[1..] == rest;
  }

  lemma CutGrows(first: Data, rest: seq<Data>, was: Data)
    requires LeftmostCut(rest, was) && NothingBefore(first, was)
    ensures LeftmostCut([first] + rest, was)
  {
    var parts := [first] + rest;
    forall i | 0 <= i < |parts| - 1 ensures NothingBefore(parts[i], was) {
      assert i > 0 ==> parts[i] == rest[i - 1];
    }
  }

  lemma NothingBeforeGrows(x: Byte, part: Data, was: Data)
    requires was != [] && NothingBefore(part, was) && !OccursAt([x] + part + was, was, 0)
    ensures NothingBefore([x] + part, was)
  {
    var long, short := [x] + part + was, part + was;
    assert long[1..] == short;
    forall k: nat | 0 < k < |part| + 1 ensures !OccursAt(long, was, k) {
      assert !OccursAt(short, was, k - 1);
      TailSlice(long, k - 1, |was|);
    }
  }

  lemma NothingBeforeShrinks(part: Data, was: Data)
    requires was != [] && part != [] && NothingBefore(part, was)
    ensures NothingBefore(part[1..], was)
  {
    var long, short := part + was, part[1..] + was;
    assert long[1..] == short;
    forall k: nat | k < |part| - 1 ensures !OccursAt(short, was, k) {
      assert !OccursAt(long, was, k + 1);
      TailSlice(long, k, |was|);
    }
  }

  lemma TailSlice(s: Data, k: nat, n: nat)
    requires k + 1 + n <= |s|
    ensures s[1..][k..k + n] == s[k + 1..k + 1 + n]
  {
  }

  /** A text starts as its first part and the text behind it. */
  lemma StartOf(s: Data, first: Data, rest: Data, was: Data)
    requires s == first + was + rest
    ensures |s| >= |was| && (OccursAt(first + was, was, 0) <==> s[..|was|] == was)
  {
    assert (first + was)[0..0 + |was|] == s[..|was|];
  }

  /** One more byte in front of the first part. */
  lemma LaterStart(s: Data, rest: seq<Data>, was: Data)
    requires was != [] && |s| >= |was| && s[..|was|] != was && LeftmostCut(rest, was) && Concat(rest, was) == s[1..]
    requires !Occurs([s[0]] + rest[0], was)
    ensures LeftmostCut([[s[0]] + rest[0]] + rest[1..], was)
  {
    if |rest| > 1 {
      var first, tail := [s[0]] + rest[0], Concat(rest[1..], was);
      PartInFront(s, rest[0], was, tail);
      StartOf(s, first, tail, was);
      assert NothingBefore(rest[0], was);
      NothingBeforeGrows(s[0], rest[0], was);
      CutTail(rest, was);
      CutGrows(first, rest[1..], was);
    }
  }

  lemma PartInFront(s: Data, part: Data, was: Data, tail: Data)
    requires s != [] && s[1..] == part + was + tail
    ensures s == [s[0]] + part + was + tail
  {
    assert s == [s[0]] + s[1..];
    Regroup([s[0]], part + was, tail);
    Regroup([s[0]], part, was);
  }

  lemma CutTail(parts: seq<Data>, was: Data)
    requires |parts| > 1 && LeftmostCut(parts, was)
    ensures LeftmostCut(parts[1..], was)
  {
    assert forall i | 0 <= i < |parts| - 1 :: parts[1..][i] == parts[i + 1];
  }

  lemma {:induction false} NothingToReplace(s: Data, was: Data, now: Data)
    requires was != [] && !Occurs(s, was)
    ensures Substitute(s, was, now) == s
    decreases |s|
  {
    if |s| >= |was| {
      assert !OccursAt(s, was, 0);
      forall k: nat | k + |was| <= |s[1..]| ensures !OccursAt(s[1..], was, k) {
        assert s[1..][k..k + |was|] == s[k + 1..k + 1 + |was|];
        assert !OccursAt(s, was, k + 1);
      }
      NothingToReplace(s[1..], was, now);
      assert s == [s[0]] + s[1..];
    }
  }

  /** Whatever the text: the new one stands exactly where the old one was found from left to right. */
  lemma {:induction false} SubstituteOfCut(parts: seq<Data>, was: Data, now: Data)
    requires was != [] && LeftmostCut(parts, was)
    ensures Substitute(Concat(parts, was), was, now) == Concat(parts, now)
    decreases |Concat(parts, was)|
  {
    var s, first := Concat(parts, was), parts[0];
    if |parts| == 1 {
      NothingToReplace(s, was, now);
    } else if first == [] {
      var rest := parts[1..];
      assert parts == [[]] + rest;
      ConcatCons([], rest, was);
      ConcatCons([], rest, now);
      assert [] + was == was && [] + now == now;
      assert s[..|was|] == was && s[|was|..] == Concat(rest, was);
      CutTail(parts, was);
      SubstituteOfCut(rest, was, now);
    } else {
      var rest := [first[1..]] + parts[1..];
      assert first == [first[0]] + first[1..] && [[first[0]] + rest[0]] + rest[1..] == parts;
      ConcatGrow(first[0], rest, was);
      ConcatGrow(first[0], rest, now);
      ShorterStart(s, parts, was);
      SubstituteOfCut(rest, was, now);
      assert s[1..] == Concat(rest, was) && s[0] == first[0];
    }
  }

  lemma ShorterStart(s: Data, parts: seq<Data>, was: Data)
    requires was != [] && |parts| > 1 && parts[0] != [] && LeftmostCut(parts, was) && s == Concat(parts, was)
    ensures LeftmostCut([parts[0][1..]] + parts[1..], was) && |s| >= |was| && s[..|was|] != was
  {
    assert NothingBefore(parts[0], was);
    StartOf(s, parts[0], Concat(parts[1..], was), was);
    assert !OccursAt(parts[0] + was, was, 0);
    NothingBeforeShrinks(parts[0], was);
    CutTail(parts, was);
    CutGrows(parts[0][1..], parts[1..], was);
  }

  lemma {:induction false} StripNulsIs(s: Data)
    ensures StripNuls(s) + Zeros(|s| - |StripNuls(s)|) == s
  {
    if s != [] && s[|s| - 1] == 0 {
      StripNulsIs(s[..|s| - 1]);
      assert s == s[..|s| - 1] + [0];
    }
  }

  lemma ConcatGrow(x: Byte, parts: seq<Data>, sep: Data)
    requires parts != []
    ensures Concat([[x] + parts[0]] + parts[1..], sep) == [x] + Concat(parts, sep)
  {
    assert ([[x] + parts[0]] + parts[1..])[1..] == parts[1..];
    if |parts| > 1 {
      assert [x] + parts[0] + sep + Concat(parts[1..], sep) == [x] + (parts[0] + sep + Concat(parts[1..], sep));
    }
  }

  lemma FirstPartOf(s: Data, rest: seq<Data>, was: Data)
    requires was != [] && |s| >= |was| && s[..|was|] != was && rest != [] && Concat(rest, was) == s[1..]
    requires !Occurs(rest[0], was)
    ensures !Occurs([s[0]] + rest[0], was)
  {
    var p := [s[0]] + rest[0];
    assert |p| <= |s| && p == s[..|p|] by {
      ConcatStarts(rest, was);
      assert s == [s[0]] + s[1..];
    }
    forall k: nat | k + |was| <= |p| ensures !OccursAt(p, was, k) {
      if k == 0 {
        assert p[0..|was|] == s[..|was|];
      } else {
        assert p[k..k + |was|] == rest[0][k - 1..k - 1 + |was|];
        assert !OccursAt(rest[0], was, k - 1);
      }
    }
  }

  lemma ConcatStarts(parts: seq<Data>, sep: Data)
    requires parts != []
    ensures |parts[0]| <= |Concat(parts, sep)| && Concat(parts, sep)[..|parts[0]|] == parts[0]
  {
    if |parts| > 1 {
      assert parts[0] + sep + Concat(parts[1..], sep) == parts[0] + (sep + Concat(parts[1..], sep));
    }
  }

  /** No zero byte and no empty text comes out when none goes in. */
  lemma {:induction false} SubstituteKeepsText(s: Data, was: Data, now: Data)
    requires was != [] && now != [] && 0 !in s && 0 !in now
    ensures 0 !in Substitute(s, was, now) && (s != [] ==> Substitute(s, was, now) != [])
    decreases |s|
  {
    if |s| >= |was| {
      if s[..|was|] == was {
        SubstituteKeepsText(s[|was|..], was, now);
      } else {
        SubstituteKeepsText(s[1..], was, now);
      }
    }
  }
}
