/** Pruning the shared state cache: `remove_duplicated`, `remove_orphans` and their combination in `main` of
    sstate-cache-management.py. */
module SstatePrune {
  import opened Sequences
  import opened Text
  import opened Wrappers

  const ARCHIVE := ".tar.zst"
  const SKIPPED_TASK := "populate_lic"

  /** What a name holds beside the fields of its signature. */
  datatype Build = Build(target: string, pv: string, pr: string, version: string, hash: string)

  /** A file of the cache: what its name matched and when it was modified. */
  datatype Entry = Entry(path: string, pn: string, arch: string, task: string, ext: string, build: Build, mtime: int)

  /** What the pattern for file names leaves out of the fields that the signatures use. */
  predicate Matched(p: Entry) {
    ':' !in p.pn && ':' !in p.arch && ':' !in p.task && ':' !in p.ext
  }

  function GroupFields(p: Entry): seq<string> {
    [p.pn, p.arch, p.task]
  }

  function KindFields(p: Entry): seq<string> {
    [p.pn, p.arch, p.task, p.ext]
  }

  function GroupSig(p: Entry): string {
    Join(GroupFields(p), ':')
  }

  function KindSig(p: Entry): string {
    Join(KindFields(p), ':')
  }

  predicate SameGroup(p: Entry, q: Entry) {
    p.pn == q.pn && p.arch == q.arch && p.task == q.task
  }

  predicate SameKind(p: Entry, q: Entry) {
    SameGroup(p, q) && p.ext == q.ext
  }

  lemma JoinIsInjective(a: seq<string>, b: seq<string>)
    requires a != [] && b != [] && (forall f | f in a :: ':' !in f) && (forall f | f in b :: ':' !in f)
    requires Join(a, ':') == Join(b, ':')
    ensures a == b
  {
    SplitOfJoin(a, ':');
    SplitOfJoin(b, ':');
  }

  /** The joined signatures tell exactly the groups, and the kinds of file in a group, apart. */
  lemma SignaturesIdentify(p: Entry, q: Entry)
    requires Matched(p) && Matched(q)
    ensures GroupSig(p) == GroupSig(q) <==> SameGroup(p, q)
    ensures KindSig(p) == KindSig(q) <==> SameKind(p, q)
  {
    if GroupSig(p) == GroupSig(q) {
      JoinIsInjective(GroupFields(p), GroupFields(q));
      assert GroupFields(p)[0] == p.pn && GroupFields(p)[1] == p.arch && GroupFields(p)[2] == p.task;
    }
    if KindSig(p) == KindSig(q) {
      JoinIsInjective(KindFields(p), KindFields(q));
      assert KindFields(p)[0] == p.pn && KindFields(p)[1] == p.arch && KindFields(p)[2] == p.task &&
        KindFields(p)[3] == p.ext;
    }
  }

  ghost predicate AllMatched(paths: seq<Entry>) {
    forall p | p in paths :: Matched(p)
  }

  ghost predicate TellsKinds<K>(sig: Entry -> K, paths: seq<Entry>) {
    forall p, q | p in paths && q in paths :: sig(p) == sig(q) <==> SameKind(p, q)
  }

  ghost predicate TellsGroups<K>(sig: Entry -> K, paths: seq<Entry>) {
    forall p, q | p in paths && q in paths :: sig(p) == sig(q) <==> SameGroup(p, q)
  }

  lemma SignaturesTell(paths: seq<Entry>)
    requires AllMatched(paths)
    ensures TellsKinds(KindSig, paths) && TellsGroups(GroupSig, paths)
  {
    forall p, q | p in paths && q in paths
      ensures KindSig(p) == KindSig(q) <==> SameKind(p, q)
      ensures GroupSig(p) == GroupSig(q) <==> SameGroup(p, q)
    {
      SignaturesIdentify(p, q);
    }
  }

  // What is removed

  function Newer(p: Entry, r: Option<Entry>): bool {
    r.None? || p.mtime > r.value.mtime
  }

  /** The first of the newest entries of the kind of `like`, in the order of the list. */
  function Newest(paths: seq<Entry>, like: Entry): Option<Entry>
    decreases |paths|
  {
    if paths == [] then None else
      var p, r := paths[|paths| - 1], Newest(paths[..|paths| - 1], like);
      if SameKind(p, like) && Newer(p, r) then Some(p) else r
  }

  lemma NewestStep(paths: seq<Entry>, p: Entry, like: Entry)
    ensures Newest(paths + [p], like) ==
            if SameKind(p, like) && Newer(p, Newest(paths, like)) then Some(p) else Newest(paths, like)
  {
    assert (paths + [p])[..|paths|] == paths;
  }

  lemma {:induction false} NewestOfSameKind(paths: seq<Entry>, p: Entry, q: Entry)
    requires SameKind(p, q)
    ensures Newest(paths, p) == Newest(paths, q)
    decreases |paths|
  {
    if paths != [] {
      NewestOfSameKind(paths[..|paths| - 1], p, q);
    }
  }

  function Considered(paths: seq<Entry>): (r: seq<Entry>)
    ensures forall p :: p in r <==> p in paths && p.task != SKIPPED_TASK
    decreases |paths|
  {
    if paths == [] then [] else
      var p := paths[|paths| - 1];
      assert paths == paths[..|paths| - 1] + [p];
      Considered(paths[..|paths| - 1]) + if p.task != SKIPPED_TASK then [p] else []
  }

  lemma {:induction false} ConsideredNoRepeats(paths: seq<Entry>)
    requires NoRepeats(paths)
    ensures NoRepeats(Considered(paths))
    decreases |paths|
  {
    if paths != [] {
      ConsideredNoRepeats(paths[..|paths| - 1]);
    }
  }

  predicate IsDuplicate(paths: seq<Entry>, p: Entry) {
    p in paths && p.task != SKIPPED_TASK && Newest(Considered(paths), p) != Some(p)
  }

  ghost predicate IsOrphan(paths: seq<Entry>, p: Entry) {
    p in paths && forall q | q in paths && SameGroup(q, p) :: q.ext != ARCHIVE
  }

  ghost function Removed(paths: seq<Entry>, duplicated: bool, orphans: bool): set<Entry> {
    set p | p in paths && ((duplicated && IsDuplicate(paths, p)) || (orphans && IsOrphan(paths, p)))
  }

  /** After the entries `done`, `keep` holds the newest of each kind among them. */
  ghost predicate Keeps<K>(keep: map<K, Entry>, done: seq<Entry>, valid: seq<Entry>, sig: Entry -> K) {
    && (forall s | s in keep :: keep[s] in done && sig(keep[s]) == s)
    && (forall q | q in done :: sig(q) in keep)
    && (forall q | q in valid :: Newest(done, q) == if sig(q) in keep then Some(keep[sig(q)]) else None)
  }

  lemma KeepsStep<K>(keep: map<K, Entry>, done: seq<Entry>, p: Entry, valid: seq<Entry>, sig: Entry -> K)
    requires TellsKinds(sig, valid) && Keeps(keep, done, valid, sig) && p in valid && forall q | q in done :: q in valid
    ensures var newer := sig(p) !in keep || p.mtime > keep[sig(p)].mtime;
            Keeps(if newer then keep[sig(p) := p] else keep, done + [p], valid, sig)
  {
    forall q | q in valid
      ensures Newest(done + [p], q) == if SameKind(p, q) && Newer(p, Newest(done, q)) then Some(p) else Newest(done, q)
    {
      NewestStep(done, p, q);
    }
  }

  /** `remove` is what has been seen and is not kept. */
  ghost predicate Drops<K>(remove: seq<Entry>, keep: map<K, Entry>, done: seq<Entry>, sig: Entry -> K) {
    NoRepeats(remove) && forall p :: p in remove <==> p in done && sig(p) in keep && keep[sig(p)] != p
  }

  lemma DropsStep<K>(remove: seq<Entry>, keep: map<K, Entry>, done: seq<Entry>, p: Entry, next: seq<Entry>,
                     sig: Entry -> K)
    requires Drops(remove, keep, done, sig) && p !in done && next == done + [p] &&
             forall q | q in done :: sig(q) in keep
    requires sig(p) in keep ==> keep[sig(p)] in done && sig(keep[sig(p)]) == sig(p)
    ensures sig(p) !in keep ==> Drops(remove, keep[sig(p) := p], next, sig)
    ensures sig(p) in keep ==>
            Drops(remove + [keep[sig(p)]], keep[sig(p) := p], next, sig) && Drops(remove + [p], keep, next, sig)
  {
  }

  /** The pass over the considered entries: keeps the newest so far of each signature and removes the others. */
  method KeepNewest<K(==)>(valid: seq<Entry>, sig: Entry -> K) returns (remove: seq<Entry>)
    requires NoRepeats(valid) && TellsKinds(sig, valid)
    ensures NoRepeats(remove)
    ensures forall p :: p in remove <==> p in valid && Newest(valid, p) != Some(p)
  {
    var keep: map<K, Entry> := map[];
    remove := [];
    for i := 0 to |valid|
      invariant Keeps(keep, valid[..i], valid, sig)
      invariant Drops(remove, keep, valid[..i], sig)
    {
      var p := valid[i];
      assert valid[..i + 1] == valid[..i] + [p];
      KeepsStep(keep, valid[..i], p, valid, sig);
      DropsStep(remove, keep, valid[..i], p, valid[..i + 1], sig);
      if sig(p) !in keep {
        keep := keep[sig(p) := p];
      } else if p.mtime > keep[sig(p)].mtime {
        remove := remove + [keep[sig(p)]];
        keep := keep[sig(p) := p];
      } else {
        remove := remove + [p];
      }
    }
    assert valid[..|valid|] == valid;
  }

  method RemoveDuplicated(paths: seq<Entry>) returns (remove: seq<Entry>)
    requires NoRepeats(paths) && AllMatched(paths)
    ensures NoRepeats(remove)
    ensures forall p :: p in remove <==> IsDuplicate(paths, p)
  {
    ConsideredNoRepeats(paths);
    SignaturesTell(Considered(paths));
    remove := KeepNewest(Considered(paths), KindSig);
  }

  ghost predicate Collected<K>(pathsigs: map<K, seq<Entry>>, paths: seq<Entry>, sig: Entry -> K) {
    && (forall p | p in paths :: sig(p) in pathsigs)
    && (forall s | s in pathsigs :: NoRepeats(pathsigs[s]))
    && (forall s, p | s in pathsigs :: p in pathsigs[s] <==> p in paths && sig(p) == s)
  }

  /** The entries of each signature, in the order of the list. */
  method Collect<K(==)>(paths: seq<Entry>, sig: Entry -> K) returns (pathsigs: map<K, seq<Entry>>)
    requires NoRepeats(paths)
    ensures Collected(pathsigs, paths, sig)
  {
    pathsigs := map[];
    for i := 0 to |paths|
      invariant Collected(pathsigs, paths[..i], sig)
    {
      var p := paths[i];
      var group := if sig(p) in pathsigs then pathsigs[sig(p)] else [];
      assert p !in paths[..i];
      CollectStep(pathsigs, paths[..i], p, sig, group);
      assert paths[..i + 1] == paths[..i] + [p];
      pathsigs := pathsigs[sig(p) := group + [p]];
    }
    assert paths[..|paths|] == paths;
  }

  lemma CollectStep<K>(pathsigs: map<K, seq<Entry>>, done: seq<Entry>, p: Entry, sig: Entry -> K, group: seq<Entry>)
    requires Collected(pathsigs, done, sig) && p !in done
    requires group == if sig(p) in pathsigs then pathsigs[sig(p)] else []
    ensures Collected(pathsigs[sig(p) := group + [p]], done + [p], sig)
  {
  }

  predicate HasArchiveFile(group: seq<Entry>) {
    exists p | p in group :: p.ext == ARCHIVE
  }

  /** What is removed when the groups in `left` are still to come. */
  ghost predicate RemovedBut<K>(remove: seq<Entry>, paths: seq<Entry>, left: set<K>, sig: Entry -> K) {
    NoRepeats(remove) && forall p :: p in remove <==> p in paths && sig(p) !in left && IsOrphan(paths, p)
  }

  lemma OneMoreGroup<K>(remove: seq<Entry>, paths: seq<Entry>, pathsigs: map<K, seq<Entry>>, left: set<K>, s: K,
                        sig: Entry -> K)
    requires TellsGroups(sig, paths) && Collected(pathsigs, paths, sig) && RemovedBut(remove, paths, left, sig)
    requires s in left && s in pathsigs
    ensures RemovedBut(if HasArchiveFile(pathsigs[s]) then remove else remove + pathsigs[s], paths, left - {s}, sig)
  {
    GroupIsOrphaned(paths, s, pathsigs[s], sig);
    AppendNoRepeats(remove, pathsigs[s]);
  }

  lemma GroupIsOrphaned<K>(paths: seq<Entry>, s: K, group: seq<Entry>, sig: Entry -> K)
    requires TellsGroups(sig, paths) && forall p :: p in group <==> p in paths && sig(p) == s
    ensures forall p | p in group :: IsOrphan(paths, p) <==> !HasArchiveFile(group)
  {
  }

  /** Takes the groups one by one, in any order. */
  method RemoveUnarchived<K(==)>(paths: seq<Entry>, sig: Entry -> K) returns (remove: seq<Entry>)
    requires NoRepeats(paths) && TellsGroups(sig, paths)
    ensures NoRepeats(remove)
    ensures forall p :: p in remove <==> IsOrphan(paths, p)
  {
    var pathsigs := Collect(paths, sig);
    remove := [];
    var left := pathsigs.Keys;
    while left != {}
      invariant left <= pathsigs.Keys && RemovedBut(remove, paths, left, sig)
    {
      var s :| s in left;
      OneMoreGroup(remove, paths, pathsigs, left, s, sig);
      if !HasArchiveFile(pathsigs[s]) {
        remove := remove + pathsigs[s];
      }
      left := left - {s};
    }
  }

  lemma AppendNoRepeats<T>(s: seq<T>, t: seq<T>)
    requires NoRepeats(s) && NoRepeats(t) && forall x | x in t :: x !in s
    ensures NoRepeats(s + t)
  {
    forall i, j | 0 <= i < j < |s + t| ensures (s + t)[i] != (s + t)[j] {
      if i < |s| <= j {
        assert (s + t)[j] in t;
      }
    }
  }

  method RemoveOrphans(paths: seq<Entry>) returns (remove: seq<Entry>)
    requires NoRepeats(paths) && AllMatched(paths)
    ensures NoRepeats(remove)
    ensures forall p :: p in remove <==> IsOrphan(paths, p)
  {
    SignaturesTell(paths);
    remove := RemoveUnarchived(paths, GroupSig);
  }

  /** The main program: both passes look at the whole cache, then what either of them named is unlinked. */
  method Prune(paths: seq<Entry>, duplicated: bool, orphans: bool) returns (left: set<Entry>)
    requires NoRepeats(paths) && AllMatched(paths)
    ensures left == Elements(paths) - Removed(paths, duplicated, orphans)
  {
    var remove := {};
    if duplicated {
      var r := RemoveDuplicated(paths);
      remove := Elements(r);
    }
    if orphans {
      var r := RemoveOrphans(paths);
      remove := remove + Elements(r);
    }
    left := Elements(paths);
    while remove != {}
      invariant left - remove == Elements(paths) - Removed(paths, duplicated, orphans)
    {
      var p :| p in remove;
      remove := remove - {p};
      left := left - {p};
    }
  }

  // What is left

  /** The newest entry of a kind, and the first of those in the order of the list. */
  lemma {:induction false} NewestIsNewest(paths: seq<Entry>, like: Entry)
    ensures Newest(paths, like).None? <==> forall p | p in paths :: !SameKind(p, like)
    ensures Newest(paths, like).Some? ==> IsNewest(Newest(paths, like).value, paths, like)
    decreases |paths|
  {
    if paths != [] {
      assert paths == paths[..|paths| - 1] + [paths[|paths| - 1]];
      NewestIsNewest(paths[..|paths| - 1], like);
    }
  }

  ghost predicate IsNewest(n: Entry, paths: seq<Entry>, like: Entry) {
    n in paths && SameKind(n, like) && forall p | p in paths && SameKind(p, like) :: p.mtime <= n.mtime
  }

  ghost function Left(paths: seq<Entry>): set<Entry> {
    Elements(paths) - Removed(paths, true, true)
  }

  ghost predicate HasArchive(paths: set<Entry>, p: Entry) {
    exists a :: a in paths && SameGroup(a, p) && a.ext == ARCHIVE
  }

  /** A cache after both passes: every group has an archive, and every kind of file in a group one file. */
  ghost predicate Consistent(left: set<Entry>) {
    && (forall p | p in left :: HasArchive(left, p))
    && (forall p, q | p in left && q in left && SameKind(p, q) && p.task != SKIPPED_TASK :: p == q)
  }

  lemma LeftMeans(paths: seq<Entry>, p: Entry)
    ensures p in Left(paths) <==>
              p in paths && HasArchive(Elements(paths), p) &&
              (p.task == SKIPPED_TASK || Newest(Considered(paths), p) == Some(p))
  {
  }

  /** What stays for `p`: the newest of its kind. */
  lemma NewestStays(paths: seq<Entry>, p: Entry) returns (n: Entry)
    requires p in paths && HasArchive(Elements(paths), p)
    ensures n in Left(paths) && SameKind(n, p) && (p.task == SKIPPED_TASK ==> n == p)
    ensures p.task != SKIPPED_TASK ==> IsNewest(n, paths, p)
  {
    n := p;
    if p.task != SKIPPED_TASK {
      NewestIsNewest(Considered(paths), p);
      n := Newest(Considered(paths), p).value;
      NewestOfSameKind(Considered(paths), n, p);
    }
    LeftMeans(paths, n);
  }

  lemma OneIsLeft(paths: seq<Entry>, p: Entry, q: Entry)
    requires p in Left(paths) && q in Left(paths) && SameKind(p, q) && p.task != SKIPPED_TASK
    ensures p == q
  {
    LeftMeans(paths, p);
    LeftMeans(paths, q);
    NewestOfSameKind(Considered(paths), p, q);
  }

  lemma ArchiveIsLeft(paths: seq<Entry>, p: Entry)
    requires HasArchive(Elements(paths), p)
    ensures HasArchive(Left(paths), p)
  {
    var a :| a in Elements(paths) && SameGroup(a, p) && a.ext == ARCHIVE;
    var n := NewestStays(paths, a);
  }

  /** Both removals together leave a consistent cache, although each looks at the original one. */
  lemma LeftIsConsistent(paths: seq<Entry>)
    ensures Consistent(Left(paths))
  {
    forall p | p in Left(paths) ensures HasArchive(Left(paths), p) {
      LeftMeans(paths, p);
      ArchiveIsLeft(paths, p);
    }
    forall p, q | p in Left(paths) && q in Left(paths) && SameKind(p, q) && p.task != SKIPPED_TASK ensures p == q {
      OneIsLeft(paths, p, q);
    }
  }

  /** Nothing more than needed goes: a file of the skipped task stays exactly when its group has an archive, and of
      every other kind of file in such a group the newest stays. */
  lemma WhatIsLeft(paths: seq<Entry>, p: Entry)
    requires p in paths
    ensures !HasArchive(Elements(paths), p) ==> p !in Left(paths)
    ensures HasArchive(Elements(paths), p) && p.task == SKIPPED_TASK ==> p in Left(paths)
    ensures HasArchive(Elements(paths), p) && p.task != SKIPPED_TASK ==>
              exists n :: n in Left(paths) && IsNewest(n, paths, p) && (p in Left(paths) <==> p == n)
  {
    LeftMeans(paths, p);
    if HasArchive(Elements(paths), p) && p.task != SKIPPED_TASK {
      var n := NewestStays(paths, p);
      if p in Left(paths) {
        OneIsLeft(paths, p, n);
      }
    }
  }

  /** A consistent cache, in any order, loses nothing. */
  lemma ConsistentIsStable(again: seq<Entry>)
    requires Consistent(Elements(again))
    ensures Removed(again, true, true) == {}
  {
    forall p | p in again ensures p in Left(again) {
      assert p in Elements(again);
      if p.task != SKIPPED_TASK {
        var n := NewestStays(again, p);
        assert n in Elements(again);
      } else {
        LeftMeans(again, p);
      }
    }
  }

  /** A second run, over what is left in any order, removes nothing. */
  lemma SecondRunRemovesNothing(paths: seq<Entry>, again: seq<Entry>)
    requires Elements(again) == Left(paths)
    ensures Removed(again, true, true) == {}
  {
    LeftIsConsistent(paths);
    ConsistentIsStable(again);
  }

  /** When no two files of a kind have the same time, the order of the list does not matter. */
  lemma OrderIsIrrelevant(paths: seq<Entry>, other: seq<Entry>)
    requires Elements(paths) == Elements(other)
    requires forall p, q | p in paths && q in paths && SameKind(p, q) && p.mtime == q.mtime :: p == q
    ensures Left(paths) == Left(other)
  {
    forall p ensures p in Left(paths) <==> p in Left(other) {
      assert p in paths <==> p in Elements(paths);
      assert p in other <==> p in Elements(other);
      LeftMeans(paths, p);
      LeftMeans(other, p);
      if p in paths && HasArchive(Elements(paths), p) && p.task != SKIPPED_TASK {
        var m := NewestStays(paths, p);
        var n := NewestStays(other, p);
        SameNewest(paths, other, p, m, n);
        if p in Left(paths) { OneIsLeft(paths, p, m); }
        if p in Left(other) { OneIsLeft(other, p, n); }
      }
    }
  }

  lemma SameNewest(paths: seq<Entry>, other: seq<Entry>, p: Entry, m: Entry, n: Entry)
    requires Elements(paths) == Elements(other) && IsNewest(m, paths, p) && IsNewest(n, other, p)
    requires forall p, q | p in paths && q in paths && SameKind(p, q) && p.mtime == q.mtime :: p == q
    ensures m == n
  {
    assert n in Elements(paths) && m in Elements(other);
  }

  // Tracking files and their own archives

  /** A tracking file of an archive: the same name but for the extension. */
  predicate Tracks(info: Entry, archive: Entry) {
    SameGroup(info, archive) && info.build == archive.build && info.ext != ARCHIVE && archive.ext == ARCHIVE
  }

  ghost predicate KeepsOwnArchive(left: set<Entry>, info: Entry) {
    exists a :: a in left && Tracks(info, a)
  }

  function AsArchive(p: Entry): Entry {
    p.(ext := ARCHIVE)
  }

  /** The newest archive of its group is its own; for the skipped task, some archive is. */
  ghost predicate OwnIsNewest(paths: seq<Entry>, info: Entry) {
    if info.task == SKIPPED_TASK then exists a :: a in paths && Tracks(info, a)
    else
      var n := Newest(Considered(paths), AsArchive(info));
      n.Some? && n.value.build == info.build
  }

  /** In every group that has an archive, the newest tracking file of a kind belongs to the newest archive; files of the
      skipped task belong to some archive. */
  ghost predicate NewestBelongTogether(paths: seq<Entry>) {
    forall i | i in paths && i.ext != ARCHIVE && HasArchive(Elements(paths), i) ::
      i.task == SKIPPED_TASK || Newest(Considered(paths), i) == Some(i) ==> OwnIsNewest(paths, i)
  }

  lemma OwnArchiveOf(paths: seq<Entry>, i: Entry)
    requires i in Left(paths) && i.ext != ARCHIVE
    ensures KeepsOwnArchive(Left(paths), i) <==> OwnIsNewest(paths, i)
  {
    LeftMeans(paths, i);
    if i.task == SKIPPED_TASK {
      forall a | a in paths && Tracks(i, a) ensures a in Left(paths) {
        assert a in Elements(paths);
        LeftMeans(paths, a);
      }
    } else {
      NewestIsNewest(Considered(paths), AsArchive(i));
      var n := Newest(Considered(paths), AsArchive(i));
      if n.Some? {
        NewestOfSameKind(Considered(paths), n.value, AsArchive(i));
        assert n.value in Elements(paths);
        LeftMeans(paths, n.value);
      }
      forall a | a in Left(paths) && Tracks(i, a) ensures n == Some(a) {
        LeftMeans(paths, a);
        NewestOfSameKind(Considered(paths), a, AsArchive(i));
      }
    }
  }

  /** What consistency does not say: every tracking file that is left has its own archive left, exactly when in each
      group of the input the newest tracking files belong to the newest archive. */
  lemma TrackersKeepArchivesIff(paths: seq<Entry>)
    ensures (forall i | i in Left(paths) && i.ext != ARCHIVE :: KeepsOwnArchive(Left(paths), i)) <==>
            NewestBelongTogether(paths)
  {
    forall i | i in paths && i.ext != ARCHIVE
      ensures i in Left(paths) <==>
              HasArchive(Elements(paths), i) && (i.task == SKIPPED_TASK || Newest(Considered(paths), i) == Some(i))
    {
      LeftMeans(paths, i);
    }
    forall i | i in Left(paths) && i.ext != ARCHIVE
      ensures i in paths
      ensures KeepsOwnArchive(Left(paths), i) <==> OwnIsNewest(paths, i)
    {
      OwnArchiveOf(paths, i);
    }
  }

  /** The failing case: a tracking file newer than the others of its kind, all of whose own archives are older than some
      other one, is left without any of them. */
  lemma TrackerOutlivesItsArchive(paths: seq<Entry>, newer: Entry, info: Entry)
    requires newer in paths && info in paths && SameGroup(newer, info) && newer.ext == ARCHIVE
    requires info.ext != ARCHIVE && info.task != SKIPPED_TASK
    requires forall q | q in paths && SameKind(q, info) && q != info :: q.mtime < info.mtime
    requires forall a | a in paths && Tracks(info, a) :: a.mtime < newer.mtime
    ensures info in Left(paths) && !KeepsOwnArchive(Left(paths), info)
  {
    assert newer in Elements(paths);
    WhatIsLeft(paths, info);
    forall a | a in Left(paths) ensures !Tracks(info, a) {
      WhatIsLeft(paths, a);
    }
  }

  // Files of the same time, and one pass alone

  /** Entry `i` is the first of the newest ones of its kind. */
  ghost predicate FirstNewest(paths: seq<Entry>, i: nat, like: Entry) {
    && i < |paths| && SameKind(paths[i], like)
    && (forall j | 0 <= j < i && SameKind(paths[j], like) :: paths[j].mtime < paths[i].mtime)
    && (forall j | i < j < |paths| && SameKind(paths[j], like) :: paths[j].mtime <= paths[i].mtime)
  }

  lemma {:induction false} NewestIsFirst(paths: seq<Entry>, like: Entry)
    ensures IsFirst(paths, like, Newest(paths, like))
  {
    if paths != [] {
      var n := |paths| - 1;
      NewestIsFirst(paths[..n], like);
      if SameKind(paths[n], like) && Newer(paths[n], Newest(paths[..n], like)) {
        NewIsFirst(paths, n, like, Newest(paths[..n], like));
      } else {
        OldIsFirst(paths, n, like, Newest(paths[..n], like));
      }
    }
  }

  /** What is known of the newest one of a list. */
  ghost predicate IsFirst(paths: seq<Entry>, like: Entry, newest: Option<Entry>) {
    if newest.None? then forall j | 0 <= j < |paths| :: !SameKind(paths[j], like)
    else exists i: nat :: FirstNewest(paths, i, like) && paths[i] == newest.value
  }

  lemma NewIsFirst(paths: seq<Entry>, n: nat, like: Entry, before: Option<Entry>)
    requires n + 1 == |paths| && IsFirst(paths[..n], like, before)
    requires SameKind(paths[n], like) && Newer(paths[n], before)
    ensures IsFirst(paths, like, Some(paths[n]))
  {
    if before.Some? {
      var i: nat :| FirstNewest(paths[..n], i, like) && paths[..n][i] == before.value;
      forall j | 0 <= j < n && SameKind(paths[j], like) ensures paths[j].mtime < paths[n].mtime {
        assert paths[..n][j] == paths[j];
      }
    } else {
      assert forall j | 0 <= j < n :: paths[..n][j] == paths[j];
    }
    assert FirstNewest(paths, n, like);
  }

  lemma OldIsFirst(paths: seq<Entry>, n: nat, like: Entry, before: Option<Entry>)
    requires n + 1 == |paths| && IsFirst(paths[..n], like, before)
    requires !(SameKind(paths[n], like) && Newer(paths[n], before))
    ensures IsFirst(paths, like, before)
  {
    assert forall j | 0 <= j < n :: paths[..n][j] == paths[j];
    if before.Some? {
      var i: nat :| FirstNewest(paths[..n], i, like) && paths[..n][i] == before.value;
      assert FirstNewest(paths, i, like);
    }
  }

  lemma {:induction false} ConsideredNewest(paths: seq<Entry>, like: Entry)
    requires like.task != SKIPPED_TASK
    ensures Newest(Considered(paths), like) == Newest(paths, like)
  {
    if paths != [] {
      var n := |paths| - 1;
      ConsideredNewest(paths[..n], like);
      ConsideredStep(paths, like, Considered(paths[..n]), Considered(paths));
    }
  }

  lemma ConsideredStep(paths: seq<Entry>, like: Entry, before: seq<Entry>, all: seq<Entry>)
    requires paths != [] && like.task != SKIPPED_TASK
    requires var p := paths[|paths| - 1]; all == before + if p.task != SKIPPED_TASK then [p] else []
    requires Newest(before, like) == Newest(paths[..|paths| - 1], like)
    ensures Newest(all, like) == Newest(paths, like)
  {
    var p := paths[|paths| - 1];
    if p.task != SKIPPED_TASK {
      NewestStep(before, p, like);
    } else {
      assert all == before && !SameKind(p, like);
    }
  }

  lemma OneIsFirst(paths: seq<Entry>, i: nat, j: nat, like: Entry)
    requires FirstNewest(paths, i, like) && FirstNewest(paths, j, like)
    ensures i == j
  {
  }

  lemma FirstIsNewest(paths: seq<Entry>, i: nat, p: Entry)
    requires FirstNewest(paths, i, p) && p.task != SKIPPED_TASK
    ensures Newest(Considered(paths), p) == Some(paths[i])
  {
    ConsideredNewest(paths, p);
    var j := IndexOfNewest(paths, paths[i], p);
    OneIsFirst(paths, i, j, p);
  }

  lemma IndexOfNewest(paths: seq<Entry>, some: Entry, p: Entry) returns (j: nat)
    requires some in paths && SameKind(some, p)
    ensures FirstNewest(paths, j, p) && Newest(paths, p) == Some(paths[j])
  {
    NewestIsFirst(paths, p);
    j :| FirstNewest(paths, j, p) && paths[j] == Newest(paths, p).value;
  }

  /** Which files each pass removes, whether it runs alone or with the other: the first one all but the first of the
      newest files of each kind, of two files with the same time the one that is listed later; the second one the groups
      without an archive. */
  lemma RemovedIff(paths: seq<Entry>, duplicated: bool, orphans: bool, p: Entry)
    requires p in paths
    ensures p in Removed(paths, duplicated, orphans) <==>
            || (duplicated && p.task != SKIPPED_TASK && !exists i: nat :: FirstNewest(paths, i, p) && paths[i] == p)
            || (orphans && !HasArchive(Elements(paths), p))
  {
    if p.task != SKIPPED_TASK {
      ConsideredNewest(paths, p);
      NewestIsFirst(paths, p);
      if i: nat :| FirstNewest(paths, i, p) && paths[i] == p {
        FirstIsNewest(paths, i, p);
      }
    }
    assert HasArchive(Elements(paths), p) <==> !IsOrphan(paths, p) by {
      if a :| a in Elements(paths) && SameGroup(a, p) && a.ext == ARCHIVE {
        assert a in paths;
      }
      if !IsOrphan(paths, p) {
        var q :| q in paths && SameGroup(q, p) && q.ext == ARCHIVE;
        assert q in Elements(paths);
      }
    }
  }
}
