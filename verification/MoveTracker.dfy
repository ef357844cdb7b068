/** Keeping watch paths in step with directory renames: `_SysProcessEvent` in pyinotify.py.

  The kernel reports a rename of a watched directory by MOVED_FROM and MOVED_TO on the parents, tied by a
  cookie, and MOVE_SELF on the directory.  The handlers rebuild the paths of the directory and of
  everything below it from these three events, without looking at the file system.
 */
module MoveTracker {
  import opened Text
  import opened Paths
  import opened InotifyEvent

  type Wd = int

  /** The path of each watch, and the records of moves with their dates in seconds. */
  datatype Tracker = Tracker(paths: map<Wd, string>, cookies: map<nat, (string, int)>,
                             moves: map<string, (string, int)>)

  const UNKNOWN := "-unknown-path"

  predicate EndsWith(s: string, suffix: string) {
    |suffix| <= |s| && s[|s| - |suffix|..] == suffix
  }

  // The handlers

  function OnMovedFrom(s: Tracker, ev: RawEvent, now: int): Tracker
    requires ev.wd in s.paths
  {
    s.(cookies := s.cookies[ev.cookie := (NormPath(JoinPath(s.paths[ev.wd], ev.name)), now)])
  }

  function OnMovedTo(s: Tracker, ev: RawEvent, now: int): Tracker
    requires ev.wd in s.paths
  {
    if ev.cookie in s.cookies then
      s.(moves := s.moves[s.cookies[ev.cookie].0 := (NormPath(JoinPath(s.paths[ev.wd], ev.name)), now)])
    else
      s
  }

  function RerootOne(path: string, src: string, dest: string): string {
    if src + "/" <= path then JoinPath(dest, path[|src| + 1..]) else path
  }

  function Reroot(paths: map<Wd, string>, src: string, dest: string): map<Wd, string> {
    map w | w in paths :: RerootOne(paths[w], src, dest)
  }

  function OnMoveSelf(s: Tracker, ev: RawEvent): Tracker
    requires ev.wd in s.paths
  {
    var src := s.paths[ev.wd];
    if src in s.moves then
      var dest := s.moves[src].0;
      s.(paths := Reroot(s.paths[ev.wd := dest], src, dest))
    else
      s.(paths := s.paths[ev.wd := if EndsWith(src, UNKNOWN) then src else src + UNKNOWN])
  }

  /** Events of watches that are not known are skipped; the other kinds of event change no path. */
  function Handle(s: Tracker, ev: RawEvent, now: int): Tracker {
    if ev.wd !in s.paths then s else
      var kind := StrippedMask(ev.mask);
      if kind == IN_MOVED_FROM then OnMovedFrom(s, ev, now)
      else if kind == IN_MOVED_TO then OnMovedTo(s, ev, now)
      else if kind == IN_MOVE_SELF then OnMoveSelf(s, ev)
      else if kind == IN_IGNORED then s.(paths := s.paths - {ev.wd})
      else s
  }

  /** Records older than a minute are dropped. */
  function Cleanup(s: Tracker, now: int): Tracker {
    s.(cookies := map k | k in s.cookies && now - s.cookies[k].1 <= 60 :: s.cookies[k],
       moves := map k | k in s.moves && now - s.moves[k].1 <= 60 :: s.moves[k])
  }

  datatype Step = Event(ev: RawEvent, now: int) | Clean(now: int)

  function StepOnce(s: Tracker, step: Step): Tracker {
    match step
    case Event(ev, now) => Handle(s, ev, now)
    case Clean(now) => Cleanup(s, now)
  }

  function Steps(s: Tracker, steps: seq<Step>): Tracker {
    if steps == [] then s else StepOnce(Steps(s, steps[..|steps| - 1]), steps[|steps| - 1])
  }

  lemma {:induction false} StepsAppend(s: Tracker, a: seq<Step>, b: seq<Step>)
    ensures Steps(s, a + b) == Steps(Steps(s, a), b)
  {
    if b == [] {
      assert a + b == a;
    } else {
      assert (a + b)[..|a + b| - 1] == a + b[..|b| - 1];
      StepsAppend(s, a, b[..|b| - 1]);
    }
  }

  // The tree of directories

  /** A directory other than the top one: its parent and its name there. */
  datatype Dir = Dir(parent: Wd, name: string)
  type Tree = map<Wd, Dir>

  /** `cs` are the names on the way from the top directory down to `d`. */
  ghost predicate IsPathOf(t: Tree, top: Wd, d: Wd, cs: seq<string>)
    decreases |cs|
  {
    if cs == [] then d == top
    else d in t && t[d].name == cs[|cs| - 1] && IsPathOf(t, top, t[d].parent, cs[..|cs| - 1])
  }

  ghost predicate TreeOk(t: Tree, top: Wd) {
    && top !in t
    && (forall d | d in t :: ValidName(t[d].name) && exists cs :: IsPathOf(t, top, d, cs))
    && (forall d, e | d in t && e in t && t[d] == t[e] :: d == e)
  }

  lemma {:induction false} PathIsUnique(t: Tree, top: Wd, d: Wd, a: seq<string>, b: seq<string>)
    requires top !in t && IsPathOf(t, top, d, a) && IsPathOf(t, top, d, b)
    ensures a == b
    decreases |a|
  {
    if a != [] {
      PathIsUnique(t, top, t[d].parent, a[..|a| - 1], b[..|b| - 1]);
      assert a == a[..|a| - 1] + [a[|a| - 1]] && b == b[..|b| - 1] + [b[|b| - 1]];
    }
  }

  lemma {:induction false} DirIsUnique(t: Tree, top: Wd, d: Wd, e: Wd, cs: seq<string>)
    requires TreeOk(t, top) && IsPathOf(t, top, d, cs) && IsPathOf(t, top, e, cs)
    ensures d == e
    decreases |cs|
  {
    if cs != [] {
      DirIsUnique(t, top, t[d].parent, t[e].parent, cs[..|cs| - 1]);
    }
  }

  lemma {:induction false} NamesAreValid(t: Tree, top: Wd, d: Wd, cs: seq<string>)
    requires TreeOk(t, top) && IsPathOf(t, top, d, cs)
    ensures forall i | 0 <= i < |cs| :: ValidName(cs[i])
    decreases |cs|
  {
    if cs != [] {
      NamesAreValid(t, top, t[d].parent, cs[..|cs| - 1]);
    }
  }

  /** The names of directory `d`; the top directory has none. */
  ghost function Loc(t: Tree, top: Wd, d: Wd): (cs: seq<string>)
    requires TreeOk(t, top) && (d in t || d == top)
    ensures IsPathOf(t, top, d, cs)
  {
    if d == top then
      assert IsPathOf(t, top, d, []);
      []
    else
      var cs :| IsPathOf(t, top, d, cs);
      cs
  }

  /** A directory gets a new parent and name; the names of everything else stay. */
  function Renamed(t: Tree, d: Wd, parent: Wd, name: string): Tree {
    t[d := Dir(parent, name)]
  }

  /** What the kernel demands of a rename whose target is absent. */
  ghost predicate CanRename(t: Tree, top: Wd, d: Wd, parent: Wd, name: string) {
    && TreeOk(t, top) && d in t && (parent in t || parent == top) && ValidName(name)
    && (forall e | e in t :: t[e] != Dir(parent, name))
    && !(Loc(t, top, d) <= Loc(t, top, parent))
  }

  /** Where the rename of `src` to `dst` takes the names `cs`. */
  function Moved(cs: seq<string>, src: seq<string>, dst: seq<string>): seq<string> {
    if src <= cs then dst + cs[|src|..] else cs
  }

  lemma {:induction false} RenameOutside(t: Tree, top: Wd, d: Wd, parent: Wd, name: string, e: Wd, cs: seq<string>)
    requires CanRename(t, top, d, parent, name)
    requires IsPathOf(t, top, e, cs) && !(Loc(t, top, d) <= cs)
    ensures IsPathOf(Renamed(t, d, parent, name), top, e, cs)
    decreases |cs|
  {
    if cs != [] {
      if e == d {
        PathIsUnique(t, top, d, cs, Loc(t, top, d));
      }
      RenameOutside(t, top, d, parent, name, t[e].parent, cs[..|cs| - 1]);
    }
  }

  lemma {:induction false} RenameMoves(t: Tree, top: Wd, d: Wd, parent: Wd, name: string, e: Wd, cs: seq<string>)
    requires CanRename(t, top, d, parent, name) && IsPathOf(t, top, e, cs)
    ensures IsPathOf(Renamed(t, d, parent, name), top, e, Moved(cs, Loc(t, top, d), Loc(t, top, parent) + [name]))
    decreases |cs|
  {
    var src := Loc(t, top, d);
    if !(src <= cs) {
      RenameOutside(t, top, d, parent, name, e, cs);
    } else if e == d {
      RenamedItself(t, top, d, parent, name, cs);
    } else {
      if cs == src {
        DirIsUnique(t, top, d, e, cs);
      }
      RenameMoves(t, top, d, parent, name, t[e].parent, cs[..|cs| - 1]);
      ChildMoves(t, top, d, parent, name, e, cs, src, Loc(t, top, parent) + [name]);
    }
  }

  /** A directory moves along with its parent. */
  lemma ChildMoves(t: Tree, top: Wd, d: Wd, parent: Wd, name: string, e: Wd, cs: seq<string>, src: seq<string>,
                   dst: seq<string>)
    requires e in t && e != d && src <= cs && cs != src && dst != [] && t[e].name == cs[|cs| - 1]
    requires IsPathOf(Renamed(t, d, parent, name), top, t[e].parent, Moved(cs[..|cs| - 1], src, dst))
    ensures IsPathOf(Renamed(t, d, parent, name), top, e, Moved(cs, src, dst))
  {
    MovedSnoc(cs, src, dst);
  }

  lemma RenamedItself(t: Tree, top: Wd, d: Wd, parent: Wd, name: string, cs: seq<string>)
    requires CanRename(t, top, d, parent, name) && IsPathOf(t, top, d, cs)
    ensures IsPathOf(Renamed(t, d, parent, name), top, d, Moved(cs, Loc(t, top, d), Loc(t, top, parent) + [name]))
  {
    var base := Loc(t, top, parent);
    PathIsUnique(t, top, d, cs, Loc(t, top, d));
    RenameOutside(t, top, d, parent, name, parent, base);
    assert base + [name] + cs[|cs|..] == base + [name];
    assert (base + [name])[..|base|] == base;
  }

  lemma MovedSnoc(cs: seq<string>, src: seq<string>, dst: seq<string>)
    requires src <= cs && cs != src && dst != []
    ensures var after := Moved(cs, src, dst);
            && src <= cs[..|cs| - 1] && after != [] && after[|after| - 1] == cs[|cs| - 1]
            && after[..|after| - 1] == Moved(cs[..|cs| - 1], src, dst)
  {
  }

  lemma RenameKeepsTree(t: Tree, top: Wd, d: Wd, parent: Wd, name: string)
    requires CanRename(t, top, d, parent, name)
    ensures TreeOk(Renamed(t, d, parent, name), top)
  {
    var u := Renamed(t, d, parent, name);
    forall e | e in u ensures ValidName(u[e].name) && exists cs :: IsPathOf(u, top, e, cs) {
      assert e in t;
      RenameMoves(t, top, d, parent, name, e, Loc(t, top, e));
    }
  }

  // Watch paths and directory names

  /** The text of the path of the directory with names `cs`, the path of the top directory being `root`. */
  function PathText(root: string, cs: seq<string>): string {
    Show(Slashes(root), Components(Split(root, '/'), Slashes(root) > 0) + cs)
  }

  ghost predicate ValidNames(cs: seq<string>) {
    forall i | 0 <= i < |cs| :: ValidName(cs[i])
  }

  lemma RootIsNormal(root: string, cs: seq<string>)
    requires ValidNames(cs)
    ensures Normal(Components(Split(root, '/'), Slashes(root) > 0) + cs, Slashes(root) > 0)
  {
    var base := Components(Split(root, '/'), Slashes(root) > 0);
    ComponentsNormal(Split(root, '/'), Slashes(root) > 0);
    var all, absolute := base + cs, Slashes(root) > 0;
    forall i | 0 <= i < |all| ensures NormalAt(all, i, absolute) {
      if i < |base| {
        assert NormalAt(base, i, absolute);
      } else {
        assert ValidName(cs[i - |base|]);
      }
    }
  }

  lemma PathTextJoin(root: string, cs: seq<string>, name: string)
    requires ValidNames(cs) && ValidName(name)
    ensures NormPath(JoinPath(PathText(root, cs), name)) == PathText(root, cs + [name])
  {
    var base := Components(Split(root, '/'), Slashes(root) > 0);
    RootIsNormal(root, cs);
    NormJoin(Slashes(root), base + cs, name);
    assert base + cs + [name] == base + (cs + [name]);
  }

  /** Re-rooting the text of a path is moving its names. */
  lemma PathTextReroot(root: string, cs: seq<string>, src: seq<string>, dst: seq<string>)
    requires ValidNames(cs) && ValidNames(src) && ValidNames(dst) && src != [] && dst != [] && cs != src
    ensures RerootOne(PathText(root, cs), PathText(root, src), PathText(root, dst)) ==
            PathText(root, Moved(cs, src, dst))
  {
    var n := Slashes(root);
    var base := Components(Split(root, '/'), n > 0);
    RootIsNormal(root, cs);
    RootIsNormal(root, src);
    BelowIffPrefix(n, base + src, base + cs);
    PrefixUnderBase(base, src, cs);
    if src <= cs {
      assert cs == src + cs[|src|..];
      PathTextBelow(root, src, dst, cs[|src|..]);
    }
  }

  lemma PathTextBelow(root: string, src: seq<string>, dst: seq<string>, tail: seq<string>)
    requires ValidNames(src + tail) && ValidNames(src) && ValidNames(dst) && src != [] && dst != [] && tail != []
    ensures PathText(root, src + tail) == PathText(root, src) + "/" + Join(tail, '/')
    ensures JoinPath(PathText(root, dst), Join(tail, '/')) == PathText(root, dst + tail)
  {
    var n := Slashes(root);
    var base := Components(Split(root, '/'), n > 0);
    RootIsNormal(root, src);
    RootIsNormal(root, src + tail);
    assert base + (src + tail) == base + src + tail;
    PrefixIsBelow(n, base + src, tail);
    forall i | 0 <= i < |dst + tail| ensures ValidName((dst + tail)[i]) {
      if i >= |dst| {
        assert (dst + tail)[i] == (src + tail)[i - |dst| + |src|];
      }
    }
    RootIsNormal(root, dst + tail);
    assert base + (dst + tail) == base + dst + tail;
    Reattach(n, base + dst, tail);
  }

  lemma PrefixUnderBase(base: seq<string>, a: seq<string>, b: seq<string>)
    ensures base + a <= base + b <==> a <= b
    ensures base + a == base + b <==> a == b
  {
    if base + a <= base + b {
      assert a == (base + a)[|base|..];
      assert b == (base + b)[|base|..];
    }
  }

  lemma PathTextInjective(root: string, a: seq<string>, b: seq<string>)
    requires ValidNames(a) && ValidNames(b) && a != [] && b != [] && PathText(root, a) == PathText(root, b)
    ensures a == b
  {
    var n := Slashes(root);
    var base := Components(Split(root, '/'), n > 0);
    RootIsNormal(root, a);
    RootIsNormal(root, b);
    SplitShow(n, base + a);
    SplitShow(n, base + b);
    SameTail(n, base + a, base + b);
    PrefixUnderBase(base, a, b);
  }

  /** Every directory is watched, and every watch has the path of its directory. */
  ghost predicate InStep(paths: map<Wd, string>, t: Tree, top: Wd, root: string) {
    && paths.Keys == t.Keys + {top}
    && forall d, cs | d in paths && IsPathOf(t, top, d, cs) :: paths[d] == PathText(root, cs)
  }

  // Renames and the events that the kernel queues for them

  /** A watched directory or some other file moves; the times are those at which its events are handled,
      and the gaps are what is handled after each of them: clean-ups and events of other kinds. */
  datatype Rename =
    | MoveDir(d: Wd, parent: Wd, name: string)
    | MoveFile(from: Wd, fromName: string, to: Wd, toName: string)

  datatype Timed = Timed(rename: Rename, cookie: nat, t1: int, gap1: seq<Step>, t2: int, gap2: seq<Step>, t3: int,
                         gap3: seq<Step>)

  /** Neither a move nor the end of a watch. */
  predicate OtherKind(ev: RawEvent) {
    StrippedMask(ev.mask) !in {IN_MOVED_FROM, IN_MOVED_TO, IN_MOVE_SELF, IN_IGNORED}
  }

  ghost predicate Quiet(steps: seq<Step>) {
    forall e | e in steps :: e.Event? ==> OtherKind(e.ev)
  }

  ghost predicate QuietGaps(r: Timed) {
    Quiet(r.gap1) && Quiet(r.gap2) && Quiet(r.gap3)
  }

  ghost predicate CanDo(t: Tree, top: Wd, r: Rename) {
    TreeOk(t, top) &&
    match r
    case MoveDir(d, parent, name) => CanRename(t, top, d, parent, name)
    case MoveFile(from, fromName, to, toName) =>
      (from in t || from == top) && (to in t || to == top) && ValidName(fromName) && ValidName(toName)
  }

  function Do(t: Tree, r: Rename): Tree {
    match r
    case MoveDir(d, parent, name) => Renamed(t, d, parent, name)
    case MoveFile(_, _, _, _) => t
  }

  /** No clean-up between two events of a rename comes more than a minute after the first of them. */
  ghost predicate InTime(r: Timed) {
    Recent(r.t1, r.gap1) && Recent(r.t2, r.gap2)
  }

  function StepsOf(t: Tree, r: Timed): seq<Step>
    requires r.rename.MoveDir? ==> r.rename.d in t
  {
    match r.rename
    case MoveDir(d, parent, name) =>
      [Event(RawEvent(t[d].parent, IN_MOVED_FROM + IN_ISDIR, r.cookie, t[d].name), r.t1)] + r.gap1 +
      [Event(RawEvent(parent, IN_MOVED_TO + IN_ISDIR, r.cookie, name), r.t2)] + r.gap2 +
      [Event(RawEvent(d, IN_MOVE_SELF, 0, ""), r.t3)] + r.gap3
    case MoveFile(from, fromName, to, toName) =>
      [Event(RawEvent(from, IN_MOVED_FROM, r.cookie, fromName), r.t1)] + r.gap1 +
      [Event(RawEvent(to, IN_MOVED_TO, r.cookie, toName), r.t2)] + r.gap2
  }

  ghost predicate Recent(date: int, gap: seq<Step>) {
    forall e | e in gap && e.Clean? :: e.now - date <= 60
  }

  lemma QuietStep(s: Tracker, e: Step)
    requires e.Event? ==> OtherKind(e.ev)
    ensures StepOnce(s, e) == if e.Clean? then Cleanup(s, e.now) else s
  {
  }

  lemma QuietParts(gap: seq<Step>, n: nat)
    requires Quiet(gap) && gap != [] && n == |gap| - 1
    ensures Quiet(gap[..n]) && (gap[n].Event? ==> OtherKind(gap[n].ev))
    ensures forall date :: Recent(date, gap) <==> Recent(date, gap[..n]) && (gap[n].Clean? ==> gap[n].now - date <= 60)
  {
    assert gap == gap[..n] + [gap[n]];
  }

  /** What happens in a gap changes no path and keeps every record that is not too old. */
  lemma {:induction false} GapKeeps(s: Tracker, gap: seq<Step>)
    requires Quiet(gap)
    ensures var u := Steps(s, gap);
            && u.paths == s.paths
            && (forall k | k in s.cookies && Recent(s.cookies[k].1, gap) ::
                  k in u.cookies && u.cookies[k] == s.cookies[k])
            && (forall k | k in s.moves && Recent(s.moves[k].1, gap) :: k in u.moves && u.moves[k] == s.moves[k])
  {
    if gap != [] {
      var n := |gap| - 1;
      QuietParts(gap, n);
      GapKeeps(s, gap[..n]);
      QuietStep(Steps(s, gap[..n]), gap[n]);
    }
  }

  lemma MaskKinds()
    ensures StrippedMask(IN_MOVED_FROM + IN_ISDIR) == StrippedMask(IN_MOVED_FROM) == IN_MOVED_FROM
    ensures StrippedMask(IN_MOVED_TO + IN_ISDIR) == StrippedMask(IN_MOVED_TO) == IN_MOVED_TO
    ensures StrippedMask(IN_MOVE_SELF) == IN_MOVE_SELF
  {
  }

  /** The path that a handler computes for a name below a watched directory. */
  lemma ChildText(paths: map<Wd, string>, t: Tree, top: Wd, root: string, d: Wd, cs: seq<string>, name: string)
    requires TreeOk(t, top) && InStep(paths, t, top, root) && (d in t || d == top) && ValidName(name)
    requires IsPathOf(t, top, d, cs)
    ensures NormPath(JoinPath(paths[d], name)) == PathText(root, cs + [name])
  {
    NamesAreValid(t, top, d, cs);
    PathTextJoin(root, cs, name);
  }

  /** MOVED_FROM and MOVED_TO leave a record of where the source went. */
  lemma RecordLeft(s: Tracker, from: RawEvent, to: RawEvent, r: Timed, src: string, dst: string)
    requires QuietGaps(r) && InTime(r) && from.cookie == to.cookie
    requires StrippedMask(from.mask) == IN_MOVED_FROM && StrippedMask(to.mask) == IN_MOVED_TO
    requires from.wd in s.paths && to.wd in s.paths
    requires NormPath(JoinPath(s.paths[from.wd], from.name)) == src &&
             NormPath(JoinPath(s.paths[to.wd], to.name)) == dst
    ensures var u := Steps(StepOnce(Steps(StepOnce(s, Event(from, r.t1)), r.gap1), Event(to, r.t2)), r.gap2);
            u.paths == s.paths && src in u.moves && u.moves[src] == (dst, r.t2)
  {
    var s1 := OnMovedFrom(s, from, r.t1);
    assert StepOnce(s, Event(from, r.t1)) == s1;
    GapKeeps(s1, r.gap1);
    var s2 := Steps(s1, r.gap1);
    assert Recent(s1.cookies[from.cookie].1, r.gap1);
    var s3 := OnMovedTo(s2, to, r.t2);
    assert StepOnce(s2, Event(to, r.t2)) == s3;
    GapKeeps(s3, r.gap2);
    assert Recent(s3.moves[src].1, r.gap2);
  }

  /** The three events, with the clean-ups between them, re-root everything below the directory. */
  lemma DirEvents(s: Tracker, t: Tree, r: Timed, src: string, dst: string)
    requires r.rename.MoveDir? && r.rename.d in t && QuietGaps(r) && InTime(r)
    requires var (d, p) := (r.rename.d, r.rename.parent);
             && d in s.paths && t[d].parent in s.paths && p in s.paths
             && NormPath(JoinPath(s.paths[t[d].parent], t[d].name)) == src
             && NormPath(JoinPath(s.paths[p], r.rename.name)) == dst
             && s.paths[d] == src
    ensures Steps(s, StepsOf(t, r)).paths == Reroot(s.paths[r.rename.d := dst], src, dst)
  {
    MaskKinds();
    var d := r.rename.d;
    var from := RawEvent(t[d].parent, IN_MOVED_FROM + IN_ISDIR, r.cookie, t[d].name);
    var to := RawEvent(r.rename.parent, IN_MOVED_TO + IN_ISDIR, r.cookie, r.rename.name);
    var self := RawEvent(d, IN_MOVE_SELF, 0, "");
    RecordLeft(s, from, to, r, src, dst);
    SixParts(s, Event(from, r.t1), r.gap1, Event(to, r.t2), r.gap2, Event(self, r.t3), r.gap3);
    var s4 := Steps(StepOnce(Steps(StepOnce(s, Event(from, r.t1)), r.gap1), Event(to, r.t2)), r.gap2);
    GapKeeps(OnMoveSelf(s4, self), r.gap3);
    assert StepOnce(s4, Event(self, r.t3)) == OnMoveSelf(s4, self);
  }

  lemma OneStep(s: Tracker, e: Step)
    ensures Steps(s, [e]) == StepOnce(s, e)
  {
    assert [e][..0] == [];
  }

  lemma SixParts(s: Tracker, e1: Step, c1: seq<Step>, e2: Step, c2: seq<Step>, e3: Step, c3: seq<Step>)
    ensures Steps(s, [e1] + c1 + [e2] + c2 + [e3] + c3) ==
            Steps(StepOnce(Steps(StepOnce(Steps(StepOnce(s, e1), c1), e2), c2), e3), c3)
    ensures Steps(s, [e1] + c1 + [e2] + c2) == Steps(StepOnce(Steps(StepOnce(s, e1), c1), e2), c2)
  {
    StepsAppend(s, [e1] + c1 + [e2] + c2 + [e3], c3);
    StepsAppend(s, [e1] + c1 + [e2] + c2, [e3]);
    StepsAppend(s, [e1] + c1 + [e2], c2);
    StepsAppend(s, [e1] + c1, [e2]);
    StepsAppend(s, [e1], c1);
    OneStep(s, e1);
    OneStep(Steps(s, [e1] + c1), e2);
    OneStep(Steps(s, [e1] + c1 + [e2] + c2), e3);
  }

  /** Re-rooting the watches under the old path is following the one link that the rename changed. */
  lemma RerootIsRename(paths: map<Wd, string>, t: Tree, top: Wd, root: string, d: Wd, parent: Wd, name: string)
    requires InStep(paths, t, top, root) && CanRename(t, top, d, parent, name)
    ensures var src, dst := Loc(t, top, d), Loc(t, top, parent) + [name];
            InStep(Reroot(paths[d := PathText(root, dst)], PathText(root, src), PathText(root, dst)),
                   Renamed(t, d, parent, name), top, root)
  {
    var src, dst := Loc(t, top, d), Loc(t, top, parent) + [name];
    var u := Renamed(t, d, parent, name);
    TargetIsNew(t, top, d, parent, name);
    var after := Reroot(paths[d := PathText(root, dst)], PathText(root, src), PathText(root, dst));
    assert after.Keys == u.Keys + {top};
    forall e, cs | e in after && IsPathOf(u, top, e, cs) ensures after[e] == PathText(root, cs) {
      assert e in paths && paths[e] == PathText(root, Loc(t, top, e));
      OneRerooted(t, top, root, d, e, Loc(t, top, e), src, dst);
      NewNames(t, top, d, parent, name, e, cs);
    }
  }

  lemma TargetIsNew(t: Tree, top: Wd, d: Wd, parent: Wd, name: string)
    requires CanRename(t, top, d, parent, name)
    ensures var src, dst := Loc(t, top, d), Loc(t, top, parent) + [name];
            ValidNames(src) && ValidNames(dst) && src != [] && dst != src && !(src <= dst)
  {
    var src, base := Loc(t, top, d), Loc(t, top, parent);
    var dst := base + [name];
    NamesAreValid(t, top, d, src);
    NamesAreValid(t, top, parent, base);
    assert dst[..|dst| - 1] == base;
    if dst == src {
      DirIsUnique(t, top, t[d].parent, parent, base);
      assert false;
    }
  }

  lemma NewNames(t: Tree, top: Wd, d: Wd, parent: Wd, name: string, e: Wd, cs: seq<string>)
    requires CanRename(t, top, d, parent, name) && (e in t || e == top) &&
             IsPathOf(Renamed(t, d, parent, name), top, e, cs)
    ensures cs == Moved(Loc(t, top, e), Loc(t, top, d), Loc(t, top, parent) + [name])
  {
    var was := Loc(t, top, e);
    RenameMoves(t, top, d, parent, name, e, was);
    PathIsUnique(Renamed(t, d, parent, name), top, e, cs, Moved(was, Loc(t, top, d), Loc(t, top, parent) + [name]));
  }

  lemma OneRerooted(t: Tree, top: Wd, root: string, d: Wd, e: Wd, was: seq<string>, src: seq<string>, dst: seq<string>)
    requires TreeOk(t, top) && d in t && (e in t || e == top) && was == Loc(t, top, e) && src == Loc(t, top, d)
    requires ValidNames(src) && ValidNames(dst) && src != [] && dst != [] && dst != src && !(src <= dst)
    ensures var path := if e == d then PathText(root, dst) else PathText(root, was);
            RerootOne(path, PathText(root, src), PathText(root, dst)) ==
            PathText(root, Moved(was, src, dst))
  {
    if e == d {
      PathTextReroot(root, dst, src, dst);
      assert dst + was[|src|..] == dst;
    } else {
      NamesAreValid(t, top, e, was);
      if was == src {
        DirIsUnique(t, top, d, e, src);
      }
      PathTextReroot(root, was, src, dst);
    }
  }

  /** One rename: afterwards every watch again has the path of its directory. */
  lemma RenameTracked(s: Tracker, t: Tree, top: Wd, root: string, r: Timed)
    requires InStep(s.paths, t, top, root) && CanDo(t, top, r.rename) && QuietGaps(r) && InTime(r)
    ensures InStep(Steps(s, StepsOf(t, r)).paths, Do(t, r.rename), top, root) && TreeOk(Do(t, r.rename), top)
  {
    match r.rename
    case MoveDir(d, parent, name) =>
      var src, base := Loc(t, top, d), Loc(t, top, parent);
      MoveTexts(s.paths, t, top, root, d, parent, name);
      DirEvents(s, t, r, PathText(root, src), PathText(root, base + [name]));
      RerootIsRename(s.paths, t, top, root, d, parent, name);
      RenameKeepsTree(t, top, d, parent, name);
    case MoveFile(from, fromName, to, toName) =>
      MaskKinds();
      var e1 := Event(RawEvent(from, IN_MOVED_FROM, r.cookie, fromName), r.t1);
      var e2 := Event(RawEvent(to, IN_MOVED_TO, r.cookie, toName), r.t2);
      var s2 := Steps(StepOnce(s, e1), r.gap1);
      GapKeeps(StepOnce(s, e1), r.gap1);
      GapKeeps(StepOnce(s2, e2), r.gap2);
      SixParts(s, e1, r.gap1, e2, r.gap2, e1, []);
  }

  ghost predicate CanDoAll(t: Tree, top: Wd, rs: seq<Timed>)
    decreases |rs|
  {
    rs == [] || (CanDo(t, top, rs[0].rename) && QuietGaps(rs[0]) && InTime(rs[0]) &&
                 CanDoAll(Do(t, rs[0].rename), top, rs[1..]))
  }

  ghost function DoAll(t: Tree, rs: seq<Timed>): Tree
    decreases |rs|
  {
    if rs == [] then t else DoAll(Do(t, rs[0].rename), rs[1..])
  }

  ghost function StepsOfAll(t: Tree, top: Wd, rs: seq<Timed>): seq<Step>
    requires CanDoAll(t, top, rs)
    decreases |rs|
  {
    if rs == [] then [] else StepsOf(t, rs[0]) + StepsOfAll(Do(t, rs[0].rename), top, rs[1..])
  }

  /** Any sequence of renames, whatever records of earlier moves there were: when their events have been
      handled, every watch has the path that its directory has in the tree after the renames. */
  lemma {:induction false} RenamesTracked(s: Tracker, t: Tree, top: Wd, root: string, rs: seq<Timed>)
    requires InStep(s.paths, t, top, root) && TreeOk(t, top) && CanDoAll(t, top, rs)
    ensures InStep(Steps(s, StepsOfAll(t, top, rs)).paths, DoAll(t, rs), top, root)
    decreases |rs|
  {
    if rs != [] {
      RenameTracked(s, t, top, root, rs[0]);
      StepsAppend(s, StepsOf(t, rs[0]), StepsOfAll(Do(t, rs[0].rename), top, rs[1..]));
      RenamesTracked(Steps(s, StepsOf(t, rs[0])), Do(t, rs[0].rename), top, root, rs[1..]);
    }
  }

  lemma {:induction false} GapDrops(s: Tracker, gap: seq<Step>)
    requires Quiet(gap)
    ensures var u := Steps(s, gap);
            && u.paths == s.paths && u.cookies.Keys <= s.cookies.Keys && u.moves.Keys <= s.moves.Keys
            && (forall k | k in u.cookies :: u.cookies[k] == s.cookies[k] && Recent(s.cookies[k].1, gap))
            && (forall k | k in u.moves :: u.moves[k] == s.moves[k] && Recent(s.moves[k].1, gap))
  {
    if gap != [] {
      var n := |gap| - 1;
      QuietParts(gap, n);
      GapDrops(s, gap[..n]);
      QuietStep(Steps(s, gap[..n]), gap[n]);
    }
  }

  function UnknownPath(path: string): string {
    if EndsWith(path, UNKNOWN) then path else path + UNKNOWN
  }

  /** The watch of `e` has the path of the directory. */
  ghost predicate RightAt(paths: map<Wd, string>, t: Tree, top: Wd, root: string, e: Wd) {
    e in paths && forall cs | IsPathOf(t, top, e, cs) :: paths[e] == PathText(root, cs)
  }

  /** Whether a watched directory lies below `d`. */
  ghost predicate IsBelow(t: Tree, top: Wd, d: Wd, e: Wd)
    requires TreeOk(t, top) && d in t
  {
    e in t && e != d && Loc(t, top, d) <= Loc(t, top, e)
  }

  /** When the record of the move is lost, the directories below keep their old paths, which are wrong now; all others
      keep theirs and are right.  So the watches are in step exactly when no clean-up drops the record, or when nothing
      lies below and the new path happens to be the old one with the mark. */
  lemma EvictionLosesSubtree(s: Tracker, t: Tree, top: Wd, root: string, r: Timed)
    requires InStep(s.paths, t, top, root) && r.rename.MoveDir? &&
             CanRename(t, top, r.rename.d, r.rename.parent, r.rename.name)
    requires PathText(root, Loc(t, top, r.rename.d)) !in s.moves && QuietGaps(r)
    ensures var after, u := Steps(s, StepsOf(t, r)).paths, Do(t, r.rename);
            && (!InTime(r) ==> forall e | e in s.paths && e != r.rename.d ::
                  e in after && after[e] == s.paths[e] &&
                  (RightAt(after, u, top, root, e) <==> !IsBelow(t, top, r.rename.d, e)))
            && (InStep(after, u, top, root) <==>
                  || InTime(r)
                  || (&& UnknownPath(PathText(root, Loc(t, top, r.rename.d))) ==
                         PathText(root, Loc(t, top, r.rename.parent) + [r.rename.name])
                      && forall e | e in t :: !IsBelow(t, top, r.rename.d, e)))
  {
    var (d, p, name) := (r.rename.d, r.rename.parent, r.rename.name);
    var src, dst := PathText(root, Loc(t, top, d)), PathText(root, Loc(t, top, p) + [name]);
    if InTime(r) {
      RenameTracked(s, t, top, root, r);
    } else {
      MoveTexts(s.paths, t, top, root, d, p, name);
      LateEvents(s, t, r, src, dst);
      StaleWatches(s.paths, t, top, root, d, p, name, UnknownPath(src));
    }
  }

  /** Changing only the path of the directory that has moved. */
  lemma StaleWatches(paths: map<Wd, string>, t: Tree, top: Wd, root: string, d: Wd, parent: Wd, name: string,
                     path: string)
    requires InStep(paths, t, top, root) && CanRename(t, top, d, parent, name)
    ensures var after, u := paths[d := path], Renamed(t, d, parent, name);
            && (forall e | e in paths && e != d :: RightAt(after, u, top, root, e) <==> !IsBelow(t, top, d, e))
            && (RightAt(after, u, top, root, d) <==> path == PathText(root, Loc(t, top, parent) + [name]))
            && (InStep(after, u, top, root) <==> forall e | e in paths :: RightAt(after, u, top, root, e))
  {
    var after, u := paths[d := path], Renamed(t, d, parent, name);
    forall e | e in paths && e != d ensures RightAt(after, u, top, root, e) <==> !IsBelow(t, top, d, e) {
      assert paths[e] == PathText(root, Loc(t, top, e));
      WatchAfterMove(after, t, top, root, d, parent, name, e);
    }
    WatchAfterMove(after, t, top, root, d, parent, name, d);
    assert Loc(t, top, parent) + [name] + Loc(t, top, d)[|Loc(t, top, d)|..] == Loc(t, top, parent) + [name];
    assert after.Keys == u.Keys + {top};
    assert forall e, cs | e in after && RightAt(after, u, top, root, e) && IsPathOf(u, top, e, cs) ::
        after[e] == PathText(root, cs);
  }

  lemma WatchAfterMove(after: map<Wd, string>, t: Tree, top: Wd, root: string, d: Wd, parent: Wd, name: string, e: Wd)
    requires CanRename(t, top, d, parent, name) && e in after && (e in t || e == top)
    ensures var now := Moved(Loc(t, top, e), Loc(t, top, d), Loc(t, top, parent) + [name]);
            && (RightAt(after, Renamed(t, d, parent, name), top, root, e) <==> after[e] == PathText(root, now))
            && (e != d && after[e] == PathText(root, Loc(t, top, e)) ==>
                  (after[e] == PathText(root, now) <==> !IsBelow(t, top, d, e)))
  {
    var was, src, dst := Loc(t, top, e), Loc(t, top, d), Loc(t, top, parent) + [name];
    RenameMoves(t, top, d, parent, name, e, was);
    forall cs | IsPathOf(Renamed(t, d, parent, name), top, e, cs) ensures cs == Moved(was, src, dst) {
      NewNames(t, top, d, parent, name, e, cs);
    }
    if src <= was {
      MovedAway(t, top, root, d, parent, name, e);
    }
  }

  /** Below the directory that moves, every path changes. */
  lemma MovedAway(t: Tree, top: Wd, root: string, d: Wd, parent: Wd, name: string, e: Wd)
    requires CanRename(t, top, d, parent, name) && (e in t || e == top) && Loc(t, top, d) <= Loc(t, top, e)
    ensures e in t
    ensures var was, dst := Loc(t, top, e), Loc(t, top, parent) + [name];
            PathText(root, was) != PathText(root, Moved(was, Loc(t, top, d), dst))
  {
    var was, src, dst := Loc(t, top, e), Loc(t, top, d), Loc(t, top, parent) + [name];
    TargetIsNew(t, top, d, parent, name);
    NamesAreValid(t, top, e, was);
    var now := dst + was[|src|..];
    forall i | 0 <= i < |now| ensures ValidName(now[i]) {
      assert i >= |dst| ==> now[i] == was[i - |dst| + |src|];
    }
    if |src| == |dst| {
      assert was[..|src|] == src && now[..|src|] == dst;
    }
    assert was != now;
    if PathText(root, was) == PathText(root, now) {
      PathTextInjective(root, was, now);
      assert false;
    }
  }

  /** The paths that the handlers compute for the two ends of a move. */
  lemma MoveTexts(paths: map<Wd, string>, t: Tree, top: Wd, root: string, d: Wd, parent: Wd, name: string)
    requires InStep(paths, t, top, root) && CanRename(t, top, d, parent, name)
    ensures d in paths && t[d].parent in paths && parent in paths
    ensures paths[d] == PathText(root, Loc(t, top, d)) == NormPath(JoinPath(paths[t[d].parent], t[d].name))
    ensures NormPath(JoinPath(paths[parent], name)) == PathText(root, Loc(t, top, parent) + [name])
  {
    var src := Loc(t, top, d);
    assert src == src[..|src| - 1] + [t[d].name];
    assert IsPathOf(t, top, t[d].parent, src[..|src| - 1]);
    assert t[d].parent in t || t[d].parent == top;
    ChildText(paths, t, top, root, t[d].parent, src[..|src| - 1], t[d].name);
    ChildText(paths, t, top, root, parent, Loc(t, top, parent), name);
  }

  /** Without an older record of a move from the same path, the directory gets its new path exactly when no
      clean-up drops the record of the move; otherwise its path is marked as unknown. */
  lemma EvictionLosesPath(s: Tracker, t: Tree, top: Wd, root: string, r: Timed)
    requires InStep(s.paths, t, top, root) && r.rename.MoveDir? &&
             CanRename(t, top, r.rename.d, r.rename.parent, r.rename.name)
    requires PathText(root, Loc(t, top, r.rename.d)) !in s.moves && QuietGaps(r)
    ensures var src := PathText(root, Loc(t, top, r.rename.d));
            var dst := PathText(root, Loc(t, top, r.rename.parent) + [r.rename.name]);
            var after := Steps(s, StepsOf(t, r)).paths;
            && r.rename.d in after
            && (InTime(r) ==> after[r.rename.d] == dst)
            && (!InTime(r) ==> after[r.rename.d] == UnknownPath(src))
            && (after[r.rename.d] == dst <==> InTime(r) || UnknownPath(src) == dst)
  {
    var (d, p) := (r.rename.d, r.rename.parent);
    var srcNames, base := Loc(t, top, d), Loc(t, top, p);
    var src, dst := PathText(root, srcNames), PathText(root, base + [r.rename.name]);
    MoveTexts(s.paths, t, top, root, d, p, r.rename.name);
    if InTime(r) {
      RenameTracked(s, t, top, root, r);
      RenameMoves(t, top, d, p, r.rename.name, d, srcNames);
      assert base + [r.rename.name] + srcNames[|srcNames|..] == base + [r.rename.name];
    } else {
      LateEvents(s, t, r, src, dst);
    }
  }

  lemma LateEvents(s: Tracker, t: Tree, r: Timed, src: string, dst: string)
    requires r.rename.MoveDir? && r.rename.d in t && QuietGaps(r) && !InTime(r) && src !in s.moves
    requires var (d, p) := (r.rename.d, r.rename.parent);
             && d in s.paths && t[d].parent in s.paths && p in s.paths
             && NormPath(JoinPath(s.paths[t[d].parent], t[d].name)) == src
             && NormPath(JoinPath(s.paths[p], r.rename.name)) == dst
             && s.paths[d] == src
    ensures Steps(s, StepsOf(t, r)).paths == s.paths[r.rename.d := UnknownPath(src)]
  {
    MaskKinds();
    var from := RawEvent(t[r.rename.d].parent, IN_MOVED_FROM + IN_ISDIR, r.cookie, t[r.rename.d].name);
    var to := RawEvent(r.rename.parent, IN_MOVED_TO + IN_ISDIR, r.cookie, r.rename.name);
    var self := RawEvent(r.rename.d, IN_MOVE_SELF, 0, "");
    NoRecordLeft(s, from, to, r, src, dst);
    SixParts(s, Event(from, r.t1), r.gap1, Event(to, r.t2), r.gap2, Event(self, r.t3), r.gap3);
    SelfWithoutRecord(s, Steps(StepOnce(Steps(StepOnce(s, Event(from, r.t1)), r.gap1), Event(to, r.t2)), r.gap2), self,
                      r.t3, r.gap3, src);
  }

  lemma SelfWithoutRecord(s: Tracker, u: Tracker, self: RawEvent, now: int, gap: seq<Step>, src: string)
    requires StrippedMask(self.mask) == IN_MOVE_SELF && self.wd in u.paths && Quiet(gap)
    requires u.paths == s.paths && u.paths[self.wd] == src && src !in u.moves
    ensures Steps(StepOnce(u, Event(self, now)), gap).paths == s.paths[self.wd := UnknownPath(src)]
  {
    assert StepOnce(u, Event(self, now)) == OnMoveSelf(u, self);
    GapDrops(OnMoveSelf(u, self), gap);
  }

  lemma NoRecordLeft(s: Tracker, from: RawEvent, to: RawEvent, r: Timed, src: string, dst: string)
    requires QuietGaps(r) && !InTime(r) && from.cookie == to.cookie && src !in s.moves
    requires StrippedMask(from.mask) == IN_MOVED_FROM && StrippedMask(to.mask) == IN_MOVED_TO
    requires from.wd in s.paths && to.wd in s.paths
    requires NormPath(JoinPath(s.paths[from.wd], from.name)) == src &&
             NormPath(JoinPath(s.paths[to.wd], to.name)) == dst
    ensures var u := Steps(StepOnce(Steps(StepOnce(s, Event(from, r.t1)), r.gap1), Event(to, r.t2)), r.gap2);
            u.paths == s.paths && src !in u.moves
  {
    var s1 := OnMovedFrom(s, from, r.t1);
    assert StepOnce(s, Event(from, r.t1)) == s1;
    GapDrops(s1, r.gap1);
    GapKeeps(s1, r.gap1);
    var s2 := Steps(s1, r.gap1);
    var s3 := OnMovedTo(s2, to, r.t2);
    assert StepOnce(s2, Event(to, r.t2)) == s3;
    GapDrops(s3, r.gap2);
    if Recent(s1.cookies[from.cookie].1, r.gap1) {
      assert s3.moves[src] == (dst, r.t2);
      assert !Recent(r.t2, r.gap2);
    } else {
      assert from.cookie !in s2.cookies;
    }
  }

  /** The end of a watch: it is forgotten, whatever comes of it afterwards changes nothing, and all else stays. */
  lemma IgnoredIsForgotten(s: Tracker, ev: RawEvent, now: int, later: RawEvent, nextTime: int)
    requires StrippedMask(ev.mask) == 0x8000 && later.wd == ev.wd
    ensures var u := Handle(s, ev, now);
            && u.cookies == s.cookies && u.moves == s.moves && ev.wd !in u.paths
            && (forall w | w != ev.wd ::
                  (w in u.paths <==> w in s.paths) && (w in u.paths ==> u.paths[w] == s.paths[w]))
            && Handle(u, later, nextTime) == u
  {
  }

  // The handlers in place

  class Watch {
    var path: string

    constructor (path: string)
      ensures this.path == path
    {
      this.path := path;
    }
  }

  /** The handlers together with the watch dictionary of the watch manager. */
  class SysProcessEvent {
    var wmd: map<Wd, Watch>
    var mvCookie: map<nat, (string, int)>
    var mv: map<string, (string, int)>

    /** Each descriptor has a watch of its own. */
    ghost predicate Valid()
      reads this
    {
      forall a, b | a in wmd && b in wmd && a != b :: wmd[a] != wmd[b]
    }

    ghost function Paths(): map<Wd, string>
      reads this, wmd.Values
    {
      map w | w in wmd :: wmd[w].path
    }

    ghost function State(): Tracker
      reads this, wmd.Values
    {
      Tracker(Paths(), mvCookie, mv)
    }

    constructor ()
      ensures Valid() && State() == Tracker(map[], map[], map[])
    {
      wmd, mvCookie, mv := map[], map[], map[];
    }

    method AddWatch(wd: Wd, path: string)
      requires Valid()
      modifies this`wmd
      ensures Valid() && State() == old(State()).(paths := old(Paths())[wd := NormPath(path)])
      ensures fresh(wmd.Values - old(wmd.Values))
    {
      var watch := new Watch(NormPath(path));
      wmd := wmd[wd := watch];
    }

    method ProcessMovedFrom(ev: RawEvent, now: int)
      requires Valid() && ev.wd in wmd
      modifies this`mvCookie
      ensures Valid() && State() == OnMovedFrom(old(State()), ev, now)
    {
      var srcPath := NormPath(JoinPath(wmd[ev.wd].path, ev.name));
      mvCookie := mvCookie[ev.cookie := (srcPath, now)];
    }

    method ProcessMovedTo(ev: RawEvent, now: int)
      requires Valid() && ev.wd in wmd
      modifies this`mv
      ensures Valid() && State() == OnMovedTo(old(State()), ev, now)
    {
      var dstPath := NormPath(JoinPath(wmd[ev.wd].path, ev.name));
      if ev.cookie in mvCookie {
        mv := mv[mvCookie[ev.cookie].0 := (dstPath, now)];
      }
    }

    method SetPath(wd: Wd, path: string)
      requires Valid() && wd in wmd
      modifies wmd[wd]
      ensures Valid() && Paths() == old(Paths())[wd := path]
    {
      var watch := wmd[wd];
      watch.path := path;
      assert forall w | w in wmd && w != wd :: wmd[w] != watch;
      assert forall w | w in wmd :: w in old(Paths()) && old(Paths())[w] == old(wmd[w].path);
    }

    /** Goes through the watches in any order. */
    method RerootPaths(src: string, dest: string)
      requires Valid()
      modifies wmd.Values
      ensures Valid() && Paths() == Reroot(old(Paths()), src, dest)
    {
      ghost var start := Paths();
      var todo := wmd.Values;
      while todo != {}
        invariant todo <= wmd.Values && Valid()
        invariant forall k | k in wmd ::
                  wmd[k].path == if wmd[k] in todo then start[k] else RerootOne(start[k], src, dest)
      {
        var w :| w in todo;
        if src + "/" <= w.path {
          w.path := JoinPath(dest, w.path[|src| + 1..]);
        }
        todo := todo - {w};
      }
      ghost var rerooted := Paths();
      assert forall w | w in wmd :: w in rerooted && rerooted[w] == RerootOne(start[w], src, dest);
      assert rerooted == Reroot(start, src, dest);
    }

    method ProcessMoveSelf(ev: RawEvent)
      requires Valid() && ev.wd in wmd
      modifies wmd.Values
      ensures Valid() && State() == OnMoveSelf(old(State()), ev)
    {
      var watch := wmd[ev.wd];
      var src := watch.path;
      if src in mv {
        var dest := mv[src].0;
        SetPath(ev.wd, dest);
        RerootPaths(src, dest);
      } else if !EndsWith(watch.path, UNKNOWN) {
        SetPath(ev.wd, watch.path + UNKNOWN);
      }
    }

    /** Handles one event of the queue. */
    method Process(ev: RawEvent, now: int)
      requires Valid()
      modifies this, wmd.Values
      ensures Valid() && State() == Handle(old(State()), ev, now)
      ensures wmd.Values <= old(wmd.Values)
    {
      if ev.wd in wmd {
        var kind := StrippedMask(ev.mask);
        if kind == IN_MOVED_FROM {
          ProcessMovedFrom(ev, now);
        } else if kind == IN_MOVED_TO {
          ProcessMovedTo(ev, now);
        } else if kind == IN_MOVE_SELF {
          ProcessMoveSelf(ev);
        } else if kind == IN_IGNORED {
          wmd := wmd - {ev.wd};
          assert Paths() == old(Paths()) - {ev.wd};
        }
      }
    }

    /** Drops the records that are more than a minute old. */
    method Clean(now: int)
      requires Valid()
      modifies this`mvCookie, this`mv
      ensures Valid() && State() == Cleanup(old(State()), now)
    {
      mvCookie := DropOld(mvCookie, now);
      mv := DropOld(mv, now);
    }
  }

  /** Deletes the records that are older than a minute, one by one. */
  method DropOld<K(==)>(records: map<K, (string, int)>, now: int) returns (kept: map<K, (string, int)>)
    ensures kept == map k | k in records && now - records[k].1 <= 60 :: records[k]
  {
    kept := records;
    var todo := records.Keys;
    while todo != {}
      invariant todo <= records.Keys
      invariant kept == map k | k in records && (k in todo || now - records[k].1 <= 60) :: records[k]
    {
      var k :| k in todo;
      if now - kept[k].1 > 60 {
        kept := kept - {k};
      }
      todo := todo - {k};
    }
  }
}
