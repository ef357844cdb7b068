/** Where coalescing and move tracking meet: the renames whose events are read into one batch. */
module CoalescedMoves {
  import opened Sequences
  import opened InotifyEvent
  import opened EventKey
  import opened MoveTracker
  import opened Notifier

  // The events of a batch

  function SelfEvent(d: Wd): RawEvent {
    RawEvent(d, IN_MOVE_SELF, 0, "")
  }

  function EventsIn(steps: seq<Step>): (r: seq<RawEvent>)
    ensures |r| <= |steps|
  {
    if steps == [] then []
    else EventsIn(steps[..|steps| - 1]) + if steps[|steps| - 1].Event? then [steps[|steps| - 1].ev] else []
  }

  lemma {:induction false} EventsInAppend(a: seq<Step>, b: seq<Step>)
    ensures EventsIn(a + b) == EventsIn(a) + EventsIn(b)
  {
    if b == [] {
      assert a + b == a;
    } else {
      assert (a + b)[..|a + b| - 1] == a + b[..|b| - 1];
      EventsInAppend(a, b[..|b| - 1]);
    }
  }

  lemma {:induction false} EventsInMembers(steps: seq<Step>)
    ensures forall e :: e in EventsIn(steps) <==> exists i :: 0 <= i < |steps| && steps[i].Event? && steps[i].ev == e
  {
    if steps != [] {
      var n := |steps| - 1;
      var init := steps[..n];
      EventsInMembers(init);
      forall e ensures e in EventsIn(steps) <==> exists i :: 0 <= i < |steps| && steps[i].Event? && steps[i].ev == e {
        if i :| 0 <= i < |init| && init[i].Event? && init[i].ev == e {
          assert steps[i] == init[i];
        }
        if i :| 0 <= i < |steps| && steps[i].Event? && steps[i].ev == e {
          assert i < n ==> init[i] == steps[i];
        }
      }
    }
  }

  // The renames before the k-th

  lemma {:induction false} CanDoPrefix(t: Tree, top: Wd, rs: seq<Timed>, k: nat)
    requires CanDoAll(t, top, rs) && k <= |rs|
    ensures CanDoAll(t, top, rs[..k])
    decreases k
  {
    if k > 0 {
      assert rs[..k][0] == rs[0] && rs[..k][1..] == rs[1..][..k - 1];
      CanDoPrefix(Do(t, rs[0].rename), top, rs[1..], k - 1);
    }
  }

  lemma FirstOfPrefix(t: Tree, top: Wd, rs: seq<Timed>, k: nat)
    requires 0 < k <= |rs| && CanDoAll(t, top, rs[..k])
    ensures var u, rest := Do(t, rs[0].rename), rs[1..][..k - 1];
            && CanDoAll(u, top, rest) && DoAll(t, rs[..k]) == DoAll(u, rest)
            && StepsOfAll(t, top, rs[..k]) == StepsOf(t, rs[0]) + StepsOfAll(u, top, rest)
  {
    assert rs[..k][0] == rs[0] && rs[..k][1..] == rs[1..][..k - 1];
  }

  /** One more rename, seen from the tree that the ones before it leave. */
  lemma {:induction false} OneMoreRename(t: Tree, top: Wd, rs: seq<Timed>, k: nat)
    requires CanDoAll(t, top, rs) && k < |rs|
    requires CanDoAll(t, top, rs[..k]) && CanDoAll(t, top, rs[..k + 1])
    ensures var u := DoAll(t, rs[..k]);
            && CanDo(u, top, rs[k].rename) && QuietGaps(rs[k])
            && DoAll(t, rs[..k + 1]) == Do(u, rs[k].rename)
            && StepsOfAll(t, top, rs[..k + 1]) == StepsOfAll(t, top, rs[..k]) + StepsOf(u, rs[k])
    decreases k
  {
    FirstOfPrefix(t, top, rs, k + 1);
    var u := Do(t, rs[0].rename);
    if k == 0 {
      assert rs[..0] == [] && rs[1..][..0] == [];
    } else {
      FirstOfPrefix(t, top, rs, k);
      OneMoreRename(u, top, rs[1..], k - 1);
      Regroup(StepsOf(t, rs[0]), StepsOfAll(u, top, rs[1..][..k - 1]), StepsOf(DoAll(t, rs[..k]), rs[k]));
    }
  }

  /** What is read of the first `k` renames. */
  ghost function Batch(t: Tree, top: Wd, rs: seq<Timed>, k: nat): seq<RawEvent>
    requires CanDoAll(t, top, rs) && k <= |rs|
  {
    CanDoPrefix(t, top, rs, k);
    EventsIn(StepsOfAll(t, top, rs[..k]))
  }

  lemma BatchStep(t: Tree, top: Wd, rs: seq<Timed>, k: nat)
    requires CanDoAll(t, top, rs) && k < |rs|
    ensures var u := DoAll(t, rs[..k]);
            && CanDo(u, top, rs[k].rename) && QuietGaps(rs[k]) && DoAll(t, rs[..k + 1]) == Do(u, rs[k].rename)
            && Batch(t, top, rs, k + 1) == Batch(t, top, rs, k) + EventsIn(StepsOf(u, rs[k]))
  {
    CanDoPrefix(t, top, rs, k);
    CanDoPrefix(t, top, rs, k + 1);
    OneMoreRename(t, top, rs, k);
    EventsInAppend(StepsOfAll(t, top, rs[..k]), StepsOf(DoAll(t, rs[..k]), rs[k]));
  }

  // Which keys a batch holds

  predicate MoveMask(mask: nat) {
    StrippedMask(mask) == IN_MOVED_FROM || StrippedMask(mask) == IN_MOVED_TO
  }

  /** An event that is read of a rename: one of the two with its cookie, the one on the directory, or another kind. */
  predicate OfRename(e: RawEvent, r: Timed) {
    || (MoveMask(e.mask) && e.cookie == r.cookie)
    || (r.rename.MoveDir? && e == SelfEvent(r.rename.d))
    || OtherKind(e)
  }

  lemma RenameEvents(t: Tree, r: Timed)
    requires (r.rename.MoveDir? ==> r.rename.d in t) && QuietGaps(r)
    ensures forall e | e in EventsIn(StepsOf(t, r)) :: OfRename(e, r)
    ensures r.rename.MoveDir? ==> SelfEvent(r.rename.d) in EventsIn(StepsOf(t, r))
  {
    MaskKinds();
    EventsInMembers(StepsOf(t, r));
    if r.rename.MoveDir? {
      var i := 1 + |r.gap1| + 1 + |r.gap2|;
      assert StepsOf(t, r)[i] == Event(SelfEvent(r.rename.d), r.t3);
    }
  }

  lemma {:induction false} BatchEvents(t: Tree, top: Wd, rs: seq<Timed>, k: nat)
    requires CanDoAll(t, top, rs) && k <= |rs|
    ensures AreEventsOf(Batch(t, top, rs, k), rs, k)
  {
    if k > 0 {
      BatchEvents(t, top, rs, k - 1);
      BatchStep(t, top, rs, k - 1);
      var u := DoAll(t, rs[..k - 1]);
      RenameEvents(u, rs[k - 1]);
      MoreEvents(Batch(t, top, rs, k - 1), EventsIn(StepsOf(u, rs[k - 1])), rs, k - 1);
    } else {
      EmptyBatch(t, top, rs);
    }
  }

  lemma EmptyBatch(t: Tree, top: Wd, rs: seq<Timed>)
    requires CanDoAll(t, top, rs)
    ensures Batch(t, top, rs, 0) == [] && DoAll(t, rs[..0]) == t
  {
    assert rs[..0] == [];
  }

  ghost predicate AreEventsOf(evs: seq<RawEvent>, rs: seq<Timed>, k: nat)
    requires k <= |rs|
  {
    && (forall e | e in evs :: exists i :: 0 <= i < k && OfRename(e, rs[i]))
    && (forall i | 0 <= i < k && rs[i].rename.MoveDir? :: SelfEvent(rs[i].rename.d) in evs)
  }

  lemma MoreEvents(evs: seq<RawEvent>, more: seq<RawEvent>, rs: seq<Timed>, k: nat)
    requires k < |rs| && AreEventsOf(evs, rs, k) && forall e | e in more :: OfRename(e, rs[k])
    requires rs[k].rename.MoveDir? ==> SelfEvent(rs[k].rename.d) in more
    ensures AreEventsOf(evs + more, rs, k + 1)
  {
    forall e | e in evs + more ensures exists i :: 0 <= i < k + 1 && OfRename(e, rs[i]) {
      if e in evs {
        var i :| 0 <= i < k && OfRename(e, rs[i]);
      } else {
        assert OfRename(e, rs[k]);
      }
    }
  }

  lemma NewKey(evs: seq<RawEvent>, x: RawEvent)
    requires forall e | e in evs :: e.mask != x.mask || e.cookie != x.cookie || e.wd != x.wd
    ensures Key(x) !in KeysOf(evs, Key)
  {
    forall i | 0 <= i < |evs| ensures Key(evs[i]) != Key(x) {
      assert evs[i] in evs;
      KeyIdentifies(evs[i], x);
    }
  }

  lemma OldKey<T, K>(evs: seq<T>, x: T, key: T -> K)
    requires x in evs
    ensures key(x) in KeysOf(evs, key)
  {
    var i :| 0 <= i < |evs| && evs[i] == x;
  }

  // What the handlers make of a coalesced batch

  /** The tracker after the coalesced events, handled at any times. */
  ghost function After<K>(s: Tracker, evs: seq<RawEvent>, times: seq<int>, key: RawEvent -> K): Tracker
    requires |times| >= |evs|
  {
    FirstByLength(evs, key);
    Steps(s, EventSteps(FirstBy(evs, key), times))
  }

  lemma {:induction false} FirstByLength<T, K>(evs: seq<T>, key: T -> K)
    ensures |FirstBy(evs, key)| <= |evs|
  {
    if evs != [] {
      FirstByLength(evs[..|evs| - 1], key);
    }
  }

  lemma OneMoreEvent<K>(s: Tracker, evs: seq<RawEvent>, e: RawEvent, times: seq<int>, key: RawEvent -> K)
    returns (now: int)
    requires |times| > |evs|
    ensures After(s, evs + [e], times, key) ==
            if key(e) in KeysOf(evs, key) then After(s, evs, times, key) else Handle(After(s, evs, times, key), e, now)
  {
    FirstByLength(evs, key);
    AddedKey(evs, e, key);
    var queue := FirstBy(evs, key);
    now := times[|queue|];
    assert (queue + [e])[..|queue|] == queue;
    EventStepsSnoc(queue + [e], times, |queue|);
    assert (queue + [e])[..|queue| + 1] == queue + [e];
    StepsSnoc(s, EventSteps(queue, times), Event(e, now));
  }

  lemma {:induction false} QuietEvents<K>(s: Tracker, evs: seq<RawEvent>, more: seq<RawEvent>, times: seq<int>,
                                          key: RawEvent -> K)
    requires |times| >= |evs + more| && forall e | e in more :: OtherKind(e)
    ensures After(s, evs + more, times, key) == After(s, evs, times, key)
    decreases |more|
  {
    if more == [] {
      assert evs + more == evs;
    } else {
      var n := |more| - 1;
      assert evs + more == evs + more[..n] + [more[n]];
      QuietEvents(s, evs, more[..n], times, key);
      var now := OneMoreEvent(s, evs + more[..n], more[n], times, key);
      QuietStep(After(s, evs, times, key), Event(more[n], now));
    }
  }

  lemma QuietEventsIn(gap: seq<Step>)
    requires Quiet(gap)
    ensures forall e | e in EventsIn(gap) :: OtherKind(e)
  {
    EventsInMembers(gap);
  }

  // One rename in a batch

  function FromEvent(t: Tree, r: Timed): RawEvent
    requires r.rename.MoveDir? ==> r.rename.d in t
  {
    match r.rename
    case MoveDir(d, _, _) => RawEvent(t[d].parent, IN_MOVED_FROM + IN_ISDIR, r.cookie, t[d].name)
    case MoveFile(from, fromName, _, _) => RawEvent(from, IN_MOVED_FROM, r.cookie, fromName)
  }

  function ToEvent(r: Timed): RawEvent {
    match r.rename
    case MoveDir(_, parent, name) => RawEvent(parent, IN_MOVED_TO + IN_ISDIR, r.cookie, name)
    case MoveFile(_, _, to, toName) => RawEvent(to, IN_MOVED_TO, r.cookie, toName)
  }

  lemma EventInStep(e: RawEvent, now: int)
    ensures EventsIn([Event(e, now)]) == [e]
  {
    assert [Event(e, now)][..0] == [];
  }

  lemma FileEvents(t: Tree, r: Timed)
    requires r.rename.MoveFile?
    ensures EventsIn(StepsOf(t, r)) == [FromEvent(t, r)] + EventsIn(r.gap1) + [ToEvent(r)] + EventsIn(r.gap2)
  {
    var f, to := Event(FromEvent(t, r), r.t1), Event(ToEvent(r), r.t2);
    EventInStep(f.ev, r.t1);
    EventInStep(to.ev, r.t2);
    EventsInAppend([f], r.gap1);
    EventsInAppend([f] + r.gap1, [to]);
    EventsInAppend([f] + r.gap1 + [to], r.gap2);
  }

  lemma DirEventsRead(t: Tree, r: Timed)
    requires r.rename.MoveDir? && r.rename.d in t
    ensures EventsIn(StepsOf(t, r)) ==
            [FromEvent(t, r)] + EventsIn(r.gap1) + [ToEvent(r)] + EventsIn(r.gap2) + [SelfEvent(r.rename.d)] +
            EventsIn(r.gap3)
  {
    var f, to, self := Event(FromEvent(t, r), r.t1), Event(ToEvent(r), r.t2), Event(SelfEvent(r.rename.d), r.t3);
    EventInStep(f.ev, r.t1);
    EventInStep(to.ev, r.t2);
    EventInStep(self.ev, r.t3);
    EventsInAppend([f], r.gap1);
    EventsInAppend([f] + r.gap1, [to]);
    EventsInAppend([f] + r.gap1 + [to], r.gap2);
    EventsInAppend([f] + r.gap1 + [to] + r.gap2, [self]);
    EventsInAppend([f] + r.gap1 + [to] + r.gap2 + [self], r.gap3);
  }

  /** Two events with new keys are handled, whatever quiet events are read after each. */
  lemma TwoKept<K>(s: Tracker, evs: seq<RawEvent>, f: RawEvent, g1: seq<RawEvent>, to: RawEvent, g2: seq<RawEvent>,
                   times: seq<int>, key: RawEvent -> K) returns (t1: int, t2: int)
    requires (forall e | e in g1 :: OtherKind(e)) && (forall e | e in g2 :: OtherKind(e))
    requires |times| >= |evs + [f] + g1 + [to] + g2|
    requires key(f) !in KeysOf(evs, key) && key(to) !in KeysOf(evs + [f] + g1, key)
    ensures After(s, evs + [f] + g1 + [to] + g2, times, key) == Handle(Handle(After(s, evs, times, key), f, t1), to, t2)
  {
    t1 := OneMoreEvent(s, evs, f, times, key);
    QuietEvents(s, evs + [f], g1, times, key);
    t2 := OneMoreEvent(s, evs + [f] + g1, to, times, key);
    QuietEvents(s, evs + [f] + g1 + [to], g2, times, key);
  }

  lemma SelfRead<K>(s: Tracker, evs: seq<RawEvent>, self: RawEvent, g3: seq<RawEvent>, times: seq<int>,
                    key: RawEvent -> K) returns (t3: int)
    requires (forall e | e in g3 :: OtherKind(e)) && |times| >= |evs + [self] + g3|
    ensures After(s, evs + [self] + g3, times, key) ==
            if key(self) in KeysOf(evs, key) then After(s, evs, times, key)
            else Handle(After(s, evs, times, key), self, t3)
  {
    t3 := OneMoreEvent(s, evs, self, times, key);
    QuietEvents(s, evs + [self], g3, times, key);
  }

  /** The events before a rename: moves with other cookies, events on directories, and other kinds. */
  ghost predicate ReadBefore(evs: seq<RawEvent>, r: Timed) {
    && (forall e | e in evs :: MoveMask(e.mask) ==> e.cookie != r.cookie)
    && (forall e | e in evs ::
          MoveMask(e.mask) || OtherKind(e) || (e.mask == IN_MOVE_SELF && e.cookie == 0 && e.name == ""))
  }

  /** The first two events of a rename are new to a batch that holds other cookies. */
  lemma MovesAreNew(evs: seq<RawEvent>, t: Tree, r: Timed)
    requires (r.rename.MoveDir? ==> r.rename.d in t) && QuietGaps(r)
    requires ReadBefore(evs, r)
    ensures Key(FromEvent(t, r)) !in KeysOf(evs, Key)
    ensures Key(ToEvent(r)) !in KeysOf(evs + [FromEvent(t, r)] + EventsIn(r.gap1), Key)
  {
    MaskKinds();
    QuietEventsIn(r.gap1);
    NewKey(evs, FromEvent(t, r));
    NewKey(evs + [FromEvent(t, r)] + EventsIn(r.gap1), ToEvent(r));
  }

  /** The event on the directory is new unless it has been read before. */
  lemma SelfIsNew(evs: seq<RawEvent>, t: Tree, r: Timed, d: Wd)
    requires (r.rename.MoveDir? ==> r.rename.d in t) && QuietGaps(r)
    requires ReadBefore(evs, r) && SelfEvent(d) !in evs
    ensures Key(SelfEvent(d)) !in KeysOf(evs + [FromEvent(t, r)] + EventsIn(r.gap1) + [ToEvent(r)] +
                                         EventsIn(r.gap2), Key)
  {
    MaskKinds();
    QuietEventsIn(r.gap1);
    QuietEventsIn(r.gap2);
    var all := evs + [FromEvent(t, r)] + EventsIn(r.gap1) + [ToEvent(r)] + EventsIn(r.gap2);
    forall e | e in all ensures e.mask != IN_MOVE_SELF || e.wd != d {
      if e in evs {
        assert e != SelfEvent(d);
      }
    }
    NewKey(all, SelfEvent(d));
  }

  /** The rename with nothing between its events, handled at given times. */
  function Bare(r: Timed, t1: int, t2: int, t3: int): Timed {
    Timed(r.rename, r.cookie, t1, [], t2, [], t3, [])
  }

  lemma BareSteps(u: Tracker, t: Tree, r: Timed, t1: int, t2: int, t3: int)
    requires r.rename.MoveDir? ==> r.rename.d in t
    ensures var moved := Handle(Handle(u, FromEvent(t, r), t1), ToEvent(r), t2);
            Steps(u, StepsOf(t, Bare(r, t1, t2, t3))) ==
              if r.rename.MoveDir? then Handle(moved, SelfEvent(r.rename.d), t3) else moved
  {
    var f, to := Event(FromEvent(t, r), t1), Event(ToEvent(r), t2);
    var self := if r.rename.MoveDir? then Event(SelfEvent(r.rename.d), t3) else f;
    SixParts(u, f, [], to, [], self, []);
  }

  lemma MovesKeepPaths(u: Tracker, e: RawEvent, now: int)
    requires MoveMask(e.mask)
    ensures Handle(u, e, now).paths == u.paths
  {
  }

  // Whole batches

  ghost predicate DistinctCookies(rs: seq<Timed>) {
    forall i, j | 0 <= i < j < |rs| :: rs[i].cookie != rs[j].cookie
  }

  ghost predicate MovedBefore(rs: seq<Timed>, k: nat)
    requires k < |rs|
  {
    rs[k].rename.MoveDir? && exists i :: 0 <= i < k && rs[i].rename.MoveDir? && rs[i].rename.d == rs[k].rename.d
  }

  /** No directory moves twice. */
  ghost predicate MovedOnce(rs: seq<Timed>) {
    forall k | 0 <= k < |rs| :: !MovedBefore(rs, k)
  }

  /** The watches when the coalesced events of the first `k` renames have been handled. */
  ghost function PathsAfter(s: Tracker, t: Tree, top: Wd, rs: seq<Timed>, times: seq<int>, k: nat): map<Wd, string>
    requires CanDoAll(t, top, rs) && k <= |rs| && |times| >= |Batch(t, top, rs, k)|
  {
    After(s, Batch(t, top, rs, k), times, Key).paths
  }

  /** A batch of renames that can be done, each with a cookie of its own, and enough readings of the clock. */
  ghost predicate IsBatch(t: Tree, top: Wd, rs: seq<Timed>, times: seq<int>) {
    && TreeOk(t, top) && CanDoAll(t, top, rs) && DistinctCookies(rs)
    && forall k | 0 <= k <= |rs| :: |times| >= |Batch(t, top, rs, k)|
  }

  ghost predicate TrackedAt(s: Tracker, t: Tree, top: Wd, root: string, rs: seq<Timed>, times: seq<int>, k: nat)
    requires IsBatch(t, top, rs, times) && k <= |rs|
  {
    InStep(PathsAfter(s, t, top, rs, times, k), DoAll(t, rs[..k]), top, root)
  }

  /** Which events a batch holds before its k-th rename. */
  lemma BatchBefore(t: Tree, top: Wd, rs: seq<Timed>, k: nat)
    requires CanDoAll(t, top, rs) && DistinctCookies(rs) && k < |rs|
    ensures ReadBefore(Batch(t, top, rs, k), rs[k])
    ensures rs[k].rename.MoveDir? ==> (SelfEvent(rs[k].rename.d) in Batch(t, top, rs, k) <==> MovedBefore(rs, k))
  {
    MaskKinds();
    BatchEvents(t, top, rs, k);
    forall e | e in Batch(t, top, rs, k)
      ensures MoveMask(e.mask) ==> e.cookie != rs[k].cookie
      ensures MoveMask(e.mask) || OtherKind(e) || (e.mask == IN_MOVE_SELF && e.cookie == 0 && e.name == "")
      ensures rs[k].rename.MoveDir? && e == SelfEvent(rs[k].rename.d) ==> MovedBefore(rs, k)
    {
      var i :| 0 <= i < k && OfRename(e, rs[i]);
    }
  }

  lemma FourParts<T>(s: seq<T>, a: seq<T>, b: seq<T>, c: seq<T>, d: seq<T>)
    ensures s + (a + b + c + d) == s + a + b + c + d
  {
    Regroup(s, a, b);
    Regroup(s, a + b, c);
    Regroup(s, a + b + c, d);
  }

  lemma SixPartsAfter<T>(s: seq<T>, a: seq<T>, b: seq<T>, c: seq<T>, d: seq<T>, e: seq<T>, f: seq<T>)
    ensures s + (a + b + c + d + e + f) == s + a + b + c + d + e + f
  {
    FourParts(s, a, b, c, d);
    Regroup(s, a + b + c + d, e);
    Regroup(s, a + b + c + d + e, f);
  }

  lemma FileRead<K>(s: Tracker, u: Tree, r: Timed, evs: seq<RawEvent>, times: seq<int>, key: RawEvent -> K)
    returns (b: Timed)
    requires r.rename.MoveFile? && QuietGaps(r) && |times| >= |evs + EventsIn(StepsOf(u, r))|
    requires key(FromEvent(u, r)) !in KeysOf(evs, key)
    requires key(ToEvent(r)) !in KeysOf(evs + [FromEvent(u, r)] + EventsIn(r.gap1), key)
    ensures b == Bare(r, b.t1, b.t2, b.t3)
    ensures After(s, evs + EventsIn(StepsOf(u, r)), times, key) == Steps(After(s, evs, times, key), StepsOf(u, b))
  {
    FileEvents(u, r);
    QuietEventsIn(r.gap1);
    QuietEventsIn(r.gap2);
    var f, g1, to, g2 := FromEvent(u, r), EventsIn(r.gap1), ToEvent(r), EventsIn(r.gap2);
    FourParts(evs, [f], g1, [to], g2);
    var t1, t2 := TwoKept(s, evs, f, g1, to, g2, times, key);
    b := Bare(r, t1, t2, 0);
    BareSteps(After(s, evs, times, key), u, r, t1, t2, 0);
  }

  lemma DirRead<K>(s: Tracker, u: Tree, r: Timed, evs: seq<RawEvent>, times: seq<int>, key: RawEvent -> K)
    returns (b: Timed)
    requires r.rename.MoveDir? && r.rename.d in u && QuietGaps(r) && |times| >= |evs + EventsIn(StepsOf(u, r))|
    requires key(FromEvent(u, r)) !in KeysOf(evs, key)
    requires key(ToEvent(r)) !in KeysOf(evs + [FromEvent(u, r)] + EventsIn(r.gap1), key)
    ensures b == Bare(r, b.t1, b.t2, b.t3)
    ensures var two := evs + [FromEvent(u, r)] + EventsIn(r.gap1) + [ToEvent(r)] + EventsIn(r.gap2);
            var before := After(s, evs, times, key);
            After(s, evs + EventsIn(StepsOf(u, r)), times, key) ==
              if key(SelfEvent(r.rename.d)) in KeysOf(two, key)
                then Handle(Handle(before, FromEvent(u, r), b.t1), ToEvent(r), b.t2)
              else Steps(before, StepsOf(u, b))
  {
    DirEventsRead(u, r);
    QuietEventsIn(r.gap1);
    QuietEventsIn(r.gap2);
    QuietEventsIn(r.gap3);
    var f, g1, to, g2, self, g3 := FromEvent(u, r), EventsIn(r.gap1), ToEvent(r), EventsIn(r.gap2),
      SelfEvent(r.rename.d), EventsIn(r.gap3);
    var two := evs + [f] + g1 + [to] + g2;
    SixPartsAfter(evs, [f], g1, [to], g2, [self], g3);
    var t1, t2 := TwoKept(s, evs, f, g1, to, g2, times, key);
    var t3 := SelfRead(s, two, self, g3, times, key);
    b := Bare(r, t1, t2, t3);
    BareSteps(After(s, evs, times, key), u, r, t1, t2, t3);
  }

  /** What one more rename does to the watches: its directory's paths follow unless its own event is dropped. */
  lemma RenameRead(s: Tracker, u: Tree, r: Timed, evs: seq<RawEvent>, times: seq<int>) returns (b: Timed)
    requires (r.rename.MoveDir? ==> r.rename.d in u) && QuietGaps(r) && ReadBefore(evs, r)
    requires |times| >= |evs + EventsIn(StepsOf(u, r))|
    ensures b == Bare(r, b.t1, b.t2, b.t3)
    ensures var lost := r.rename.MoveDir? && SelfEvent(r.rename.d) in evs;
            var before, after := After(s, evs, times, Key), After(s, evs + EventsIn(StepsOf(u, r)), times, Key);
            && (!lost ==> after == Steps(before, StepsOf(u, b)))
            && (lost ==> after.paths == before.paths)
  {
    MovesAreNew(evs, u, r);
    if r.rename.MoveFile? {
      b := FileRead(s, u, r, evs, times, Key);
    } else {
      b := DirRead(s, u, r, evs, times, Key);
      if SelfEvent(r.rename.d) in evs {
        OldKey(evs + [FromEvent(u, r)] + EventsIn(r.gap1) + [ToEvent(r)] +
               EventsIn(r.gap2), SelfEvent(r.rename.d), Key);
        MovesChangeNoPath(After(s, evs, times, Key), u, r, b.t1, b.t2);
      } else {
        SelfIsNew(evs, u, r, r.rename.d);
      }
    }
  }

  lemma MovesChangeNoPath(before: Tracker, u: Tree, r: Timed, t1: int, t2: int)
    requires r.rename.MoveDir? ==> r.rename.d in u
    ensures Handle(Handle(before, FromEvent(u, r), t1), ToEvent(r), t2).paths == before.paths
  {
    MaskKinds();
    MovesKeepPaths(before, FromEvent(u, r), t1);
    MovesKeepPaths(Handle(before, FromEvent(u, r), t1), ToEvent(r), t2);
  }

  /** While no directory has moved twice, the watches stay in step. */
  lemma {:induction false} TrackedWhileOnce(s: Tracker, t: Tree, top: Wd, root: string, rs: seq<Timed>, times: seq<int>,
                                            k: nat)
    requires IsBatch(t, top, rs, times) && InStep(s.paths, t, top, root)
    requires k <= |rs| && forall i | 0 <= i < k :: !MovedBefore(rs, i)
    ensures TrackedAt(s, t, top, root, rs, times, k) && TreeOk(DoAll(t, rs[..k]), top)
  {
    if k == 0 {
      EmptyBatch(t, top, rs);
    } else {
      var evs, u, r := Batch(t, top, rs, k - 1), DoAll(t, rs[..k - 1]), rs[k - 1];
      TrackedWhileOnce(s, t, top, root, rs, times, k - 1);
      BatchStep(t, top, rs, k - 1);
      BatchBefore(t, top, rs, k - 1);
      ReadAndTracked(s, u, top, root, r, evs, times);
    }
  }

  /** A rename whose own event is new keeps the watches in step. */
  lemma ReadAndTracked(s: Tracker, u: Tree, top: Wd, root: string, r: Timed, evs: seq<RawEvent>, times: seq<int>)
    requires CanDo(u, top, r.rename) && QuietGaps(r) && ReadBefore(evs, r)
    requires |times| >= |evs + EventsIn(StepsOf(u, r))| && InStep(After(s, evs, times, Key).paths, u, top, root)
    requires r.rename.MoveDir? ==> SelfEvent(r.rename.d) !in evs
    ensures InStep(After(s, evs + EventsIn(StepsOf(u, r)), times, Key).paths, Do(u, r.rename), top, root) &&
            TreeOk(Do(u, r.rename), top)
  {
    var b := RenameRead(s, u, r, evs, times);
    RenameTracked(After(s, evs, times, Key), u, top, root, b);
  }

  /** The first directory that moves a second time keeps its path: its MOVE_SELF is taken for a repetition. */
  lemma SecondMoveIsLost(s: Tracker, t: Tree, top: Wd, root: string, rs: seq<Timed>, times: seq<int>, k: nat)
    requires IsBatch(t, top, rs, times) && InStep(s.paths, t, top, root)
    requires k < |rs| && MovedBefore(rs, k) && forall i | 0 <= i < k :: !MovedBefore(rs, i)
    ensures PathsAfter(s, t, top, rs, times, k + 1) == PathsAfter(s, t, top, rs, times, k)
    ensures TrackedAt(s, t, top, root, rs, times, k) && !TrackedAt(s, t, top, root, rs, times, k + 1)
    ensures var after, d, v := PathsAfter(s, t, top, rs, times, k + 1), rs[k].rename.d, DoAll(t, rs[..k + 1]);
            TreeOk(v, top) && d in v && d in after && after[d] != PathText(root, Loc(v, top, d))
  {
    var evs, u, r := Batch(t, top, rs, k), DoAll(t, rs[..k]), rs[k];
    TrackedWhileOnce(s, t, top, root, rs, times, k);
    BatchStep(t, top, rs, k);
    BatchBefore(t, top, rs, k);
    var b := RenameRead(s, u, r, evs, times);
    LocChanges(u, top, root, r.rename.d, r.rename.parent, r.rename.name);
    assert IsPathOf(u, top, r.rename.d, Loc(u, top, r.rename.d));
  }

  /** With coalescing on, the watches are in step after the first `k` renames of a batch, for every `k`, if and only if
      no directory moves twice in it. */
  lemma TrackedIffMovedOnce(s: Tracker, t: Tree, top: Wd, root: string, rs: seq<Timed>, times: seq<int>)
    requires IsBatch(t, top, rs, times) && InStep(s.paths, t, top, root)
    ensures (forall k | 0 <= k <= |rs| :: TrackedAt(s, t, top, root, rs, times, k)) <==> MovedOnce(rs)
  {
    if MovedOnce(rs) {
      forall k | 0 <= k <= |rs| ensures TrackedAt(s, t, top, root, rs, times, k) {
        TrackedWhileOnce(s, t, top, root, rs, times, k);
      }
    } else {
      var k := FirstSecondMove(rs);
      SecondMoveIsLost(s, t, top, root, rs, times, k);
    }
  }

  lemma FirstSecondMove(rs: seq<Timed>) returns (k: nat)
    requires !MovedOnce(rs)
    ensures k < |rs| && MovedBefore(rs, k) && forall i | 0 <= i < k :: !MovedBefore(rs, i)
  {
    k := 0;
    while !MovedBefore(rs, k)
      invariant k < |rs| && exists n :: k <= n < |rs| && MovedBefore(rs, n)
      invariant forall i | 0 <= i < k :: !MovedBefore(rs, i)
      decreases |rs| - k
    {
      k := k + 1;
    }
  }

  /** A rename changes the text of the path of the directory. */
  lemma LocChanges(u: Tree, top: Wd, root: string, d: Wd, parent: Wd, name: string)
    requires CanRename(u, top, d, parent, name)
    ensures TreeOk(Renamed(u, d, parent, name), top)
    ensures PathText(root, Loc(u, top, d)) != PathText(root, Loc(Renamed(u, d, parent, name), top, d))
  {
    RenameKeepsTree(u, top, d, parent, name);
    var v := Renamed(u, d, parent, name);
    var a, b := Loc(u, top, d), Loc(v, top, d);
    NamesAreValid(u, top, d, a);
    NamesAreValid(v, top, d, b);
    var base := Loc(u, top, parent);
    RenameOutside(u, top, d, parent, name, parent, base);
    assert (base + [name])[..|base|] == base;
    assert IsPathOf(v, top, d, base + [name]);
    PathIsUnique(v, top, d, b, base + [name]);
    if PathText(root, a) == PathText(root, b) {
      PathTextInjective(root, a, b);
      DirIsUnique(u, top, u[d].parent, parent, base);
      assert false;
    }
  }
}
