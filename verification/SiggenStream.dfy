/** The stream encoding of signature data: `_save`, `_restore` and `reset` of SiggenRecipeInfo in bb/cache.py.

  A sender replaces the second and later occurrences of a value by a number; the receiver keeps one
  table of numbers per sending process and one store that makes equal values a single object.
 */
module SiggenStream {
  import opened Wrappers
  import opened Dicts

  type Key = string
  type Pid = int

  datatype Value = Text(text: string) | Names(names: set<string>)

  /** A Python object: its identity and its value. */
  datatype Obj = Obj(id: int, value: Value)

  /** A table to be sent; a table that is missing (None) or empty is sent as it is. */
  type Table = Option<Dict<Key, Option<Value>>>
  type Restored = Option<Dict<Key, Option<Obj>>>

  /** The three shapes of the tuples that are sent. */
  datatype Entry<+T> =
    | Absent(dep: Key)
    | Ref(dep: Key, num: nat)
    | Def(dep: Key, fs: T, num: nat)

  type Saved = Option<seq<Entry<Value>>>
  type Received = Option<seq<Entry<Obj>>>

  datatype SaveState = SaveState(map_: map<Value, nat>, count: nat)

  const RESET := SaveState(map[], 1)

  /** A call of `_restore` in progress; reading a number that is not in the table is a KeyError. */
  datatype Progress = Progress(store: map<Value, Obj>, nums: map<nat, Obj>, ret: Dict<Key, Option<Obj>>, failed: bool)

  datatype Receiver = Receiver(store: map<Value, Obj>, tables: map<Pid, map<nat, Obj>>)

  function SaveStep(st: SaveState, d: (Key, Option<Value>)): (SaveState, Entry<Value>) {
    if d.1.None? then
      (st, Absent(d.0))
    else if d.1.value in st.map_ then
      (st, Ref(d.0, st.map_[d.1.value]))
    else
      (SaveState(st.map_[d.1.value := st.count], st.count + 1), Def(d.0, d.1.value, st.count))
  }

  function SaveEntries(st: SaveState, deps: Dict<Key, Option<Value>>): (r: (SaveState, seq<Entry<Value>>))
    ensures |r.1| == |deps|
  {
    if deps == [] then
      (st, [])
    else
      var (st1, entries) := SaveEntries(st, deps[..|deps| - 1]);
      var (st2, e) := SaveStep(st1, deps[|deps| - 1]);
      (st2, entries + [e])
  }

  function SaveTable(st: SaveState, t: Table): (SaveState, Saved) {
    if t.None? then (st, None) else
      var (st1, entries) := SaveEntries(st, t.value);
      (st1, Some(entries))
  }

  function RestoreStep(p: Progress, e: Entry<Obj>): Progress {
    if p.failed then p else
      match e
      case Absent(dep) => p.(ret := Put(p.ret, dep, None))
      case Ref(dep, num) => if num in p.nums then p.(ret := Put(p.ret, dep, Some(p.nums[num]))) else p.(failed := true)
      case Def(dep, fs, num) =>
        var obj := if fs.value in p.store then p.store[fs.value] else fs;
        Progress(p.store[fs.value := obj], p.nums[num := obj], Put(p.ret, dep, Some(obj)), false)
  }

  function RestoreEntries(p: Progress, entries: seq<Entry<Obj>>): Progress {
    if entries == [] then p else RestoreStep(RestoreEntries(p, entries[..|entries| - 1]), entries[|entries| - 1])
  }

  function NumsOf(r: Receiver, pid: Pid): map<nat, Obj> {
    if pid in r.tables then r.tables[pid] else map[]
  }

  /** The result is `None` when the call ends in a KeyError. */
  function RestoreTable(r: Receiver, t: Received, pid: Pid): (Receiver, Option<Restored>) {
    if t.None? || t.value == [] then (r, Some(if t.None? then None else Some([]))) else
      var p := RestoreEntries(Progress(r.store, NumsOf(r, pid), [], false), t.value);
      (Receiver(p.store, r.tables[pid := p.nums]), if p.failed then None else Some(Some(p.ret)))
  }

  /** The store holds each value under itself. */
  ghost predicate Coherent(store: map<Value, Obj>) {
    forall v | v in store :: store[v].value == v
  }

  ghost predicate Extends(store: map<Value, Obj>, later: map<Value, Obj>) {
    forall v | v in store :: v in later && later[v] == store[v]
  }

  /** Every number a sender has given out leads the receiver to the stored object of its value. */
  ghost predicate Linked(st: SaveState, store: map<Value, Obj>, nums: map<nat, Obj>) {
    forall v | v in st.map_ ::
      && st.map_[v] < st.count
      && st.map_[v] in nums && v in store && nums[st.map_[v]] == store[v]
  }

  /** The transport keeps everything but the identity of the objects. */
  ghost predicate ArrivesAs(sent: Entry<Value>, got: Entry<Obj>) {
    && sent.dep == got.dep
    && (sent.Absent? <==> got.Absent?)
    && (sent.Ref? ==> got.Ref? && got.num == sent.num)
    && (sent.Def? ==> got.Def? && got.num == sent.num && got.fs.value == sent.fs)
  }

  ghost predicate TableArrivesAs(sent: Saved, got: Received) {
    && (sent.None? <==> got.None?)
    && (sent.Some? ==> |sent.value| == |got.value| &&
                       forall i | 0 <= i < |got.value| :: ArrivesAs(sent.value[i], got.value[i]))
  }

  /** The same keys in the same order, with equal values that are objects of the store. */
  ghost predicate Shows(got: Dict<Key, Option<Obj>>, deps: Dict<Key, Option<Value>>, store: map<Value, Obj>) {
    && |got| == |deps|
    && forall i | 0 <= i < |got| ::
         && got[i].0 == deps[i].0
         && (got[i].1.None? <==> deps[i].1.None?)
         && (got[i].1.Some? ==> && got[i].1.value.value == deps[i].1.value
                                && deps[i].1.value in store && store[deps[i].1.value] == got[i].1.value)
  }

  ghost predicate TableShows(got: Restored, t: Table, store: map<Value, Obj>) {
    && (got.None? <==> t.None?)
    && (got.Some? ==> Shows(got.value, t.value, store))
  }

  ghost predicate TableOk(t: Table) {
    t.Some? ==> DistinctKeys(t.value)
  }

  lemma StepRoundTrip(st: SaveState, p: Progress, deps: Dict<Key, Option<Value>>, k: nat, got: Entry<Obj>)
    requires k < |deps| && DistinctKeys(deps)
    requires Coherent(p.store) && Linked(st, p.store, p.nums) && !p.failed && Shows(p.ret, deps[..k], p.store)
    requires ArrivesAs(SaveStep(st, deps[k]).1, got)
    ensures var q := RestoreStep(p, got);
            && !q.failed && Coherent(q.store) && Extends(p.store, q.store)
            && Linked(SaveStep(st, deps[k]).0, q.store, q.nums)
            && Shows(q.ret, deps[..k + 1], q.store)
  {
    forall i | 0 <= i < |p.ret| ensures p.ret[i].0 != got.dep {
      assert p.ret[i].0 == deps[..k][i].0 == deps[i].0;
    }
    var q := RestoreStep(p, got);
    ShowsOneMore(p.ret, q.ret, deps, k, p.store, q.store);
  }

  lemma ShowsOneMore(ret: Dict<Key, Option<Obj>>, next: Dict<Key, Option<Obj>>, deps: Dict<Key, Option<Value>>, k: nat,
                     store: map<Value, Obj>, store': map<Value, Obj>)
    requires k < |deps| && Shows(ret, deps[..k], store) && Extends(store, store')
    requires |next| == k + 1 && next[..k] == ret && next[k].0 == deps[k].0
    requires next[k].1.None? <==> deps[k].1.None?
    requires next[k].1.Some? ==> && next[k].1.value.value == deps[k].1.value
                                 && deps[k].1.value in store' && store'[deps[k].1.value] == next[k].1.value
    ensures Shows(next, deps[..k + 1], store')
  {
    forall i | 0 <= i < k ensures next[i] == ret[i] && deps[..k + 1][i] == deps[..k][i] {
      assert next[..k][i] == next[i];
    }
  }

  lemma {:induction false} EntriesRoundTrip(st: SaveState, p: Progress, deps: Dict<Key, Option<Value>>,
                                            got: seq<Entry<Obj>>)
    requires DistinctKeys(deps) && p.ret == [] && !p.failed
    requires Coherent(p.store) && Linked(st, p.store, p.nums)
    requires TableArrivesAs(Some(SaveEntries(st, deps).1), Some(got))
    ensures var q := RestoreEntries(p, got);
            && !q.failed && Coherent(q.store) && Extends(p.store, q.store)
            && Linked(SaveEntries(st, deps).0, q.store, q.nums)
            && Shows(q.ret, deps, q.store)
  {
    if deps != [] {
      var k := |deps| - 1;
      var (st1, entries) := SaveEntries(st, deps[..k]);
      EntriesRoundTrip(st, p, deps[..k], got[..k]);
      assert SaveEntries(st, deps).1[k] == SaveStep(st1, deps[k]).1;
      StepRoundTrip(st1, RestoreEntries(p, got[..k]), deps, k, got[k]);
      assert deps[..k + 1] == deps;
    }
  }

  /** One table: the receiver gets it back, its store only grows, and every sender stays linked. */
  lemma TableRoundTrip(st: SaveState, r: Receiver, t: Table, got: Received, pid: Pid)
    requires TableOk(t) && Coherent(r.store) && Linked(st, r.store, NumsOf(r, pid))
    requires TableArrivesAs(SaveTable(st, t).1, got)
    ensures var (r1, out) := RestoreTable(r, got, pid);
            && out.Some? && Coherent(r1.store) && Extends(r.store, r1.store)
            && Linked(SaveTable(st, t).0, r1.store, NumsOf(r1, pid))
            && TableShows(out.value, t, r1.store)
            && (forall q | q != pid :: NumsOf(r1, q) == NumsOf(r, q))
  {
    if t.Some? {
      EntriesRoundTrip(st, Progress(r.store, NumsOf(r, pid), [], false), t.value, got.value);
    }
  }

  /** What one process sends for a list of tables. */
  function SendStream(st: SaveState, tables: seq<Table>): (r: seq<Saved>)
    ensures |r| == |tables|
    decreases |tables|
  {
    if tables == [] then [] else
      var (st1, saved) := SaveTable(st, tables[0]);
      [saved] + SendStream(st1, tables[1..])
  }

  function Project<T>(merged: seq<(Pid, T)>, pid: Pid): seq<T> {
    if merged == [] then [] else
      (if merged[0].0 == pid then [merged[0].1] else []) + Project(merged[1..], pid)
  }

  function RestoreStream(r: Receiver, merged: seq<(Pid, Received)>): (Receiver, seq<(Pid, Option<Restored>)>)
    decreases |merged|
  {
    if merged == [] then (r, []) else
      var (r1, out) := RestoreTable(r, merged[0].1, merged[0].0);
      var (r2, outs) := RestoreStream(r1, merged[1..]);
      (r2, [(merged[0].0, out)] + outs)
  }

  /** `merged` interleaves what the senders sent, keeping the order of each of them. */
  ghost predicate IsMerge(senders: map<Pid, SaveState>, streams: map<Pid, seq<Table>>, merged: seq<(Pid, Received)>) {
    && senders.Keys == streams.Keys
    && (forall i | 0 <= i < |merged| :: merged[i].0 in streams)
    && forall pid | pid in streams ::
         && |Project(merged, pid)| == |streams[pid]|
         && forall i | 0 <= i < |streams[pid]| ::
              TableArrivesAs(SendStream(senders[pid], streams[pid])[i], Project(merged, pid)[i])
  }

  ghost predicate AllShow(outs: seq<Option<Restored>>, tables: seq<Table>, store: map<Value, Obj>) {
    && |outs| == |tables|
    && forall i | 0 <= i < |outs| :: outs[i].Some? && TableShows(outs[i].value, tables[i], store)
  }

  lemma MergeTail(senders: map<Pid, SaveState>, streams: map<Pid, seq<Table>>, merged: seq<(Pid, Received)>)
    requires merged != [] && IsMerge(senders, streams, merged)
    ensures var pid := merged[0].0;
            && pid in streams && streams[pid] != []
            && var (st1, saved) := SaveTable(senders[pid], streams[pid][0]);
               && TableArrivesAs(saved, merged[0].1)
               && IsMerge(senders[pid := st1], streams[pid := streams[pid][1..]], merged[1..])
  {
    var pid := merged[0].0;
    var (st1, saved) := SaveTable(senders[pid], streams[pid][0]);
    var sent := SendStream(senders[pid], streams[pid]);
    assert sent[0] == saved && Project(merged, pid)[0] == merged[0].1;
    var senders1, streams1 := senders[pid := st1], streams[pid := streams[pid][1..]];
    forall q | q in streams1
      ensures |Project(merged[1..], q)| == |streams1[q]|
      ensures forall i | 0 <= i < |streams1[q]| ::
                TableArrivesAs(SendStream(senders1[q], streams1[q])[i], Project(merged[1..], q)[i])
    {
      if q == pid {
        assert Project(merged, pid) == [merged[0].1] + Project(merged[1..], pid);
        forall i | 0 <= i < |streams1[q]|
          ensures TableArrivesAs(SendStream(senders1[q], streams1[q])[i], Project(merged[1..], q)[i])
        {
          assert sent[i + 1] == SendStream(st1, streams1[q])[i];
          assert Project(merged, pid)[i + 1] == Project(merged[1..], pid)[i];
        }
      } else {
        assert Project(merged, q) == Project(merged[1..], q);
      }
    }
  }

  lemma {:induction false} StreamRoundTrip(senders: map<Pid, SaveState>, streams: map<Pid, seq<Table>>, r: Receiver,
                                           merged: seq<(Pid, Received)>)
    requires IsMerge(senders, streams, merged) && Coherent(r.store)
    requires forall pid | pid in streams ::
               Linked(senders[pid], r.store, NumsOf(r, pid)) && forall t | t in streams[pid] :: TableOk(t)
    ensures var (r1, outs) := RestoreStream(r, merged);
            && Extends(r.store, r1.store) && Coherent(r1.store)
            && forall pid | pid in streams :: AllShow(Project(outs, pid), streams[pid], r1.store)
    decreases |merged|
  {
    if merged != [] {
      MergeTail(senders, streams, merged);
      var pid := merged[0].0;
      var st1 := SaveTable(senders[pid], streams[pid][0]).0;
      TableRoundTrip(senders[pid], r, streams[pid][0], merged[0].1, pid);
      var (r1, out) := RestoreTable(r, merged[0].1, pid);
      var senders1, streams1 := senders[pid := st1], streams[pid := streams[pid][1..]];
      StreamRoundTrip(senders1, streams1, r1, merged[1..]);
      var (r2, outs) := RestoreStream(r1, merged[1..]);
      forall q | q in streams ensures AllShow(Project([(pid, out)] + outs, q), streams[q], r2.store) {
        ShowsLater(pid, out, outs, q, streams[q], r1.store, r2.store);
      }
    }
  }

  /** What the first message showed is still shown by the final store. */
  lemma ShowsLater(pid: Pid, out: Option<Restored>, outs: seq<(Pid, Option<Restored>)>, q: Pid, tables: seq<Table>,
                   store: map<Value, Obj>, later: map<Value, Obj>)
    requires Extends(store, later)
    requires pid == q ==>
             tables != [] && out.Some? && TableShows(out.value, tables[0], store) &&
             AllShow(Project(outs, q), tables[1..], later)
    requires pid != q ==> AllShow(Project(outs, q), tables, later)
    ensures AllShow(Project([(pid, out)] + outs, q), tables, later)
  {
    assert ([(pid, out)] + outs)[1..] == outs;
    if pid == q {
      assert tables == [tables[0]] + tables[1..];
      assert TableShows(out.value, tables[0], later);
    }
  }

  /** Equal values in any two of the restored tables are one object. */
  ghost predicate SharedObjects(a: seq<Option<Restored>>, b: seq<Option<Restored>>) {
    forall i, j, m, n |
      && 0 <= i < |a| && 0 <= j < |b| && a[i].Some? && a[i].value.Some? && b[j].Some? && b[j].value.Some?
      && 0 <= m < |a[i].value.value| && 0 <= n < |b[j].value.value| ::
      SameObject(a[i].value.value[m].1, b[j].value.value[n].1)
  }

  predicate SameObject(x: Option<Obj>, y: Option<Obj>) {
    x.Some? && y.Some? && x.value.value == y.value.value ==> x.value == y.value
  }

  lemma ShownAreShared(a: seq<Option<Restored>>, ta: seq<Table>, b: seq<Option<Restored>>, tb: seq<Table>,
                       store: map<Value, Obj>)
    requires AllShow(a, ta, store) && AllShow(b, tb, store)
    ensures SharedObjects(a, b)
  {
    forall i, j, m, n |
      && 0 <= i < |a| && 0 <= j < |b| && a[i].value.Some? && b[j].value.Some?
      && 0 <= m < |a[i].value.value| && 0 <= n < |b[j].value.value|
      ensures SameObject(a[i].value.value[m].1, b[j].value.value[n].1)
    {
      assert TableShows(a[i].value, ta[i], store) && TableShows(b[j].value, tb[j], store);
    }
  }

  /** Senders that start from a reset: every table comes back to the receiver under its process, whatever
      numbers the receiver's tables held, and equal values from any two processes are one object. */
  lemma ResetStreamsRoundTrip(streams: map<Pid, seq<Table>>, r: Receiver, merged: seq<(Pid, Received)>)
    requires IsMerge(map pid | pid in streams :: RESET, streams, merged) && Coherent(r.store)
    requires forall pid | pid in streams :: forall t | t in streams[pid] :: TableOk(t)
    ensures var (r1, outs) := RestoreStream(r, merged);
            && (forall pid | pid in streams :: AllShow(Project(outs, pid), streams[pid], r1.store))
            && (forall pid, q | pid in streams && q in streams :: SharedObjects(Project(outs, pid), Project(outs, q)))
            && Extends(r.store, r1.store) && Coherent(r1.store)
  {
    StreamRoundTrip(map pid | pid in streams :: RESET, streams, r, merged);
    var (r1, outs) := RestoreStream(r, merged);
    forall pid, q | pid in streams && q in streams ensures SharedObjects(Project(outs, pid), Project(outs, q)) {
      ShownAreShared(Project(outs, pid), streams[pid], Project(outs, q), streams[q], r1.store);
    }
  }

  // What a sender without a reset relies on

  /** The table comes back: the same keys in the same order, with equal values. */
  ghost predicate SameValues(got: Dict<Key, Option<Obj>>, deps: Dict<Key, Option<Value>>) {
    |got| == |deps| && forall i | 0 <= i < |got| :: SameEntry(got[i], deps[i])
  }

  predicate SameEntry(got: (Key, Option<Obj>), dep: (Key, Option<Value>)) {
    && got.0 == dep.0 && (got.1.None? <==> dep.1.None?)
    && (got.1.Some? ==> got.1.value.value == dep.1.value)
  }

  /** The receiver has the number of a value that the sender has sent before. */
  predicate Knows(st: SaveState, nums: map<nat, Obj>, v: Value) {
    v in st.map_ ==> st.map_[v] in nums && nums[st.map_[v]].value == v
  }

  ghost predicate KnowsAll(st: SaveState, nums: map<nat, Obj>, deps: Dict<Key, Option<Value>>) {
    forall i | 0 <= i < |deps| && deps[i].1.Some? :: Knows(st, nums, deps[i].1.value)
  }

  ghost predicate Numbered(st: SaveState) {
    forall v | v in st.map_ :: st.map_[v] < st.count
  }

  /** Since the state `st0` and the numbers `nums0`, numbers have only been given out to new values. */
  ghost predicate Follows(st0: SaveState, nums0: map<nat, Obj>, st: SaveState, nums: map<nat, Obj>) {
    && st0.count <= st.count
    && (forall v | v in st0.map_ :: v in st.map_ && st.map_[v] == st0.map_[v])
    && (forall v | v in st.map_ && v !in st0.map_ ::
          st0.count <= st.map_[v] < st.count && st.map_[v] in nums && nums[st.map_[v]].value == v)
    && (forall n | 0 <= n < st0.count :: (n in nums <==> n in nums0) && (n in nums ==> nums[n] == nums0[n]))
  }

  lemma FollowsStep(st0: SaveState, nums0: map<nat, Obj>, st: SaveState, p: Progress, d: (Key, Option<Value>),
                    got: Entry<Obj>)
    requires Numbered(st0) && Coherent(p.store) && !p.failed && Follows(st0, nums0, st, p.nums)
    requires ArrivesAs(SaveStep(st, d).1, got) && forall i | 0 <= i < |p.ret| :: p.ret[i].0 != d.0
    ensures var q, k := RestoreStep(p, got), |p.ret|;
            && Coherent(q.store) && (!q.failed ==> Follows(st0, nums0, SaveStep(st, d).0, q.nums))
            && (!q.failed ==> |q.ret| == k + 1 && q.ret[..k] == p.ret && q.ret[k].0 == d.0)
            && (!q.failed && SameEntry(q.ret[k], d) <==> d.1.Some? ==> Knows(st0, nums0, d.1.value))
  {
  }

  ghost predicate KeysShown(ret: Dict<Key, Option<Obj>>, deps: Dict<Key, Option<Value>>) {
    |ret| == |deps| && forall i | 0 <= i < |ret| :: ret[i].0 == deps[i].0
  }

  lemma {:induction false} EntriesComeBackIff(st: SaveState, start: Progress, deps: Dict<Key, Option<Value>>,
                                              got: seq<Entry<Obj>>)
    requires DistinctKeys(deps) && Numbered(st) && Coherent(start.store) && start.ret == [] && !start.failed
    requires TableArrivesAs(Some(SaveEntries(st, deps).1), Some(got))
    ensures var p := RestoreEntries(start, got);
            && Coherent(p.store)
            && (!p.failed ==> KeysShown(p.ret, deps) && Follows(st, start.nums, SaveEntries(st, deps).0, p.nums))
            && (!p.failed && SameValues(p.ret, deps) <==> KnowsAll(st, start.nums, deps))
    decreases |deps|
  {
    if deps != [] {
      var k := |deps| - 1;
      var first := deps[..k];
      var (st1, entries) := SaveEntries(st, first);
      EntriesComeBackIff(st, start, first, got[..k]);
      assert SaveEntries(st, deps).1[k] == SaveStep(st1, deps[k]).1;
      OneMoreComesBack(st, start.nums, st1, RestoreEntries(start, got[..k]), deps, k, got[k]);
    }
  }

  lemma OneMoreComesBack(st0: SaveState, nums0: map<nat, Obj>, st: SaveState, p: Progress,
                         deps: Dict<Key, Option<Value>>, k: nat, got: Entry<Obj>)
    requires k + 1 == |deps| && DistinctKeys(deps) && Numbered(st0) && Coherent(p.store)
    requires !p.failed ==> KeysShown(p.ret, deps[..k]) && Follows(st0, nums0, st, p.nums)
    requires !p.failed && SameValues(p.ret, deps[..k]) <==> KnowsAll(st0, nums0, deps[..k])
    requires ArrivesAs(SaveStep(st, deps[k]).1, got)
    ensures var q := RestoreStep(p, got);
            && Coherent(q.store)
            && (!q.failed ==> KeysShown(q.ret, deps) && Follows(st0, nums0, SaveStep(st, deps[k]).0, q.nums))
            && (!q.failed && SameValues(q.ret, deps) <==> KnowsAll(st0, nums0, deps))
  {
    var q := RestoreStep(p, got);
    assert KnowsAll(st0, nums0, deps) <==>
             KnowsAll(st0, nums0, deps[..k]) && (deps[k].1.Some? ==> Knows(st0, nums0, deps[k].1.value));
    if !p.failed {
      forall i | 0 <= i < |p.ret| ensures p.ret[i].0 != deps[k].0 {
        assert p.ret[i].0 == deps[..k][i].0 == deps[i].0;
      }
      FollowsStep(st0, nums0, st, p, deps[k], got);
      if !q.failed {
        SplitValues(p.ret, q.ret, deps, k);
      }
    }
  }

  lemma SplitValues(ret: Dict<Key, Option<Obj>>, next: Dict<Key, Option<Obj>>, deps: Dict<Key, Option<Value>>, k: nat)
    requires k + 1 == |deps| && KeysShown(ret, deps[..k]) && |next| == k + 1 && next[..k] == ret &&
             next[k].0 == deps[k].0
    ensures KeysShown(next, deps)
    ensures SameValues(next, deps) <==> SameValues(ret, deps[..k]) && SameEntry(next[k], deps[k])
  {
    forall i | 0 <= i < k ensures next[i] == ret[i] && deps[..k][i] == deps[i] {
      assert next[..k][i] == next[i];
    }
  }

  /** Without the reset, a table comes back exactly when the receiver holds, for every value in it that the sender has
      sent before, the number of that value: numbers that it lost, or kept from another run, are not noticed by the
      sender. */
  lemma TableComesBackIff(st: SaveState, r: Receiver, deps: Dict<Key, Option<Value>>, got: Received, pid: Pid)
    requires DistinctKeys(deps) && Numbered(st) && Coherent(r.store) && TableArrivesAs(SaveTable(st, Some(deps)).1, got)
    ensures var out := RestoreTable(r, got, pid).1;
            out.Some? && out.value.Some? && SameValues(out.value.value, deps) <==> KnowsAll(st, NumsOf(r, pid), deps)
  {
    EntriesComeBackIff(st, Progress(r.store, NumsOf(r, pid), [], false), deps, got.value);
  }

  /** The class attributes of SiggenRecipeInfo. */
  class Codec {
    var store: map<Value, Obj>
    var saveMap: map<Value, nat>
    var saveCount: nat
    var restoreMap: map<Pid, map<nat, Obj>>

    constructor ()
      ensures store == map[] && saveMap == map[] && saveCount == 1 && restoreMap == map[]
    {
      store, saveMap, saveCount, restoreMap := map[], map[], 1, map[];
    }

    ghost function Sender(): SaveState
      reads this
    {
      SaveState(saveMap, saveCount)
    }

    ghost function AsReceiver(): Receiver
      reads this
    {
      Receiver(store, restoreMap)
    }

    /** Only the store outlives a reset. */
    method Reset()
      modifies this
      ensures Sender() == RESET && AsReceiver() == Receiver(old(store), map[])
    {
      saveMap := map[];
      saveCount := 1;
      restoreMap := map[];
    }

    method Save(deps: Table) returns (ret: Saved)
      modifies this`saveMap, this`saveCount
      ensures (Sender(), ret) == SaveTable(old(Sender()), deps)
    {
      if deps.None? {
        return None;
      }
      var entries := [];
      for k := 0 to |deps.value|
        invariant (Sender(), entries) == SaveEntries(old(Sender()), deps.value[..k])
      {
        assert deps.value[..k + 1][..k] == deps.value[..k];
        var (dep, fs) := deps.value[k];
        if fs.None? {
          entries := entries + [Absent(dep)];
        } else if fs.value in saveMap {
          entries := entries + [Ref(dep, saveMap[fs.value])];
        } else {
          saveMap := saveMap[fs.value := saveCount];
          entries := entries + [Def(dep, fs.value, saveCount)];
          saveCount := saveCount + 1;
        }
      }
      assert deps.value[..|deps.value|] == deps.value;
      ret := Some(entries);
    }

    method Restore(deps: Received, pid: Pid) returns (ret: Option<Restored>)
      modifies this`store, this`restoreMap
      ensures (AsReceiver(), ret) == RestoreTable(old(AsReceiver()), deps, pid)
    {
      if deps.None? || deps.value == [] {
        return Some(if deps.None? then None else Some([]));
      }
      ghost var r := AsReceiver();
      if pid !in restoreMap {
        restoreMap := restoreMap[pid := map[]];
      }
      assert restoreMap[pid] == NumsOf(r, pid);
      var nums, result, ok := RestoreEach(deps.value, restoreMap[pid]);
      restoreMap := restoreMap[pid := nums];
      assert restoreMap == r.tables[pid := nums];
      ret := if ok then Some(Some(result)) else None;
    }

    /** The entries in turn, up to the first that fails; what has been learnt by then is kept. */
    method RestoreEach(entries: seq<Entry<Obj>>, known: map<nat, Obj>)
      returns (nums: map<nat, Obj>, result: Dict<Key, Option<Obj>>, ok: bool)
      modifies this`store
      ensures Progress(store, nums, result, !ok) == RestoreEntries(Progress(old(store), known, [], false), entries)
    {
      ghost var start := Progress(store, known, [], false);
      nums, result, ok := known, [], true;
      for k := 0 to |entries|
        invariant ok && Progress(store, nums, result, false) == RestoreEntries(start, entries[..k])
      {
        assert entries[..k + 1][..k] == entries[..k];
        nums, result, ok := RestoreEntry(entries[k], nums, result);
        if !ok {
          RestoreFailed(start, entries, k + 1);
          return;
        }
      }
      assert entries[..|entries|] == entries;
    }

    /** One entry of a table; a number that is not known is the KeyError. */
    method RestoreEntry(e: Entry<Obj>, nums: map<nat, Obj>, result: Dict<Key, Option<Obj>>)
      returns (nums': map<nat, Obj>, result': Dict<Key, Option<Obj>>, ok: bool)
      modifies this`store
      ensures Progress(store, nums', result', !ok) == RestoreStep(Progress(old(store), nums, result, false), e)
      ensures !ok ==> nums' == nums
    {
      nums', result', ok := nums, result, true;
      match e
      case Absent(dep) =>
        result' := Put(result, dep, None);
      case Ref(dep, num) =>
        if num in nums {
          result' := Put(result, dep, Some(nums[num]));
        } else {
          ok := false;
        }
      case Def(dep, fs, num) =>
        var obj := fs;
        if fs.value in store {
          obj := store[fs.value];
        } else {
          store := store[fs.value := fs];
        }
        nums' := nums[num := obj];
        result' := Put(result, dep, Some(obj));
    }
  }

  lemma {:induction false} RestoreFailed(p: Progress, entries: seq<Entry<Obj>>, k: nat)
    requires k <= |entries| && RestoreEntries(p, entries[..k]).failed
    ensures RestoreEntries(p, entries) == RestoreEntries(p, entries[..k])
  {
    if k == |entries| {
      assert entries[..k] == entries;
    } else {
      var init := entries[..|entries| - 1];
      assert init[..k] == entries[..k];
      RestoreFailed(p, init, k);
    }
  }

  /** A table that fails at some entry leaves the receiver as the entries before that one do: what they taught is
      kept. */
  lemma FailureKeepsLearnt(r: Receiver, entries: seq<Entry<Obj>>, pid: Pid, k: nat)
    requires k < |entries| && entries[k].Ref?
    requires var p := RestoreEntries(Progress(r.store, NumsOf(r, pid), [], false), entries[..k]);
             !p.failed && entries[k].num !in p.nums
    ensures var (after, out) := RestoreTable(r, Some(entries), pid);
            var (before, _) := RestoreTable(r, Some(entries[..k]), pid);
            && out.None? && after.store == before.store
            && forall q :: NumsOf(after, q) == NumsOf(before, q)
  {
    var start := Progress(r.store, NumsOf(r, pid), [], false);
    assert entries[..k + 1][..k] == entries[..k];
    RestoreFailed(start, entries, k + 1);
  }
}
