/** Whole saves and whole merges of the extras files: what `save_extras` and `save_merge` in bb/cache.py bring about
    once they have run to their end. */
module MergeRuns {
  import opened Wrappers
  import opened Sequences
  import opened MultiProcess

  // A merge

  predicate IsReadable(files: map<nat, File>, version: string, f: nat) {
    f in files && files[f].Whole? && files[f].version == version
  }

  /** The contents of the files that can be used, in the order of the listing. */
  function Sources(files: map<nat, File>, version: string, listing: seq<nat>): seq<Data> {
    if listing == [] then [] else
      var f := listing[|listing| - 1];
      Sources(files, version, listing[..|listing| - 1]) + if IsReadable(files, version, f) then [files[f].data] else []
  }

  ghost predicate Wide(files: map<nat, File>, version: string, width: nat) {
    forall f | IsReadable(files, version, f) :: |files[f].data| == width
  }

  lemma {:induction false} SourcesAreWide(files: map<nat, File>, version: string, listing: seq<nat>, width: nat)
    requires Wide(files, version, width)
    ensures forall i | 0 <= i < |Sources(files, version, listing)| :: |Sources(files, version, listing)[i]| == width
  {
    if listing != [] {
      SourcesAreWide(files, version, listing[..|listing| - 1], width);
    }
  }

  /** What a merge that started in `s0` has in its data after reading the first `n` files of the listing. */
  ghost function Gathered(s0: State, listing: seq<nat>, n: nat): Data
    requires n <= |listing| && Wide(s0.files, s0.version, |s0.data|)
  {
    SourcesAreWide(s0.files, s0.version, listing[..n], |s0.data|);
    MergeAll(s0.data, Sources(s0.files, s0.version, listing[..n]))
  }

  /** The files from number `gone` of the listing on are still there, as they were. */
  ghost predicate FilesLeft(s0: State, s: State, listing: seq<nat>, gone: nat) {
    && gone <= |listing| && s.files.Keys == Elements(listing[gone..])
    && forall f | f in s.files :: f in s0.files && s.files[f] == s0.files[f]
  }

  /** The data holds the first `read` files; whether there were any to merge. */
  ghost predicate HasRead(s0: State, s: State, listing: seq<nat>, read: nat) {
    && read <= |listing| && Wide(s0.files, s0.version, |s0.data|)
    && s.version == s0.version && s.data == Gathered(s0, listing, read)
    && (s.have <==> Sources(s0.files, s0.version, listing[..read]) != [])
  }

  /** The merging process is about to take file `n` of the listing. */
  ghost predicate AtFile(f: nat, todo: seq<nat>, listing: seq<nat>, n: nat) {
    n < |listing| && f == listing[n] && todo == listing[n + 1..]
  }

  /** The merge that started in `s0` has merged and deleted the first `n` files, and what it does with the next one. */
  ghost predicate Midway(s0: State, s: State, listing: seq<nat>, n: nat) {
    && IsListing(listing, s0.files.Keys)
    && match s.merger
       case Resting => false
       case Scanning(todo) =>
         && FilesLeft(s0, s, listing, n) && HasRead(s0, s, listing, n)
         && todo == listing[n..] && s.disk == s0.disk
       case Loaded(f, source, todo) =>
         && FilesLeft(s0, s, listing, n) && HasRead(s0, s, listing, n) && AtFile(f, todo, listing, n)
         && s.disk == s0.disk && IsReadable(s0.files, s0.version, f) && source == s0.files[f].data
       case Dropping(f, todo) =>
         && FilesLeft(s0, s, listing, n) && AtFile(f, todo, listing, n) && HasRead(s0, s, listing, n + 1)
         && s.disk == s0.disk
       case Storing =>
         n == |listing| && FilesLeft(s0, s, listing, n) && HasRead(s0, s, listing, n) && s.have
       case Stored =>
         n == |listing| && FilesLeft(s0, s, listing, n) && HasRead(s0, s.(have := true), listing, n)
         && s.disk == Some(Whole(s.version, s.data))
  }

  lemma MergeStarts(s0: State, listing: seq<nat>)
    requires Inv(s0) && Enabled(s0, StartMerge(listing))
    ensures Midway(s0, Apply(s0, StartMerge(listing)), listing, 0)
  {
    assert listing[0..] == listing && listing[..0] == [];
  }

  lemma OneMoreSource(s0: State, listing: seq<nat>, n: nat)
    requires n < |listing| && Wide(s0.files, s0.version, |s0.data|)
    ensures var f := listing[n];
            if IsReadable(s0.files, s0.version, f) then
              && |s0.files[f].data| == |Gathered(s0, listing, n)|
              && Gathered(s0, listing, n + 1) == MergeData(s0.files[f].data, Gathered(s0, listing, n))
              && Sources(s0.files, s0.version, listing[..n + 1]) != []
            else
              && Gathered(s0, listing, n + 1) == Gathered(s0, listing, n)
              && Sources(s0.files, s0.version, listing[..n + 1]) == Sources(s0.files, s0.version, listing[..n])
  {
    SourcesAreWide(s0.files, s0.version, listing[..n], |s0.data|);
    SourcesAreWide(s0.files, s0.version, listing[..n + 1], |s0.data|);
    assert listing[..n + 1][..n] == listing[..n];
    var before := Sources(s0.files, s0.version, listing[..n]);
    if IsReadable(s0.files, s0.version, listing[n]) {
      assert (before + [s0.files[listing[n]].data])[..|before|] == before;
    } else {
      assert before + [] == before;
    }
  }

  lemma ListingTail(listing: seq<nat>, n: nat)
    requires n < |listing| && forall i, j | 0 <= i < j < |listing| :: listing[i] != listing[j]
    ensures listing[n..][0] == listing[n] && listing[n..][1..] == listing[n + 1..]
    ensures Elements(listing[n + 1..]) == Elements(listing[n..]) - {listing[n]}
    ensures listing[n] in Elements(listing[n..])
  {
    var tail := listing[n + 1..];
    assert listing[n..] == [listing[n]] + tail;
    assert forall i | 0 <= i < |tail| :: tail[i] == listing[n + 1 + i];
  }

  lemma ReadGoesOn(s0: State, s: State, listing: seq<nat>, n: nat)
    requires Enabled(s, ReadNext) && Midway(s0, s, listing, n)
    ensures Midway(s0, Apply(s, ReadNext), listing, n)
  {
    ListingTail(listing, n);
    OneMoreSource(s0, listing, n);
  }

  lemma MergeGoesOn(s0: State, s: State, listing: seq<nat>, n: nat)
    requires Enabled(s, Merge) && Midway(s0, s, listing, n)
    ensures Midway(s0, Apply(s, Merge), listing, n)
  {
    OneMoreSource(s0, listing, n);
  }

  lemma DeleteGoesOn(s0: State, s: State, listing: seq<nat>, n: nat)
    requires Enabled(s, Delete) && Midway(s0, s, listing, n)
    ensures Midway(s0, Apply(s, Delete), listing, n + 1)
  {
    ListingTail(listing, n);
  }

  lemma AtTheEnd(listing: seq<nat>, n: nat)
    requires n <= |listing| && listing[n..] == []
    ensures n == |listing|
  {
    assert |listing[n..]| == |listing| - n;
  }

  /** While the merging process is at work nobody else is, and each of its steps is the next part of the merge. */
  lemma StepGoesOn(s0: State, s: State, listing: seq<nat>, a: Action, n: nat) returns (m: nat)
    requires LocksMatch(s) && Enabled(s, a) && Midway(s0, s, listing, n) && a != EndMerge
    ensures Midway(s0, Apply(s, a), listing, m)
  {
    OnlyMerger(s, a);
    m := n;
    match a
    case ReadNext => ReadGoesOn(s0, s, listing, n);
    case Merge => MergeGoesOn(s0, s, listing, n);
    case Delete =>
      DeleteGoesOn(s0, s, listing, n);
      m := n + 1;
    case CreateCache => AtTheEnd(listing, n);
    case DumpCache =>
  }

  /** While a merge is under way no saver can take a step. */
  lemma OnlyMerger(s: State, a: Action)
    requires LocksMatch(s) && s.merger != Resting && Enabled(s, a)
    ensures a in {ReadNext, Merge, Delete, CreateCache, DumpCache, EndMerge}
  {
    assert forall p :: At(s, p) == Idle;
  }

  /** What a whole merge has done: every listed file is gone, the data is merged with all that can be used, and it is in
      the cache file, which is written only when there was something to merge. */
  ghost predicate MergeDone(s0: State, s: State, listing: seq<nat>) {
    && Wide(s0.files, s0.version, |s0.data|)
    && s.files == map[] && !s.merging && s.merger == Resting && s.version == s0.version
    && s.data == Gathered(s0, listing, |listing|)
    && s.disk == if Sources(s0.files, s0.version, listing) != [] then Some(Whole(s0.version, s.data)) else s0.disk
  }

  lemma MergeEnds(s0: State, s: State, listing: seq<nat>, n: nat)
    requires Enabled(s, EndMerge) && Midway(s0, s, listing, n)
    ensures MergeDone(s0, Apply(s, EndMerge), listing)
  {
    if s.merger.Scanning? {
      AtTheEnd(listing, n);
    }
    assert listing[..|listing|] == listing && listing[|listing|..] == [];
    assert s.files.Keys == {};
  }

  lemma {:induction false} MergeIsMidway(states: seq<State>, actions: seq<Action>, i: nat, j: nat, listing: seq<nat>)
    returns (n: nat)
    requires IsRun(states, actions) && i < j <= |actions| && actions[i] == StartMerge(listing)
    requires forall m | i < m < j :: actions[m] != EndMerge
    ensures Midway(states[i], states[j], listing, n)
    decreases j
  {
    if j == i + 1 {
      RunStarts(states, actions, i, j, listing);
      n := 0;
    } else {
      n := MergeIsMidway(states, actions, i, j - 1, listing);
      n := RunGoesOn(states[i], states, actions, j, listing, n);
    }
  }

  lemma RunStarts(states: seq<State>, actions: seq<Action>, i: nat, j: nat, listing: seq<nat>)
    requires IsRun(states, actions) && i + 1 == j <= |actions| && actions[i] == StartMerge(listing)
    ensures Midway(states[i], states[j], listing, 0)
  {
    RunKeepsInv(states, actions, i);
    RunStep(states, actions, i);
    MergeStarts(states[i], listing);
  }

  lemma RunGoesOn(s0: State, states: seq<State>, actions: seq<Action>, j: nat, listing: seq<nat>, n: nat)
    returns (m: nat)
    requires IsRun(states, actions) && 0 < j <= |actions| && actions[j - 1] != EndMerge
    requires Midway(s0, states[j - 1], listing, n)
    ensures Midway(s0, states[j], listing, m)
  {
    RunKeepsInv(states, actions, j - 1);
    RunStep(states, actions, j - 1);
    m := StepGoesOn(s0, states[j - 1], listing, actions[j - 1], n);
  }

  lemma {:induction false} SourceIsFile(files: map<nat, File>, version: string, listing: seq<nat>, d: Data)
    ensures d in Sources(files, version, listing) <==>
            exists f :: f in listing && IsReadable(files, version, f) && files[f].data == d
  {
    if listing != [] {
      assert listing == listing[..|listing| - 1] + [listing[|listing| - 1]];
      SourceIsFile(files, version, listing[..|listing| - 1], d);
    }
  }

  /** Where a value comes from that a merge has brought. */
  lemma {:induction false} MergedFrom(dest: Data, sources: seq<Data>, j: nat, k: string)
    requires forall i | 0 <= i < |sources| :: |sources[i]| >= |dest|
    requires j < |dest| && k in MergeAll(dest, sources)[j] && k !in dest[j]
    ensures exists d :: d in sources && |d| >= |dest| && k in d[j] && d[j][k] == MergeAll(dest, sources)[j][k]
  {
    if sources != [] {
      var n := |sources| - 1;
      assert sources == sources[..n] + [sources[n]];
      if k in MergeAll(dest, sources[..n])[j] {
        MergedFrom(dest, sources[..n], j, k);
      } else {
        assert sources[n] in sources;
      }
    }
  }

  /** The file can be used and has the key. */
  ghost predicate Offers(s0: State, f: nat, j: nat, k: string) {
    IsReadable(s0.files, s0.version, f) && j < |s0.files[f].data| && k in s0.files[f].data[j]
  }

  /** The key is there when it was in the data or is in a file, and its value is from there. */
  ghost predicate KeyMerged(s0: State, s: State, j: nat, k: string)
    requires j < |s0.data| == |s.data|
  {
    && (k in s.data[j] <==> k in s0.data[j] || exists f :: Offers(s0, f, j, k))
    && (k in s0.data[j] ==> s.data[j][k] == s0.data[j][k])
    && (k in s.data[j] && k !in s0.data[j] ==>
          exists f :: Offers(s0, f, j, k) && s.data[j][k] == s0.files[f].data[j][k])
  }

  /** A merge in terms of the files that were there: none of them is left, whichever could be used; their keys are in
      the data; and the data is in the cache file, which is written exactly when a file could be used. */
  ghost predicate Merged(s0: State, s: State) {
    && s.files == map[] && !s.merging && s.version == s0.version && |s.data| == |s0.data|
    && (forall j: nat, k: string | j < |s0.data| :: KeyMerged(s0, s, j, k))
    && s.disk == if exists f :: IsReadable(s0.files, s0.version, f) then Some(Whole(s0.version, s.data)) else s0.disk
  }

  lemma MergeBrings(s0: State, s: State, listing: seq<nat>, j: nat, k: string)
    requires MergeDone(s0, s, listing) && IsListing(listing, s0.files.Keys) && j < |s0.data|
    ensures |s.data| == |s0.data| && KeyMerged(s0, s, j, k)
  {
    assert listing[..|listing|] == listing;
    var sources := Sources(s0.files, s0.version, listing);
    SourcesAreWide(s0.files, s0.version, listing, |s0.data|);
    MergeAllKeys(s0.data, sources, j);
    if f :| Offers(s0, f, j, k) {
      SourceIsFile(s0.files, s0.version, listing, s0.files[f].data);
      assert f in listing;
    }
    if k in s.data[j] && k !in s0.data[j] {
      MergedFrom(s0.data, sources, j, k);
      var d :| d in sources && |d| >= |s0.data| && k in d[j] && d[j][k] == s.data[j][k];
      SourceIsFile(s0.files, s0.version, listing, d);
      var f :| f in listing && IsReadable(s0.files, s0.version, f) && s0.files[f].data == d;
      assert Offers(s0, f, j, k);
    }
  }

  /** The cache file is written exactly when there was a file to merge. */
  lemma MergeWrites(s0: State, s: State, listing: seq<nat>)
    requires MergeDone(s0, s, listing) && IsListing(listing, s0.files.Keys)
    ensures s.disk == if exists f ::
              IsReadable(s0.files, s0.version, f) then Some(Whole(s0.version, s.data)) else s0.disk
  {
    var sources := Sources(s0.files, s0.version, listing);
    if sources != [] {
      SourceIsFile(s0.files, s0.version, listing, sources[0]);
    }
    if f :| IsReadable(s0.files, s0.version, f) {
      assert f in listing;
      SourceIsFile(s0.files, s0.version, listing, s0.files[f].data);
    }
  }

  /** Every merge of every run, from its start to its end. */
  lemma RunMerges(states: seq<State>, actions: seq<Action>, i: nat, j: nat, listing: seq<nat>)
    requires IsRun(states, actions) && i < j < |actions| && actions[i] == StartMerge(listing) && actions[j] == EndMerge
    requires forall m | i < m < j :: actions[m] != EndMerge
    ensures MergeDone(states[i], states[j + 1], listing) && Merged(states[i], states[j + 1])
  {
    var n := MergeIsMidway(states, actions, i, j, listing);
    RunStep(states, actions, i);
    RunStep(states, actions, j);
    MergeEnds(states[i], states[j], listing, n);
    DoneIsMerged(states[i], states[j + 1], listing);
  }

  lemma DoneIsMerged(s0: State, s: State, listing: seq<nat>)
    requires MergeDone(s0, s, listing) && IsListing(listing, s0.files.Keys)
    ensures Merged(s0, s)
  {
    forall j: nat, k: string | j < |s0.data| ensures |s.data| == |s0.data| && KeyMerged(s0, s, j, k) {
      MergeBrings(s0, s, listing, j, k);
    }
    MergeWrites(s0, s, listing);
  }

  /** The next step of the merging process while it is at work. */
  ghost function MergerStep(s: State): (a: Action)
    requires s.merger != Resting
    ensures Enabled(s, a)
  {
    match s.merger
    case Scanning(todo) => if todo != [] then ReadNext else if s.have then CreateCache else EndMerge
    case Loaded(_, _, _) => Merge
    case Dropping(_, _) => Delete
    case Storing => DumpCache
    case Stored => EndMerge
  }

  /** How much the merging process has to do. */
  function Left(m: Merger): nat {
    match m
    case Resting => 0
    case Scanning(todo) => 3 * |todo| + 3
    case Loaded(_, _, todo) => 3 * |todo| + 5
    case Dropping(_, todo) => 3 * |todo| + 4
    case Storing => 2
    case Stored => 1
  }

  /** The merging process on its own, until its merge has ended. */
  ghost function AfterMerge(s: State): State
    decreases Left(s.merger)
  {
    if s.merger == Resting then s else AfterMerge(Apply(s, MergerStep(s)))
  }

  lemma {:induction false} MergeGoesToEnd(s0: State, s: State, listing: seq<nat>, n: nat)
    requires Inv(s) && Midway(s0, s, listing, n)
    ensures MergeDone(s0, AfterMerge(s), listing)
    decreases Left(s.merger)
  {
    var t, m := OneMergerStep(s0, s, listing, n);
    if t.merger != Resting {
      MergeGoesToEnd(s0, t, listing, m);
    }
  }

  lemma OneMergerStep(s0: State, s: State, listing: seq<nat>, n: nat) returns (t: State, m: nat)
    requires Inv(s) && Midway(s0, s, listing, n)
    ensures AfterMerge(s) == AfterMerge(t) && Left(t.merger) < Left(s.merger)
    ensures if t.merger == Resting then MergeDone(s0, t, listing) else Inv(t) && Midway(s0, t, listing, m)
  {
    t := Apply(s, MergerStep(s));
    LessLeft(s);
    m := MergerGoesOn(s0, s, listing, n, MergerStep(s));
  }

  lemma LessLeft(s: State)
    requires s.merger != Resting
    ensures Left(Apply(s, MergerStep(s)).merger) < Left(s.merger)
    ensures Apply(s, MergerStep(s)).merger == Resting <==> MergerStep(s) == EndMerge
  {
    match s.merger
    case Scanning(todo) => assert todo != [] ==> |todo[1..]| == |todo| - 1;
    case Loaded(_, _, _) =>
    case Dropping(_, _) =>
    case Storing =>
    case Stored =>
  }

  lemma MergerGoesOn(s0: State, s: State, listing: seq<nat>, n: nat, a: Action) returns (m: nat)
    requires Inv(s) && Midway(s0, s, listing, n) && Enabled(s, a)
    ensures if a == EndMerge then MergeDone(s0, Apply(s, a), listing)
            else Inv(Apply(s, a)) && Midway(s0, Apply(s, a), listing, m)
  {
    StepKeeps(s, a);
    m := n;
    if a == EndMerge {
      MergeEnds(s0, s, listing, n);
    } else {
      m := StepGoesOn(s0, s, listing, a, n);
    }
  }

  /** A merge always gets through: once it has the main lock, the merging process on its own comes to the end. */
  lemma MergeGetsThrough(s: State, listing: seq<nat>)
    requires Inv(s) && s.merger == Resting && s.readers == {} && IsListing(listing, s.files.Keys)
    ensures Enabled(s, StartMerge(listing)) && Merged(s, AfterMerge(Apply(s, StartMerge(listing))))
  {
    MergeStarts(s, listing);
    StepKeeps(s, StartMerge(listing));
    MergeGoesToEnd(s, Apply(s, StartMerge(listing)), listing, 0);
    DoneIsMerged(s, AfterMerge(Apply(s, StartMerge(listing))), listing);
  }

  /** While the merge runs, the files on disk are exactly those that it has not deleted yet. */
  ghost predicate Emptying(s: State) {
    match s.merger
    case Resting => true
    case Scanning(todo) => s.files.Keys == Elements(todo)
    case Loaded(f, _, todo) => s.files.Keys == Elements([f] + todo)
    case Dropping(f, todo) => s.files.Keys == Elements([f] + todo)
    case Storing => s.files == map[]
    case Stored => s.files == map[]
  }

  lemma EmptyingStep(s: State, a: Action)
    requires Inv(s) && Emptying(s) && Enabled(s, a)
    ensures Emptying(Apply(s, a))
    ensures a == EndMerge ==> Apply(s, a).files == map[]
  {
    if s.merging {
      OnlyMerger(s, a);
      match a
      case ReadNext => assert s.merger.todo == [s.merger.todo[0]] + s.merger.todo[1..];
      case Delete =>
        PendingTail(s, s.merger.f, s.merger.todo);
        forall f ensures f in Elements([s.merger.f] + s.merger.todo) <==> f == s.merger.f || f in s.merger.todo {
        }
      case _ =>
    }
  }

  /** In every run, whatever the savers do. */
  lemma {:induction false} RunEmpties(states: seq<State>, actions: seq<Action>, i: nat)
    requires IsRun(states, actions) && i <= |actions|
    ensures Emptying(states[i])
    ensures i > 0 && actions[i - 1] == EndMerge ==> states[i].files == map[]
    decreases i
  {
    if i > 0 {
      RunEmpties(states, actions, i - 1);
      RunKeepsInv(states, actions, i - 1);
      RunStep(states, actions, i - 1);
      EmptyingStep(states[i - 1], actions[i - 1]);
    }
  }

  // A save

  /** The next step of a saver that is at work. */
  ghost function OwnStep(s: State, p: Pid): (a: Action)
    requires At(s, p) != Idle
    ensures Enabled(s, a)
  {
    match At(s, p)
    case Trying(_) => TryIndex(p)
    case Locked(_) => CheckAbsent(p)
    case Opening(_) => Create(p)
    case Writing(_) => Dump(p)
    case Written(_) => UnlockIndex(p)
    case Unlocking => UnlockMain(p)
  }

  /** After at most `n` steps of the saver, the other processes standing still. */
  ghost function AfterOwn(s: State, p: Pid, n: nat): State
    decreases n
  {
    if n == 0 || At(s, p) == Idle then s else AfterOwn(Apply(s, OwnStep(s, p)), p, n - 1)
  }

  lemma {:induction false} OwnSteps(s: State, p: Pid, n: nat, m: nat)
    ensures AfterOwn(s, p, n + m) == AfterOwn(AfterOwn(s, p, n), p, m)
    decreases n
  {
    if n > 0 && At(s, p) != Idle {
      OwnSteps(Apply(s, OwnStep(s, p)), p, n - 1, m);
    }
  }

  predicate IsFree(s: State, i: nat) {
    i !in s.locks && i !in s.files
  }

  function Taken(s: State, i: nat): set<nat> {
    set x | x in s.locks.Keys + s.files.Keys && x >= i
  }

  /** The saver has left its data in a new file, at the first free index from `i` on, and holds nothing any more. */
  ghost predicate SavedAt(s: State, t: State, p: Pid, i: nat, job: Job, j: nat) {
    && i <= j && IsFree(s, j) && (forall x | i <= x < j :: !IsFree(s, x))
    && At(t, p) == Idle && t.readers == s.readers - {p} && t.locks == s.locks
    && t.files == s.files[j := Whole(job.version, job.extras)]
    && t.saved == s.saved + (if job.version == s.version then KeysOf(job.extras) else {})
    && t.data == s.data && t.disk == s.disk && t.merger == s.merger
    && forall q | q != p :: At(t, q) == At(s, q)
  }

  function WithJob(s: State, p: Pid, at: Saver): State
    requires p in s.jobs
  {
    s.(jobs := s.jobs[p := s.jobs[p].(at := at)])
  }

  lemma ThreeSteps(s: State, p: Pid)
    requires At(s, p) != Idle
    ensures var s1 := Apply(s, OwnStep(s, p));
            At(s1, p) != Idle ==>
              var s2 := Apply(s1, OwnStep(s1, p));
              At(s2, p) != Idle ==> AfterOwn(s, p, 3) == Apply(s2, OwnStep(s2, p))
  {
    var s1 := Apply(s, OwnStep(s, p));
    assert AfterOwn(s, p, 3) == AfterOwn(s1, p, 2);
    if At(s1, p) != Idle {
      var s2 := Apply(s1, OwnStep(s1, p));
      assert AfterOwn(s1, p, 2) == AfterOwn(s2, p, 1);
      if At(s2, p) != Idle {
        assert AfterOwn(s2, p, 1) == AfterOwn(Apply(s2, OwnStep(s2, p)), p, 0);
      }
    }
  }

  lemma WritesFirst(s: State, p: Pid, i: nat)
    requires At(s, p) == Trying(i) && IsFree(s, i)
    ensures AfterOwn(s, p, 3) == WithJob(s, p, Writing(i)).(locks := s.locks[i := p], files := s.files[i := Partial])
  {
    var s1 := Apply(s, TryIndex(p));
    assert s1 == WithJob(s, p, Locked(i)).(locks := s.locks[i := p]);
    var s2 := Apply(s1, CheckAbsent(p));
    assert s2.jobs == s.jobs[p := s.jobs[p].(at := Opening(i))];
    ThreeSteps(s, p);
    assert Apply(s2, Create(p)).jobs == s.jobs[p := s.jobs[p].(at := Writing(i))];
  }

  lemma WritesLast(s: State, p: Pid, i: nat)
    requires At(s, p) == Writing(i)
    ensures var job := s.jobs[p];
            AfterOwn(s, p, 3) == WithJob(s, p, Idle).(
              locks := s.locks - {i}, readers := s.readers - {p}, files := s.files[i := Whole(job.version, job.extras)],
              saved := if job.version == s.version then s.saved + KeysOf(job.extras) else s.saved)
  {
    var s1 := Apply(s, Dump(p));
    var s2 := Apply(s1, UnlockIndex(p));
    assert s2.jobs == s.jobs[p := s.jobs[p].(at := Unlocking)];
    ThreeSteps(s, p);
    assert Apply(s2, UnlockMain(p)).jobs == s.jobs[p := s.jobs[p].(at := Idle)];
  }

  lemma WritesAt(s: State, p: Pid, i: nat)
    requires At(s, p) == Trying(i) && IsFree(s, i)
    ensures SavedAt(s, AfterOwn(s, p, 6), p, i, s.jobs[p], i)
  {
    var t, u := WritesThrough(s, p, i);
    SaveIsWhole(s, t, u, p, i, s.jobs[p]);
  }

  lemma WritesThrough(s: State, p: Pid, i: nat) returns (t: State, u: State)
    requires At(s, p) == Trying(i) && IsFree(s, i)
    ensures u == AfterOwn(s, p, 6)
    ensures t == WithJob(s, p, Writing(i)).(locks := s.locks[i := p], files := s.files[i := Partial])
    ensures var job := t.jobs[p];
            u == WithJob(t, p, Idle).(
              locks := t.locks - {i}, readers := t.readers - {p}, files := t.files[i := Whole(job.version, job.extras)],
              saved := if job.version == t.version then t.saved + KeysOf(job.extras) else t.saved)
  {
    WritesFirst(s, p, i);
    t, u := AfterOwn(s, p, 3), AfterOwn(s, p, 6);
    OwnSteps(s, p, 3, 3);
    WritesLast(t, p, i);
  }

  lemma SaveIsWhole(s: State, t: State, u: State, p: Pid, i: nat, job: Job)
    requires p in s.jobs && s.jobs[p] == job && IsFree(s, i)
    requires t == WithJob(s, p, Writing(i)).(locks := s.locks[i := p], files := s.files[i := Partial])
    requires u == WithJob(t, p, Idle).(
               locks := t.locks - {i}, readers := t.readers - {p},
               files := t.files[i := Whole(job.version, job.extras)],
               saved := if job.version == t.version then t.saved + KeysOf(job.extras) else t.saved)
    ensures SavedAt(s, u, p, i, job, i)
  {
    assert u.locks == s.locks;
    assert u.files == s.files[i := Whole(job.version, job.extras)];
  }

  /** At an index that is taken the saver goes on to the next one. */
  lemma GoesOn(s: State, p: Pid, i: nat) returns (n: nat)
    requires At(s, p) == Trying(i) && !IsFree(s, i)
    ensures AfterOwn(s, p, n) == WithJob(s, p, Trying(i + 1))
  {
    var s1 := Apply(s, TryIndex(p));
    if i in s.locks {
      n := 1;
      assert AfterOwn(s, p, 1) == AfterOwn(s1, p, 0);
    } else {
      n := 2;
      var s2 := Apply(s1, CheckAbsent(p));
      assert s2.locks == s.locks;
      assert s2.jobs == s.jobs[p := s.jobs[p].(at := Trying(i + 1))];
      assert AfterOwn(s, p, 2) == AfterOwn(s1, p, 1) == AfterOwn(s2, p, 0);
    }
  }

  lemma {:induction false} SaverGetsThrough(s: State, p: Pid, i: nat) returns (n: nat, j: nat)
    requires At(s, p) == Trying(i)
    ensures SavedAt(s, AfterOwn(s, p, n), p, i, s.jobs[p], j)
    decreases Taken(s, i)
  {
    if IsFree(s, i) {
      WritesAt(s, p, i);
      n, j := 6, i;
    } else {
      var k := GoesOn(s, p, i);
      var t := AfterOwn(s, p, k);
      assert i in Taken(s, i) && i !in Taken(t, i + 1) && Taken(t, i + 1) <= Taken(s, i);
      var m;
      m, j := SaverGetsThrough(t, p, i + 1);
      OwnSteps(s, p, k, m);
      n := k + m;
      SavedFurther(s, t, AfterOwn(t, p, m), p, i, s.jobs[p], j);
    }
  }

  lemma SavedFurther(s: State, t: State, u: State, p: Pid, i: nat, job: Job, j: nat)
    requires p in s.jobs && t == WithJob(s, p, Trying(i + 1)) && !IsFree(s, i)
    requires SavedAt(t, u, p, i + 1, t.jobs[p], j) && job == s.jobs[p]
    ensures SavedAt(s, u, p, i, job, j)
  {
    assert forall x :: IsFree(t, x) <==> IsFree(s, x);
    assert forall q | q != p :: At(t, q) == At(s, q);
  }

  /** A save always gets through: left alone after it has the main lock, the process writes its data to a new file, at
      the first index from its own number on that is neither locked nor used. */
  lemma SaveGetsThrough(s: State, p: Pid, version: string, extras: Data) returns (n: nat, j: nat)
    requires LocksMatch(s) && At(s, p) == Idle && s.merger == Resting
    requires (version == s.version ==> |extras| == s.width) && exists j :: 0 <= j < |extras| && extras[j] != map[]
    ensures Enabled(s, Begin(p, version, extras))
    ensures var t := AfterOwn(Apply(s, Begin(p, version, extras)), p, n);
            SavedAt(s, t, p, p, Job(Trying(p), version, extras), j)
  {
    var s1 := Apply(s, Begin(p, version, extras));
    n, j := SaverGetsThrough(s1, p, p);
    var t := AfterOwn(s1, p, n);
    assert forall x :: IsFree(s1, x) <==> IsFree(s, x);
    assert t.readers == s.readers;
  }
}
