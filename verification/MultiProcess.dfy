/** The cache shared by parser processes: MultiProcessCache in bb/cache.py.

  Savers hold the main lock together and write one extras file each, at the first index whose lock is
  free and whose file is absent.  The merging process holds the main lock alone; it folds every extras
  file into its own data, deletes the file, and at the end writes the data to the cache file.  The
  protocol is a state machine whose actions are the separate system calls of the source.
 */
module MultiProcess {
  import opened Wrappers

  type Pid = nat

  /** A list of dictionaries; all processes of a cache class use lists of the same length. */
  type Data = seq<map<string, string>>

  /** A file on disk.  Opening for writing leaves it half-written until the dump is complete; a process
      that died meanwhile leaves a torn file, which cannot be read. */
  datatype File = Partial | Torn | Whole(version: string, data: Data)

  /** Keys already present keep their value. */
  function MergeData(source: Data, dest: Data): (r: Data)
    requires |source| >= |dest|
    ensures |r| == |dest|
  {
    seq(|dest|, j requires 0 <= j < |dest| => source[j] + dest[j])
  }

  /** Merges a dictionary into another in place, one key at a time. */
  method MergeTable(source: map<string, string>, dest: map<string, string>) returns (r: map<string, string>)
    ensures r == source + dest
  {
    r := dest;
    var todo := source.Keys;
    while todo != {}
      invariant todo <= source.Keys
      invariant r == (map h | h in source && h !in todo :: source[h]) + dest
    {
      var h :| h in todo;
      if h !in r {
        r := r[h := source[h]];
      }
      todo := todo - {h};
    }
  }

  method MergeInPlace(source: Data, dest: array<map<string, string>>)
    requires |source| >= dest.Length
    modifies dest
    ensures dest[..] == MergeData(source, old(dest[..]))
  {
    for j := 0 to dest.Length
      invariant forall i | 0 <= i < j :: dest[i] == source[i] + old(dest[i])
      invariant forall i | j <= i < dest.Length :: dest[i] == old(dest[i])
    {
      dest[j] := MergeTable(source[j], dest[j]);
    }
  }

  // One merge: the order of the directory listing

  function MergeAll(dest: Data, sources: seq<Data>): (r: Data)
    requires forall i | 0 <= i < |sources| :: |sources[i]| >= |dest|
    ensures |r| == |dest|
  {
    if sources == [] then dest else
      MergeData(sources[|sources| - 1], MergeAll(dest, sources[..|sources| - 1]))
  }

  /** A merge keeps every earlier value, and its keys are those of the data and of all the files. */
  lemma {:induction false} MergeAllKeys(dest: Data, sources: seq<Data>, j: nat)
    requires forall i | 0 <= i < |sources| :: |sources[i]| >= |dest|
    requires j < |dest|
    ensures forall k | k in dest[j] :: k in MergeAll(dest, sources)[j] && MergeAll(dest, sources)[j][k] == dest[j][k]
    ensures forall k :: k in MergeAll(dest, sources)[j] <==>
            k in dest[j] || exists i :: 0 <= i < |sources| && k in sources[i][j]
  {
    if sources != [] {
      var n := |sources| - 1;
      MergeAllKeys(dest, sources[..n], j);
      var before := MergeAll(dest, sources[..n]);
      forall k ensures k in MergeAll(dest, sources)[j] <==>
        k in dest[j] || exists i :: 0 <= i < |sources| && k in sources[i][j] {
        if k in before[j] && k !in dest[j] {
          var i :| 0 <= i < n && k in sources[..n][i][j];
          assert k in sources[i][j];
        }
        if i :| 0 <= i < |sources| && k in sources[i][j] {
          if i < n {
            assert k in sources[..n][i][j];
          }
        }
      }
    }
  }

  /** Where a key that is new to the data comes from: the first file in the listing that has it. */
  lemma {:induction false} MergeAllValue(dest: Data, sources: seq<Data>, j: nat, i: nat, k: string)
    requires forall n | 0 <= n < |sources| :: |sources[n]| >= |dest|
    requires j < |dest| && k !in dest[j]
    requires i < |sources| && k in sources[i][j] && forall n | 0 <= n < i :: k !in sources[n][j]
    ensures k in MergeAll(dest, sources)[j] && MergeAll(dest, sources)[j][k] == sources[i][j][k]
  {
    var n := |sources| - 1;
    if i == n {
      MergeAllKeys(dest, sources[..n], j);
    } else {
      MergeAllValue(dest, sources[..n], j, i, k);
    }
  }

  /** Two listings of the same files give the same keys. */
  lemma ListingOrderIsIrrelevant(dest: Data, a: seq<Data>, b: seq<Data>, j: nat)
    requires forall i | 0 <= i < |a| :: |a[i]| >= |dest|
    requires forall i | 0 <= i < |b| :: |b[i]| >= |dest|
    requires multiset(a) == multiset(b) && j < |dest|
    ensures MergeAll(dest, a)[j].Keys == MergeAll(dest, b)[j].Keys
  {
    MergeAllKeys(dest, a, j);
    MergeAllKeys(dest, b, j);
    forall k | k in MergeAll(dest, a)[j] ensures k in MergeAll(dest, b)[j] {
      if k !in dest[j] {
        var i :| 0 <= i < |a| && k in a[i][j];
        assert a[i] in multiset(b);
      }
    }
    forall k | k in MergeAll(dest, b)[j] ensures k in MergeAll(dest, a)[j] {
      if k !in dest[j] {
        var i :| 0 <= i < |b| && k in b[i][j];
        assert b[i] in multiset(a);
      }
    }
  }

  // The protocol

  datatype Saver =
    | Idle
    | Trying(i: nat)     // holds the main lock, about to try the lock of index i
    | Locked(i: nat)     // holds the lock of index i, about to look for the file
    | Opening(i: nat)    // the file is absent, about to be created
    | Writing(i: nat)    // the file is open and half-written
    | Written(i: nat)    // the file is complete
    | Unlocking          // the index lock is released, the main lock is not

  datatype Merger =
    | Resting
    | Scanning(todo: seq<nat>)
    | Loaded(f: nat, source: Data, todo: seq<nat>)
    | Dropping(f: nat, todo: seq<nat>)   // about to delete a file that is merged, unreadable or of another version
    | Storing                             // the cache file is open and half-written
    | Stored

  datatype Job = Job(at: Saver, version: string, extras: Data)

  datatype State = State(
    version: string,          // of the merging process
    width: nat,
    readers: set<Pid>,        // who shares the main lock
    merging: bool,            // whether the merging process holds it
    locks: map<nat, Pid>,     // the index locks
    files: map<nat, File>,    // the extras files
    jobs: map<Pid, Job>,
    merger: Merger,
    have: bool,               // something has been merged since the cache file was last written
    data: Data,               // of the merging process
    disk: Option<File>,       // the cache file
    saved: set<(nat, string)>) // every key written by a completed save of the merger's version

  datatype Action =
    | Begin(p: Pid, ver: string, extras: Data)
    | TryIndex(p: Pid)
    | CheckAbsent(p: Pid)
    | Create(p: Pid)
    | Dump(p: Pid)
    | UnlockIndex(p: Pid)
    | UnlockMain(p: Pid)
    | StartMerge(listing: seq<nat>)
    | ReadNext
    | Merge
    | Delete
    | CreateCache
    | DumpCache
    | EndMerge

  function At(s: State, p: Pid): Saver {
    if p in s.jobs then s.jobs[p].at else Idle
  }

  function Moved(s: State, p: Pid, at: Saver): State
    requires p in s.jobs
  {
    s.(jobs := s.jobs[p := s.jobs[p].(at := at)])
  }

  function KeysOf(data: Data): set<(nat, string)> {
    set j, k | 0 <= j < |data| && k in data[j].Keys :: (j, k)
  }

  ghost predicate IsListing(listing: seq<nat>, files: set<nat>) {
    && (forall i, j | 0 <= i < j < |listing| :: listing[i] != listing[j])
    && (forall f :: f in listing <==> f in files)
  }

  /** When a process can take its next step.  Only a process with some data saves, and processes of one
      version use lists of the same length. */
  ghost predicate Enabled(s: State, a: Action) {
    match a
    case Begin(p, ver, extras) =>
      At(s, p) == Idle && !s.merging && (exists j :: 0 <= j < |extras| && extras[j] != map[]) &&
      (ver == s.version ==> |extras| == s.width)
    case TryIndex(p) => At(s, p).Trying?
    case CheckAbsent(p) => At(s, p).Locked?
    case Create(p) => At(s, p).Opening?
    case Dump(p) => At(s, p).Writing?
    case UnlockIndex(p) => At(s, p).Written?
    case UnlockMain(p) => At(s, p).Unlocking?
    case StartMerge(listing) => s.merger == Resting && s.readers == {} && !s.merging && IsListing(listing, s.files.Keys)
    case ReadNext => s.merger.Scanning? && s.merger.todo != []
    case Merge => s.merger.Loaded?
    case Delete => s.merger.Dropping?
    case CreateCache => s.merger == Scanning([]) && s.have
    case DumpCache => s.merger == Storing
    case EndMerge => (s.merger == Scanning([]) && !s.have) || s.merger == Stored
  }

  /** What the locks are there for: no file that exists is written over, nothing half-written is read,
      and no file or list that the merge needs is missing. */
  ghost predicate Safe(s: State, a: Action) {
    match a
    case Create(p) => At(s, p).Opening? && At(s, p).i !in s.files
    case ReadNext =>
      s.merger.Scanning? && s.merger.todo != [] &&
      s.merger.todo[0] in s.files && s.files[s.merger.todo[0]] != Partial
    case Merge => s.merger.Loaded? && |s.merger.source| >= |s.data|
    case Delete => s.merger.Dropping? && s.merger.f in s.files && s.files[s.merger.f] != Partial
    case _ => true
  }

  function Apply(s: State, a: Action): State
    requires Enabled(s, a)
  {
    match a
    case Begin(p, ver, extras) =>
      s.(readers := s.readers + {p}, jobs := s.jobs[p := Job(Trying(p), ver, extras)])
    case TryIndex(p) =>
      var i := At(s, p).i;
      if i in s.locks then Moved(s, p, Trying(i + 1)) else Moved(s, p, Locked(i)).(locks := s.locks[i := p])
    case CheckAbsent(p) =>
      var i := At(s, p).i;
      if i in s.files then Moved(s, p, Trying(i + 1)).(locks := s.locks - {i}) else Moved(s, p, Opening(i))
    case Create(p) =>
      var i := At(s, p).i;
      Moved(s, p, Writing(i)).(files := s.files[i := Partial])
    case Dump(p) =>
      var i := At(s, p).i;
      var job := s.jobs[p];
      Moved(s, p, Written(i)).(
        files := s.files[i := Whole(job.version, job.extras)],
        saved := if job.version == s.version then s.saved + KeysOf(job.extras) else s.saved)
    case UnlockIndex(p) =>
      Moved(s, p, Unlocking).(locks := s.locks - {At(s, p).i})
    case UnlockMain(p) =>
      Moved(s, p, Idle).(readers := s.readers - {p})
    case StartMerge(listing) =>
      s.(merging := true, merger := Scanning(listing), have := false)
    case ReadNext =>
      var f, todo := s.merger.todo[0], s.merger.todo[1..];
      if f !in s.files || !s.files[f].Whole? || s.files[f].version != s.version then s.(merger := Dropping(f, todo))
      else s.(merger := Loaded(f, s.files[f].data, todo))
    case Merge =>
      s.(data := if |s.merger.source| >= |s.data| then MergeData(s.merger.source, s.data) else s.data,
         have := true, merger := Dropping(s.merger.f, s.merger.todo))
    case Delete =>
      s.(files := s.files - {s.merger.f}, merger := Scanning(s.merger.todo))
    case CreateCache =>
      s.(disk := Some(Partial), merger := Storing)
    case DumpCache =>
      s.(disk := Some(Whole(s.version, s.data)), merger := Stored, have := false)
    case EndMerge =>
      s.(merging := false, merger := Resting)
  }

  /** A key is in some complete extras file of the merger's version. */
  ghost predicate InFiles(s: State, j: nat, k: string) {
    exists i :: i in s.files && HoldsKey(s.files[i], s.version, j, k)
  }

  ghost predicate HoldsKey(f: File, version: string, j: nat, k: string) {
    f.Whole? && f.version == version && (j, k) in KeysOf(f.data)
  }

  ghost predicate OnDisk(s: State, j: nat, k: string) {
    s.disk.Some? && HoldsKey(s.disk.value, s.version, j, k)
  }

  ghost predicate HoldsIndex(at: Saver) {
    at.Locked? || at.Opening? || at.Writing? || at.Written?
  }

  /** Who holds which lock. */
  ghost predicate LocksMatch(s: State) {
    && (forall p :: p in s.readers <==> At(s, p) != Idle)
    && (forall p | p in s.jobs && HoldsIndex(s.jobs[p].at) :: s.jobs[p].at.i in s.locks && s.locks[s.jobs[p].at.i] == p)
    && (forall i | i in s.locks :: HoldsIndex(At(s, s.locks[i])) && At(s, s.locks[i]).i == i)
    && (s.merging <==> s.merger != Resting)
    && (s.merging ==> s.readers == {})
  }

  /** Each file is half-written exactly while its saver is writing it. */
  ghost predicate FilesMatch(s: State) {
    && (forall p | p in s.jobs && s.jobs[p].at.Opening? :: s.jobs[p].at.i !in s.files)
    && (forall p | p in s.jobs && s.jobs[p].at.Writing? ::
          s.jobs[p].at.i in s.files && s.files[s.jobs[p].at.i] == Partial)
    && (forall i | i in s.files && s.files[i] == Partial :: i in s.locks && At(s, s.locks[i]) == Writing(i))
  }

  ghost predicate WidthsMatch(s: State) {
    && (forall i | i in s.files && s.files[i].Whole? && s.files[i].version == s.version :: |s.files[i].data| == s.width)
    && (forall p | p in s.jobs && s.jobs[p].version == s.version :: |s.jobs[p].extras| == s.width)
    && |s.data| == s.width
  }

  ghost predicate Pending(s: State, todo: seq<nat>) {
    && (forall i, j | 0 <= i < j < |todo| :: todo[i] != todo[j])
    && (forall f | f in todo :: f in s.files)
  }

  /** The file has nothing that the merger's data does not have. */
  ghost predicate Absorbed(s: State, f: nat) {
    f in s.files && forall j: nat, k: string | HoldsKey(s.files[f], s.version, j, k) ::
      s.have && (j, k) in KeysOf(s.data)
  }

  /** The listing runs over files that exist; what was read is what is in the file. */
  ghost predicate MergerMatches(s: State) {
    match s.merger
    case Resting => s.disk != Some(Partial) && !s.have
    case Scanning(todo) => s.disk != Some(Partial) && Pending(s, todo)
    case Loaded(f, source, todo) =>
      s.disk != Some(Partial) && Pending(s, [f] + todo) && f in s.files && s.files[f] == Whole(s.version, source)
    case Dropping(f, todo) => s.disk != Some(Partial) && Pending(s, [f] + todo) && Absorbed(s, f)
    case Storing => s.have
    case Stored => !s.have && s.disk == Some(Whole(s.version, s.data))
  }

  /** No completed save is lost. */
  ghost predicate NothingLost(s: State) {
    && (forall j: nat, k: string | (j, k) in s.saved :: InFiles(s, j, k) || (j, k) in KeysOf(s.data))
    && (!s.have ==> forall j: nat, k: string | (j, k) in s.saved :: InFiles(s, j, k) || OnDisk(s, j, k))
  }

  ghost predicate Inv(s: State) {
    LocksMatch(s) && FilesMatch(s) && WidthsMatch(s) && MergerMatches(s) && NothingLost(s)
  }

  /** At the start no process runs.  Extras files may be left over from earlier runs, some of them torn; the
      merging process has read the cache file, if there is one of its version. */
  ghost predicate Init(s: State) {
    && s.readers == {} && !s.merging && s.locks == map[] && s.jobs == map[]
    && s.merger == Resting && !s.have && |s.data| == s.width
    && (forall i | i in s.files ::
          s.files[i] != Partial && (s.files[i].Whole? && s.files[i].version == s.version ==>
                                    |s.files[i].data| == s.width))
    && s.disk != Some(Partial)
    && (s.disk.Some? && s.disk.value.Whole? && s.disk.value.version == s.version ==> s.data == s.disk.value.data)
    && (forall j: nat, k: string | (j, k) in s.saved :: InFiles(s, j, k) || OnDisk(s, j, k))
  }

  /** A saver that holds the main lock moves on, keeping, taking or releasing an index lock. */
  lemma SaverMoves(s: State, p: Pid, t: State)
    requires LocksMatch(s) && p in s.readers && p in s.jobs && p in t.jobs
    requires t.readers == s.readers && t.merging == s.merging && t.merger == s.merger
    requires t.jobs == s.jobs[p := t.jobs[p]] && At(t, p) != Idle
    requires var (before, after) := (At(s, p), At(t, p));
             || (HoldsIndex(before) && HoldsIndex(after) && before.i == after.i && t.locks == s.locks)
             || (!HoldsIndex(before) && !HoldsIndex(after) && t.locks == s.locks)
             || (!HoldsIndex(before) && HoldsIndex(after) && after.i !in s.locks && t.locks == s.locks[after.i := p])
             || (HoldsIndex(before) && !HoldsIndex(after) && t.locks == s.locks - {before.i})
    ensures LocksMatch(t)
  {
    assert forall q | q != p :: At(t, q) == At(s, q);
  }

  /** The merging process moves; no saver holds or loses a lock. */
  lemma MergerMoves(s: State, t: State)
    requires LocksMatch(s) && t.readers == s.readers && t.locks == s.locks && t.jobs == s.jobs
    requires t.merging ==> t.readers == {}
    requires t.merging <==> t.merger != Resting
    ensures LocksMatch(t)
  {
    assert forall q :: At(t, q) == At(s, q);
  }

  lemma BeginOrEnd(s: State, p: Pid, t: State)
    requires LocksMatch(s) && (p in s.jobs ==> !HoldsIndex(At(s, p))) && p in t.jobs && !HoldsIndex(At(t, p))
    requires t.jobs == s.jobs[p := t.jobs[p]] && t.locks == s.locks && t.merging == s.merging && t.merger == s.merger
    requires t.readers == (if At(t, p) == Idle then s.readers - {p} else s.readers + {p}) &&
             (t.merging ==> t.readers == {})
    ensures LocksMatch(t)
  {
    assert forall q | q != p :: At(t, q) == At(s, q);
  }

  lemma SaverLocksStep(s: State, a: Action, p: Pid)
    requires LocksMatch(s) && Enabled(s, a) && a in {TryIndex(p), CheckAbsent(p), Create(p), Dump(p), UnlockIndex(p)}
    ensures LocksMatch(Apply(s, a))
  {
    SaverMoves(s, p, Apply(s, a));
  }

  lemma LocksStep(s: State, a: Action)
    requires LocksMatch(s) && Enabled(s, a)
    ensures LocksMatch(Apply(s, a))
  {
    match a
    case Begin(p, ver, extras) => BeginOrEnd(s, p, Apply(s, a));
    case UnlockMain(p) => BeginOrEnd(s, p, Apply(s, a));
    case TryIndex(p) => SaverLocksStep(s, a, p);
    case CheckAbsent(p) => SaverLocksStep(s, a, p);
    case Create(p) => SaverLocksStep(s, a, p);
    case Dump(p) => SaverLocksStep(s, a, p);
    case UnlockIndex(p) => SaverLocksStep(s, a, p);
    case _ => MergerMoves(s, Apply(s, a));
  }

  /** A saver that neither creates nor completes a file leaves the files as they were. */
  lemma FilesUntouched(s: State, p: Pid, t: State)
    requires LocksMatch(s) && FilesMatch(s) && p in t.jobs
    requires t.files == s.files && t.jobs == s.jobs[p := t.jobs[p]]
    requires !At(s, p).Writing? && !At(t, p).Writing? && (At(t, p).Opening? ==> At(t, p).i !in t.files)
    requires forall i | i in s.locks && s.locks[i] != p :: i in t.locks && t.locks[i] == s.locks[i]
    ensures FilesMatch(t)
  {
    assert forall q | q != p :: At(t, q) == At(s, q);
  }

  /** The file of an index belongs to the holder of its lock, so no other saver is affected. */
  lemma FileWritten(s: State, p: Pid, t: State, i: nat)
    requires LocksMatch(s) && FilesMatch(s) && p in s.jobs && HoldsIndex(At(s, p)) && At(s, p).i == i
    requires p in t.jobs && t.jobs == s.jobs[p := t.jobs[p]] && t.locks == s.locks
    requires i in t.files && t.files == s.files[i := t.files[i]]
    requires HoldsIndex(At(t, p)) && At(t, p).i == i && !At(t, p).Opening? &&
             (At(t, p).Writing? <==> t.files[i] == Partial)
    ensures FilesMatch(t)
  {
    assert forall q | q != p :: At(t, q) == At(s, q);
    assert forall q | q in s.jobs && q != p && HoldsIndex(s.jobs[q].at) :: s.jobs[q].at.i != i;
  }

  lemma QuietSaverFiles(s: State, a: Action, p: Pid)
    requires LocksMatch(s) && FilesMatch(s) && Enabled(s, a) &&
             a in {TryIndex(p), CheckAbsent(p), UnlockIndex(p), UnlockMain(p)}
    ensures FilesMatch(Apply(s, a))
  {
    FilesUntouched(s, p, Apply(s, a));
  }

  lemma WritingSaverFiles(s: State, a: Action, p: Pid)
    requires LocksMatch(s) && FilesMatch(s) && Enabled(s, a) && Safe(s, a) && a in {Create(p), Dump(p)}
    ensures FilesMatch(Apply(s, a))
  {
    FileWritten(s, p, Apply(s, a), At(s, p).i);
  }

  /** Only files that are not half-written go, and no saver is at work then. */
  lemma MergerFiles(s: State, t: State)
    requires FilesMatch(s) && t.jobs == s.jobs && t.locks == s.locks
    requires forall i | i in t.files :: i in s.files && t.files[i] == s.files[i]
    requires t.files == s.files || forall p | p in s.jobs :: s.jobs[p].at == Idle
    ensures FilesMatch(t)
  {
    assert forall q :: At(t, q) == At(s, q);
  }

  lemma DeleteFiles(s: State)
    requires LocksMatch(s) && FilesMatch(s) && Enabled(s, Delete)
    ensures FilesMatch(Apply(s, Delete))
  {
    assert forall p | p in s.jobs :: s.jobs[p].at == At(s, p) == Idle;
    MergerFiles(s, Apply(s, Delete));
  }

  lemma FilesStep(s: State, a: Action)
    requires LocksMatch(s) && FilesMatch(s) && Enabled(s, a) && Safe(s, a)
    ensures FilesMatch(Apply(s, a))
  {
    match a
    case Begin(p, ver, extras) => FilesUntouched(s, p, Apply(s, a));
    case TryIndex(p) => QuietSaverFiles(s, a, p);
    case CheckAbsent(p) => QuietSaverFiles(s, a, p);
    case Create(p) => WritingSaverFiles(s, a, p);
    case Dump(p) => WritingSaverFiles(s, a, p);
    case UnlockIndex(p) => QuietSaverFiles(s, a, p);
    case UnlockMain(p) => QuietSaverFiles(s, a, p);
    case Delete => DeleteFiles(s);
    case _ => MergerFiles(s, Apply(s, a));
  }

  lemma SaverWidths(s: State, p: Pid, t: State)
    requires WidthsMatch(s) && p in t.jobs && t.jobs == s.jobs[p := t.jobs[p]]
    requires t.version == s.version && t.width == s.width && t.data == s.data
    requires t.jobs[p].version == s.version ==> |t.jobs[p].extras| == s.width
    requires forall i | i in t.files ::
               (i in s.files && t.files[i] == s.files[i]) || t.files[i] == Partial ||
               t.files[i] == Whole(t.jobs[p].version, t.jobs[p].extras)
    ensures WidthsMatch(t)
  {
  }

  lemma MergerWidths(s: State, t: State)
    requires WidthsMatch(s) && t.jobs == s.jobs && t.version == s.version && t.width == s.width && |t.data| == |s.data|
    requires forall i | i in t.files :: i in s.files && t.files[i] == s.files[i]
    ensures WidthsMatch(t)
  {
  }

  lemma SaverWidthsStep(s: State, a: Action, p: Pid)
    requires WidthsMatch(s) && Enabled(s, a)
    requires a in {TryIndex(p), CheckAbsent(p), Create(p), Dump(p), UnlockIndex(p), UnlockMain(p)}
    ensures WidthsMatch(Apply(s, a))
  {
    SaverWidths(s, p, Apply(s, a));
  }

  lemma WidthsStep(s: State, a: Action)
    requires WidthsMatch(s) && Enabled(s, a)
    ensures WidthsMatch(Apply(s, a))
  {
    match a
    case Begin(p, ver, extras) => SaverWidths(s, p, Apply(s, a));
    case TryIndex(p) => SaverWidthsStep(s, a, p);
    case CheckAbsent(p) => SaverWidthsStep(s, a, p);
    case Create(p) => SaverWidthsStep(s, a, p);
    case Dump(p) => SaverWidthsStep(s, a, p);
    case UnlockIndex(p) => SaverWidthsStep(s, a, p);
    case UnlockMain(p) => SaverWidthsStep(s, a, p);
    case _ => MergerWidths(s, Apply(s, a));
  }

  lemma MergerStep(s: State, a: Action)
    requires LocksMatch(s) && WidthsMatch(s) && MergerMatches(s) && Enabled(s, a) && Safe(s, a)
    ensures MergerMatches(Apply(s, a))
  {
    match a
    case ReadNext => assert s.merger.todo == [s.merger.todo[0]] + s.merger.todo[1..];
    case Merge => MergeAbsorbs(s);
    case Delete => DeleteIsPending(s);
    case Begin(p, ver, extras) => assert s.merger == Resting;
    case TryIndex(p) => assert s.merger == Resting;
    case CheckAbsent(p) => assert s.merger == Resting;
    case Create(p) => assert s.merger == Resting;
    case Dump(p) => assert s.merger == Resting;
    case UnlockIndex(p) => assert s.merger == Resting;
    case UnlockMain(p) => assert s.merger == Resting;
    case StartMerge(listing) =>
    case CreateCache =>
    case DumpCache =>
    case EndMerge =>
  }

  lemma MergeAbsorbs(s: State)
    requires WidthsMatch(s) && MergerMatches(s) && Enabled(s, Merge) && Safe(s, Merge)
    ensures MergerMatches(Apply(s, Merge))
  {
    var t := Apply(s, Merge);
    forall j: nat, k: string | HoldsKey(t.files[t.merger.f], t.version, j, k) ensures (j, k) in KeysOf(t.data) {
      assert k in s.merger.source[j].Keys;
    }
  }

  lemma DeleteIsPending(s: State)
    requires MergerMatches(s) && Enabled(s, Delete)
    ensures MergerMatches(Apply(s, Delete))
  {
    PendingTail(s, s.merger.f, s.merger.todo);
  }

  lemma PendingTail(s: State, f: nat, todo: seq<nat>)
    requires Pending(s, [f] + todo)
    ensures Pending(s, todo) && f !in todo
  {
    var all := [f] + todo;
    forall i | 0 <= i < |todo| ensures todo[i] != f && todo[i] in s.files {
      assert all[0] == f && all[i + 1] == todo[i] && todo[i] in all;
    }
    forall i, j | 0 <= i < j < |todo| ensures todo[i] != todo[j] {
      assert all[i + 1] == todo[i] && all[j + 1] == todo[j];
    }
  }

  lemma InvIsSafe(s: State, a: Action)
    requires Inv(s) && Enabled(s, a)
    ensures Safe(s, a)
  {
    if s.merging {
      forall i | i in s.files ensures s.files[i] != Partial {
        assert forall p :: At(s, p) == Idle;
      }
      if a.ReadNext? {
        assert s.merger.todo[0] in s.merger.todo;
      } else if a.Delete? {
        assert s.merger.f in [s.merger.f] + s.merger.todo;
      }
    }
  }

  /** Keys in files stay where they are unless the file is replaced or deleted. */
  lemma FilesKeep(s: State, t: State)
    requires t.version == s.version
    requires forall i | i in s.files :: i in t.files && t.files[i] == s.files[i]
    ensures forall j: nat, k: string | InFiles(s, j, k) :: InFiles(t, j, k)
  {
    forall j: nat, k: string | InFiles(s, j, k) ensures InFiles(t, j, k) {
      var i :| i in s.files && HoldsKey(s.files[i], s.version, j, k);
      assert i in t.files && HoldsKey(t.files[i], t.version, j, k);
    }
  }

  /** A step that adds nothing to what is promised and takes nothing away. */
  lemma QuietStep(s: State, t: State)
    requires NothingLost(s) && t.version == s.version && t.saved == s.saved && t.data == s.data
    requires forall i | i in s.files :: i in t.files && t.files[i] == s.files[i]
    requires !t.have ==> !s.have && t.disk == s.disk
    ensures NothingLost(t)
  {
    FilesKeep(s, t);
  }

  lemma QuietSaverStep(s: State, a: Action, p: Pid)
    requires Inv(s) && Enabled(s, a) && Safe(s, a) &&
             a in {TryIndex(p), CheckAbsent(p), Create(p), UnlockIndex(p), UnlockMain(p)}
    ensures NothingLost(Apply(s, a))
  {
    QuietStep(s, Apply(s, a));
  }

  lemma LossStep(s: State, a: Action)
    requires Inv(s) && Enabled(s, a) && Safe(s, a)
    ensures NothingLost(Apply(s, a))
  {
    match a
    case Dump(p) => DumpKeeps(s, p);
    case Delete => DeleteKeeps(s);
    case Merge => MergeKeeps(s);
    case DumpCache => CacheKeeps(s);
    case TryIndex(p) => QuietSaverStep(s, a, p);
    case CheckAbsent(p) => QuietSaverStep(s, a, p);
    case Create(p) => QuietSaverStep(s, a, p);
    case UnlockIndex(p) => QuietSaverStep(s, a, p);
    case UnlockMain(p) => QuietSaverStep(s, a, p);
    case _ => QuietStep(s, Apply(s, a));
  }

  lemma CacheKeeps(s: State)
    requires Inv(s) && Enabled(s, DumpCache)
    ensures NothingLost(Apply(s, DumpCache))
  {
    var t := Apply(s, DumpCache);
    FilesKeep(s, t);
    assert forall j: nat, k: string | (j, k) in KeysOf(s.data) :: OnDisk(t, j, k);
  }

  lemma DumpKeeps(s: State, p: Pid)
    requires Inv(s) && Enabled(s, Dump(p))
    ensures NothingLost(Apply(s, Dump(p)))
  {
    var t := Apply(s, Dump(p));
    var i := At(s, p).i;
    forall j: nat, k: string | InFiles(s, j, k) ensures InFiles(t, j, k) {
      var f :| f in s.files && HoldsKey(s.files[f], s.version, j, k);
      assert f != i;
      assert f in t.files && HoldsKey(t.files[f], t.version, j, k);
    }
    if s.jobs[p].version == s.version {
      forall j: nat, k: string | (j, k) in KeysOf(s.jobs[p].extras) ensures InFiles(t, j, k) {
        assert i in t.files && HoldsKey(t.files[i], t.version, j, k);
      }
    }
  }

  lemma DeleteKeeps(s: State)
    requires Inv(s) && Enabled(s, Delete)
    ensures NothingLost(Apply(s, Delete))
  {
    var t := Apply(s, Delete);
    forall j: nat, k: string | InFiles(s, j, k) ensures InFiles(t, j, k) || (s.have && (j, k) in KeysOf(s.data)) {
      var i :| i in s.files && HoldsKey(s.files[i], s.version, j, k);
      if i != s.merger.f {
        assert i in t.files && HoldsKey(t.files[i], t.version, j, k);
      }
    }
  }

  lemma MergeKeeps(s: State)
    requires Inv(s) && Enabled(s, Merge)
    ensures NothingLost(Apply(s, Merge))
  {
    var t := Apply(s, Merge);
    FilesKeep(s, t);
    assert KeysOf(s.data) <= KeysOf(t.data);
  }

  lemma StepKeeps(s: State, a: Action)
    requires Inv(s) && Enabled(s, a)
    ensures Safe(s, a) && Inv(Apply(s, a))
  {
    InvIsSafe(s, a);
    LocksStep(s, a);
    FilesStep(s, a);
    WidthsStep(s, a);
    MergerStep(s, a);
    LossStep(s, a);
  }

  /** Every interleaving of the actions of any number of savers and one merging process. */
  ghost predicate IsRun(states: seq<State>, actions: seq<Action>) {
    && |states| == |actions| + 1 && Init(states[0])
    && forall i | 0 <= i < |actions| :: Enabled(states[i], actions[i]) && states[i + 1] == Apply(states[i], actions[i])
  }

  /** The key is on disk: in an extras file or, when no merge is under way, in the cache file. */
  ghost predicate Preserved(s: State, j: nat, k: string) {
    || InFiles(s, j, k)
    || (if s.merging then (j, k) in KeysOf(s.data) else OnDisk(s, j, k))
  }

  lemma InitIsInv(s: State)
    requires Init(s)
    ensures Inv(s)
  {
  }

  lemma {:induction false} RunKeepsInv(states: seq<State>, actions: seq<Action>, i: nat)
    requires IsRun(states, actions) && i <= |actions|
    ensures Inv(states[i])
    decreases i
  {
    if i == 0 {
      InitIsInv(states[0]);
    } else {
      RunKeepsInv(states, actions, i - 1);
      RunStep(states, actions, i - 1);
      StepKeeps(states[i - 1], actions[i - 1]);
    }
  }

  lemma InvPreserves(s: State)
    requires Inv(s)
    ensures forall j: nat, k: string | (j, k) in s.saved :: Preserved(s, j, k)
  {
  }

  /** In every run no existing file is written over and nothing half-written is read, and every key of
      every completed save is preserved. */
  lemma RunIsSafe(states: seq<State>, actions: seq<Action>)
    requires IsRun(states, actions)
    ensures forall i | 0 <= i < |actions| :: Safe(states[i], actions[i])
    ensures forall i | 0 <= i < |states| :: Inv(states[i])
    ensures forall i | 0 <= i < |states| :: forall j: nat, k: string | (j, k) in states[i].saved ::
              Preserved(states[i], j, k)
  {
    forall i | 0 <= i < |states|
      ensures Inv(states[i])
      ensures forall j: nat, k: string | (j, k) in states[i].saved :: Preserved(states[i], j, k)
    {
      RunKeepsInv(states, actions, i);
      InvPreserves(states[i]);
    }
    forall i | 0 <= i < |actions| ensures Safe(states[i], actions[i]) {
      StepKeeps(states[i], actions[i]);
    }
  }

  ghost predicate HoldsValue(data: Data, j: nat, k: string, v: string) {
    j < |data| && k in data[j] && data[j][k] == v
  }

  lemma MergeKeepsValue(source: Data, dest: Data, j: nat, k: string, v: string)
    requires |source| >= |dest| && HoldsValue(dest, j, k, v)
    ensures HoldsValue(MergeData(source, dest), j, k, v)
  {
  }

  lemma StepKeepsValue(s: State, a: Action, t: State, j: nat, k: string, v: string)
    requires Enabled(s, a) && t == Apply(s, a) && HoldsValue(s.data, j, k, v)
    ensures HoldsValue(t.data, j, k, v)
  {
    if a == Merge && |s.merger.source| >= |s.data| {
      MergeKeepsValue(s.merger.source, s.data, j, k, v);
    }
  }

  lemma RunStep(states: seq<State>, actions: seq<Action>, n: nat)
    requires IsRun(states, actions) && n < |actions|
    ensures Enabled(states[n], actions[n]) && states[n + 1] == Apply(states[n], actions[n])
  {
  }

  /** Every value of `a` is in `b`. */
  ghost predicate Grows(a: Data, b: Data) {
    forall j: nat, k: string, v: string | HoldsValue(a, j, k, v) :: HoldsValue(b, j, k, v)
  }

  lemma RunStepGrows(states: seq<State>, actions: seq<Action>, n: nat)
    requires IsRun(states, actions) && n < |actions|
    ensures Grows(states[n].data, states[n + 1].data)
  {
    RunStep(states, actions, n);
    forall j: nat, k: string, v: string | HoldsValue(states[n].data, j, k, v)
      ensures HoldsValue(states[n + 1].data, j, k, v) {
      StepKeepsValue(states[n], actions[n], states[n + 1], j, k, v);
    }
  }

  lemma {:induction false} GrowsTo(datas: seq<Data>, i: nat, n: nat)
    requires i <= n < |datas| && forall m | 0 <= m < |datas| - 1 :: Grows(datas[m], datas[m + 1])
    ensures Grows(datas[i], datas[n])
    decreases n
  {
    if i < n {
      GrowsTo(datas, i, n - 1);
      assert Grows(datas[n - 1], datas[n - 1 + 1]);
    }
  }

  /** The merging process never loses a key or changes a value that it holds. */
  lemma RunKeepsValues(states: seq<State>, actions: seq<Action>, i: nat, j: nat, k: string)
    requires IsRun(states, actions) && i <= |actions|
    requires j < |states[i].data| && k in states[i].data[j]
    ensures var last := states[|actions|];
            j < |last.data| && k in last.data[j] && last.data[j][k] == states[i].data[j][k]
  {
    var datas := seq(|states|, m requires 0 <= m < |states| => states[m].data);
    forall m | 0 <= m < |datas| - 1 ensures Grows(datas[m], datas[m + 1]) {
      RunStepGrows(states, actions, m);
    }
    GrowsTo(datas, i, |actions|);
    assert HoldsValue(datas[i], j, k, states[i].data[j][k]);
  }
}
