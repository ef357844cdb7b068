/** What the answers of the validity test of bb/cache.py mean for the files that a recipe was parsed from, and what a
    recipe that is added becomes. */
module Validity {
  import opened Wrappers
  import opened Sequences
  import opened Dicts
  import opened RecipeInfo
  import opened SiggenStream
  import opened CacheFiles
  import opened VirtualName
  import opened RecipeCache

  /** The file has this time; a file that is not there has the time 0. */
  predicate TimeIs(fs: FileSystem, f: string, t: int) {
    if t == 0 then f !in fs.mtimes || fs.mtimes[f] == 0 else f in fs.mtimes && fs.mtimes[f] == t
  }

  /** Between the two moments the time of the file has not changed. */
  ghost predicate SameTime(fs: FileSystem, later: FileSystem, f: string) {
    exists t :: TimeIs(fs, f, t) && TimeIs(later, f, t)
  }

  /** A file of a checksum list is there, or is not there, as the list says. */
  predicate FlagHolds(fs: FileSystem, f: string, flag: string) {
    (flag == "True" ==> f in fs.existing) && (flag == "False" ==> f !in fs.existing)
  }

  ghost predicate FlagsHold(core: Core, fs: FileSystem) {
    core.fileChecksums.Some? ==>
      forall i | 0 <= i < |core.fileChecksums.value| ::
        FlagHolds(fs, core.fileChecksums.value[i].0, core.fileChecksums.value[i].1)
  }

  /** Everything is as it was recorded when the recipe was parsed. */
  ghost predicate AsRecorded(core: Core, fn: string, appends: seq<string>, fs: FileSystem) {
    && TimeIs(fs, fn, core.timestamp)
    && (forall i | 0 <= i < |core.fileDepends| :: TimeIs(fs, core.fileDepends[i].0, core.fileDepends[i].1))
    && FlagsHold(core, fs)
    && appends == core.appends
  }

  /** Every variant of the recipe has a row with `n` objects. */
  ghost predicate RowsComplete(cache: Rows<Table>, fn: string, core: Core, n: nat) {
    forall i | 0 <= i < |core.variants| ::
      && Has(cache, Variant2Virtual(fn, core.variants[i]))
      && |Get(cache, Variant2Virtual(fn, core.variants[i]))| == n
  }

  /** The row of a recipe, of which the first object holds the core information. */
  ghost predicate HasCore(cache: Rows<Table>, fn: string, core: Core) {
    Has(cache, fn) && Get(cache, fn) != [] && Get(cache, fn)[0] == CoreInfo(core)
  }

  lemma TimeIsMtime(fs: FileSystem, f: string, t: int)
    ensures TimeIs(fs, f, t) <==> Mtime(fs, f) == t
  {
  }

  lemma UpToDateIffRecorded(core: Core, fn: string, appends: seq<string>, fs: FileSystem)
    ensures UpToDate(core, fn, appends, fs) <==> AsRecorded(core, fn, appends, fs)
  {
    TimeIsMtime(fs, fn, core.timestamp);
    forall i | 0 <= i < |core.fileDepends|
      ensures TimeIs(fs, core.fileDepends[i].0, core.fileDepends[i].1) <==>
              Mtime(fs, core.fileDepends[i].0) == core.fileDepends[i].1
    {
      TimeIsMtime(fs, core.fileDepends[i].0, core.fileDepends[i].1);
    }
    if core.fileChecksums.Some? {
      assert forall i | 0 <= i < |core.fileChecksums.value| ::
          FlagHolds(fs, core.fileChecksums.value[i].0, core.fileChecksums.value[i].1) <==>
          ChecksumPasses(fs, core.fileChecksums.value[i]);
    }
  }

  /** A recipe that is in the cache is accepted exactly when its file is there, everything is as recorded and all its
      rows are complete; and the row is dropped exactly when its file is gone or something is not as recorded. */
  lemma ValidIff(cache: Rows<Table>, n: nat, fn: string, appends: seq<string>, fs: FileSystem, core: Core)
    requires HasCore(cache, fn, core)
    ensures Judge(cache, n, fn, appends, fs) == Valid(true) <==>
            && !TimeIs(fs, fn, 0) && AsRecorded(core, fn, appends, fs) && RowsComplete(cache, fn, core, n)
    ensures Judge(cache, n, fn, appends, fs).Valid?
    ensures Drops(cache, fn, appends, fs) <==> TimeIs(fs, fn, 0) || !AsRecorded(core, fn, appends, fs)
  {
    TimeIsMtime(fs, fn, 0);
    UpToDateIffRecorded(core, fn, appends, fs);
  }

  lemma SameTimeIff(fs: FileSystem, later: FileSystem, f: string, t: int)
    requires TimeIs(fs, f, t)
    ensures SameTime(fs, later, f) <==> TimeIs(later, f, t)
  {
    if t' :| TimeIs(fs, f, t') && TimeIs(later, f, t') {
      TimeIsMtime(fs, f, t);
      TimeIsMtime(fs, f, t');
    }
  }

  /** Nothing that the recipe was parsed from has changed between the two moments, nor have its append files; and the
      files of its checksum lists still are where the lists say. */
  ghost predicate NothingChanged(core: Core, fn: string, appends: seq<string>, fs: FileSystem,
                                 appends': seq<string>, later: FileSystem) {
    && SameTime(fs, later, fn)
    && (forall i | 0 <= i < |core.fileDepends| :: SameTime(fs, later, core.fileDepends[i].0))
    && FlagsHold(core, later)
    && appends' == appends
  }

  lemma RecordedLater(core: Core, fn: string, appends: seq<string>, fs: FileSystem,
                      appends': seq<string>, later: FileSystem)
    requires AsRecorded(core, fn, appends, fs)
    ensures AsRecorded(core, fn, appends', later) <==> NothingChanged(core, fn, appends, fs, appends', later)
  {
    SameTimeIff(fs, later, fn, core.timestamp);
    forall i | 0 <= i < |core.fileDepends|
      ensures SameTime(fs, later, core.fileDepends[i].0) <==>
              TimeIs(later, core.fileDepends[i].0, core.fileDepends[i].1)
    {
      SameTimeIff(fs, later, core.fileDepends[i].0, core.fileDepends[i].1);
    }
  }

  /** A recipe that was accepted is accepted later exactly when nothing has changed, and otherwise it is dropped: every
      change of the recipe, of a dependency, of a listed file or of the append files is noticed, and nothing else. */
  lemma ChangeIsNoticed(cache: Rows<Table>, n: nat, fn: string, appends: seq<string>, fs: FileSystem, core: Core,
                        appends': seq<string>, later: FileSystem)
    requires HasCore(cache, fn, core) && Judge(cache, n, fn, appends, fs) == Valid(true)
    ensures if NothingChanged(core, fn, appends, fs, appends', later) then
              Judge(cache, n, fn, appends', later) == Valid(true) && !Drops(cache, fn, appends', later)
            else
              Judge(cache, n, fn, appends', later) == Valid(false) && Drops(cache, fn, appends', later)
  {
    ValidIff(cache, n, fn, appends, fs, core);
    ValidIff(cache, n, fn, appends', later, core);
    RecordedLater(core, fn, appends, fs, appends', later);
    if NothingChanged(core, fn, appends, fs, appends', later) {
      SameTimeIff(fs, later, fn, core.timestamp);
      TimeIsMtime(later, fn, 0);
      TimeIsMtime(later, fn, core.timestamp);
      TimeIsMtime(fs, fn, core.timestamp);
      TimeIsMtime(fs, fn, 0);
    }
  }

  /** After a test the recipe is marked as clean exactly when the answer was positive.  The names of its variants are so
      then as well, and none of them is when the recipe is up to date but not complete; all other marks stay. */
  lemma CleanIffValid(cache: Rows<Table>, clean: set<string>, n: nat, fn: string, appends: seq<string>, fs: FileSystem,
                      core: Core, name: string)
    requires HasCore(cache, fn, core)
    ensures var valid := Judge(cache, n, fn, appends, fs) == Valid(true);
            var after := CleanAfter(cache, clean, n, fn, appends, fs);
            && (fn in after <==> valid)
            && (name in VariantNames(fn, core.variants) && !Drops(cache, fn, appends, fs) ==>
                (name in after <==> valid))
            && (name != fn && (name !in VariantNames(fn, core.variants) || Drops(cache, fn, appends, fs)) ==>
                  (name in after <==> name in clean))
  {
    ValidIff(cache, n, fn, appends, fs, core);
  }

  // Adding recipes

  /** `sub` starts at position `k`. */
  predicate StartsAt(s: string, sub: string, k: nat) {
    k + |sub| <= |s| && s[k..k + |sub|] == sub
  }

  lemma {:induction false} ContainsIff(s: string, sub: string, i: nat)
    requires i <= |s|
    ensures ContainsAt(s, sub, i) <==> exists k :: i <= k && StartsAt(s, sub, k)
    decreases |s| - i
  {
    assert sub <= s[i..] <==> StartsAt(s, sub, i);
    if i < |s| {
      ContainsIff(s, sub, i + 1);
    }
  }

  /** Which recipes are kept: not those marked so, nor those with a revision that changes on its own, unless they are
      skipped. */
  lemma KeptIff(core: Core)
    ensures Cacheable(core) <==>
            !core.nocache && (core.skipped || forall k :: 0 <= k ==> !StartsAt(core.pv, "SRCREVINACTION", k))
  {
    ContainsIff(core.pv, "SRCREVINACTION", 0);
  }

  /** Outside its multiconfig a recipe is known by its file and class with the multiconfig in front. */
  lemma GlobalNameOf(fn: string, cls: string, mc: string)
    requires Printable(RealName(fn, cls, ""))
    ensures GlobalName(Some(mc), RealFn2Virtual(fn, cls, "")) == RealFn2Virtual(fn, cls, mc)
    ensures GlobalName(None, fn) == fn
  {
    RealFnRoundTrip(RealName(fn, cls, ""));
  }

  /** What the program is for: a recipe that was parsed and may be kept is in the files that the next `sync` writes,
      and a later load finds the whole table as it was with that recipe. */
  method AddThenSync(cache: Cache, codec: Codec, filename: string, infoArray: seq<Info<Table>>, pid: Pid)
    returns (files: Option<seq<CacheFile<Saved>>>)
    requires cache.Consistent() && StartsWithCore(infoArray)
    requires cache.mc.Some? ==> VirtualFn2RealFn(filename).mc == ""
    requires Cacheable(infoArray[0].core) && codec.Sender() == RESET
    requires FullRows(Put(cache.dependsCache, filename, infoArray), cache.classes)
    requires NoRepeats(cache.classes) && cache.classes != []
    modifies cache, codec
    ensures files.Some?
    ensures forall r: Receiver, got | Coherent(r.store) && FilesArriveAs(files.value, got) ::
              ViewRows(LoadFiles(EmptyLoad(r), got, cache.bitbake).cache) ==
              Put(old(cache.dependsCache), filename, infoArray)
  {
    cache.AddInfo(filename, infoArray, true);
    ghost var rows := cache.dependsCache;
    files := cache.Sync(codec, pid);
    forall r: Receiver, got | Coherent(r.store) && FilesArriveAs(files.value, got)
      ensures ViewRows(LoadFiles(EmptyLoad(r), got, cache.bitbake).cache) == rows
    {
      SyncThenLoadIsIdentity(rows, cache.classes, cache.bitbake, pid, r, got);
    }
  }
}
