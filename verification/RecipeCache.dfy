/** The recipe cache of one multiconfig: class Cache in bb/cache.py.

  `cacheValid`, `cacheValidUpdate`, `remove`, `add_info` and `loadCached` work on the table loaded from
  the files; `sync` writes the table and deletes it.
 */
module RecipeCache {
  import opened Wrappers
  import opened Sequences
  import opened Dicts
  import opened RecipeInfo
  import opened SiggenStream
  import opened CacheFiles
  import opened TornFiles
  import opened VirtualName

  /** Modification times, 0 for a file that is not there, and the paths that exist. */
  datatype FileSystem = FileSystem(mtimes: map<string, int>, existing: set<string>)

  function Mtime(fs: FileSystem, f: string): int {
    if f in fs.mtimes then fs.mtimes[f] else 0
  }

  /** The answer of a validity test, or the exception of a row that does not start with core data. */
  datatype Answer = Valid(b: bool) | Raised

  // Restored tables as plain values

  function ViewDict(d: Dict<Key, Option<Obj>>): (r: Dict<Key, Option<Value>>)
    ensures |r| == |d|
    ensures forall i | 0 <= i < |d| ::
              r[i].0 == d[i].0 && r[i].1 == (if d[i].1.None? then None else Some(d[i].1.value.value))
  {
    if d == [] then [] else
      [(d[0].0, if d[0].1.None? then None else Some(d[0].1.value.value))] + ViewDict(d[1..])
  }

  function ViewTable(t: Restored): Table {
    if t.None? then None else Some(ViewDict(t.value))
  }

  function ViewInfo(info: Info<Restored>): (r: Info<Table>)
    ensures ClassOf(r) == ClassOf(info)
  {
    match info
    case CoreInfo(core) => CoreInfo(core)
    case ExtraInfo(cls, data) => ExtraInfo(cls, data)
    case SiggenInfo(a, b, c) => SiggenInfo(ViewTable(a), ViewTable(b), ViewTable(c))
  }

  function ViewRow(infos: seq<Info<Restored>>): (r: seq<Info<Table>>)
    ensures |r| == |infos| && forall i | 0 <= i < |r| :: r[i] == ViewInfo(infos[i])
  {
    if infos == [] then [] else [ViewInfo(infos[0])] + ViewRow(infos[1..])
  }

  function ViewRows(rows: Rows<Restored>): (r: Rows<Table>)
    ensures |r| == |rows| && forall i | 0 <= i < |r| :: r[i] == (rows[i].0, ViewRow(rows[i].1))
  {
    if rows == [] then [] else [(rows[0].0, ViewRow(rows[0].1))] + ViewRows(rows[1..])
  }

  lemma ShownInfo(got: Info<Restored>, info: Info<Table>, store: map<Value, Obj>)
    requires InfoShows(got, info, store)
    ensures ViewInfo(got) == info
  {
    if info.SiggenInfo? {
      ShownTable(got.gendeps, info.gendeps, store);
      ShownTable(got.taskdeps, info.taskdeps, store);
      ShownTable(got.varvals, info.varvals, store);
    }
  }

  lemma ShownTable(got: Restored, t: Table, store: map<Value, Obj>)
    requires TableShows(got, t, store)
    ensures ViewTable(got) == t
  {
    if t.Some? {
      var v := ViewDict(got.value);
      forall i | 0 <= i < |v| ensures v[i] == t.value[i] {
        assert v[i].0 == t.value[i].0 && v[i].1 == t.value[i].1;
      }
      assert v == t.value;
    }
  }

  lemma ShownRow(got: seq<Info<Restored>>, row: seq<Info<Table>>, store: map<Value, Obj>)
    requires |got| == |row| && forall m | 0 <= m < |row| :: InfoShows(got[m], row[m], store)
    ensures ViewRow(got) == row
  {
    forall m | 0 <= m < |row| ensures ViewRow(got)[m] == row[m] {
      ShownInfo(got[m], row[m], store);
    }
  }

  lemma ShownRows(got: Rows<Restored>, rows: Rows<Table>, store: map<Value, Obj>)
    requires |got| == |rows|
    requires forall n | 0 <= n < |rows| ::
               && got[n].0 == rows[n].0
               && |got[n].1| == |rows[n].1|
               && forall m | 0 <= m < |rows[n].1| :: InfoShows(got[n].1[m], rows[n].1[m], store)
    ensures ViewRows(got) == rows
  {
    forall n | 0 <= n < |rows| ensures ViewRows(got)[n] == rows[n] {
      ShownRow(got[n].1, rows[n].1, store);
      assert rows[n] == (rows[n].0, rows[n].1);
    }
  }

  /** Saving the table and loading it into an empty cache is the identity. */
  lemma SyncThenLoadIsIdentity(cache: Rows<Table>, classes: seq<string>, bitbake: string, pid: Pid, r: Receiver,
                               got: seq<CacheFile<Received>>)
    requires FullRows(cache, classes) && NoRepeats(classes) && classes != []
    requires Coherent(r.store)
    requires FilesArriveAs(SaveFiles(RESET, cache, classes, bitbake, pid).1, got)
    ensures ViewRows(LoadFiles(EmptyLoad(r), got, bitbake).cache) == cache
  {
    SyncThenLoad(cache, classes, bitbake, pid, r, got);
    var l := LoadFiles(EmptyLoad(r), got, bitbake);
    ShownRows(l.cache, cache, l.r.store);
  }

  lemma {:induction false} ViewGet(rows: Rows<Restored>, k: string)
    ensures Has(ViewRows(rows), k) <==> Has(rows, k)
    ensures Has(rows, k) ==> Get(ViewRows(rows), k) == ViewRow(Get(rows, k))
  {
    if rows != [] {
      ViewGet(rows[1..], k);
      assert ViewRows(rows)[1..] == ViewRows(rows[1..]);
    }
  }

  lemma ViewShaped(rows: Rows<Restored>, classes: seq<string>)
    ensures Shaped(ViewRows(rows), classes) <==> Shaped(rows, classes)
  {
    forall k ensures Has(ViewRows(rows), k) <==> Has(rows, k)
             ensures Has(rows, k) ==> (RowOk(Get(ViewRows(rows), k), classes) <==> RowOk(Get(rows, k), classes)) {
      ViewGet(rows, k);
      if Has(rows, k) {
        ViewRowOk(Get(rows, k), classes);
      }
    }
  }

  lemma ViewRowOk(row: seq<Info<Restored>>, classes: seq<string>)
    ensures RowOk(ViewRow(row), classes) <==> RowOk(row, classes)
  {
    assert ClassesOf(ViewRow(row)) == ClassesOf(row);
  }

  /** The cache that a load leaves has its shape exactly when the first file has the recipes of all. */
  lemma LoadIsShaped(r: Receiver, files: seq<CacheFile<Received>>, classes: seq<string>, bitbake: string)
    ensures NoRepeats(classes) && files != [] && |files| == |classes| && FilesOf(files, classes) ==>
              (Shaped(ViewRows(LoadFiles(EmptyLoad(r), files, bitbake).cache), classes) <==>
               FirstHasAll(r, files, bitbake))
  {
    if NoRepeats(classes) && files != [] && |files| == |classes| && FilesOf(files, classes) {
      ShapedIffFirstHasAll(r, files, classes, bitbake);
      assert classes[..|files|] == classes;
      ViewShaped(LoadFiles(EmptyLoad(r), files, bitbake).cache, classes);
    }
  }

  // What the validity test decides

  predicate ChecksumPasses(fs: FileSystem, e: (string, string)) {
    !(e.1 == "True" && e.0 !in fs.existing) && !(e.1 == "False" && e.0 in fs.existing)
  }

  /** Nothing that the recipe was parsed from has changed. */
  predicate UpToDate(core: Core, fn: string, appends: seq<string>, fs: FileSystem) {
    && Mtime(fs, fn) == core.timestamp
    && (forall i | 0 <= i < |core.fileDepends| :: Mtime(fs, core.fileDepends[i].0) == core.fileDepends[i].1)
    && (core.fileChecksums.Some? ==>
          forall i | 0 <= i < |core.fileChecksums.value| :: ChecksumPasses(fs, core.fileChecksums.value[i]))
    && appends == core.appends
  }

  function VariantNames(fn: string, variants: seq<string>): set<string> {
    set i | 0 <= i < |variants| :: Variant2Virtual(fn, variants[i])
  }

  /** Every variant has its row, with one object per class. */
  predicate Complete(cache: Rows<Table>, fn: string, variants: seq<string>, n: nat) {
    forall i | 0 <= i < |variants| ::
      Has(cache, Variant2Virtual(fn, variants[i])) && |Get(cache, Variant2Virtual(fn, variants[i]))| == n
  }

  predicate StartsWithCore(row: seq<Info<Table>>) {
    row != [] && row[0].CoreInfo?
  }

  function Judge(cache: Rows<Table>, n: nat, fn: string, appends: seq<string>, fs: FileSystem): Answer {
    if !Has(cache, fn) || Mtime(fs, fn) == 0 then
      Valid(false)
    else if !StartsWithCore(Get(cache, fn)) then
      Raised
    else
      var core := Get(cache, fn)[0].core;
      Valid(UpToDate(core, fn, appends, fs) && Complete(cache, fn, core.variants, n))
  }

  /** A row is dropped when its file is gone or something it was parsed from has changed. */
  predicate Drops(cache: Rows<Table>, fn: string, appends: seq<string>, fs: FileSystem) {
    && Has(cache, fn)
    && (Mtime(fs, fn) == 0 ||
        (StartsWithCore(Get(cache, fn)) && !UpToDate(Get(cache, fn)[0].core, fn, appends, fs)))
  }

  function CleanAfter(cache: Rows<Table>, clean: set<string>, n: nat, fn: string, appends: seq<string>,
                      fs: FileSystem): set<string> {
    if !Has(cache, fn) then
      clean
    else if Drops(cache, fn, appends, fs) then
      clean - {fn}
    else if !StartsWithCore(Get(cache, fn)) then
      clean
    else
      var names := VariantNames(fn, Get(cache, fn)[0].core.variants) + {fn};
      if Judge(cache, n, fn, appends, fs) == Valid(true) then clean + names else clean - names
  }

  /** What `loadCached` returns, or `None` for a KeyError. */
  ghost predicate IsLoaded(cache: Rows<Table>, fn: string, r: Option<seq<(string, seq<Info<Table>>)>>) {
    if Has(cache, fn) && StartsWithCore(Get(cache, fn)) &&
       forall i | 0 <= i < |Get(cache, fn)[0].core.variants| ::
         Has(cache, Variant2Virtual(fn, Get(cache, fn)[0].core.variants[i]))
    then
      var variants := Get(cache, fn)[0].core.variants;
      && r.Some? && |r.value| == |variants|
      && forall i | 0 <= i < |variants| ::
           r.value[i] == (Variant2Virtual(fn, variants[i]), Get(cache, Variant2Virtual(fn, variants[i])))
    else
      r == None
  }

  /** A positive answer is all that loading needs: each variant is there, with exactly one object per
      class in the order of the classes. */
  lemma ValidIsLoadable(cache: Rows<Table>, classes: seq<string>, fn: string, appends: seq<string>, fs: FileSystem,
                        r: Option<seq<(string, seq<Info<Table>>)>>)
    requires Shaped(cache, classes) && IsLoaded(cache, fn, r)
    requires Judge(cache, |classes|, fn, appends, fs) == Valid(true)
    ensures r.Some? && forall i | 0 <= i < |r.value| :: ClassesOf(r.value[i].1) == classes
    ensures var variants := Get(cache, fn)[0].core.variants;
            |r.value| == |variants| && forall i | 0 <= i < |variants| ::
              r.value[i].0 == Variant2Virtual(fn, variants[i])
  {
    forall i | 0 <= i < |r.value| ensures ClassesOf(r.value[i].1) == classes {
      assert RowOk(Get(cache, r.value[i].0), classes);
      InOrderLength(ClassesOf(r.value[i].1), classes);
    }
  }

  /** After a load, testing a recipe raises exactly when its file exists and its row was begun by a later class file:
      the first one does not have the recipe, or not in what could be read of it. */
  lemma RaisesIffFirstLost(r: Receiver, files: seq<CacheFile<Received>>, classes: seq<string>, bitbake: string, n: nat,
                           fn: string, appends: seq<string>, fs: FileSystem)
    requires NoRepeats(classes) && files != [] && FilesOf(files, classes) && classes[0] == "CoreRecipeInfo"
    ensures Judge(ViewRows(LoadFiles(EmptyLoad(r), files, bitbake).cache), n, fn, appends, fs) == Raised <==>
            Mtime(fs, fn) != 0 && FirstLost(r, files, bitbake, fn)
  {
    var rows := LoadFiles(EmptyLoad(r), files, bitbake).cache;
    RowStart(r, files, classes, bitbake, fn);
    ViewGet(rows, fn);
    if Has(rows, fn) {
      var n :| 0 <= n < |files| && fn in KeysAt(r, files, bitbake, n);
      var j := FirstOf(r, files, bitbake, fn, n);
      assert ClassOf(ViewRow(Get(rows, fn))[0]) == classes[j];
      assert classes[j] == classes[0] <==> j == 0;
    }
  }

  /** After a load of files that a save wrote and that were cut anywhere, the test raises exactly for the recipes whose
      record the first file has lost and a later file, that the load comes to, still has. */
  lemma RaisesIffCutShorter(cache: Rows<Table>, r: Receiver, classes: seq<string>, bitbake: string, pid: Pid,
                            got: seq<CacheFile<Received>>, count: nat, fn: string, appends: seq<string>, fs: FileSystem)
    requires FullRows(cache, classes) && NoRepeats(classes) && Coherent(r.store)
    requires classes != [] && classes[0] == "CoreRecipeInfo"
    requires CutFiles(SaveFiles(RESET, cache, classes, bitbake, pid).1, got)
    ensures Judge(ViewRows(LoadFiles(EmptyLoad(r), got, bitbake).cache), count, fn, appends, fs) == Raised <==>
            && Mtime(fs, fn) != 0
            && exists n :: 0 <= n < |cache| && cache[n].0 == fn && OnlyLater(got, n)
  {
    forall j | 0 <= j < |got| ensures FileOf(got[j], classes[j]) {
      CutFileNames(cache, classes, bitbake, pid, got, j);
    }
    LostIffOnlyLater(cache, classes, bitbake, pid, r, got, fn);
    RaisesIffFirstLost(r, got, classes, bitbake, count, fn, appends, fs);
  }

  function ContainsAt(s: string, sub: string, i: nat): bool
    requires i <= |s|
    decreases |s| - i
  {
    sub <= s[i..] || (i < |s| && ContainsAt(s, sub, i + 1))
  }

  /** Whether `add_info` keeps the row: revisions that change on their own and recipes marked so are not. */
  predicate Cacheable(core: Core) {
    (core.skipped || !ContainsAt(core.pv, "SRCREVINACTION", 0)) && !core.nocache
  }

  lemma KeysAfterRemove(cache: Rows<Table>, clean: set<string>, fn: string)
    requires clean <= Keys(cache)
    ensures clean - {fn} <= Keys(Remove(cache, fn))
  {
    RemoveIsGone(cache, fn);
  }

  lemma RemoveKeepsShape(cache: Rows<Table>, classes: seq<string>, fn: string)
    requires Shaped(cache, classes)
    ensures Shaped(Remove(cache, fn), classes)
  {
    RemoveIsGone(cache, fn);
    forall k | Has(Remove(cache, fn), k) ensures RowOk(Get(Remove(cache, fn), k), classes) {
      assert k in Keys(cache) && Has(cache, k);
    }
  }

  class Cache {
    const mc: Option<string>
    const classes: seq<string>
    const bitbake: string
    var dependsCache: Rows<Table>
    var clean: set<string>
    var checked: set<string>
    var cacheclean: bool
    var added: seq<(string, seq<Info<Table>>)>
    var synced: bool

    /** What every sequence of calls before `sync` keeps. */
    ghost predicate Consistent()
      reads this
    {
      !synced && clean <= Keys(dependsCache)
    }

    constructor (mc: Option<string>, classes: seq<string>, bitbake: string)
      ensures this.mc == mc && this.classes == classes && this.bitbake == bitbake
      ensures Consistent() && dependsCache == [] && clean == {} && checked == {} && cacheclean && added == []
    {
      this.mc, this.classes, this.bitbake := mc, classes, bitbake;
      dependsCache, clean, checked := [], {}, {};
      cacheclean, added, synced := true, [], false;
    }

    /** Reads one object, whose tables go through the codec; `None` stands for the exception. */
    static method ReadInfo(codec: Codec, info: Info<Received>, pid: Pid) returns (r: Option<Info<Restored>>)
      modifies codec
      ensures (codec.AsReceiver(), r) == RestoreInfo(old(codec.AsReceiver()), info, pid)
    {
      match info
      case CoreInfo(core) => r := Some(CoreInfo(core));
      case ExtraInfo(cls, data) => r := Some(ExtraInfo(cls, data));
      case SiggenInfo(gendeps, taskdeps, varvals) =>
        var a := codec.Restore(gendeps, pid);
        if a.None? { return None; }
        var b := codec.Restore(taskdeps, pid);
        if b.None? { return None; }
        var c := codec.Restore(varvals, pid);
        if c.None? { return None; }
        r := Some(SiggenInfo(a.value, b.value, c.value));
    }

    static method ReadRecords(codec: Codec, records: seq<Record<Received>>, start: Rows<Restored>)
      returns (cache: Rows<Restored>)
      modifies codec
      ensures var l := LoadRecords(Loading(old(codec.AsReceiver()), start, false, false), records);
              codec.AsReceiver() == l.r && cache == l.cache && !l.aborted
    {
      cache := start;
      ghost var l0 := Loading(codec.AsReceiver(), start, false, false);
      for k := 0 to |records|
        invariant LoadRecords(l0, records[..k]) == Loading(codec.AsReceiver(), cache, false, false)
      {
        assert records[..k + 1][..k] == records[..k];
        var info := ReadInfo(codec, records[k].info, records[k].pid);
        if info.None? {
          StoppedStays(l0, records, k + 1);
          return;
        }
        if Has(cache, records[k].key) {
          cache := Put(cache, records[k].key, Get(cache, records[k].key) + [info.value]);
        } else {
          cache := Put(cache, records[k].key, [] + [info.value]);
        }
      }
      assert records[..|records|] == records;
    }

    /** Loads the files of the classes in turn; a bad header ends the load with 0. */
    method LoadCachefile(files: seq<CacheFile<Received>>, codec: Codec) returns (loaded: nat)
      requires dependsCache == [] && Consistent()
      modifies this`dependsCache, codec
      ensures var l := LoadFiles(EmptyLoad(old(codec.AsReceiver())), files, bitbake);
              && dependsCache == ViewRows(l.cache)
              && loaded == (if l.aborted then 0 else |dependsCache|)
      ensures NoRepeats(classes) && files != [] && |files| == |classes| &&
              FilesOf(files, classes) ==>
                (Shaped(dependsCache, classes) <==> FirstHasAll(old(codec.AsReceiver()), files, bitbake))
      ensures Consistent()
    {
      LoadIsShaped(codec.AsReceiver(), files, classes, bitbake);
      var cache: Rows<Restored> := [];
      ghost var l0 := EmptyLoad(codec.AsReceiver());
      for k := 0 to |files|
        invariant LoadFiles(l0, files[..k], bitbake).(stopped := false) ==
                  Loading(codec.AsReceiver(), cache, false, false)
      {
        assert files[..k + 1][..k] == files[..k];
        if files[k].Unreadable? || files[k].cacheVersion != CACHE_VERSION || files[k].bitbakeVersion != bitbake {
          AbortedStays(l0, files, bitbake, k + 1);
          dependsCache := ViewRows(cache);
          return 0;
        }
        cache := ReadRecords(codec, files[k].records, cache);
      }
      assert files[..|files|] == files;
      dependsCache := ViewRows(cache);
      loaded := |dependsCache|;
    }

    method Remove(fn: string)
      requires Consistent()
      modifies this`dependsCache, this`clean
      ensures dependsCache == Dicts.Remove(old(dependsCache), fn) && clean == old(clean) - {fn}
      ensures Consistent()
    {
      KeysAfterRemove(dependsCache, clean, fn);
      if Has(dependsCache, fn) {
        dependsCache := Dicts.Remove(dependsCache, fn);
      } else {
        RemoveMissing(dependsCache, fn);
      }
      if fn in clean {
        clean := clean - {fn};
      }
    }

    /** Compares everything that the recipe was parsed from with the file system. */
    method Unchanged(core: Core, fn: string, appends: seq<string>, fs: FileSystem) returns (b: bool)
      ensures b <==> UpToDate(core, fn, appends, fs)
    {
      if Mtime(fs, fn) != core.timestamp {
        return false;
      }
      for k := 0 to |core.fileDepends|
        invariant forall i | 0 <= i < k :: Mtime(fs, core.fileDepends[i].0) == core.fileDepends[i].1
      {
        var (f, oldMtime) := core.fileDepends[k];
        var fmtime := Mtime(fs, f);
        if oldMtime != 0 && fmtime == 0 {
          return false;
        }
        if fmtime != oldMtime {
          return false;
        }
      }
      if core.fileChecksums.Some? {
        var list := core.fileChecksums.value;
        for k := 0 to |list|
          invariant forall i | 0 <= i < k :: ChecksumPasses(fs, list[i])
        {
          var (f, exist) := list[k];
          if (exist == "True" && f !in fs.existing) || (exist == "False" && f in fs.existing) {
            return false;
          }
        }
      }
      b := appends == core.appends;
    }

    method CacheValidUpdate(fn: string, appends: seq<string>, fs: FileSystem) returns (a: Answer)
      requires Consistent()
      modifies this`checked, this`dependsCache, this`clean
      ensures checked == old(checked) + {fn}
      ensures a == Judge(old(dependsCache), |classes|, fn, appends, fs)
      ensures dependsCache == if Drops(old(dependsCache), fn, appends, fs) then Dicts.Remove(old(dependsCache), fn)
                              else old(dependsCache)
      ensures clean == CleanAfter(old(dependsCache), old(clean), |classes|, fn, appends, fs)
      ensures Consistent()
    {
      checked := checked + {fn};
      if !Has(dependsCache, fn) {
        return Valid(false);
      }
      if Mtime(fs, fn) == 0 {
        Remove(fn);
        return Valid(false);
      }
      var row := Get(dependsCache, fn);
      if row == [] || !row[0].CoreInfo? {
        return Raised;
      }
      var core := row[0].core;
      var same := Unchanged(core, fn, appends, fs);
      if !same {
        Remove(fn);
        return Valid(false);
      }
      var invalid := MarkVariants(fn, core.variants);
      if invalid {
        UnmarkVariants(fn, core.variants);
        if fn in clean {
          clean := clean - {fn};
        }
        assert clean == old(clean) - (VariantNames(fn, core.variants) + {fn});
        return Valid(false);
      }
      clean := clean + {fn};
      VariantsAreKeys(dependsCache, fn, core.variants, |classes|);
      a := Valid(true);
    }

    method MarkVariants(fn: string, variants: seq<string>) returns (invalid: bool)
      modifies this`clean
      ensures clean == old(clean) + VariantNames(fn, variants)
      ensures invalid <==> !Complete(dependsCache, fn, variants, |classes|)
    {
      invalid := false;
      for k := 0 to |variants|
        invariant clean == old(clean) + VariantNames(fn, variants[..k])
        invariant invalid <==> !Complete(dependsCache, fn, variants[..k], |classes|)
      {
        var virtualfn := Variant2Virtual(fn, variants[k]);
        assert variants[..k + 1] == variants[..k] + [variants[k]];
        NamesStep(fn, variants[..k], variants[k]);
        CompleteStep(dependsCache, fn, variants[..k], variants[k], |classes|);
        clean := clean + {virtualfn};
        if !Has(dependsCache, virtualfn) {
          invalid := true;
        } else if |Get(dependsCache, virtualfn)| != |classes| {
          invalid := true;
        }
      }
      assert variants[..|variants|] == variants;
    }

    method UnmarkVariants(fn: string, variants: seq<string>)
      modifies this`clean
      ensures clean == old(clean) - VariantNames(fn, variants)
    {
      for k := 0 to |variants|
        invariant clean == old(clean) - VariantNames(fn, variants[..k])
      {
        var virtualfn := Variant2Virtual(fn, variants[k]);
        assert variants[..k + 1] == variants[..k] + [variants[k]];
        NamesStep(fn, variants[..k], variants[k]);
        if virtualfn in clean {
          clean := clean - {virtualfn};
        }
      }
      assert variants[..|variants|] == variants;
    }

    /** Tests a recipe the first time it is asked for. */
    method CacheValid(fn: string, appends: seq<string>, fs: FileSystem) returns (a: Answer)
      requires Consistent()
      modifies this`checked, this`dependsCache, this`clean
      ensures checked == old(checked) + {fn} && Consistent()
      ensures fn in old(checked) ==> dependsCache == old(dependsCache) && clean == old(clean) && a == Valid(fn in clean)
      ensures fn !in old(checked) ==>
                && dependsCache == (if Drops(old(dependsCache), fn, appends, fs)
                                    then Dicts.Remove(old(dependsCache), fn) else old(dependsCache))
                && clean == CleanAfter(old(dependsCache), old(clean), |classes|, fn, appends, fs)
                && (a.Raised? <==> Judge(old(dependsCache), |classes|, fn, appends, fs).Raised?)
                && (a.Valid? ==> a.b == (fn in clean))
    {
      if fn !in checked {
        var judged := CacheValidUpdate(fn, appends, fs);
        if judged.Raised? {
          return Raised;
        }
      }
      a := Valid(fn in clean);
    }

    method LoadCached(fn: string) returns (r: Option<seq<(string, seq<Info<Table>>)>>)
      ensures IsLoaded(dependsCache, fn, r)
    {
      if !Has(dependsCache, fn) || Get(dependsCache, fn) == [] || !Get(dependsCache, fn)[0].CoreInfo? {
        return None;
      }
      var variants := Get(dependsCache, fn)[0].core.variants;
      var infos: seq<(string, seq<Info<Table>>)> := [];
      for k := 0 to |variants|
        invariant |infos| == k
        invariant forall i | 0 <= i < k :: Has(dependsCache, Variant2Virtual(fn, variants[i]))
        invariant forall i | 0 <= i < k ::
                    infos[i] == (Variant2Virtual(fn, variants[i]), Get(dependsCache, Variant2Virtual(fn, variants[i])))
      {
        var virtualfn := Variant2Virtual(fn, variants[k]);
        if !Has(dependsCache, virtualfn) {
          return None;
        }
        infos := infos + [(virtualfn, Get(dependsCache, virtualfn))];
      }
      r := Some(infos);
    }

    /** The promise of the validity test: what it accepts can be loaded at once, complete. */
    method UpdateAndLoad(fn: string, appends: seq<string>, fs: FileSystem)
      returns (a: Answer, r: Option<seq<(string, seq<Info<Table>>)>>)
      requires Consistent() && Shaped(dependsCache, classes)
      modifies this`checked, this`dependsCache, this`clean
      ensures Consistent() && Shaped(dependsCache, classes)
      ensures a == Valid(true) ==>
                && fn in clean && dependsCache == old(dependsCache) && r.Some?
                && (forall i | 0 <= i < |r.value| :: ClassesOf(r.value[i].1) == classes && r.value[i].0 in clean)
    {
      RemoveKeepsShape(dependsCache, classes, fn);
      a := CacheValidUpdate(fn, appends, fs);
      r := LoadCached(fn);
      if a == Valid(true) {
        ValidIsLoadable(dependsCache, classes, fn, appends, fs, r);
      }
    }

    method AddInfo(filename: string, infoArray: seq<Info<Table>>, parsed: bool)
      requires Consistent() && StartsWithCore(infoArray)
      modifies this
      ensures Consistent() && clean == old(clean) && checked == old(checked)
      ensures var core := infoArray[0].core;
              var refused := mc.Some? && VirtualFn2RealFn(filename).mc != "";
              && dependsCache == (if !refused && Cacheable(core) then Put(old(dependsCache), filename, infoArray)
                                  else old(dependsCache))
              && cacheclean == (old(cacheclean) && (refused || !Cacheable(core) || !parsed))
              && added == (if refused || core.skipped then old(added)
                           else old(added) + [(GlobalName(mc, filename), infoArray)])
      ensures old(Shaped(dependsCache, classes)) && ClassesOf(infoArray) == classes ==> Shaped(dependsCache, classes)
    {
      var vfn := filename;
      if mc.Some? {
        var RealName(fn, cls, mcOfName) := VirtualFn2RealFn(filename);
        if mcOfName != "" {
          return;
        }
        vfn := RealFn2Virtual(fn, cls, mc.value);
      }
      var core := infoArray[0].core;
      if !core.skipped {
        added := added + [(vfn, infoArray)];
      }
      if (core.skipped || !ContainsAt(core.pv, "SRCREVINACTION", 0)) && !core.nocache {
        if parsed {
          cacheclean := false;
        }
        PutKeepsShape(dependsCache, classes, filename, infoArray);
        PutGet(dependsCache, filename, infoArray);
        dependsCache := Put(dependsCache, filename, infoArray);
      }
    }

    /** Writes the objects of one recipe that belong in the file of a class. */
    static method WriteCells(codec: Codec, key: string, infos: seq<Info<Table>>, cls: string, pid: Pid)
      returns (records: seq<Record<Saved>>)
      modifies codec
      ensures (codec.Sender(), records) == SaveCells(old(codec.Sender()), key, infos, cls, pid)
    {
      records := [];
      for k := 0 to |infos|
        invariant (codec.Sender(), records) == SaveCells(old(codec.Sender()), key, infos[..k], cls, pid)
      {
        assert infos[..k + 1][..k] == infos[..k];
        if ClassOf(infos[k]) == cls {
          var saved := WriteInfo(codec, infos[k]);
          records := records + [Record(key, saved, pid)];
        }
      }
      assert infos[..|infos|] == infos;
    }

    static method WriteInfo(codec: Codec, info: Info<Table>) returns (saved: Info<Saved>)
      modifies codec
      ensures (codec.Sender(), saved) == SaveInfo(old(codec.Sender()), info)
    {
      match info
      case CoreInfo(core) => saved := CoreInfo(core);
      case ExtraInfo(cls, data) => saved := ExtraInfo(cls, data);
      case SiggenInfo(gendeps, taskdeps, varvals) =>
        var a := codec.Save(gendeps);
        var b := codec.Save(taskdeps);
        var c := codec.Save(varvals);
        saved := SiggenInfo(a, b, c);
    }

    static method WriteFile(codec: Codec, cache: Rows<Table>, cls: string, pid: Pid)
      returns (records: seq<Record<Saved>>)
      modifies codec
      ensures (codec.Sender(), records) == SaveFile(old(codec.Sender()), cache, cls, pid)
    {
      records := [];
      for k := 0 to |cache|
        invariant (codec.Sender(), records) == SaveFile(old(codec.Sender()), cache[..k], cls, pid)
      {
        assert cache[..k + 1][..k] == cache[..k];
        var more := WriteCells(codec, cache[k].0, cache[k].1, cls, pid);
        records := records + more;
      }
      assert cache[..|cache|] == cache;
    }

    /** Writes one file per class unless nothing was parsed; the table is deleted and the codec reset. */
    method Sync(codec: Codec, pid: Pid) returns (files: Option<seq<CacheFile<Saved>>>)
      requires Consistent()
      modifies this`dependsCache, this`clean, this`synced, codec
      ensures cacheclean ==>
              files == None && !synced && dependsCache == old(dependsCache) && codec.Sender() == old(codec.Sender())
      ensures !cacheclean ==>
                && files == Some(SaveFiles(old(codec.Sender()), old(dependsCache), classes, bitbake, pid).1)
                && synced && codec.Sender() == RESET && codec.AsReceiver().tables == map[]
    {
      if cacheclean {
        return None;
      }
      var written: seq<CacheFile<Saved>> := [];
      for k := 0 to |classes|
        invariant dependsCache == old(dependsCache)
        invariant (codec.Sender(), written) == SaveFiles(old(codec.Sender()), dependsCache, classes[..k], bitbake, pid)
      {
        assert classes[..k + 1][..k] == classes[..k];
        var records := WriteFile(codec, dependsCache, classes[k], pid);
        written := written + [File(CACHE_VERSION, bitbake, records)];
      }
      assert classes[..|classes|] == classes;
      dependsCache, synced := [], true;
      codec.Reset();
      files := Some(written);
    }
  }

  /** The name under which the recipe is known outside its multiconfig. */
  function GlobalName(mc: Option<string>, filename: string): string {
    if mc.None? then filename else
      var n := VirtualFn2RealFn(filename);
      RealFn2Virtual(n.fn, n.cls, mc.value)
  }

  lemma {:induction false} RemoveMissing<V>(d: Dict<string, V>, k: string)
    requires !Has(d, k)
    ensures Dicts.Remove(d, k) == d
  {
    if d != [] {
      RemoveMissing(d[1..], k);
    }
  }

  lemma {:induction false} StoppedStays(l: Loading, records: seq<Record<Received>>, k: nat)
    requires k <= |records| && LoadRecords(l, records[..k]).stopped
    ensures LoadRecords(l, records) == LoadRecords(l, records[..k])
  {
    if k == |records| {
      assert records[..k] == records;
    } else {
      var init := records[..|records| - 1];
      assert init[..k] == records[..k];
      StoppedStays(l, init, k);
    }
  }

  lemma {:induction false} AbortedStays(l: Loading, files: seq<CacheFile<Received>>, bitbake: string, k: nat)
    requires k <= |files| && LoadFiles(l, files[..k], bitbake).aborted
    ensures LoadFiles(l, files, bitbake) == LoadFiles(l, files[..k], bitbake)
  {
    if k == |files| {
      assert files[..k] == files;
    } else {
      var init := files[..|files| - 1];
      assert init[..k] == files[..k];
      AbortedStays(l, init, bitbake, k);
    }
  }

  lemma NamesStep(fn: string, variants: seq<string>, v: string)
    ensures VariantNames(fn, variants + [v]) == VariantNames(fn, variants) + {Variant2Virtual(fn, v)}
  {
    var all := variants + [v];
    forall name | name in VariantNames(fn, variants) + {Variant2Virtual(fn, v)} ensures name in VariantNames(fn, all) {
      if name == Variant2Virtual(fn, v) {
        assert all[|variants|] == v;
      } else {
        var i :| 0 <= i < |variants| && name == Variant2Virtual(fn, variants[i]);
        assert all[i] == variants[i];
      }
    }
  }

  lemma CompleteStep(cache: Rows<Table>, fn: string, variants: seq<string>, v: string, n: nat)
    ensures Complete(cache, fn, variants + [v], n) <==>
            Complete(cache, fn, variants, n) && Has(cache, Variant2Virtual(fn, v)) &&
            |Get(cache, Variant2Virtual(fn, v))| == n
  {
    var all := variants + [v];
    assert all[|variants|] == v;
    assert forall i | 0 <= i < |variants| :: all[i] == variants[i];
  }

  lemma VariantsAreKeys(cache: Rows<Table>, fn: string, variants: seq<string>, n: nat)
    requires Complete(cache, fn, variants, n)
    ensures VariantNames(fn, variants) <= Keys(cache)
  {
  }

  lemma PutKeepsShape(cache: Rows<Table>, classes: seq<string>, key: string, row: seq<Info<Table>>)
    ensures Shaped(cache, classes) && ClassesOf(row) == classes && classes != [] ==>
            Shaped(Put(cache, key, row), classes)
  {
    PutGet(cache, key, row);
    if Shaped(cache, classes) && ClassesOf(row) == classes && classes != [] {
      InOrderAll(classes);
      forall k | Has(Put(cache, key, row), k) ensures RowOk(Get(Put(cache, key, row), k), classes) {
        if k != key {
          assert k in Keys(cache) && Has(cache, k);
        }
      }
    }
  }

  lemma {:induction false} InOrderAll(classes: seq<string>)
    ensures InOrder(classes, classes)
  {
    if classes != [] {
      InOrderAll(classes[..|classes| - 1]);
    }
  }
}
