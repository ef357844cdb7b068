/** Loads of cache files that were cut short: which of them leave a cache that the validity test can read. */
module TornFiles {
  import opened Sequences
  import opened Dicts
  import opened RecipeInfo
  import opened SiggenStream
  import opened CacheFiles

  /** `cs` lists some of the classes, in their order. */
  ghost predicate InOrder(cs: seq<string>, classes: seq<string>) {
    if cs == [] then true
    else if classes == [] then false
    else if cs[|cs| - 1] == classes[|classes| - 1] then InOrder(cs[..|cs| - 1], classes[..|classes| - 1])
    else InOrder(cs, classes[..|classes| - 1])
  }

  lemma {:induction false} InOrderLength(cs: seq<string>, classes: seq<string>)
    requires InOrder(cs, classes)
    ensures |cs| <= |classes| && (|cs| == |classes| ==> cs == classes)
  {
    if cs != [] {
      if cs[|cs| - 1] == classes[|classes| - 1] {
        InOrderLength(cs[..|cs| - 1], classes[..|classes| - 1]);
      } else {
        InOrderLength(cs, classes[..|classes| - 1]);
      }
    }
  }

  lemma {:induction false} InOrderWider(cs: seq<string>, classes: seq<string>, c: string)
    requires InOrder(cs, classes) && c !in classes
    ensures InOrder(cs, classes + [c])
    ensures c !in cs
  {
    if cs != [] {
      var w := classes + [c];
      assert w[..|w| - 1] == classes;
      InOrderElements(cs, classes);
      assert cs[|cs| - 1] in cs;
    }
  }

  lemma {:induction false} InOrderElements(cs: seq<string>, classes: seq<string>)
    requires InOrder(cs, classes)
    ensures forall c | c in cs :: c in classes
  {
    if cs != [] {
      assert cs == cs[..|cs| - 1] + [cs[|cs| - 1]];
      assert classes == classes[..|classes| - 1] + [classes[|classes| - 1]];
      if cs[|cs| - 1] == classes[|classes| - 1] {
        InOrderElements(cs[..|cs| - 1], classes[..|classes| - 1]);
      } else {
        InOrderElements(cs, classes[..|classes| - 1]);
      }
    }
  }

  /** A row starts with the first class and lists some of the classes in order. */
  ghost predicate RowOk<T>(row: seq<Info<T>>, classes: seq<string>) {
    && row != [] && classes != []
    && ClassOf(row[0]) == classes[0]
    && InOrder(ClassesOf(row), classes)
  }

  ghost predicate Shaped<T>(cache: Rows<T>, classes: seq<string>) {
    forall k | Has(cache, k) :: RowOk(Get(cache, k), classes)
  }

  /** Of the last class, only the recipes in `done` may have their object yet. */
  ghost predicate PartShaped<T>(cache: Rows<T>, classes: seq<string>, done: set<string>)
    requires classes != []
  {
    forall k | Has(cache, k) ::
      RowOk(Get(cache, k), classes) && (k in done || InOrder(ClassesOf(Get(cache, k)), classes[..|classes| - 1]))
  }

  /** The file of a class: its records are of that class and name each recipe once. */
  ghost predicate FileOf(file: CacheFile<Received>, cls: string) {
    file.File? ==>
      && (forall i | 0 <= i < |file.records| :: ClassOf(file.records[i].info) == cls)
      && (forall i, j | 0 <= i < j < |file.records| :: file.records[i].key != file.records[j].key)
  }

  function RecordKeys(records: seq<Record<Received>>): set<string> {
    set n | 0 <= n < |records| :: records[n].key
  }

  lemma AppendInOrder<T>(infos: seq<Info<T>>, info: Info<T>, classes: seq<string>)
    requires classes != [] && ClassOf(info) == classes[|classes| - 1]
    requires InOrder(ClassesOf(infos), classes[..|classes| - 1])
    ensures InOrder(ClassesOf(infos + [info]), classes)
  {
    var cs := ClassesOf(infos + [info]);
    assert cs[..|cs| - 1] == ClassesOf(infos);
  }

  /** In the file of the first class every recipe is new; a later file only adds to known recipes. */
  lemma AppendKeepsShape<T>(cache: Rows<T>, classes: seq<string>, done: set<string>, key: string, info: Info<T>)
    requires classes != [] && PartShaped(cache, classes, done) && key !in done
    requires ClassOf(info) == classes[|classes| - 1] && (|classes| > 1 ==> Has(cache, key))
    ensures PartShaped(AppendCell(cache, key, info), classes, done + {key})
    ensures Keys(AppendCell(cache, key, info)) == Keys(cache) + {key}
  {
    var cell := if Has(cache, key) then Get(cache, key) else [];
    PutGet(cache, key, cell + [info]);
    var after := AppendCell(cache, key, info);
    forall k | Has(after, k)
      ensures RowOk(Get(after, k), classes)
      ensures k in done + {key} || InOrder(ClassesOf(Get(after, k)), classes[..|classes| - 1])
    {
      if k != key {
        assert Has(cache, k) && Get(after, k) == Get(cache, k);
      } else {
        AppendedRow(cell, info, classes);
      }
    }
  }

  lemma AppendedRow<T>(cell: seq<Info<T>>, info: Info<T>, classes: seq<string>)
    requires classes != [] && ClassOf(info) == classes[|classes| - 1]
    requires if cell == [] then |classes| == 1
             else RowOk(cell, classes) && InOrder(ClassesOf(cell), classes[..|classes| - 1])
    ensures RowOk(cell + [info], classes)
  {
    AppendInOrder(cell, info, classes);
  }

  lemma RestoredClass(r: Receiver, info: Info<Received>, pid: Pid)
    ensures var out := RestoreInfo(r, info, pid).1; out.Some? ==> ClassOf(out.value) == ClassOf(info)
  {
  }

  // What a load reads

  predicate Restores(l: Loading, rec: Record<Received>) {
    !l.stopped && RestoreInfo(l.r, rec.info, rec.pid).1.Some?
  }

  /** The recipes named before the first record that cannot be restored. */
  function KeysRead(l: Loading, records: seq<Record<Received>>): set<string> {
    if records == [] then {} else
      var n := |records| - 1;
      KeysRead(l, records[..n]) + if Restores(LoadRecords(l, records[..n]), records[n]) then {records[n].key} else {}
  }

  predicate Readable(file: CacheFile<Received>, bitbake: string) {
    file.File? && file.cacheVersion == CACHE_VERSION && file.bitbakeVersion == bitbake
  }

  function KeysOfFile(l: Loading, file: CacheFile<Received>, bitbake: string): set<string> {
    if l.aborted || !Readable(file, bitbake) then {} else KeysRead(l.(stopped := false), file.records)
  }

  /** The recipes that file `j` contributes to. */
  function KeysAt(r: Receiver, files: seq<CacheFile<Received>>, bitbake: string, j: nat): set<string>
    requires j < |files|
  {
    KeysOfFile(LoadFiles(EmptyLoad(r), files[..j], bitbake), files[j], bitbake)
  }

  lemma {:induction false} KeysReadAreNamed(l: Loading, records: seq<Record<Received>>)
    ensures KeysRead(l, records) <= RecordKeys(records)
  {
    if records != [] {
      var n := |records| - 1;
      KeysReadAreNamed(l, records[..n]);
      NamedStep(records);
    }
  }

  lemma NamedStep(records: seq<Record<Received>>)
    requires records != []
    ensures RecordKeys(records) == RecordKeys(records[..|records| - 1]) + {records[|records| - 1].key}
  {
    var n := |records| - 1;
    forall k | k in RecordKeys(records[..n]) ensures k in RecordKeys(records) {
      var i :| 0 <= i < n && records[..n][i].key == k;
      assert records[i].key == k;
    }
    forall i | 0 <= i < n ensures records[i].key in RecordKeys(records[..n]) {
      assert records[..n][i].key == records[i].key;
    }
  }

  /** What one record adds. */
  lemma RecordStep(l: Loading, records: seq<Record<Received>>)
    requires records != []
    ensures var n := |records| - 1;
            var before, after, rec := LoadRecords(l, records[..n]), LoadRecords(l, records), records[n];
            && after.aborted == before.aborted
            && (if Restores(before, rec) then
                  var info := RestoreInfo(before.r, rec.info, rec.pid).1.value;
                  after.cache == AppendCell(before.cache, rec.key, info) && ClassOf(info) == ClassOf(rec.info)
                else after.cache == before.cache)
  {
    var before, rec := LoadRecords(l, records[..|records| - 1]), records[|records| - 1];
    RestoredClass(before.r, rec.info, rec.pid);
  }

  /** A record that cannot be restored ends its file: what comes behind it is not read, and what came before it stays;
      the load goes on with the next file. */
  lemma {:induction false} FailedRecordEndsFile(l: Loading, records: seq<Record<Received>>, k: nat)
    requires k < |records| && !LoadRecords(l, records[..k]).stopped
    requires RestoreInfo(LoadRecords(l, records[..k]).r, records[k].info, records[k].pid).1.None?
    ensures LoadRecords(l, records).cache == LoadRecords(l, records[..k]).cache
    ensures LoadRecords(l, records).aborted == l.aborted
    ensures KeysRead(l, records) == KeysRead(l, records[..k])
    decreases |records|
  {
    var n := |records| - 1;
    StillRunning(l, records);
    if k < n {
      assert records[..n][..k] == records[..k] && records[..n][k] == records[k];
      FailedRecordEndsFile(l, records[..n], k);
      StoppedAfter(l, records[..n], k);
    }
  }

  lemma {:induction false} StoppedAfter(l: Loading, records: seq<Record<Received>>, k: nat)
    requires k < |records| && !LoadRecords(l, records[..k]).stopped
    requires RestoreInfo(LoadRecords(l, records[..k]).r, records[k].info, records[k].pid).1.None?
    ensures LoadRecords(l, records).stopped
    decreases |records|
  {
    var n := |records| - 1;
    if k < n {
      assert records[..n][..k] == records[..k] && records[..n][k] == records[k];
      StoppedAfter(l, records[..n], k);
    }
  }

  // Shape

  lemma {:induction false} RecordsKeepShape(l: Loading, classes: seq<string>, records: seq<Record<Received>>)
    requires classes != [] && FileOf(File("", "", records), classes[|classes| - 1])
    requires PartShaped(l.cache, classes, {})
    requires |classes| > 1 ==> KeysRead(l, records) <= Keys(l.cache)
    ensures var after := LoadRecords(l, records);
            && PartShaped(after.cache, classes, RecordKeys(records))
            && Keys(after.cache) == Keys(l.cache) + KeysRead(l, records)
  {
    if records != [] {
      var n := |records| - 1;
      var first, rec := records[..n], records[n];
      assert forall i | 0 <= i < n :: first[i] == records[i];
      NamedStep(records);
      RecordsKeepShape(l, classes, first);
      RecordStep(l, records);
      var before := LoadRecords(l, first);
      if Restores(before, rec) {
        AppendKeepsShape(before.cache, classes, RecordKeys(first), rec.key,
                         RestoreInfo(before.r, rec.info, rec.pid).1.value);
      }
    }
  }

  lemma ShapedWider<T>(cache: Rows<T>, classes: seq<string>, c: string)
    requires Shaped(cache, classes) && c !in classes
    ensures PartShaped(cache, classes + [c], {})
  {
    assert (classes + [c])[..|classes|] == classes;
    forall k | Has(cache, k) ensures RowOk(Get(cache, k), classes + [c]) {
      InOrderWider(ClassesOf(Get(cache, k)), classes, c);
    }
  }

  /** Each file belongs to its class. */
  ghost predicate FilesOf(files: seq<CacheFile<Received>>, classes: seq<string>) {
    |files| <= |classes| && forall j | 0 <= j < |files| :: FileOf(files[j], classes[j])
  }

  /** No later file contributes to a recipe that the first one does not have. */
  ghost predicate FirstHasAll(r: Receiver, files: seq<CacheFile<Received>>, bitbake: string) {
    forall j | 1 <= j < |files| :: KeysAt(r, files, bitbake, j) <= KeysAt(r, files, bitbake, 0)
  }

  /** A later file contributes to a recipe that the first one does not contribute to. */
  ghost predicate FirstLost(r: Receiver, files: seq<CacheFile<Received>>, bitbake: string, k: string)
    requires files != []
  {
    k !in KeysAt(r, files, bitbake, 0) && exists j :: 1 <= j < |files| && k in KeysAt(r, files, bitbake, j)
  }

  lemma FirstHasAllPrefix(r: Receiver, files: seq<CacheFile<Received>>, bitbake: string)
    requires |files| > 1 && FirstHasAll(r, files, bitbake)
    ensures FirstHasAll(r, files[..|files| - 1], bitbake)
    ensures KeysAt(r, files[..|files| - 1], bitbake, 0) == KeysAt(r, files, bitbake, 0)
  {
    var first := files[..|files| - 1];
    forall j | 0 <= j < |first| ensures KeysAt(r, first, bitbake, j) == KeysAt(r, files, bitbake, j) {
      assert first[..j] == files[..j];
    }
  }

  lemma FileKeepsShape(l: Loading, classes: seq<string>, file: CacheFile<Received>, bitbake: string)
    requires classes != [] && FileOf(file, classes[|classes| - 1]) && PartShaped(l.cache, classes, {})
    requires |classes| > 1 ==> KeysOfFile(l, file, bitbake) <= Keys(l.cache)
    ensures Shaped(LoadFile(l, file, bitbake).cache, classes)
    ensures Keys(LoadFile(l, file, bitbake).cache) == Keys(l.cache) + KeysOfFile(l, file, bitbake)
  {
    if !l.aborted && Readable(file, bitbake) {
      RecordsKeepShape(l.(stopped := false), classes, file.records);
    }
  }

  /** However short the files are, or wherever the load gives up: when the first file has the recipes of all, every row
      starts with the first class and follows the order of the classes. */
  lemma {:induction false} LoadKeepsShape(r: Receiver, files: seq<CacheFile<Received>>, classes: seq<string>,
                                          bitbake: string)
    requires NoRepeats(classes) && files != [] && FilesOf(files, classes) && FirstHasAll(r, files, bitbake)
    ensures Shaped(LoadFiles(EmptyLoad(r), files, bitbake).cache, classes[..|files|])
    ensures Keys(LoadFiles(EmptyLoad(r), files, bitbake).cache) == KeysAt(r, files, bitbake, 0)
    decreases |files|
  {
    var k := |files| - 1;
    var first := files[..k];
    var l := LoadFiles(EmptyLoad(r), first, bitbake);
    assert classes[..k + 1] == classes[..k] + [classes[k]];
    if k > 0 {
      FirstHasAllPrefix(r, files, bitbake);
      assert forall j | 0 <= j < k :: first[j] == files[j];
      LoadKeepsShape(r, first, classes, bitbake);
      ShapedWider(l.cache, classes[..k], classes[k]);
    }
    assert KeysAt(r, files, bitbake, k) == KeysOfFile(l, files[k], bitbake);
    FileKeepsShape(l, classes[..k + 1], files[k], bitbake);
  }

  // Where a row starts

  /** The file that a row was begun by: the first one that contributes to its recipe. */
  ghost predicate BegunBy(r: Receiver, files: seq<CacheFile<Received>>, bitbake: string, k: string, j: nat) {
    j < |files| && k in KeysAt(r, files, bitbake, j) && forall i | 0 <= i < j :: k !in KeysAt(r, files, bitbake, i)
  }

  ghost predicate NoEmptyRow(cache: Rows<Restored>) {
    forall k | Has(cache, k) :: Get(cache, k) != []
  }

  /** Rows that were there keep their first object; new ones start with one that a record of `records` names. */
  ghost predicate RowsGrow(cache: Rows<Restored>, after: Rows<Restored>, cls: string) {
    NoEmptyRow(cache) && NoEmptyRow(after) && Keys(cache) <= Keys(after) &&
    forall k | Has(after, k) ::
      if Has(cache, k) then Get(after, k)[0] == Get(cache, k)[0] else ClassOf(Get(after, k)[0]) == cls
  }

  lemma AppendGrows(cache: Rows<Restored>, after: Rows<Restored>, cls: string, key: string, info: Info<Restored>)
    requires RowsGrow(cache, after, cls) && ClassOf(info) == cls
    ensures RowsGrow(cache, AppendCell(after, key, info), cls)
    ensures Keys(AppendCell(after, key, info)) == Keys(after) + {key}
  {
    var cell := if Has(after, key) then Get(after, key) else [];
    PutGet(after, key, cell + [info]);
    var next := AppendCell(after, key, info);
    forall k | Has(next, k)
      ensures Get(next, k) != []
      ensures if Has(cache, k) then Get(next, k)[0] == Get(cache, k)[0] else ClassOf(Get(next, k)[0]) == cls
    {
      if k != key {
        assert Has(after, k);
      }
    }
  }

  lemma {:induction false} RecordsGrow(l: Loading, records: seq<Record<Received>>, cls: string)
    requires NoEmptyRow(l.cache) && forall i | 0 <= i < |records| :: ClassOf(records[i].info) == cls
    ensures RowsGrow(l.cache, LoadRecords(l, records).cache, cls)
    ensures Keys(LoadRecords(l, records).cache) == Keys(l.cache) + KeysRead(l, records)
  {
    if records != [] {
      var n := |records| - 1;
      var first, rec := records[..n], records[n];
      RecordsGrow(l, first, cls);
      RecordStep(l, records);
      var before := LoadRecords(l, first);
      if Restores(before, rec) {
        AppendGrows(l.cache, before.cache, cls, rec.key, RestoreInfo(before.r, rec.info, rec.pid).1.value);
      }
    }
  }

  lemma FileGrows(l: Loading, file: CacheFile<Received>, bitbake: string, cls: string)
    requires NoEmptyRow(l.cache) && FileOf(file, cls)
    ensures RowsGrow(l.cache, LoadFile(l, file, bitbake).cache, cls)
    ensures Keys(LoadFile(l, file, bitbake).cache) == Keys(l.cache) + KeysOfFile(l, file, bitbake)
  {
    if !l.aborted && Readable(file, bitbake) {
      RecordsGrow(l.(stopped := false), file.records, cls);
    }
  }

  /** The load file by file, and the recipes that each file contributes to. */
  ghost predicate LoadTrace(trace: seq<Loading>, keys: seq<set<string>>, files: seq<CacheFile<Received>>,
                            bitbake: string) {
    && |trace| == |files| + 1 && |keys| == |files|
    && forall j | 0 <= j < |files| ::
         trace[j + 1] == LoadFile(trace[j], files[j], bitbake) && keys[j] == KeysOfFile(trace[j], files[j], bitbake)
  }

  lemma OneMoreFile(r: Receiver, files: seq<CacheFile<Received>>, bitbake: string, n: nat)
    requires n < |files|
    ensures LoadFiles(EmptyLoad(r), files[..n + 1], bitbake) ==
            LoadFile(LoadFiles(EmptyLoad(r), files[..n], bitbake), files[n], bitbake)
  {
    assert files[..n + 1][..n] == files[..n];
  }

  lemma TraceOfLoad(r: Receiver, files: seq<CacheFile<Received>>, bitbake: string)
    returns (trace: seq<Loading>, keys: seq<set<string>>)
    ensures LoadTrace(trace, keys, files, bitbake) && trace[0] == EmptyLoad(r)
    ensures trace[|files|] == LoadFiles(EmptyLoad(r), files, bitbake)
    ensures forall j | 0 <= j < |files| :: keys[j] == KeysAt(r, files, bitbake, j)
  {
    trace := seq(|files| + 1, j requires 0 <= j <= |files| => LoadFiles(EmptyLoad(r), files[..j], bitbake));
    keys := seq(|files|, j requires 0 <= j < |files| => KeysAt(r, files, bitbake, j));
    forall j | 0 <= j < |files| ensures trace[j + 1] == LoadFile(trace[j], files[j], bitbake) {
      OneMoreFile(r, files, bitbake, j);
    }
    assert files[..|files|] == files && files[..0] == [];
  }

  /** The first of the sets that has `k` is number `j`. */
  ghost predicate FirstIn(keys: seq<set<string>>, k: string, j: nat) {
    j < |keys| && k in keys[j] && forall i | 0 <= i < j :: k !in keys[i]
  }

  /** Which of the first `n` files make a row for `k`, and what it starts with. */
  ghost predicate StartsRow(cache: Rows<Restored>, keys: seq<set<string>>, classes: seq<string>, k: string, n: nat)
    requires n <= |keys| <= |classes|
  {
    && NoEmptyRow(cache)
    && (Has(cache, k) <==> exists j :: 0 <= j < n && k in keys[j])
    && forall j | 0 <= j < n && FirstIn(keys, k, j) :: Has(cache, k) && ClassOf(Get(cache, k)[0]) == classes[j]
  }

  lemma StartsRowStep(cache: Rows<Restored>, after: Rows<Restored>, keys: seq<set<string>>, classes: seq<string>,
                      k: string, n: nat)
    requires n < |keys| <= |classes| && StartsRow(cache, keys, classes, k, n)
    requires RowsGrow(cache, after, classes[n]) && Keys(after) == Keys(cache) + keys[n]
    ensures StartsRow(after, keys, classes, k, n + 1)
  {
    assert Has(after, k) <==> Has(cache, k) || k in keys[n];
  }

  lemma {:induction false} TraceStarts(trace: seq<Loading>, keys: seq<set<string>>, files: seq<CacheFile<Received>>,
                                       classes: seq<string>, bitbake: string, k: string, n: nat)
    requires LoadTrace(trace, keys, files, bitbake) && trace[0].cache == [] && FilesOf(files, classes) && n <= |files|
    ensures StartsRow(trace[n].cache, keys, classes, k, n)
    decreases n
  {
    if n > 0 {
      TraceStarts(trace, keys, files, classes, bitbake, k, n - 1);
      FileGrows(trace[n - 1], files[n - 1], bitbake, classes[n - 1]);
      StartsRowStep(trace[n - 1].cache, trace[n].cache, keys, classes, k, n - 1);
    }
  }

  /** A row was begun by some file, and starts with an object of the class of that file. */
  lemma RowStart(r: Receiver, files: seq<CacheFile<Received>>, classes: seq<string>, bitbake: string, k: string)
    requires FilesOf(files, classes)
    ensures var cache := LoadFiles(EmptyLoad(r), files, bitbake).cache;
            && NoEmptyRow(cache)
            && (Has(cache, k) <==> exists j :: 0 <= j < |files| && k in KeysAt(r, files, bitbake, j))
            && forall j | 0 <= j < |files| && BegunBy(r, files, bitbake, k, j) ::
                 Has(cache, k) && ClassOf(Get(cache, k)[0]) == classes[j]
  {
    var trace, keys := TraceOfLoad(r, files, bitbake);
    TraceStarts(trace, keys, files, classes, bitbake, k, |files|);
    forall j | 0 <= j < |files| ensures BegunBy(r, files, bitbake, k, j) <==> FirstIn(keys, k, j) {
      assert keys[j] == KeysAt(r, files, bitbake, j);
    }
  }

  lemma FirstOf(r: Receiver, files: seq<CacheFile<Received>>, bitbake: string, k: string, n: nat) returns (j: nat)
    requires n < |files| && k in KeysAt(r, files, bitbake, n)
    ensures j <= n && BegunBy(r, files, bitbake, k, j)
  {
    j := 0;
    while k !in KeysAt(r, files, bitbake, j)
      invariant j <= n && forall i | 0 <= i < j :: k !in KeysAt(r, files, bitbake, i)
      decreases n - j
    {
      j := j + 1;
    }
  }

  /** What a load leaves has its shape exactly when the first file has the recipes of all. */
  lemma ShapedIffFirstHasAll(r: Receiver, files: seq<CacheFile<Received>>, classes: seq<string>, bitbake: string)
    requires NoRepeats(classes) && files != [] && FilesOf(files, classes)
    ensures Shaped(LoadFiles(EmptyLoad(r), files, bitbake).cache, classes[..|files|]) <==>
            FirstHasAll(r, files, bitbake)
  {
    if FirstHasAll(r, files, bitbake) {
      LoadKeepsShape(r, files, classes, bitbake);
    } else {
      var n :| 1 <= n < |files| && !(KeysAt(r, files, bitbake, n) <= KeysAt(r, files, bitbake, 0));
      var k :| k in KeysAt(r, files, bitbake, n) && k !in KeysAt(r, files, bitbake, 0);
      var j := FirstOf(r, files, bitbake, k, n);
      RowStart(r, files, classes, bitbake, k);
      assert classes[j] != classes[0];
    }
  }

  // Files whose records all restore

  /** No record of any file fails to restore. */
  ghost predicate AllRestore(r: Receiver, files: seq<CacheFile<Received>>, bitbake: string) {
    forall j | 0 <= j <= |files| :: !LoadFiles(EmptyLoad(r), files[..j], bitbake).stopped
  }

  function NamesOf(file: CacheFile<Received>): set<string> {
    if file.File? then RecordKeys(file.records) else {}
  }

  lemma {:induction false} KeysReadAreAll(l: Loading, records: seq<Record<Received>>)
    requires !LoadRecords(l, records).stopped
    ensures KeysRead(l, records) == RecordKeys(records)
  {
    if records != [] {
      KeysReadAreAll(l, records[..|records| - 1]);
      NamedStep(records);
    }
  }

  lemma {:induction false} NotAborted(r: Receiver, files: seq<CacheFile<Received>>, bitbake: string)
    requires forall j | 0 <= j < |files| :: Readable(files[j], bitbake)
    ensures !LoadFiles(EmptyLoad(r), files, bitbake).aborted
  {
    if files != [] {
      NotAborted(r, files[..|files| - 1], bitbake);
      StillRunning(LoadFiles(EmptyLoad(r), files[..|files| - 1], bitbake).(stopped := false),
                   files[|files| - 1].records);
    }
  }

  lemma {:induction false} StillRunning(l: Loading, records: seq<Record<Received>>)
    ensures LoadRecords(l, records).aborted == l.aborted
  {
    if records != [] {
      StillRunning(l, records[..|records| - 1]);
    }
  }

  /** For readable files whose records all restore, the condition is on the names in the files. */
  lemma ShapedIffNamesAgree(r: Receiver, files: seq<CacheFile<Received>>, classes: seq<string>, bitbake: string)
    requires NoRepeats(classes) && files != [] && FilesOf(files, classes)
    requires (forall j | 0 <= j < |files| :: Readable(files[j], bitbake)) && AllRestore(r, files, bitbake)
    ensures Shaped(LoadFiles(EmptyLoad(r), files, bitbake).cache, classes[..|files|]) <==>
            forall j | 1 <= j < |files| :: NamesOf(files[j]) <= NamesOf(files[0])
  {
    forall j | 0 <= j < |files| ensures KeysAt(r, files, bitbake, j) == NamesOf(files[j]) {
      AllNamesRead(r, files, bitbake, j);
    }
    ShapedIffFirstHasAll(r, files, classes, bitbake);
  }

  lemma AllNamesRead(r: Receiver, files: seq<CacheFile<Received>>, bitbake: string, j: nat)
    requires j < |files| && (forall i | 0 <= i < |files| :: Readable(files[i], bitbake)) &&
             AllRestore(r, files, bitbake)
    ensures KeysAt(r, files, bitbake, j) == NamesOf(files[j])
  {
    NotAborted(r, files[..j], bitbake);
    assert files[..j + 1][..j] == files[..j];
    KeysReadAreAll(LoadFiles(EmptyLoad(r), files[..j], bitbake).(stopped := false), files[j].records);
  }

  // Files that the program wrote, each cut anywhere

  ghost predicate CutFrom(sent: seq<Record<Saved>>, got: seq<Record<Received>>) {
    |got| <= |sent| && RecordsArriveAs(sent[..|got|], got)
  }

  /** Cut behind some number of records, or already in the versions at its start. */
  ghost predicate CutFile(sent: CacheFile<Saved>, got: CacheFile<Received>) {
    sent.File? && (got.File? ==>
      && got.cacheVersion == sent.cacheVersion && got.bitbakeVersion == sent.bitbakeVersion
      && CutFrom(sent.records, got.records))
  }

  ghost predicate CutFiles(sent: seq<CacheFile<Saved>>, got: seq<CacheFile<Received>>) {
    |sent| == |got| && forall j | 0 <= j < |sent| :: CutFile(sent[j], got[j])
  }

  /** The versions can be read in each of the first `n` files. */
  ghost predicate Headed(files: seq<CacheFile<Received>>, n: nat)
    requires n <= |files|
  {
    forall j | 0 <= j < n :: files[j].File?
  }

  /** What one more recipe adds to the file of a class, and what it does to the sender. */
  ghost predicate WritesOne(before: Written, after: Written, key: string, info: Info<Table>, pid: Pid) {
    after == (SaveInfo(before.0, info).0, before.1 + [Record(key, SaveInfo(before.0, info).1, pid)])
  }

  type Written = (SaveState, seq<Record<Saved>>)

  /** The file of class `j` recipe by recipe. */
  ghost predicate Trace(trace: seq<Written>, st: SaveState, cache: Rows<Table>, cls: string, j: nat, pid: Pid) {
    && |trace| == |cache| + 1 && trace[0] == (st, [])
    && forall i | 0 <= i < |cache| ::
         && j < |cache[i].1| && ClassOf(cache[i].1[j]) == cls && InfoOk(cache[i].1[j])
         && WritesOne(trace[i], trace[i + 1], cache[i].0, cache[i].1[j], pid)
  }

  lemma {:induction false} FileTrace(st: SaveState, cache: Rows<Table>, classes: seq<string>, j: nat, pid: Pid)
    returns (trace: seq<Written>)
    requires FullRows(cache, classes) && NoRepeats(classes) && j < |classes|
    ensures Trace(trace, st, cache, classes[j], j, pid) && trace[|cache|] == SaveFile(st, cache, classes[j], pid)
    decreases |cache|
  {
    if cache == [] {
      trace := [(st, [])];
    } else {
      var k := |cache| - 1;
      assert cache[..|cache|] == cache;
      PartOfRows(cache, classes, k, |cache|);
      assert FullRows(cache[..k], classes);
      var before := FileTrace(st, cache[..k], classes, j, pid);
      SaveFileStep(st, cache, classes, j, pid);
      assert ClassOf(cache[k].1[j]) == classes[j];
      trace := LongerTrace(before, st, cache, classes[j], j, pid, SaveFile(st, cache, classes[j], pid));
    }
  }

  lemma LongerTrace(before: seq<Written>, st: SaveState, cache: Rows<Table>, cls: string, j: nat, pid: Pid,
                    last: Written) returns (trace: seq<Written>)
    requires cache != [] && Trace(before, st, cache[..|cache| - 1], cls, j, pid)
    requires var info := cache[|cache| - 1]; j < |info.1| && ClassOf(info.1[j]) == cls && InfoOk(info.1[j])
    requires WritesOne(before[|cache| - 1], last, cache[|cache| - 1].0, cache[|cache| - 1].1[j], pid)
    ensures Trace(trace, st, cache, cls, j, pid) && trace[|cache|] == last
  {
    trace := before + [last];
    forall i | 0 <= i < |cache|
      ensures j < |cache[i].1| && ClassOf(cache[i].1[j]) == cls && InfoOk(cache[i].1[j])
      ensures WritesOne(trace[i], trace[i + 1], cache[i].0, cache[i].1[j], pid)
    {
      if i < |cache| - 1 {
        assert cache[..|cache| - 1][i] == cache[i];
      }
    }
  }

  /** The records name the first recipes of the cache in order, with objects of one class. */
  ghost predicate RecordsOf(records: seq<Record<Saved>>, cache: Rows<Table>, i: nat, cls: string) {
    |records| == i <= |cache| && forall n | 0 <= n < i ::
      records[n].key == cache[n].0 && ClassOf(records[n].info) == cls
  }

  lemma SavedClass(st: SaveState, info: Info<Table>)
    ensures ClassOf(SaveInfo(st, info).1) == ClassOf(info)
    ensures ClassOf(info) != "SiggenRecipeInfo" ==> SaveInfo(st, info).0 == st
  {
  }

  lemma {:induction false} TraceRecords(trace: seq<Written>, st: SaveState, cache: Rows<Table>, cls: string, j: nat,
                                        pid: Pid, i: nat)
    requires Trace(trace, st, cache, cls, j, pid) && i <= |cache|
    ensures RecordsOf(trace[i].1, cache, i, cls)
    ensures cls != "SiggenRecipeInfo" ==> trace[i].0 == st
    decreases i
  {
    if i > 0 {
      TraceRecords(trace, st, cache, cls, j, pid, i - 1);
      assert WritesOne(trace[i - 1], trace[i], cache[i - 1].0, cache[i - 1].1[j], pid);
      SavedClass(trace[i - 1].0, cache[i - 1].1[j]);
    }
  }

  lemma {:induction false} TracePrefix(trace: seq<Written>, st: SaveState, cache: Rows<Table>, cls: string, j: nat,
                                       pid: Pid, i: nat, m: nat)
    requires Trace(trace, st, cache, cls, j, pid) && i <= m <= |cache|
    ensures trace[i].1 <= trace[m].1
    decreases m
  {
    if i < m {
      TracePrefix(trace, st, cache, cls, j, pid, i, m - 1);
      assert WritesOne(trace[m - 1], trace[m], cache[m - 1].0, cache[m - 1].1[j], pid);
    }
  }

  lemma {:induction false} WrittenFile(st: SaveState, cache: Rows<Table>, classes: seq<string>, bitbake: string,
                                       pid: Pid, j: nat)
    requires j < |classes|
    ensures SaveFiles(st, cache, classes, bitbake, pid).1[j] ==
            File(CACHE_VERSION, bitbake, SaveFile(SaveFiles(st, cache, classes[..j], bitbake, pid).0, cache,
                                                  classes[j], pid).1)
    decreases |classes|
  {
    var n := |classes| - 1;
    SaveFilesStep(st, cache, classes, bitbake, pid);
    if j < n {
      WrittenFile(st, cache, classes[..n], bitbake, pid, j);
      assert classes[..n][..j] == classes[..j];
    }
  }

  /** Before the file of the signature tables nothing is sent through the codec. */
  lemma {:induction false} StillReset(cache: Rows<Table>, classes: seq<string>, bitbake: string, pid: Pid, j: nat)
    requires FullRows(cache, classes) && NoRepeats(classes) && j <= |classes| && "SiggenRecipeInfo" !in classes[..j]
    ensures SaveFiles(RESET, cache, classes[..j], bitbake, pid).0 == RESET
    decreases j
  {
    if j > 0 {
      var cs := classes[..j];
      assert cs[..j - 1] == classes[..j - 1] && cs[j - 1] == classes[j - 1];
      assert classes[j - 1] in cs;
      assert forall c | c in classes[..j - 1] :: c in cs;
      StillReset(cache, classes, bitbake, pid, j - 1);
      SaveFilesStep(RESET, cache, cs, bitbake, pid);
      var trace := FileTrace(RESET, cache, classes, j - 1, pid);
      TraceRecords(trace, RESET, cache, classes[j - 1], j - 1, pid, |cache|);
    } else {
      assert classes[..0] == [];
    }
  }

  lemma PlainRestores(r: Receiver, info: Info<Received>, pid: Pid)
    requires !info.SiggenInfo?
    ensures RestoreInfo(r, info, pid).1.Some? && RestoreInfo(r, info, pid).0 == r
  {
  }

  /** What a load is to be between two records of class `cls`. */
  ghost predicate Ready(st: SaveState, l: Loading, cls: string, pid: Pid) {
    !l.stopped && Coherent(l.r.store) && (cls == "SiggenRecipeInfo" ==> Linked(st, l.r.store, NumsOf(l.r, pid)))
  }

  /** The records of a file of any length restore. */
  lemma {:induction false} CutRecordsRestore(trace: seq<Written>, st: SaveState, l: Loading, cache: Rows<Table>,
                                             cls: string, j: nat, pid: Pid, i: nat, got: seq<Record<Received>>)
    requires Trace(trace, st, cache, cls, j, pid) && i <= |cache| && Ready(st, l, cls, pid) &&
             RecordsArriveAs(trace[i].1, got)
    ensures Ready(trace[i].0, LoadRecords(l, got), cls, pid)
    decreases i
  {
    if i > 0 {
      var before, info := trace[i - 1], cache[i - 1].1[j];
      assert WritesOne(before, trace[i], cache[i - 1].0, info, pid);
      var sent := Record(cache[i - 1].0, SaveInfo(before.0, info).1, pid);
      ArrivesSplit(before.1, sent, got);
      CutRecordsRestore(trace, st, l, cache, cls, j, pid, i - 1, got[..|got| - 1]);
      LastRestores(before.0, LoadRecords(l, got[..|got| - 1]), info, sent, got[|got| - 1]);
    }
  }

  lemma LastRestores(before: SaveState, l: Loading, info: Info<Table>, sent: Record<Saved>, got: Record<Received>)
    requires InfoOk(info) && Ready(before, l, ClassOf(info), sent.pid) && sent.info == SaveInfo(before, info).1
    requires RecordsArriveAs([sent], [got])
    ensures Ready(SaveInfo(before, info).0, LoadRecord(l, got), ClassOf(info), sent.pid)
  {
    assert [sent][0] == sent && [got][0] == got;
    if info.SiggenInfo? {
      InfoRoundTrip(before, l.r, info, got.info, got.pid);
    } else {
      PlainRestores(l.r, got.info, got.pid);
    }
  }

  lemma {:induction false} CutFilesRestore(cache: Rows<Table>, classes: seq<string>, bitbake: string, pid: Pid,
                                           r: Receiver, got: seq<CacheFile<Received>>, j: nat)
    requires FullRows(cache, classes) && NoRepeats(classes) && Coherent(r.store) && j <= |classes|
    requires CutFiles(SaveFiles(RESET, cache, classes, bitbake, pid).1, got) && Headed(got, j)
    ensures var l := LoadFiles(EmptyLoad(r), got[..j], bitbake); !l.stopped && !l.aborted && Coherent(l.r.store)
    decreases j
  {
    if j > 0 {
      var k := j - 1;
      assert got[..j][..k] == got[..k] && got[..j][k] == got[k];
      CutFilesRestore(cache, classes, bitbake, pid, r, got, k);
      WrittenFile(RESET, cache, classes, bitbake, pid, k);
      var st := SaveFiles(RESET, cache, classes[..k], bitbake, pid).0;
      if classes[k] == "SiggenRecipeInfo" {
        StillReset(cache, classes, bitbake, pid, k);
      }
      CutFileRestores(st, LoadFiles(EmptyLoad(r), got[..k], bitbake), cache, classes, bitbake, k, pid, got[k]);
    }
  }

  lemma CutFileRestores(st: SaveState, l: Loading, cache: Rows<Table>, classes: seq<string>, bitbake: string, k: nat,
                        pid: Pid, got: CacheFile<Received>)
    requires FullRows(cache, classes) && NoRepeats(classes) && k < |classes| && !l.stopped && !l.aborted &&
             Coherent(l.r.store)
    requires (classes[k] == "SiggenRecipeInfo" ==> st == RESET) && Readable(got, bitbake)
    requires CutFrom(SaveFile(st, cache, classes[k], pid).1, got.records)
    ensures var after := LoadFile(l, got, bitbake); !after.stopped && !after.aborted && Coherent(after.r.store)
  {
    var trace := CutArrives(st, cache, classes, k, pid, got.records);
    CutRecordsRestore(trace, st, l, cache, classes[k], k, pid, |got.records|, got.records);
    StillRunning(l, got.records);
  }

  lemma CutArrives(st: SaveState, cache: Rows<Table>, classes: seq<string>, j: nat, pid: Pid,
                   got: seq<Record<Received>>) returns (trace: seq<Written>)
    requires FullRows(cache, classes) && NoRepeats(classes) && j < |classes|
    requires CutFrom(SaveFile(st, cache, classes[j], pid).1, got)
    ensures Trace(trace, st, cache, classes[j], j, pid) && |got| <= |cache| && RecordsArriveAs(trace[|got|].1, got)
    ensures FileOf(File("", "", got), classes[j])
    ensures forall n | 0 <= n < |got| :: got[n].key == cache[n].0
  {
    trace := FileTrace(st, cache, classes, j, pid);
    TraceRecords(trace, st, cache, classes[j], j, pid, |cache|);
    CutOfTrace(trace, st, cache, classes[j], j, pid, got);
  }

  lemma CutOfTrace(trace: seq<Written>, st: SaveState, cache: Rows<Table>, cls: string, j: nat, pid: Pid,
                   got: seq<Record<Received>>)
    requires Trace(trace, st, cache, cls, j, pid) && DistinctKeys(cache) && CutFrom(trace[|cache|].1, got) &&
             |trace[|cache|].1| == |cache|
    ensures |got| <= |cache| && RecordsArriveAs(trace[|got|].1, got) && FileOf(File("", "", got), cls)
    ensures forall n | 0 <= n < |got| :: got[n].key == cache[n].0
  {
    TraceRecords(trace, st, cache, cls, j, pid, |got|);
    TracePrefix(trace, st, cache, cls, j, pid, |got|, |cache|);
    var sent := trace[|got|].1;
    assert sent == trace[|cache|].1[..|got|];
    forall n | 0 <= n < |got| ensures got[n].key == cache[n].0 && ClassOf(got[n].info) == cls {
      assert InfoArrivesAs(sent[n].info, got[n].info);
    }
  }

  /** A load gives up at the first file whose versions cannot be read. */
  lemma {:induction false} GivesUp(r: Receiver, files: seq<CacheFile<Received>>, bitbake: string, i: nat, n: nat)
    requires i < n <= |files| && files[i].Unreadable?
    ensures LoadFiles(EmptyLoad(r), files[..n], bitbake).aborted
    decreases n
  {
    assert files[..n][..n - 1] == files[..n - 1];
    if i < n - 1 {
      GivesUp(r, files, bitbake, i, n - 1);
    }
  }

  lemma CutFileNames(cache: Rows<Table>, classes: seq<string>, bitbake: string, pid: Pid, got: seq<CacheFile<Received>>,
                     j: nat)
    requires FullRows(cache, classes) && NoRepeats(classes) && j < |classes|
    requires CutFiles(SaveFiles(RESET, cache, classes, bitbake, pid).1, got)
    ensures FileOf(got[j], classes[j])
    ensures got[j].File? ==> Readable(got[j], bitbake) && |got[j].records| <= |cache| &&
                             forall n | 0 <= n < |got[j].records| :: got[j].records[n].key == cache[n].0
  {
    WrittenFile(RESET, cache, classes, bitbake, pid, j);
    if got[j].File? {
      var st := SaveFiles(RESET, cache, classes[..j], bitbake, pid).0;
      var trace := CutArrives(st, cache, classes, j, pid, got[j].records);
    }
  }

  /** A file that was cut contributes to the recipes whose records it still has, when the load gets that far. */
  lemma CutContributes(cache: Rows<Table>, classes: seq<string>, bitbake: string, pid: Pid, r: Receiver,
                       got: seq<CacheFile<Received>>, j: nat)
    requires FullRows(cache, classes) && NoRepeats(classes) && Coherent(r.store) && j < |classes|
    requires CutFiles(SaveFiles(RESET, cache, classes, bitbake, pid).1, got)
    ensures Headed(got, j + 1) ==> |got[j].records| <= |cache|
    ensures KeysAt(r, got, bitbake, j) == if Headed(got, j + 1) then FirstKeys(cache, |got[j].records|) else {}
  {
    CutFileNames(cache, classes, bitbake, pid, got, j);
    if Headed(got, j + 1) {
      CutFilesRestore(cache, classes, bitbake, pid, r, got, j);
      CutFilesRestore(cache, classes, bitbake, pid, r, got, j + 1);
      OneMoreFile(r, got, bitbake, j);
      KeysReadAreAll(LoadFiles(EmptyLoad(r), got[..j], bitbake).(stopped := false), got[j].records);
      NamesAreFirst(cache, got[j].records);
    } else if Headed(got, j) {
      assert got[j].Unreadable?;
    } else {
      var i :| 0 <= i < j && got[i].Unreadable?;
      GivesUp(r, got, bitbake, i, j);
    }
  }

  /** The names of the first recipes of a cache. */
  function FirstKeys(cache: Rows<Table>, n: nat): set<string>
    requires n <= |cache|
  {
    set i | 0 <= i < n :: cache[i].0
  }

  lemma NamesAreFirst(cache: Rows<Table>, records: seq<Record<Received>>)
    requires |records| <= |cache| && forall n | 0 <= n < |records| :: records[n].key == cache[n].0
    ensures RecordKeys(records) == FirstKeys(cache, |records|)
  {
    forall k ensures k in RecordKeys(records) <==> k in FirstKeys(cache, |records|) {
      if k in FirstKeys(cache, |records|) {
        var n :| 0 <= n < |records| && cache[n].0 == k;
        assert records[n].key == k;
      }
    }
  }

  lemma FirstKeysOrder(cache: Rows<Table>, a: nat, b: nat)
    requires DistinctKeys(cache) && a <= |cache| && b <= |cache|
    ensures FirstKeys(cache, a) <= FirstKeys(cache, b) <==> a <= b
  {
    if a > b {
      assert cache[b].0 in FirstKeys(cache, a) && cache[b].0 !in FirstKeys(cache, b);
    }
  }

  /** Record `n` is lost in the first file, and still there in a later one that a load comes to. */
  ghost predicate OnlyLater(got: seq<CacheFile<Received>>, n: nat) {
    exists j :: 1 <= j < |got| && Headed(got, j + 1) && |got[0].records| <= n < |got[j].records|
  }

  lemma FirstKeysAt(cache: Rows<Table>, n: nat, m: nat)
    requires DistinctKeys(cache) && n < |cache| && m <= |cache|
    ensures cache[n].0 in FirstKeys(cache, m) <==> n < m
  {
  }

  /** The recipes that only later files contribute to are those whose records only later files still have. */
  lemma LostIffOnlyLater(cache: Rows<Table>, classes: seq<string>, bitbake: string, pid: Pid, r: Receiver,
                         got: seq<CacheFile<Received>>, key: string)
    requires FullRows(cache, classes) && NoRepeats(classes) && classes != [] && Coherent(r.store)
    requires CutFiles(SaveFiles(RESET, cache, classes, bitbake, pid).1, got)
    ensures FirstLost(r, got, bitbake, key) <==>
            exists n :: 0 <= n < |cache| && cache[n].0 == key && OnlyLater(got, n)
  {
    if n :| 0 <= n < |cache| && cache[n].0 == key {
      forall j | 0 <= j < |got|
        ensures key in KeysAt(r, got, bitbake, j) <==> Headed(got, j + 1) && n < |got[j].records|
      {
        CutContributes(cache, classes, bitbake, pid, r, got, j);
        if Headed(got, j + 1) {
          FirstKeysAt(cache, n, |got[j].records|);
        }
      }
      LaterWitness(r, got, bitbake, key, n);
    } else {
      forall j | 0 <= j < |got| ensures key !in KeysAt(r, got, bitbake, j) {
        CutContributes(cache, classes, bitbake, pid, r, got, j);
      }
    }
  }

  lemma LaterWitness(r: Receiver, got: seq<CacheFile<Received>>, bitbake: string, key: string, n: nat)
    requires got != []
    requires forall j | 0 <= j < |got| :: key in KeysAt(r, got, bitbake, j) <==>
             Headed(got, j + 1) && n < |got[j].records|
    ensures FirstLost(r, got, bitbake, key) <==> OnlyLater(got, n)
  {
  }

  /** The files that a save wrote, each cut anywhere: what a load leaves has its shape exactly when no later file that
      the load comes to has more records than the first.  Behind a file whose versions are lost it comes to none. */
  lemma CutFilesShapedIff(cache: Rows<Table>, classes: seq<string>, bitbake: string, pid: Pid, r: Receiver,
                          got: seq<CacheFile<Received>>)
    requires FullRows(cache, classes) && NoRepeats(classes) && classes != [] && Coherent(r.store)
    requires CutFiles(SaveFiles(RESET, cache, classes, bitbake, pid).1, got)
    ensures Shaped(LoadFiles(EmptyLoad(r), got, bitbake).cache, classes) <==>
            forall j | 1 <= j < |got| && Headed(got, j + 1) :: |got[j].records| <= |got[0].records|
  {
    forall j | 0 <= j < |got|
      ensures FileOf(got[j], classes[j])
      ensures KeysAt(r, got, bitbake, j) <= KeysAt(r, got, bitbake, 0) <==>
              (Headed(got, j + 1) ==> |got[j].records| <= |got[0].records|)
    {
      CutFileNames(cache, classes, bitbake, pid, got, j);
      CutContributes(cache, classes, bitbake, pid, r, got, j);
      CutContributes(cache, classes, bitbake, pid, r, got, 0);
      if Headed(got, j + 1) {
        FirstKeysOrder(cache, |got[j].records|, |got[0].records|);
      }
    }
    ShapedIffFirstHasAll(r, got, classes, bitbake);
    assert classes[..|got|] == classes;
  }
}
