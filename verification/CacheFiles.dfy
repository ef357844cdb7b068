/** Saving the recipe cache and loading it back: `sync` and `load_cachefile` in bb/cache.py.

  There is one file per information class; each holds the objects of that class for all recipes, with
  the signature tables encoded by the codec of SiggenStream.
 */
module CacheFiles {
  import opened Wrappers
  import opened Sequences
  import opened Dicts
  import opened RecipeInfo
  import opened SiggenStream

  const CACHE_VERSION := "155"

  type Rows<T> = Dict<string, seq<Info<T>>>

  datatype Record<+T> = Record(key: string, info: Info<T>, pid: Pid)

  datatype CacheFile<+T> =
    | Unreadable
    | File(cacheVersion: string, bitbakeVersion: string, records: seq<Record<T>>)

  /** A load in progress.  A record that cannot be read ends its file; a bad header ends the load. */
  datatype Loading = Loading(r: Receiver, cache: Rows<Restored>, stopped: bool, aborted: bool)

  // Saving

  function SaveInfo(st: SaveState, info: Info<Table>): (SaveState, Info<Saved>) {
    match info
    case CoreInfo(core) => (st, CoreInfo(core))
    case ExtraInfo(cls, data) => (st, ExtraInfo(cls, data))
    case SiggenInfo(gendeps, taskdeps, varvals) =>
      var (st1, a) := SaveTable(st, gendeps);
      var (st2, b) := SaveTable(st1, taskdeps);
      var (st3, c) := SaveTable(st2, varvals);
      (st3, SiggenInfo(a, b, c))
  }

  function SaveCells(st: SaveState, key: string, infos: seq<Info<Table>>, cls: string,
                     pid: Pid): (SaveState, seq<Record<Saved>>) {
    if infos == [] then
      (st, [])
    else
      var (st1, records) := SaveCells(st, key, infos[..|infos| - 1], cls, pid);
      var info := infos[|infos| - 1];
      if ClassOf(info) == cls then
        var (st2, saved) := SaveInfo(st1, info);
        (st2, records + [Record(key, saved, pid)])
      else
        (st1, records)
  }

  function SaveFile(st: SaveState, cache: Rows<Table>, cls: string, pid: Pid): (SaveState, seq<Record<Saved>>) {
    if cache == [] then
      (st, [])
    else
      var (st1, records) := SaveFile(st, cache[..|cache| - 1], cls, pid);
      var (key, infos) := cache[|cache| - 1];
      var (st2, more) := SaveCells(st1, key, infos, cls, pid);
      (st2, records + more)
  }

  function SaveFiles(st: SaveState, cache: Rows<Table>, classes: seq<string>, bitbake: string,
                     pid: Pid): (r: (SaveState, seq<CacheFile<Saved>>))
    ensures |r.1| == |classes| && forall i | 0 <= i < |classes| :: r.1[i].File?
  {
    if classes == [] then
      (st, [])
    else
      var (st1, files) := SaveFiles(st, cache, classes[..|classes| - 1], bitbake, pid);
      var (st2, records) := SaveFile(st1, cache, classes[|classes| - 1], pid);
      (st2, files + [File(CACHE_VERSION, bitbake, records)])
  }

  // Loading

  function RestoreInfo(r: Receiver, info: Info<Received>, pid: Pid): (Receiver, Option<Info<Restored>>) {
    match info
    case CoreInfo(core) => (r, Some(CoreInfo(core)))
    case ExtraInfo(cls, data) => (r, Some(ExtraInfo(cls, data)))
    case SiggenInfo(gendeps, taskdeps, varvals) =>
      var (r1, a) := RestoreTable(r, gendeps, pid);
      if a.None? then (r1, None) else
        var (r2, b) := RestoreTable(r1, taskdeps, pid);
        if b.None? then (r2, None) else
          var (r3, c) := RestoreTable(r2, varvals, pid);
          if c.None? then (r3, None) else (r3, Some(SiggenInfo(a.value, b.value, c.value)))
  }

  function AppendCell<T>(cache: Rows<T>, key: string, info: Info<T>): Rows<T> {
    Put(cache, key, (if Has(cache, key) then Get(cache, key) else []) + [info])
  }

  function LoadRecord(l: Loading, rec: Record<Received>): Loading {
    if l.stopped then l else
      var (r1, info) := RestoreInfo(l.r, rec.info, rec.pid);
      if info.None? then l.(r := r1, stopped := true) else
        l.(r := r1, cache := AppendCell(l.cache, rec.key, info.value))
  }

  function LoadRecords(l: Loading, records: seq<Record<Received>>): Loading {
    if records == [] then l else LoadRecord(LoadRecords(l, records[..|records| - 1]), records[|records| - 1])
  }

  function LoadFile(l: Loading, file: CacheFile<Received>, bitbake: string): Loading {
    if l.aborted then
      l
    else if file.Unreadable? || file.cacheVersion != CACHE_VERSION || file.bitbakeVersion != bitbake then
      l.(aborted := true)
    else
      LoadRecords(l.(stopped := false), file.records)
  }

  function LoadFiles(l: Loading, files: seq<CacheFile<Received>>, bitbake: string): Loading {
    if files == [] then l else LoadFile(LoadFiles(l, files[..|files| - 1], bitbake), files[|files| - 1], bitbake)
  }

  function EmptyLoad(r: Receiver): Loading {
    Loading(r, [], false, false)
  }

  // What arrives, and what is shown again

  ghost predicate InfoArrivesAs(sent: Info<Saved>, got: Info<Received>) {
    match sent
    case CoreInfo(core) => got == CoreInfo(core)
    case ExtraInfo(cls, data) => got == ExtraInfo(cls, data)
    case SiggenInfo(a, b, c) =>
      got.SiggenInfo? && TableArrivesAs(a, got.gendeps) && TableArrivesAs(b, got.taskdeps) &&
      TableArrivesAs(c, got.varvals)
  }

  ghost predicate RecordsArriveAs(sent: seq<Record<Saved>>, got: seq<Record<Received>>) {
    |sent| == |got| && forall i | 0 <= i < |sent| ::
      sent[i].key == got[i].key && sent[i].pid == got[i].pid && InfoArrivesAs(sent[i].info, got[i].info)
  }

  ghost predicate FilesArriveAs(sent: seq<CacheFile<Saved>>, got: seq<CacheFile<Received>>) {
    |sent| == |got| && forall i | 0 <= i < |sent| ::
      && sent[i].File? && got[i].File?
      && got[i].cacheVersion == sent[i].cacheVersion && got[i].bitbakeVersion == sent[i].bitbakeVersion
      && RecordsArriveAs(sent[i].records, got[i].records)
  }

  ghost predicate InfoShows(got: Info<Restored>, info: Info<Table>, store: map<Value, Obj>) {
    match info
    case CoreInfo(core) => got == CoreInfo(core)
    case ExtraInfo(cls, data) => got == ExtraInfo(cls, data)
    case SiggenInfo(a, b, c) =>
      got.SiggenInfo? && TableShows(got.gendeps, a, store) && TableShows(got.taskdeps, b, store) &&
      TableShows(got.varvals, c, store)
  }

  ghost predicate InfoOk(info: Info<Table>) {
    info.SiggenInfo? ==> TableOk(info.gendeps) && TableOk(info.taskdeps) && TableOk(info.varvals)
  }

  /** Every recipe holds one object per class, in the order of the classes. */
  ghost predicate FullRows(cache: Rows<Table>, classes: seq<string>) {
    && DistinctKeys(cache)
    && forall i | 0 <= i < |cache| ::
         ClassesOf(cache[i].1) == classes && forall m | 0 <= m < |cache[i].1| :: InfoOk(cache[i].1[m])
  }

  /** The load has done `j` columns, and the next one for the first `i` recipes. */
  ghost predicate RowsDone(got: Rows<Restored>, cache: Rows<Table>, i: nat, j: nat, store: map<Value, Obj>) {
    && |got| == (if j == 0 then i else |cache|) && i <= |cache|
    && forall n | 0 <= n < |got| ::
         && got[n].0 == cache[n].0
         && |got[n].1| == (if n < i then j + 1 else j) <= |cache[n].1|
         && forall m | 0 <= m < |got[n].1| :: InfoShows(got[n].1[m], cache[n].1[m], store)
  }

  lemma InfoRoundTrip(st: SaveState, r: Receiver, info: Info<Table>, got: Info<Received>, pid: Pid)
    requires InfoOk(info) && Coherent(r.store) && Linked(st, r.store, NumsOf(r, pid))
    requires InfoArrivesAs(SaveInfo(st, info).1, got)
    ensures var (r1, out) := RestoreInfo(r, got, pid);
            && out.Some? && Coherent(r1.store) && Extends(r.store, r1.store)
            && Linked(SaveInfo(st, info).0, r1.store, NumsOf(r1, pid))
            && InfoShows(out.value, info, r1.store)
  {
    if info.SiggenInfo? {
      var st1 := SaveTable(st, info.gendeps).0;
      var st2 := SaveTable(st1, info.taskdeps).0;
      TableRoundTrip(st, r, info.gendeps, got.gendeps, pid);
      var r1 := RestoreTable(r, got.gendeps, pid).0;
      TableRoundTrip(st1, r1, info.taskdeps, got.taskdeps, pid);
      var r2 := RestoreTable(r1, got.taskdeps, pid).0;
      TableRoundTrip(st2, r2, info.varvals, got.varvals, pid);
    }
  }

  /** Of a row that follows the classes, the file of class `j` receives exactly the object in column `j`. */
  lemma {:induction false} CellsAreColumn(st: SaveState, key: string, infos: seq<Info<Table>>, classes: seq<string>,
                                          j: nat, pid: Pid)
    requires |infos| <= |classes| && j < |classes| && NoRepeats(classes)
    requires forall m | 0 <= m < |infos| :: ClassOf(infos[m]) == classes[m]
    ensures SaveCells(st, key, infos, classes[j], pid) ==
            if j < |infos| then (SaveInfo(st, infos[j]).0, [Record(key, SaveInfo(st, infos[j]).1, pid)]) else (st, [])
  {
    if infos != [] {
      var n := |infos| - 1;
      CellsAreColumn(st, key, infos[..n], classes, j, pid);
      SaveCellsStep(st, key, infos, classes[j], pid);
      assert classes[n] == classes[j] <==> n == j;
      if j < n {
        assert infos[..n][j] == infos[j];
      } else if j == n {
        var record := Record(key, SaveInfo(st, infos[j]).1, pid);
        assert [] + [record] == [record];
      }
    }
  }

  lemma SaveCellsStep(st: SaveState, key: string, infos: seq<Info<Table>>, cls: string, pid: Pid)
    requires infos != []
    ensures var n := |infos| - 1;
            var before := SaveCells(st, key, infos[..n], cls, pid);
            var saved := SaveInfo(before.0, infos[n]);
            SaveCells(st, key, infos, cls, pid) ==
            if ClassOf(infos[n]) == cls then (saved.0, before.1 + [Record(key, saved.1, pid)]) else before
  {
  }

  /** The file of class `j` for one more recipe has one more record. */
  lemma SaveFileStep(st: SaveState, cache: Rows<Table>, classes: seq<string>, j: nat, pid: Pid)
    requires FullRows(cache, classes) && NoRepeats(classes) && j < |classes| && cache != []
    ensures var k := |cache| - 1;
            && j < |cache[k].1|
            && var before := SaveFile(st, cache[..k], classes[j], pid);
               var saved := SaveInfo(before.0, cache[k].1[j]);
               SaveFile(st, cache, classes[j], pid) == (saved.0, before.1 + [Record(cache[k].0, saved.1, pid)])
  {
    var k := |cache| - 1;
    var before := SaveFile(st, cache[..k], classes[j], pid);
    CellsAreColumn(before.0, cache[k].0, cache[k].1, classes, j, pid);
  }

  lemma TailKeys<V>(d: Dict<string, V>)
    requires DistinctKeys(d) && d != []
    ensures DistinctKeys(d[1..])
  {
    forall m, n | 0 <= m < n < |d[1..]| ensures d[1..][m].0 != d[1..][n].0 {
      assert d[m + 1].0 != d[n + 1].0;
    }
  }

  lemma GetAt<V>(d: Dict<string, V>, i: nat)
    requires DistinctKeys(d) && i < |d|
    ensures Has(d, d[i].0) && Get(d, d[i].0) == d[i].1
  {
    assert d[i].0 in Keys(d);
    if i > 0 {
      TailKeys(d);
      GetAt(d[1..], i - 1);
    }
  }

  lemma UpdateTail<T>(s: seq<T>, i: nat, x: T)
    requires i < |s|
    ensures s[i := x] == if i == 0 then [x] + s[1..] else [s[0]] + s[1..][i - 1 := x]
  {
  }

  lemma {:induction false} PutAt<V>(d: Dict<string, V>, i: nat, v: V)
    requires DistinctKeys(d) && i < |d|
    ensures Has(d, d[i].0) && Get(d, d[i].0) == d[i].1
    ensures Put(d, d[i].0, v) == d[i := (d[i].0, v)]
  {
    GetAt(d, i);
    UpdateTail(d, i, (d[i].0, v));
    if i > 0 {
      TailKeys(d);
      PutAt(d[1..], i - 1, v);
    }
  }

  /** One record of column `j` fills in the cell of the next recipe. */
  lemma CellLoads(got: Rows<Restored>, cache: Rows<Table>, i: nat, j: nat, info: Info<Restored>, store: map<Value, Obj>)
    requires DistinctKeys(cache) && i < |cache| && RowsDone(got, cache, i, j, store)
    requires j < |cache[i].1| && InfoShows(info, cache[i].1[j], store)
    ensures RowsDone(AppendCell(got, cache[i].0, info), cache, i + 1, j, store)
  {
    assert DistinctKeys(got);
    if j == 0 {
      FirstCellLoads(got, cache, i, info, store);
    } else {
      PutAt(got, i, got[i].1 + [info]);
      var row := got[i].1 + [info];
      var r := AppendCell(got, cache[i].0, info);
      assert r == got[i := (got[i].0, row)];
      forall m | 0 <= m < |row| ensures InfoShows(row[m], cache[i].1[m], store) {
        assert m < j ==> row[m] == got[i].1[m];
      }
    }
  }

  lemma FirstCellLoads(got: Rows<Restored>, cache: Rows<Table>, i: nat, info: Info<Restored>, store: map<Value, Obj>)
    requires DistinctKeys(cache) && i < |cache| && RowsDone(got, cache, i, 0, store)
    requires 0 < |cache[i].1| && InfoShows(info, cache[i].1[0], store)
    ensures RowsDone(AppendCell(got, cache[i].0, info), cache, i + 1, 0, store)
  {
    assert forall n | 0 <= n < |got| :: got[n].0 != cache[i].0;
    assert cache[i].0 !in Keys(got);
    assert [] + [info] == [info];
    assert AppendCell(got, cache[i].0, info) == got + [(cache[i].0, [info])];
  }

  lemma RowsLater(got: Rows<Restored>, cache: Rows<Table>, i: nat, j: nat, store: map<Value, Obj>,
                  later: map<Value, Obj>)
    requires RowsDone(got, cache, i, j, store) && Extends(store, later)
    ensures RowsDone(got, cache, i, j, later)
  {
    forall n, m | 0 <= n < |got| && 0 <= m < |got[n].1| ensures InfoShows(got[n].1[m], cache[n].1[m], later) {
      assert InfoShows(got[n].1[m], cache[n].1[m], store);
    }
  }

  /** The state between two records: the sender and the receiver agree and part of the rows are done. */
  ghost predicate InStep(st: SaveState, l: Loading, cache: Rows<Table>, i: nat, j: nat, pid: Pid) {
    && !l.stopped && !l.aborted
    && Coherent(l.r.store) && Linked(st, l.r.store, NumsOf(l.r, pid))
    && RowsDone(l.cache, cache, i, j, l.r.store)
  }

  lemma RecordLoads(st: SaveState, l: Loading, cache: Rows<Table>, k: nat, j: nat, pid: Pid, sent: Record<Saved>,
                    got: Record<Received>)
    requires DistinctKeys(cache) && k < |cache| && j < |cache[k].1| && InfoOk(cache[k].1[j])
    requires InStep(st, l, cache, k, j, pid)
    requires sent == Record(cache[k].0, SaveInfo(st, cache[k].1[j]).1, pid) && RecordsArriveAs([sent], [got])
    ensures InStep(SaveInfo(st, cache[k].1[j]).0, LoadRecord(l, got), cache, k + 1, j, pid)
    ensures Extends(l.r.store, LoadRecord(l, got).r.store)
  {
    assert [sent][0] == sent && [got][0] == got;
    InfoRoundTrip(st, l.r, cache[k].1[j], got.info, pid);
    var (r2, info) := RestoreInfo(l.r, got.info, pid);
    RowsLater(l.cache, cache, k, j, l.r.store, r2.store);
    CellLoads(l.cache, cache, k, j, info.value, r2.store);
  }

  lemma ArrivesSplit(first: seq<Record<Saved>>, last: Record<Saved>, got: seq<Record<Received>>)
    requires RecordsArriveAs(first + [last], got)
    ensures var n := |got| - 1;
            n >= 0 && RecordsArriveAs(first, got[..n]) && RecordsArriveAs([last], [got[n]])
  {
    var all := first + [last];
    assert all[|got| - 1] == last;
    assert forall i | 0 <= i < |first| :: all[i] == first[i];
  }

  lemma SavePartStep(st: SaveState, cache: Rows<Table>, classes: seq<string>, k: nat, i: nat, j: nat, pid: Pid)
    requires FullRows(cache, classes) && NoRepeats(classes) && j < |classes| && i == k + 1 <= |cache|
    ensures j < |cache[k].1|
    ensures var before := SaveFile(st, cache[..k], classes[j], pid);
            var saved := SaveInfo(before.0, cache[k].1[j]);
            SaveFile(st, cache[..i], classes[j], pid) == (saved.0, before.1 + [Record(cache[k].0, saved.1, pid)])
  {
    PartOfRows(cache, classes, k, i);
    SaveFileStep(st, cache[..i], classes, j, pid);
  }

  lemma PartOfRows(cache: Rows<Table>, classes: seq<string>, k: nat, i: nat)
    requires FullRows(cache, classes) && i == k + 1 <= |cache|
    ensures FullRows(cache[..i], classes) && cache[..i][..k] == cache[..k] && cache[..i][k] == cache[k]
  {
  }

  lemma {:induction false} ColumnLoads(st: SaveState, l: Loading, cache: Rows<Table>, classes: seq<string>, i: nat,
                                       j: nat, pid: Pid, got: seq<Record<Received>>)
    requires FullRows(cache, classes) && NoRepeats(classes) && j < |classes| && i <= |cache|
    requires InStep(st, l, cache, 0, j, pid)
    requires RecordsArriveAs(SaveFile(st, cache[..i], classes[j], pid).1, got)
    ensures InStep(SaveFile(st, cache[..i], classes[j], pid).0, LoadRecords(l, got), cache, i, j, pid)
    decreases i, 0
  {
    if i > 0 {
      var k := i - 1;
      SavePartStep(st, cache, classes, k, i, j, pid);
      ColumnStep(st, l, cache, classes, k, i, j, pid, got, SaveFile(st, cache[..k], classes[j], pid),
                 SaveFile(st, cache[..i], classes[j], pid));
    } else {
      assert cache[..i] == [] && got == [];
    }
  }

  lemma ColumnStep(st: SaveState, l: Loading, cache: Rows<Table>, classes: seq<string>, k: nat, i: nat, j: nat,
                   pid: Pid, got: seq<Record<Received>>, before: (SaveState, seq<Record<Saved>>),
                   after: (SaveState, seq<Record<Saved>>))
    requires FullRows(cache, classes) && NoRepeats(classes) && j < |classes| && k < |cache|
    requires InStep(st, l, cache, 0, j, pid)
    requires before == SaveFile(st, cache[..k], classes[j], pid)
    requires var saved := SaveInfo(before.0, cache[k].1[j]);
             after == (saved.0, before.1 + [Record(cache[k].0, saved.1, pid)])
    requires RecordsArriveAs(after.1, got)
    requires i == k + 1
    ensures InStep(after.0, LoadRecords(l, got), cache, i, j, pid)
    decreases k, 1
  {
    var n := |got| - 1;
    var last := Record(cache[k].0, SaveInfo(before.0, cache[k].1[j]).1, pid);
    ArrivesSplit(before.1, last, got);
    ColumnLoads(st, l, cache, classes, k, j, pid, got[..n]);
    RecordLoads(before.0, LoadRecords(l, got[..n]), cache, k, j, pid, last, got[n]);
  }

  lemma {:induction false} FilesLoad(st: SaveState, l: Loading, cache: Rows<Table>, classes: seq<string>, j: nat,
                                     bitbake: string, pid: Pid, got: seq<CacheFile<Received>>)
    requires FullRows(cache, classes) && NoRepeats(classes) && 0 < j <= |classes|
    requires InStep(st, l, cache, 0, 0, pid)
    requires FilesArriveAs(SaveFiles(st, cache, classes[..j], bitbake, pid).1, got)
    ensures InStep(SaveFiles(st, cache, classes[..j], bitbake, pid).0, LoadFiles(l, got, bitbake), cache, |cache|,
                   j - 1, pid)
  {
    var k := j - 1;
    var before := SaveFiles(st, cache, classes[..k], bitbake, pid);
    assert classes[..j][..k] == classes[..k] && classes[..j][k] == classes[k];
    SaveFilesStep(st, cache, classes[..j], bitbake, pid);
    var last := SaveFile(before.0, cache, classes[k], pid);
    var all := SaveFiles(st, cache, classes[..j], bitbake, pid).1;
    assert all[k] == File(CACHE_VERSION, bitbake, last.1);
    assert forall m | 0 <= m < k :: all[m] == before.1[m];
    if k > 0 {
      FilesLoad(st, l, cache, classes, k, bitbake, pid, got[..k]);
    } else {
      assert got[..k] == [];
    }
    FileLoads(before.0, LoadFiles(l, got[..k], bitbake), cache, classes, k, bitbake, pid, got[k]);
  }

  lemma SaveFilesStep(st: SaveState, cache: Rows<Table>, classes: seq<string>, bitbake: string, pid: Pid)
    requires classes != []
    ensures var k := |classes| - 1;
            var before := SaveFiles(st, cache, classes[..k], bitbake, pid);
            var last := SaveFile(before.0, cache, classes[k], pid);
            SaveFiles(st, cache, classes, bitbake, pid) == (last.0, before.1 + [File(CACHE_VERSION, bitbake, last.1)])
  {
  }

  lemma FileLoads(st: SaveState, l: Loading, cache: Rows<Table>, classes: seq<string>, k: nat, bitbake: string,
                  pid: Pid, got: CacheFile<Received>)
    requires FullRows(cache, classes) && NoRepeats(classes) && k < |classes|
    requires InStep(st, l, cache, if k == 0 then 0 else |cache|, if k == 0 then 0 else k - 1, pid)
    requires got.File? && got.cacheVersion == CACHE_VERSION && got.bitbakeVersion == bitbake
    requires RecordsArriveAs(SaveFile(st, cache, classes[k], pid).1, got.records)
    ensures InStep(SaveFile(st, cache, classes[k], pid).0, LoadFile(l, got, bitbake), cache, |cache|, k, pid)
  {
    assert cache[..|cache|] == cache;
    assert InStep(st, l, cache, 0, k, pid);
    ColumnLoads(st, l, cache, classes, |cache|, k, pid, got.records);
  }

  /** Saving with a reset sender and loading into an empty cache gives the cache back: the same recipes in
      the same order, each with the same objects, their tables shown through the receiver's store. */
  lemma SyncThenLoad(cache: Rows<Table>, classes: seq<string>, bitbake: string, pid: Pid, r: Receiver,
                     got: seq<CacheFile<Received>>)
    requires FullRows(cache, classes) && NoRepeats(classes) && classes != []
    requires Coherent(r.store)
    requires FilesArriveAs(SaveFiles(RESET, cache, classes, bitbake, pid).1, got)
    ensures var l := LoadFiles(EmptyLoad(r), got, bitbake);
            && !l.aborted && |l.cache| == |cache|
            && forall n | 0 <= n < |cache| ::
                 && l.cache[n].0 == cache[n].0
                 && |l.cache[n].1| == |cache[n].1|
                 && forall m | 0 <= m < |cache[n].1| :: InfoShows(l.cache[n].1[m], cache[n].1[m], l.r.store)
  {
    assert classes[..|classes|] == classes;
    FilesLoad(RESET, EmptyLoad(r), cache, classes, |classes|, bitbake, pid, got);
  }
}
