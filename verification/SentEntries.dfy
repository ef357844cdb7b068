/** What a sender of signature tables puts into its stream: `_save` of SiggenRecipeInfo in bb/cache.py sends each value
    once, with the next number, and only that number afterwards. */
module SentEntries {
  import opened Wrappers
  import opened Sequences
  import opened Dicts
  import opened SiggenStream

  type Dep = (Key, Option<Value>)

  /** The entries of all tables, in order; a missing table has none. */
  function AllDeps(tables: seq<Table>): seq<Dep> {
    if tables == [] then [] else DepsOf(tables[0]) + AllDeps(tables[1..])
  }

  function AllEntries(stream: seq<Saved>): seq<Entry<Value>> {
    if stream == [] then [] else EntriesOf(stream[0]) + AllEntries(stream[1..])
  }

  function DefCount(sent: seq<Entry<Value>>): nat {
    if sent == [] then 0 else DefCount(sent[..|sent| - 1]) + if sent[|sent| - 1].Def? then 1 else 0
  }

  /** The value has not occurred before position `x`. */
  ghost predicate IsNew(deps: seq<Dep>, x: nat, v: Value)
    requires x <= |deps|
  {
    forall y | 0 <= y < x :: deps[y].1 != Some(v)
  }

  /** An earlier entry gave the value this number. */
  ghost predicate GivenAs(sent: seq<Entry<Value>>, x: nat, v: Value, num: nat)
    requires x <= |sent|
  {
    exists y :: 0 <= y < x && sent[y].Def? && sent[y].fs == v && sent[y].num == num
  }

  /** An entry without a value is sent as such, a new value with the next number, any other by the number it was
      given. */
  ghost predicate EntryOk(deps: seq<Dep>, sent: seq<Entry<Value>>, x: nat)
    requires x < |deps| == |sent|
  {
    && sent[x].dep == deps[x].0
    && match deps[x].1
       case None => sent[x].Absent?
       case Some(v) =>
         if IsNew(deps, x, v) then sent[x] == Def(deps[x].0, v, 1 + DefCount(sent[..x]))
         else sent[x].Ref? && GivenAs(sent, x, v, sent[x].num)
  }

  ghost predicate Compressed(deps: seq<Dep>, sent: seq<Entry<Value>>) {
    |deps| == |sent| && forall x | 0 <= x < |deps| :: EntryOk(deps, sent, x)
  }

  /** The sender knows the values that it has sent, with the numbers that it gave them. */
  ghost predicate Remembers(st: SaveState, deps: seq<Dep>, sent: seq<Entry<Value>>) {
    && |deps| == |sent| && st.count == 1 + DefCount(sent)
    && (forall v :: v in st.map_ <==> !IsNew(deps, |deps|, v))
    && (forall v | v in st.map_ :: GivenAs(sent, |sent|, v, st.map_[v]))
  }

  lemma EntryStays(deps: seq<Dep>, sent: seq<Entry<Value>>, d: Dep, e: Entry<Value>, x: nat)
    requires x < |deps| == |sent| && EntryOk(deps, sent, x)
    ensures EntryOk(deps + [d], sent + [e], x)
  {
    var deps', sent' := deps + [d], sent + [e];
    assert sent'[..x] == sent[..x];
    assert forall y | 0 <= y < x :: deps'[y] == deps[y] && sent'[y] == sent[y];
    if deps[x].1.Some? {
      var v := deps[x].1.value;
      assert IsNew(deps', x, v) <==> IsNew(deps, x, v);
      if sent[x].Ref? && GivenAs(sent, x, v, sent[x].num) {
        var y :| 0 <= y < x && sent[y].Def? && sent[y].fs == v && sent[y].num == sent[x].num;
        assert sent'[y] == sent[y];
      }
    }
  }

  lemma GivenStays(sent: seq<Entry<Value>>, e: Entry<Value>, v: Value, num: nat)
    requires GivenAs(sent, |sent|, v, num)
    ensures GivenAs(sent + [e], |sent| + 1, v, num)
  {
    var y :| 0 <= y < |sent| && sent[y].Def? && sent[y].fs == v && sent[y].num == num;
    assert (sent + [e])[y] == sent[y];
  }

  lemma NewAfter(deps: seq<Dep>, d: Dep, v: Value)
    ensures IsNew(deps + [d], |deps| + 1, v) <==> IsNew(deps, |deps|, v) && d.1 != Some(v)
    ensures IsNew(deps + [d], |deps|, v) <==> IsNew(deps, |deps|, v)
  {
    assert forall y | 0 <= y < |deps| :: (deps + [d])[y] == deps[y];
    assert (deps + [d])[|deps|] == d;
  }

  lemma OneMoreEntry(st: SaveState, deps: seq<Dep>, sent: seq<Entry<Value>>, d: Dep)
    requires Remembers(st, deps, sent) && Compressed(deps, sent)
    ensures var (st', e) := SaveStep(st, d);
            Remembers(st', deps + [d], sent + [e]) &&
            Compressed(deps + [d], sent + [e])
  {
    var (st', e) := SaveStep(st, d);
    var deps', sent' := deps + [d], sent + [e];
    assert sent'[..|sent|] == sent && sent'[|sent|] == e && deps'[|deps|] == d;
    forall v ensures v in st'.map_ <==> !IsNew(deps', |deps'|, v) {
      NewAfter(deps, d, v);
    }
    forall v | v in st'.map_ ensures GivenAs(sent', |sent'|, v, st'.map_[v]) {
      if v in st.map_ && st'.map_[v] == st.map_[v] {
        GivenStays(sent, e, v, st.map_[v]);
      }
    }
    if d.1.Some? {
      NewAfter(deps, d, d.1.value);
      if d.1.value in st.map_ {
        GivenAtEnd(sent, e, d.1.value, st.map_[d.1.value]);
      }
    }
    forall x | 0 <= x < |deps'| ensures EntryOk(deps', sent', x) {
      if x < |deps| {
        EntryStays(deps, sent, d, e, x);
      }
    }
  }

  lemma GivenAtEnd(sent: seq<Entry<Value>>, e: Entry<Value>, v: Value, num: nat)
    requires GivenAs(sent, |sent|, v, num)
    ensures GivenAs(sent + [e], |sent|, v, num)
  {
    var y :| 0 <= y < |sent| && sent[y].Def? && sent[y].fs == v && sent[y].num == num;
    assert (sent + [e])[y] == sent[y];
  }

  lemma {:induction false} OneMoreTable(st: SaveState, deps: seq<Dep>, sent: seq<Entry<Value>>,
                                        more: Dict<Key, Option<Value>>)
    requires Remembers(st, deps, sent) && Compressed(deps, sent)
    ensures var (st', entries) := SaveEntries(st, more);
            Remembers(st', deps + more, sent + entries) && Compressed(deps + more, sent + entries)
    decreases |more|
  {
    if more == [] {
      assert deps + more == deps && sent + [] == sent;
    } else {
      var n := |more| - 1;
      OneMoreTable(st, deps, sent, more[..n]);
      var (st1, entries) := SaveEntries(st, more[..n]);
      OneMoreEntry(st1, deps + more[..n], sent + entries, more[n]);
      var e := SaveStep(st1, more[n]).1;
      assert deps + more[..n] + [more[n]] == deps + more;
      assert sent + entries + [e] == sent + (entries + [e]);
    }
  }

  function DepsOf(t: Table): seq<Dep> {
    if t.None? then [] else t.value
  }

  function EntriesOf(saved: Saved): seq<Entry<Value>> {
    if saved.None? then [] else saved.value
  }

  /** What is sent agrees with what there is to send, and the sender knows it. */
  ghost predicate InStep(st: SaveState, deps: seq<Dep>, sent: seq<Entry<Value>>) {
    Remembers(st, deps, sent) && Compressed(deps, sent)
  }

  lemma TableInStep(st: SaveState, deps: seq<Dep>, sent: seq<Entry<Value>>, t: Table)
    requires InStep(st, deps, sent)
    ensures var (st', saved) := SaveTable(st, t); InStep(st', deps + DepsOf(t), sent + EntriesOf(saved))
  {
    if t.Some? {
      OneMoreTable(st, deps, sent, t.value);
    } else {
      assert deps + [] == deps && sent + [] == sent;
    }
  }

  lemma FirstOfStream(st: SaveState, tables: seq<Table>)
    requires tables != []
    ensures var (st', saved) := SaveTable(st, tables[0]);
            AllEntries(SendStream(st, tables)) == EntriesOf(saved) + AllEntries(SendStream(st', tables[1..]))
  {
    var (st', saved) := SaveTable(st, tables[0]);
    assert SendStream(st, tables)[1..] == SendStream(st', tables[1..]);
  }

  lemma {:induction false} StreamInStep(st: SaveState, deps: seq<Dep>, sent: seq<Entry<Value>>, tables: seq<Table>)
    requires InStep(st, deps, sent)
    ensures Compressed(deps + AllDeps(tables), sent + AllEntries(SendStream(st, tables)))
    decreases |tables|
  {
    if tables == [] {
      assert deps + [] == deps && sent + [] == sent;
    } else {
      var (st', saved) := SaveTable(st, tables[0]);
      var own, entries, rest := DepsOf(tables[0]), EntriesOf(saved), AllEntries(SendStream(st', tables[1..]));
      TableInStep(st, deps, sent, tables[0]);
      StreamInStep(st', deps + own, sent + entries, tables[1..]);
      FirstOfStream(st, tables);
      Regroup(deps, own, AllDeps(tables[1..]));
      Regroup(sent, entries, rest);
    }
  }

  /** Everything that a sender sends after a reset, over any tables: each value in full once and then by its number
      only, and the numbers given out are 1, 2, 3 and so on.  Tables that are missing are sent as missing. */
  lemma SentOnce(tables: seq<Table>)
    ensures Compressed(AllDeps(tables), AllEntries(SendStream(RESET, tables)))
    ensures forall i | 0 <= i < |tables| :: SameSize(SendStream(RESET, tables)[i], tables[i])
  {
    ResetInStep();
    StreamInStep(RESET, [], [], tables);
    FromNothing(AllDeps(tables), AllEntries(SendStream(RESET, tables)));
    TableSizes(RESET, tables);
  }

  lemma FromNothing(deps: seq<Dep>, sent: seq<Entry<Value>>)
    requires Compressed([] + deps, [] + sent)
    ensures Compressed(deps, sent)
  {
    assert [] + deps == deps && [] + sent == sent;
  }

  lemma ResetInStep()
    ensures InStep(RESET, [], [])
  {
    assert forall v :: IsNew([], 0, v);
  }

  predicate SameSize(saved: Saved, t: Table) {
    (saved.None? <==> t.None?) && (t.Some? ==> |saved.value| == |t.value|)
  }

  lemma {:induction false} TableSizes(st: SaveState, tables: seq<Table>)
    ensures forall i | 0 <= i < |tables| :: SameSize(SendStream(st, tables)[i], tables[i])
    decreases |tables|
  {
    if tables != [] {
      var st1 := SaveTable(st, tables[0]).0;
      TableSizes(st1, tables[1..]);
      forall i | 0 <= i < |tables| ensures SameSize(SendStream(st, tables)[i], tables[i]) {
        if i > 0 {
          assert SendStream(st, tables)[i] == SendStream(st1, tables[1..])[i - 1];
        }
      }
    }
  }

  /** So no two entries carry the same value. */
  lemma NoValueTwice(deps: seq<Dep>, sent: seq<Entry<Value>>, x: nat, y: nat)
    requires Compressed(deps, sent) && x < y < |sent| && sent[x].Def? && sent[y].Def?
    ensures sent[x].fs != sent[y].fs && sent[x].num < sent[y].num
  {
    assert EntryOk(deps, sent, x) && EntryOk(deps, sent, y);
    DefsBetween(sent, x, y);
  }

  lemma {:induction false} DefsBetween(sent: seq<Entry<Value>>, x: nat, y: nat)
    requires x < y <= |sent| && sent[x].Def?
    ensures DefCount(sent[..x]) < DefCount(sent[..y])
    decreases y
  {
    assert sent[..y][..y - 1] == sent[..y - 1];
    if x < y - 1 {
      DefsBetween(sent, x, y - 1);
    }
  }
}
