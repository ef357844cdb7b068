/** Reading inotify buffers and processing the event queue: class Notifier in pyinotify.py. */
module Notifier {
  import opened Wrappers
  import opened Sequences
  import opened Bytes
  import opened Text
  import opened InotifyEvent
  import opened EventKey
  import opened MoveTracker

  const HEADER: nat := 16

  /** An event as it lies in the buffer; the name is padded with NUL bytes. */
  datatype Raw = Raw(wd: int, mask: nat, cookie: nat, name: seq<Byte>)

  predicate ValidRaw(e: Raw) {
    -0x8000_0000 <= e.wd < 0x8000_0000 && e.mask < 0x1_0000_0000 && e.cookie < 0x1_0000_0000 && |e.name| < 0x1_0000_0000
  }

  function Signed(n: nat): int {
    if n < 0x8000_0000 then n else n - 0x1_0000_0000
  }

  function Unsigned(n: int): nat
    requires -0x8000_0000 <= n < 0x8000_0000
  {
    if n < 0 then n + 0x1_0000_0000 else n
  }

  function Encode(e: Raw): seq<Byte>
    requires ValidRaw(e)
  {
    Pack(Unsigned(e.wd), 4) + Pack(e.mask, 4) + Pack(e.cookie, 4) + Pack(|e.name|, 4) + e.name
  }

  function EncodeAll(es: seq<Raw>): seq<Byte>
    requires forall e | e in es :: ValidRaw(e)
  {
    if es == [] then [] else Encode(es[0]) + EncodeAll(es[1..])
  }

  /** The first event of a buffer, unless the buffer is too short for its header or its name. */
  function First(buf: seq<Byte>): Option<Raw> {
    if |buf| < HEADER then None else
      var n := Little(buf[12..16]);
      if |buf| < HEADER + n then None
      else Some(Raw(Signed(Little(buf[0..4])), Little(buf[4..8]), Little(buf[8..12]), buf[HEADER..HEADER + n]))
  }

  /** The events of a buffer up to the point where unpacking fails, and whether it got to the end. */
  function Parse(buf: seq<Byte>): (seq<Raw>, bool) {
    if buf == [] then
      ([], true)
    else
      match First(buf)
      case None => ([], false)
      case Some(e) =>
        var (es, ok) := Parse(buf[HEADER + |e.name|..]);
        ([e] + es, ok)
  }

  lemma FirstOfEncode(e: Raw, rest: seq<Byte>)
    requires ValidRaw(e)
    ensures First(Encode(e) + rest) == Some(e)
    ensures (Encode(e) + rest)[HEADER + |e.name|..] == rest
  {
    var a, b, c, d := Pack(Unsigned(e.wd), 4), Pack(e.mask, 4), Pack(e.cookie, 4), Pack(|e.name|, 4);
    var buf := Encode(e) + rest;
    assert Limit(4) == 0x1_0000_0000;
    LittlePack(Unsigned(e.wd), 4);
    LittlePack(e.mask, 4);
    LittlePack(e.cookie, 4);
    LittlePack(|e.name|, 4);
    FiveParts(a, b, c, d, e.name, rest);
    assert buf == a + b + c + d + e.name + rest;
  }

  lemma FiveParts(a: seq<Byte>, b: seq<Byte>, c: seq<Byte>, d: seq<Byte>, name: seq<Byte>, rest: seq<Byte>)
    requires |a| == |b| == |c| == |d| == 4
    ensures var s := a + b + c + d + name + rest;
            && s[0..4] == a && s[4..8] == b && s[8..12] == c && s[12..16] == d
            && s[HEADER..HEADER + |name|] == name && s[HEADER + |name|..] == rest
  {
  }

  lemma EncodeOfFirst(buf: seq<Byte>)
    requires First(buf).Some?
    ensures var e := First(buf).value; ValidRaw(e) && buf == Encode(e) + buf[HEADER + |e.name|..]
  {
    var e := First(buf).value;
    assert Limit(4) == 0x1_0000_0000;
    PackLittle(buf[0..4]);
    PackLittle(buf[4..8]);
    PackLittle(buf[8..12]);
    PackLittle(buf[12..16]);
    assert Unsigned(Signed(Little(buf[0..4]))) == Little(buf[0..4]);
    FivePieces(buf, |e.name|);
  }

  lemma FivePieces(buf: seq<Byte>, n: nat)
    requires HEADER + n <= |buf|
    ensures buf[0..4] + buf[4..8] + buf[8..12] + buf[12..16] + buf[HEADER..HEADER + n] + buf[HEADER + n..] == buf
  {
    assert buf[0..4] + buf[4..8] + buf[8..12] + buf[12..16] == buf[..HEADER];
  }

  /** A buffer that is a concatenation of events gives back exactly those events and ends with the last. */
  lemma {:induction false} ParseOfEncode(es: seq<Raw>)
    requires forall e | e in es :: ValidRaw(e)
    ensures Parse(EncodeAll(es)) == (es, true)
  {
    if es != [] {
      ParseOfEncode(es[1..]);
      FirstOfEncode(es[0], EncodeAll(es[1..]));
      assert es == [es[0]] + es[1..];
    }
  }

  /** Reading ends exactly at the buffer size only for a concatenation of events. */
  lemma {:induction false} EncodeOfParse(buf: seq<Byte>)
    ensures forall e | e in Parse(buf).0 :: ValidRaw(e)
    ensures Parse(buf).1 ==> EncodeAll(Parse(buf).0) == buf
    ensures Parse(buf).1 <==> exists es :: (forall e | e in es :: ValidRaw(e)) && buf == EncodeAll(es)
  {
    if buf != [] && First(buf).Some? {
      EncodeOfFirst(buf);
      EncodeOfParse(buf[HEADER + |First(buf).value.name|..]);
      assert Parse(buf).0[1..] == Parse(buf[HEADER + |First(buf).value.name|..]).0;
    }
    if Parse(buf).1 {
      var es := Parse(buf).0;
      assert (forall e | e in es :: ValidRaw(e)) && buf == EncodeAll(es);
    }
    if es :| (forall e | e in es :: ValidRaw(e)) && buf == EncodeAll(es) {
      ParseOfEncode(es);
    }
  }

  // Names

  /** Trailing NUL bytes are padding. */
  function Stripped(name: seq<Byte>): seq<Byte> {
    if name != [] && Last(name) == 0 then Stripped(name[..|name| - 1]) else name
  }

  function Chars(bytes: seq<Byte>): string {
    seq(|bytes|, i requires 0 <= i < |bytes| => bytes[i] as char)
  }

  function EventOf(e: Raw): RawEvent
    requires ValidRaw(e)
  {
    RawEvent(e.wd, e.mask, e.cookie, Chars(Stripped(e.name)))
  }

  function EventsOf(es: seq<Raw>): (r: seq<RawEvent>)
    requires forall e | e in es :: ValidRaw(e)
    ensures |r| == |es|
  {
    seq(|es|, i requires 0 <= i < |es| => EventOf(es[i]))
  }

  lemma {:induction false} StrippedPadding(name: seq<Byte>, n: nat)
    requires 0 !in name
    ensures Stripped(name + Zeros(n)) == name
  {
    if n == 0 {
      assert name + Zeros(0) == name;
    } else {
      assert (name + Zeros(n))[..|name| + n - 1] == name + Zeros(n - 1);
      StrippedPadding(name, n - 1);
    }
  }

  /** The queued event has the fields of the event in the buffer, and its name one character for each byte up to the
      padding: the rest is NUL bytes, and the last character is none. */
  ghost predicate ShowsEvent(ev: RawEvent, e: Raw) {
    && ev.wd == e.wd && ev.mask == e.mask && ev.cookie == e.cookie
    && |ev.name| <= |e.name|
    && (forall k | 0 <= k < |ev.name| :: ev.name[k] as int == e.name[k])
    && (forall k | |ev.name| <= k < |e.name| :: e.name[k] == 0)
    && (ev.name != [] ==> ev.name[|ev.name| - 1] as int != 0)
  }

  /** The last events are what was read, in order. */
  ghost predicate ShowsEvents(evs: seq<RawEvent>, es: seq<Raw>) {
    |evs| == |es| && forall i | 0 <= i < |es| :: ShowsEvent(evs[i], es[i])
  }

  lemma {:induction false} StrippedEnd(name: seq<Byte>)
    ensures var s := Stripped(name);
            s <= name && (forall k | |s| <= k < |name| :: name[k] == 0) && (s != [] ==> Last(s) != 0)
  {
    if name != [] && Last(name) == 0 {
      StrippedEnd(name[..|name| - 1]);
    }
  }

  lemma EventIsShown(e: Raw)
    requires ValidRaw(e)
    ensures ShowsEvent(EventOf(e), e)
  {
    StrippedEnd(e.name);
  }

  lemma EventsAreShown(es: seq<Raw>)
    requires forall e | e in es :: ValidRaw(e)
    ensures ShowsEvents(EventsOf(es), es)
  {
    forall i | 0 <= i < |es| ensures ShowsEvent(EventsOf(es)[i], es[i]) {
      assert es[i] in es;
      EventIsShown(es[i]);
    }
  }

  function Padded(e: Raw, n: nat): Raw {
    e.(name := e.name + Zeros(n))
  }

  /** What is shown of an event whose name has no NUL byte, behind any padding: all of its name and no more. */
  lemma PaddedIsShown(ev: RawEvent, e: Raw, n: nat)
    requires 0 !in e.name && ShowsEvent(ev, Padded(e, n))
    ensures ev.wd == e.wd && ev.mask == e.mask && ev.cookie == e.cookie
    ensures |ev.name| == |e.name| && forall k | 0 <= k < |e.name| :: ev.name[k] as int == e.name[k]
  {
    var padded := e.name + Zeros(n);
    assert forall k | 0 <= k < |e.name| :: padded[k] == e.name[k] != 0;
    assert forall k | |e.name| <= k < |padded| :: padded[k] == 0;
    assert |ev.name| < |padded| ==> padded[|ev.name|] == 0;
  }

  /** Any events, names padded with any number of NUL bytes, are read back as they were. */
  lemma {:induction false} PaddedEventsReadBack(es: seq<Raw>, padded: seq<Raw>, pads: seq<nat>)
    requires |es| == |padded| == |pads|
    requires forall i | 0 <= i < |es| :: 0 !in es[i].name && padded[i] == Padded(es[i], pads[i])
    requires forall e | e in es + padded :: ValidRaw(e)
    ensures Parse(EncodeAll(padded)) == (padded, true)
    ensures EventsOf(padded) == EventsOf(es)
    ensures forall i | 0 <= i < |es| :: ShowsEvent(EventsOf(padded)[i], es[i])
  {
    EventsAreShown(es);
    ParseOfEncode(padded);
    forall i | 0 <= i < |es| ensures EventOf(padded[i]) == EventOf(es[i]) {
      StrippedPadding(es[i].name, pads[i]);
      StrippedPadding(es[i].name, 0);
      assert es[i].name + Zeros(0) == es[i].name;
    }
  }

  // The queue

  function EventSteps(queue: seq<RawEvent>, times: seq<int>): seq<Step>
    requires |times| >= |queue|
  {
    if queue == [] then [] else EventSteps(queue[..|queue| - 1], times) + [Event(Last(queue), times[|queue| - 1])]
  }

  /** The steps of one call of `process_events`. */
  function BatchSteps(queue: seq<RawEvent>, ignoreEvents: bool, times: seq<int>): seq<Step>
    requires |times| == |queue| + 1
  {
    (if ignoreEvents then [] else EventSteps(queue, times)) + [Clean(times[|queue|])]
  }

  /** A call handles the events of the queue in order, each at its own reading of the clock, and cleans up at the last;
      when events are ignored it only cleans up. */
  lemma {:induction false} BatchStepsAre(queue: seq<RawEvent>, ignoreEvents: bool, times: seq<int>)
    requires |times| == |queue| + 1
    ensures var steps := BatchSteps(queue, ignoreEvents, times); var n := if ignoreEvents then 0 else |queue|;
            && |steps| == n + 1 && steps[n] == Clean(times[|queue|])
            && forall i | 0 <= i < n :: steps[i] == Event(queue[i], times[i])
  {
    EventStepsAre(queue, times);
  }

  lemma {:induction false} EventStepsAre(queue: seq<RawEvent>, times: seq<int>)
    requires |times| >= |queue|
    ensures |EventSteps(queue, times)| == |queue|
    ensures forall i | 0 <= i < |queue| :: EventSteps(queue, times)[i] == Event(queue[i], times[i])
  {
    if queue != [] {
      EventStepsAre(queue[..|queue| - 1], times);
    }
  }

  class EventQueue {
    const threshold: nat
    const str: RawEvent -> string    // the text of an event
    var eventq: seq<RawEvent>
    var eventset: set<string>
    var coalesce: bool
    ghost var queued: seq<RawEvent>  // what was in the queue when this batch began
    ghost var batch: seq<RawEvent>   // what has been read in this batch

    ghost predicate Valid()
      reads this
    {
      && eventq == queued + (if coalesce then FirstBy(batch, str) else batch)
      && eventset == (if coalesce then KeysOf(batch, str) else {})
    }

    constructor (threshold: nat)
      ensures Valid() && eventq == [] && batch == [] && !coalesce && this.threshold == threshold && str == Key
    {
      this.threshold, str := threshold, Key;
      eventq, eventset, coalesce := [], {}, false;
      queued, batch := [], [];
    }

    /** Turns coalescing on or off; what is in the queue stays. */
    method CoalesceEvents(on: bool)
      requires Valid()
      modifies this
      ensures Valid() && coalesce == on && eventq == old(eventq)
      ensures old(coalesce) && on ==> batch == old(batch)
    {
      if !(coalesce && on) {
        queued, batch := eventq, [];
      }
      coalesce := on;
      if !on {
        eventset := {};
      }
    }

    /** Adds one event, unless coalescing finds its key among those of the batch. */
    method Enqueue(ev: RawEvent)
      requires Valid()
      modifies this`eventq, this`eventset, this`batch
      ensures Valid() && batch == old(batch) + [ev]
    {
      batch := batch + [ev];
      assert batch[..|batch| - 1] == old(batch);
      if coalesce {
        AddedKey(old(batch), ev, str);
        var key := str(ev);
        if key !in eventset {
          eventset := eventset + {key};
          eventq := eventq + [ev];
        }
      } else {
        eventq := eventq + [ev];
      }
    }

    /** Reads a buffer whose size is at least the threshold.  Unpacking a header or name that is cut short
        raises; the events before it have been queued. */
    method ReadEvents(r: seq<Byte>) returns (ok: bool)
      requires Valid()
      modifies this`eventq, this`eventset, this`batch
      ensures Valid()
      ensures |r| < threshold ==> ok && batch == old(batch) && eventq == old(eventq)
      ensures |r| >= threshold ==>
                && (ok <==> exists es :: (forall e | e in es :: ValidRaw(e)) && r == EncodeAll(es))
                && (forall e | e in Parse(r).0 :: ValidRaw(e)) && batch == old(batch) + EventsOf(Parse(r).0)
                && ShowsEvents(batch[|old(batch)|..], Parse(r).0)
    {
      EncodeOfParse(r);
      if |r| < threshold {
        return true;
      }
      assert [] + Parse(r).0 == Parse(r).0;
      ok := ReadAll(r, Parse(r));
      EventsAreShown(Parse(r).0);
    }

    method ReadAll(r: seq<Byte>, ghost all: (seq<Raw>, bool)) returns (ok: bool)
      requires Valid() && ReadSoFar(all, [], r) && forall e | e in all.0 :: ValidRaw(e)
      modifies this`eventq, this`eventset, this`batch
      ensures Valid() && ok == all.1 && batch == old(batch) + EventsOf(all.0)
    {
      var rsum := 0;
      ghost var done: seq<Raw> := [];
      assert r[0..] == r;
      while rsum < |r|
        invariant rsum <= |r| && Valid()
        invariant ReadSoFar(all, done, r[rsum..]) && batch == old(batch) + EventsOf(done)
      {
        var next;
        next, done := ReadOne(r, rsum, all, done, old(batch));
        if next.None? {
          return false;
        }
        rsum := next.value;
      }
      ReadToEnd(all, done, r[rsum..]);
      ok := true;
    }

    /** Reads the event at an offset and adds it to the queue; gives the offset behind it. */
    method ReadOne(r: seq<Byte>, rsum: nat, ghost all: (seq<Raw>, bool), ghost done: seq<Raw>,
                   ghost base: seq<RawEvent>)
      returns (next: Option<nat>, ghost more: seq<Raw>)
      requires Valid() && rsum < |r| && ReadSoFar(all, done, r[rsum..]) && batch == base + EventsOf(done)
      modifies this`eventq, this`eventset, this`batch
      ensures Valid()
      ensures next.None? ==> more == done && batch == old(batch) && all == (done, false)
      ensures next.Some? ==>
                && rsum < next.value <= |r| && ReadSoFar(all, more, r[next.value..])
                && batch == base + EventsOf(more)
    {
      ghost var rest := r[rsum..];
      var e := Unpack(r, rsum);
      if e.Some? {
        FirstIsRead(rest, e.value);
        ReadOneMore(all, done, rest, e.value);
        assert rest[HEADER + |e.value.name|..] == r[rsum + HEADER + |e.value.name|..];
        Enqueue(EventOf(e.value));
        EventsSnoc(done, e.value);
        assert base + (EventsOf(done) + [EventOf(e.value)]) == old(batch) + [EventOf(e.value)];
        next, more := Some(rsum + HEADER + |e.value.name|), done + [e.value];
      } else {
        ReadToFailure(all, done, rest);
        next, more := None, done;
      }
    }

    /** Unpacks the header and the name at an offset; `None` stands for the exception. */
    static method Unpack(r: seq<Byte>, rsum: nat) returns (e: Option<Raw>)
      requires rsum < |r|
      ensures e == First(r[rsum..])
    {
      ghost var rest := r[rsum..];
      var header := r[rsum..if rsum + HEADER <= |r| then rsum + HEADER else |r|];
      if |header| != HEADER {
        return None;
      }
      assert header == rest[..HEADER];
      HeaderFields(rest, header);
      var fnameLen := Little(header[12..16]);
      if rsum + HEADER + fnameLen > |r| {
        return None;
      }
      var bname := r[rsum + HEADER..rsum + HEADER + fnameLen];
      assert bname == rest[HEADER..HEADER + fnameLen];
      e := Some(Raw(Signed(Little(header[0..4])), Little(header[4..8]), Little(header[8..12]), bname));
    }

    /** Handles the first event of the queue, unless events are to be ignored. */
    method ProcessNext(sys: SysProcessEvent, ignoreEvents: bool, now: int, ghost s0: Tracker, ghost handled: seq<Step>)
      requires eventq != [] && sys.Valid() && sys.State() == Steps(s0, handled)
      modifies this`eventq, sys, sys.wmd.Values
      ensures eventq == old(eventq)[1..]
      ensures sys.Valid() && sys.wmd.Values <= old(sys.wmd.Values)
      ensures sys.State() == Steps(s0, if ignoreEvents then handled else handled + [Event(old(eventq)[0], now)])
    {
      var ev := eventq[0];
      eventq := eventq[1..];
      if !ignoreEvents {
        sys.Process(ev, now);
        StepsSnoc(s0, handled, Event(ev, now));
      }
    }

    /** Handles and removes every queued event. */
    method DrainQueue(sys: SysProcessEvent, ignoreEvents: bool, times: seq<int>)
      requires sys.Valid() && |times| >= |eventq|
      modifies this`eventq, sys, sys.wmd.Values
      ensures eventq == [] && sys.Valid()
      ensures sys.State() == Steps(old(sys.State()), if ignoreEvents then [] else EventSteps(old(eventq), times))
    {
      ghost var all, s0 := eventq, sys.State();
      ghost var handled: seq<Step> := [];
      var k := 0;
      while eventq != []
        invariant k <= |all| && eventq == all[k..] && sys.Valid()
        invariant sys.wmd.Values <= old(sys.wmd.Values)
        invariant sys.State() == Steps(s0, handled)
        invariant handled == if ignoreEvents then [] else EventSteps(all[..k], times)
        decreases |eventq|
      {
        EventStepsSnoc(all, times, k);
        ProcessNext(sys, ignoreEvents, times[k], s0, handled);
        handled := if ignoreEvents then handled else handled + [Event(all[k], times[k])];
        k := k + 1;
      }
      assert all[..k] == all;
    }

    /** Forgets the keys of the batch. */
    method EndBatch()
      requires eventq == [] && (!coalesce ==> eventset == {})
      modifies this`eventset, this`queued, this`batch
      ensures Valid() && batch == []
    {
      if coalesce {
        eventset := {};
      }
      queued, batch := [], [];
    }

    static method CleanUp(sys: SysProcessEvent, now: int, ghost s0: Tracker, ghost handled: seq<Step>)
      requires sys.Valid() && sys.State() == Steps(s0, handled)
      modifies sys
      ensures sys.Valid() && sys.State() == Steps(s0, handled + [Clean(now)])
    {
      StepsSnoc(s0, handled, Clean(now));
      sys.Clean(now);
    }

    /** Handles the queue, cleans up, and starts a new batch.  `times` are the readings of the clock; nothing
        is handled while events are to be ignored. */
    method ProcessEvents(sys: SysProcessEvent, ignoreEvents: bool, times: seq<int>)
      requires Valid() && sys.Valid() && |times| == |eventq| + 1
      modifies this, sys, sys.wmd.Values
      ensures Valid() && eventq == [] && batch == [] && coalesce == old(coalesce) && sys.Valid()
      ensures sys.State() == Steps(old(sys.State()), BatchSteps(old(eventq), ignoreEvents, times))
    {
      var n := |eventq|;
      ghost var s0, steps := sys.State(), if ignoreEvents then [] else EventSteps(eventq, times);
      DrainQueue(sys, ignoreEvents, times);
      CleanUp(sys, times[n], s0, steps);
      EndBatch();
      assert BatchSteps(old(eventq), ignoreEvents, times) == steps + [Clean(times[n])];
    }
  }

  lemma FirstIsRead(rest: seq<Byte>, e: Raw)
    requires rest != [] && First(rest) == Some(e)
    ensures HEADER + |e.name| <= |rest| && ValidRaw(e)
  {
    EncodeOfFirst(rest);
  }

  lemma EventsSnoc(done: seq<Raw>, e: Raw)
    requires (forall d | d in done :: ValidRaw(d)) && ValidRaw(e)
    ensures EventsOf(done + [e]) == EventsOf(done) + [EventOf(e)]
    ensures forall d | d in done + [e] :: ValidRaw(d)
  {
  }

  lemma EventStepsSnoc(queue: seq<RawEvent>, times: seq<int>, k: nat)
    requires k < |queue| && |times| >= |queue|
    ensures EventSteps(queue[..k + 1], times) == EventSteps(queue[..k], times) + [Event(queue[k], times[k])]
  {
    assert queue[..k + 1][..k] == queue[..k];
  }

  lemma StepsSnoc(s: Tracker, steps: seq<Step>, e: Step)
    ensures Steps(s, steps + [e]) == StepOnce(Steps(s, steps), e)
  {
    assert (steps + [e])[..|steps|] == steps;
  }

  lemma ParseCons(rest: seq<Byte>, e: Raw, tail: (seq<Raw>, bool))
    requires rest != [] && First(rest) == Some(e) && HEADER + |e.name| <= |rest|
    requires tail == Parse(rest[HEADER + |e.name|..])
    ensures Parse(rest) == ([e] + tail.0, tail.1)
  {
  }

  /** Of everything there is to read, `done` has been read and `rest` is left. */
  ghost predicate ReadSoFar(all: (seq<Raw>, bool), done: seq<Raw>, rest: seq<Byte>) {
    (forall e | e in done :: ValidRaw(e)) && all.0 == done + Parse(rest).0 && all.1 == Parse(rest).1
  }

  lemma ReadOneMore(all: (seq<Raw>, bool), done: seq<Raw>, rest: seq<Byte>, e: Raw)
    requires ReadSoFar(all, done, rest) && ValidRaw(e)
    requires rest != [] && First(rest) == Some(e) && HEADER + |e.name| <= |rest|
    ensures ReadSoFar(all, done + [e], rest[HEADER + |e.name|..])
  {
    var tail := Parse(rest[HEADER + |e.name|..]);
    ParseCons(rest, e, tail);
    Regroup(done, [e], tail.0);
  }

  lemma ReadToFailure(all: (seq<Raw>, bool), done: seq<Raw>, rest: seq<Byte>)
    requires ReadSoFar(all, done, rest) && rest != [] && First(rest) == None
    ensures all == (done, false)
  {
    assert done + [] == done;
  }

  lemma ReadToEnd(all: (seq<Raw>, bool), done: seq<Raw>, rest: seq<Byte>)
    requires ReadSoFar(all, done, rest) && rest == []
    ensures all == (done, true)
  {
    assert done + [] == done;
  }

  lemma HeaderFields(rest: seq<Byte>, header: seq<Byte>)
    requires HEADER <= |rest| && header == rest[..HEADER]
    ensures header[0..4] == rest[0..4] && header[4..8] == rest[4..8] && header[8..12] == rest[8..12] &&
            header[12..16] == rest[12..16]
  {
  }

  lemma AddedKey<T, K>(batch: seq<T>, ev: T, key: T -> K)
    ensures KeysOf(batch + [ev], key) == KeysOf(batch, key) + {key(ev)}
    ensures FirstBy(batch + [ev], key) ==
            if key(ev) in KeysOf(batch, key) then FirstBy(batch, key) else FirstBy(batch, key) + [ev]
  {
    var all := batch + [ev];
    assert all[..|all| - 1] == batch;
    forall k | k in KeysOf(batch, key) + {key(ev)} ensures k in KeysOf(all, key) {
      if k == key(ev) {
        assert key(all[|batch|]) == k;
      } else {
        var i :| 0 <= i < |batch| && key(batch[i]) == k;
        assert key(all[i]) == k;
      }
    }
  }
}
