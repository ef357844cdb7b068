/** The text of a raw event, which coalescing uses as its key: `_Event.__repr__` in pyinotify.py. */
module EventKey {
  import opened Text
  import opened InotifyEvent

  function Digit(d: nat): char
    requires d < 16
  {
    if d < 10 then '0' + d as char else 'a' + (d - 10) as char
  }

  function Number(n: nat, radix: nat): (s: string)
    requires 2 <= radix <= 16
    ensures s != "" && (n >= radix ==> |s| >= 2)
    decreases n
  {
    if n < radix then [Digit(n)] else Number(n / radix, radix) + [Digit(n % radix)]
  }

  lemma DigitIsPlain(d: nat)
    requires d < 16
    ensures Digit(d) != ' ' && Digit(d) != '-'
  {
  }

  lemma DivSmaller(n: nat, radix: nat)
    requires 2 <= radix <= n
    ensures 0 < n / radix < n && n % radix < radix
  {
  }

  lemma {:induction false} NumberDigits(n: nat, radix: nat)
    requires 2 <= radix <= 16
    ensures forall c | c in Number(n, radix) :: c != ' ' && c != '-'
    decreases n
  {
    if n >= radix {
      DivSmaller(n, radix);
      NumberDigits(n / radix, radix);
      DigitIsPlain(n % radix);
    } else {
      DigitIsPlain(n);
    }
  }

  function Decimal(n: int): string {
    if n < 0 then "-" + Number(-n, 10) else Number(n, 10)
  }

  /** An empty name is shown as two quotes. */
  function ShownName(name: string): string {
    if name == "" then "''" else name
  }

  function Key(ev: RawEvent): string {
    "<_RawEvent cookie=" + Decimal(ev.cookie) + " mask=0x" + Number(ev.mask, 16) +
    " name=" + ShownName(ev.name) + " wd=" + Decimal(ev.wd) + " >"
  }

  lemma SameLast(a: string, x: char, b: string, y: char)
    requires a + [x] == b + [y]
    ensures a == b && x == y
  {
    assert (a + [x])[|a|] == x && (b + [y])[|b|] == y;
    assert a == (a + [x])[..|a|] && b == (b + [y])[..|b|];
  }

  lemma SameQuotient(m: nat, n: nat, radix: nat)
    requires radix > 0 && m / radix == n / radix && m % radix == n % radix
    ensures m == n
  {
    assert m == m / radix * radix + m % radix;
    assert n == n / radix * radix + n % radix;
  }

  /** The last digit and the digits before it. */
  lemma NumberParts(n: nat, radix: nat) returns (q: nat, d: nat)
    requires 2 <= radix <= 16 && n >= radix
    ensures q == n / radix && d == n % radix < 16 && Number(n, radix) == Number(q, radix) + [Digit(d)]
  {
    q, d := n / radix, n % radix;
  }

  lemma {:induction false} NumberInjective(m: nat, n: nat, radix: nat)
    requires 2 <= radix <= 16 && Number(m, radix) == Number(n, radix)
    ensures m == n
    decreases |Number(m, radix)|
  {
    if m >= radix && n >= radix {
      var q, d := NumberParts(m, radix);
      var q', d' := NumberParts(n, radix);
      SameLast(Number(q, radix), Digit(d), Number(q', radix), Digit(d'));
      NumberInjective(q, q', radix);
      SameQuotient(m, n, radix);
    }
  }

  lemma DecimalInjective(m: int, n: int)
    requires Decimal(m) == Decimal(n)
    ensures m == n
  {
    if m < 0 && n < 0 {
      assert Decimal(m)[1..] == Number(-m, 10) && Decimal(n)[1..] == Number(-n, 10);
      NumberInjective(-m, -n, 10);
    } else if m >= 0 && n >= 0 {
      NumberInjective(m, n, 10);
    } else {
      var k := if m < 0 then n else m;
      NumberDigits(k, 10);
      assert Number(k, 10)[0] in Number(k, 10);
    }
  }

  lemma NoSpaces(n: int, m: nat)
    ensures ' ' !in Decimal(n) && ' ' !in Number(m, 16)
  {
    NumberDigits(if n < 0 then -n else n, 10);
    NumberDigits(m, 16);
  }

  /** The fields of an event can be told apart in its text, although names may contain spaces. */
  lemma SplitKey(ev: RawEvent)
    ensures Split(Key(ev), ' ') ==
            ["<_RawEvent", "cookie=" + Decimal(ev.cookie), "mask=0x" + Number(ev.mask, 16)] +
            Split("name=" + ShownName(ev.name), ' ') + ["wd=" + Decimal(ev.wd), ">"]
  {
    NoSpaces(ev.cookie, ev.mask);
    NoSpaces(ev.wd, ev.mask);
    assert Key(ev) == "<_RawEvent" + " " + ("cookie=" + Decimal(ev.cookie)) + " " +
                      ("mask=0x" + Number(ev.mask, 16)) + " " +
                      ("name=" + ShownName(ev.name)) + " " + ("wd=" + Decimal(ev.wd)) + " " + ">";
    SplitFields("<_RawEvent", "cookie=" + Decimal(ev.cookie), "mask=0x" + Number(ev.mask, 16),
                "name=" + ShownName(ev.name), "wd=" + Decimal(ev.wd), ">");
  }

  lemma SplitFields(a: string, b: string, c: string, d: string, e: string, f: string)
    requires ' ' !in a && ' ' !in b && ' ' !in c && ' ' !in e && ' ' !in f
    ensures Split(a + " " + b + " " + c + " " + d + " " + e + " " + f, ' ') == [a, b, c] + Split(d, ' ') + [e, f]
  {
    var front := a + " " + b + " " + c;
    var back := e + " " + f;
    SplitFirst(b, c);
    SplitFirst(a, b + " " + c);
    Associate(a, b, c);
    assert Split(front, ' ') == [a, b, c];
    SplitFirst(e, f);
    assert Split(back, ' ') == [e, f];
    SplitMiddle(front, d, back);
    Associate(front + " " + d, e, f);
  }

  lemma SplitMiddle(front: string, d: string, back: string)
    ensures Split(front + " " + d + " " + back, ' ') == Split(front, ' ') + Split(d, ' ') + Split(back, ' ')
  {
    SplitAppend(front + " " + d, ' ', back);
    SplitAppend(front, ' ', d);
    assert front + " " + d == front + [' '] + d;
    assert front + " " + d + " " + back == (front + " " + d) + [' '] + back;
  }

  lemma Associate(a: string, b: string, c: string)
    ensures a + " " + b + " " + c == a + " " + (b + " " + c)
  {
  }

  lemma SplitFirst(a: string, rest: string)
    requires ' ' !in a
    ensures Split(a + " " + rest, ' ') == [a] + Split(rest, ' ')
  {
    SplitAppend(a, ' ', rest);
    assert a + " " + rest == a + [' '] + rest;
  }

  /** The key tells events apart by descriptor, mask, cookie and shown name. */
  lemma KeyIdentifies(e: RawEvent, f: RawEvent)
    ensures Key(e) == Key(f) <==>
            e.wd == f.wd && e.mask == f.mask && e.cookie == f.cookie && ShownName(e.name) == ShownName(f.name)
  {
    if Key(e) == Key(f) {
      SplitKey(e);
      SplitKey(f);
      KeyFields(e, f, Split("name=" + ShownName(e.name), ' '), Split("name=" + ShownName(f.name), ' '));
    }
  }

  lemma KeyFields(e: RawEvent, f: RawEvent, p: seq<string>, q: seq<string>)
    requires p == Split("name=" + ShownName(e.name), ' ') && q == Split("name=" + ShownName(f.name), ' ')
    requires ["<_RawEvent", "cookie=" + Decimal(e.cookie), "mask=0x" + Number(e.mask, 16)] + p +
             ["wd=" + Decimal(e.wd), ">"] ==
             ["<_RawEvent", "cookie=" + Decimal(f.cookie), "mask=0x" + Number(f.mask, 16)] + q +
             ["wd=" + Decimal(f.wd), ">"]
    ensures e.wd == f.wd && e.mask == f.mask && e.cookie == f.cookie && ShownName(e.name) == ShownName(f.name)
  {
    var s := ["<_RawEvent", "cookie=" + Decimal(e.cookie), "mask=0x" + Number(e.mask, 16)] + p +
      ["wd=" + Decimal(e.wd), ">"];
    var t := ["<_RawEvent", "cookie=" + Decimal(f.cookie), "mask=0x" + Number(f.mask, 16)] + q +
      ["wd=" + Decimal(f.wd), ">"];
    assert s[3..|s| - 2] == p && t[3..|t| - 2] == q;
    JoinSplit("name=" + ShownName(e.name), ' ');
    JoinSplit("name=" + ShownName(f.name), ' ');
    SameAfter("name=", ShownName(e.name), ShownName(f.name));
    assert s[1] == t[1] && s[2] == t[2] && s[|s| - 2] == t[|t| - 2];
    SameAfter("cookie=", Decimal(e.cookie), Decimal(f.cookie));
    SameAfter("mask=0x", Number(e.mask, 16), Number(f.mask, 16));
    SameAfter("wd=", Decimal(e.wd), Decimal(f.wd));
    DecimalInjective(e.cookie, f.cookie);
    DecimalInjective(e.wd, f.wd);
    NumberInjective(e.mask, f.mask, 16);
  }

  lemma SameAfter(prefix: string, a: string, b: string)
    requires prefix + a == prefix + b
    ensures a == b
  {
    assert a == (prefix + a)[|prefix|..];
    assert b == (prefix + b)[|prefix|..];
  }

  /** Two different events with one key: an event on the directory itself and the same event on a file in
      it whose name is two quotes. */
  ghost predicate Confused(e: RawEvent, f: RawEvent) {
    && e.wd == f.wd && e.mask == f.mask && e.cookie == f.cookie
    && ((e.name == "" && f.name == "''") || (e.name == "''" && f.name == ""))
  }

  lemma SameKeyMeansConfused(e: RawEvent, f: RawEvent)
    requires e != f
    ensures Key(e) == Key(f) <==> Confused(e, f)
  {
    KeyIdentifies(e, f);
  }

  // Coalescing a list of events

  function KeysOf<T, K>(evs: seq<T>, key: T -> K): set<K> {
    set i | 0 <= i < |evs| :: key(evs[i])
  }

  /** The first event of each key, in order. */
  function FirstBy<T, K(==)>(evs: seq<T>, key: T -> K): seq<T> {
    if evs == [] then [] else
      var init := evs[..|evs| - 1];
      if key(Last(evs)) in KeysOf(init, key) then FirstBy(init, key) else FirstBy(init, key) + [Last(evs)]
  }

  /** The events that are queued when coalescing is on. */
  function FirstOnly(evs: seq<RawEvent>): seq<RawEvent> {
    FirstBy(evs, Key)
  }

  function Same<T>(x: T): T {
    x
  }

  /** The documented result: the first occurrence of each combination of the four fields. */
  function FirstDistinct(evs: seq<RawEvent>): seq<RawEvent> {
    FirstBy(evs, Same)
  }

  ghost predicate NoConfusion(evs: seq<RawEvent>) {
    forall i, j | 0 <= i < |evs| && 0 <= j < |evs| :: !Confused(evs[i], evs[j])
  }

  ghost predicate InjectiveOn<T, K>(evs: seq<T>, key: T -> K) {
    forall i, j | 0 <= i < |evs| && 0 <= j < |evs| && key(evs[i]) == key(evs[j]) :: evs[i] == evs[j]
  }

  lemma {:induction false} FirstByMembers<T, K>(evs: seq<T>, key: T -> K)
    ensures forall e | e in FirstBy(evs, key) :: e in evs
    ensures forall e | e in evs :: key(e) in KeysOf(FirstBy(evs, key), key)
    ensures forall i, j | 0 <= i < j < |FirstBy(evs, key)| :: key(FirstBy(evs, key)[i]) != key(FirstBy(evs, key)[j])
  {
    if evs != [] {
      var init, last := evs[..|evs| - 1], Last(evs);
      FirstByMembers(init, key);
      assert evs == init + [last];
      var r, s := FirstBy(init, key), FirstBy(evs, key);
      assert forall i | 0 <= i < |r| :: s[i] == r[i];
      forall i | 0 <= i < |r| ensures key(r[i]) in KeysOf(init, key) {
        assert r[i] in init;
      }
      forall e | e in evs ensures key(e) in KeysOf(s, key) {
        if e in init {
          var i :| 0 <= i < |r| && key(r[i]) == key(e);
          assert s[i] == r[i];
        } else if |s| > |r| {
          assert s[|r|] == last;
        } else {
          var j :| 0 <= j < |init| && key(init[j]) == key(last);
          assert init[j] in init;
        }
      }
    }
  }

  lemma {:induction false} FirstByInjective<T, K>(evs: seq<T>, key: T -> K)
    requires InjectiveOn(evs, key)
    ensures FirstBy(evs, key) == FirstBy(evs, Same)
  {
    if evs != [] {
      var n := |evs| - 1;
      var init := evs[..n];
      assert forall i | 0 <= i < n :: init[i] == evs[i];
      FirstByInjective(init, key);
      var id := Same<T>;
      assert key(evs[n]) in KeysOf(init, key) <==> id(evs[n]) in KeysOf(init, id) by {
        if key(evs[n]) in KeysOf(init, key) {
          var i :| 0 <= i < n && key(init[i]) == key(evs[n]);
          assert id(init[i]) == evs[n];
        }
        if id(evs[n]) in KeysOf(init, id) {
          var i :| 0 <= i < n && id(init[i]) == evs[n];
          assert key(init[i]) == key(evs[n]);
        }
      }
    }
  }

  ghost predicate AllDiffer<T, K>(evs: seq<T>, key: T -> K) {
    forall i, j | 0 <= i < j < |evs| :: key(evs[i]) != key(evs[j])
  }

  /** Events whose keys all differ are all queued. */
  lemma {:induction false} FirstByKeepsAll<T, K>(evs: seq<T>, key: T -> K)
    requires AllDiffer(evs, key)
    ensures FirstBy(evs, key) == evs
  {
    if evs != [] {
      var n := |evs| - 1;
      var init := evs[..n];
      assert forall i | 0 <= i < n :: init[i] == evs[i];
      FirstByKeepsAll(init, key);
      assert evs == init + [evs[n]];
    }
  }

  lemma FirstByConfuses<T, K>(evs: seq<T>, key: T -> K, i: nat, j: nat)
    requires i < |evs| && j < |evs| && evs[i] != evs[j] && key(evs[i]) == key(evs[j])
    ensures FirstBy(evs, key) != FirstBy(evs, Same)
  {
    var id := Same<T>;
    var r := FirstBy(evs, id);
    FirstByMembers(evs, id);
    FirstByMembers(evs, key);
    assert evs[i] in evs && evs[j] in evs;
    var a :| 0 <= a < |r| && id(r[a]) == id(evs[i]);
    var b :| 0 <= b < |r| && id(r[b]) == id(evs[j]);
    assert key(r[a]) == key(r[b]) && a != b;
  }

  /** Coalescing keeps exactly the first occurrence of each event if and only if no event on a directory
      itself meets the same event on a file named with two quotes. */
  lemma CoalescingIsDistinct(evs: seq<RawEvent>)
    ensures FirstOnly(evs) == FirstDistinct(evs) <==> NoConfusion(evs)
  {
    if NoConfusion(evs) {
      NoConfusionIsInjective(evs);
      FirstByInjective(evs, Key);
    } else {
      var i, j :| 0 <= i < |evs| && 0 <= j < |evs| && Confused(evs[i], evs[j]);
      ConfusionDiffers(evs, i, j);
    }
  }

  lemma NoConfusionIsInjective(evs: seq<RawEvent>)
    requires NoConfusion(evs)
    ensures InjectiveOn(evs, Key)
  {
    forall i, j | 0 <= i < |evs| && 0 <= j < |evs| && Key(evs[i]) == Key(evs[j]) ensures evs[i] == evs[j] {
      if evs[i] != evs[j] {
        SameKeyMeansConfused(evs[i], evs[j]);
      }
    }
  }

  lemma ConfusionDiffers(evs: seq<RawEvent>, i: nat, j: nat)
    requires i < |evs| && j < |evs| && Confused(evs[i], evs[j])
    ensures FirstOnly(evs) != FirstDistinct(evs)
  {
    ConfusedKeys(evs[i], evs[j]);
    FirstByConfuses(evs, Key, i, j);
  }

  lemma ConfusedKeys(e: RawEvent, f: RawEvent)
    requires Confused(e, f)
    ensures e != f && Key(e) == Key(f)
  {
    SameKeyMeansConfused(e, f);
  }
}
