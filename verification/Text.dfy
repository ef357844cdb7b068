/** Splitting and joining sequences at a separator, as Python's `split` and `join` do. */
module Text {
  function Split<T(==)>(s: seq<T>, sep: T): (r: seq<seq<T>>)
    ensures r != []
    ensures forall p | p in r :: sep !in p
    ensures sep !in s <==> |r| == 1
    ensures sep !in s ==> r == [s]
  {
    if s == [] then
      [[]]
    else
      var r := Split(s[1..], sep);
      assert s == [s[0]] + s[1..];
      if s[0] == sep then [[]] + r else [[s[0]] + r[0]] + r[1..]
  }

  function Join<T>(parts: seq<seq<T>>, sep: T): seq<T> {
    if parts == [] then [] else if |parts| == 1 then parts[0] else parts[0] + [sep] + Join(parts[1..], sep)
  }

  function Last<T>(s: seq<T>): T
    requires s != []
  {
    s[|s| - 1]
  }

  lemma JoinGrow<T>(x: T, parts: seq<seq<T>>, sep: T)
    requires parts != []
    ensures Join([[x] + parts[0]] + parts[1..], sep) == [x] + Join(parts, sep)
  {
    assert ([[x] + parts[0]] + parts[1..])[1..] == parts[1..];
    if |parts| > 1 {
      ConsAssociates(x, parts[0], [sep], Join(parts[1..], sep));
    }
  }

  lemma JoinEmptyFirst<T>(parts: seq<seq<T>>, sep: T)
    requires parts != []
    ensures Join([[]] + parts, sep) == [sep] + Join(parts, sep)
  {
    assert ([[]] + parts)[1..] == parts;
  }

  lemma ConsAssociates<T>(x: T, a: seq<T>, b: seq<T>, c: seq<T>)
    ensures [x] + a + b + c == [x] + (a + b + c)
  {
  }

  lemma {:induction false} JoinSplit<T>(s: seq<T>, sep: T)
    ensures Join(Split(s, sep), sep) == s
  {
    if s != [] {
      JoinSplit(s[1..], sep);
      JoinGrow(s[0], Split(s[1..], sep), sep);
      JoinEmptyFirst(Split(s[1..], sep), sep);
    }
  }

  /** A separator cuts the list of parts in two. */
  lemma {:induction false} SplitAppend<T>(a: seq<T>, sep: T, b: seq<T>)
    ensures Split(a + [sep] + b, sep) == Split(a, sep) + Split(b, sep)
  {
    var s := a + [sep] + b;
    if a == [] {
      assert s[1..] == b;
    } else {
      assert s[1..] == a[1..] + [sep] + b;
      SplitAppend(a[1..], sep, b);
      FirstAppend(a[0], Split(a[1..], sep), Split(b, sep));
    }
  }

  lemma FirstAppend<T>(x: T, p: seq<seq<T>>, q: seq<seq<T>>)
    requires p != []
    ensures [[]] + (p + q) == ([[]] + p) + q
    ensures [[x] + (p + q)[0]] + (p + q)[1..] == ([[x] + p[0]] + p[1..]) + q
  {
  }

  lemma {:induction false} JoinAppend<T>(p: seq<seq<T>>, q: seq<seq<T>>, sep: T)
    requires p != [] && q != []
    ensures Join(p + q, sep) == Join(p, sep) + [sep] + Join(q, sep)
  {
    assert (p + q)[1..] == p[1..] + q;
    if |p| > 1 {
      JoinAppend(p[1..], q, sep);
    }
  }

  lemma {:induction false} SplitOfJoin<T>(parts: seq<seq<T>>, sep: T)
    requires parts != [] && forall p | p in parts :: sep !in p
    ensures Split(Join(parts, sep), sep) == parts
  {
    if |parts| > 1 {
      SplitOfJoin(parts[1..], sep);
      SplitAppend(parts[0], sep, Join(parts[1..], sep));
    }
  }
}
