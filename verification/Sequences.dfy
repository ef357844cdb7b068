// Facts about finite sequences that several components share.
module Sequences {
  ghost predicate NoRepeats<T>(s: seq<T>) {
    forall i, j | 0 <= i < j < |s| :: s[i] != s[j]
  }

  lemma Regroup<T>(a: seq<T>, b: seq<T>, c: seq<T>)
    ensures a + (b + c) == a + b + c
  {
  }

  function Elements<T>(s: seq<T>): set<T> {
    set x | x in s
  }

  lemma NoRepeatsLength<T>(s: seq<T>, bound: set<T>)
    requires NoRepeats(s)
    requires forall x | x in s :: x in bound
    ensures |s| <= |bound|
  {
    if s != [] {
      var last := s[|s| - 1];
      NoRepeatsLength(s[..|s| - 1], bound - {last});
    }
  }
}
