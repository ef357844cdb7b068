/** Selecting the most probable classes: `get_top` in vnn_utils.cc.  Probabilities are exact reals. */
module TopClasses {
  const NO_CLASS := 0xFFFF_FFFF
  const MAX_TOP_NUM: nat := 20

  /** However many classes are asked for, the code skips those in the first five places. */
  const LOOKED_AT: nat := 5

  /** The classes that are skipped when place `j` is filled: those in the first five of the places before it.  When
      fewer than five are asked for, also what the caller's array holds in the rest of the five. */
  function Taken(classes: seq<int>, topNum: nat, j: nat): set<int>
    requires LOOKED_AT <= |classes|
  {
    set k | 0 <= k < LOOKED_AT && (k < j || k >= topNum) :: classes[k]
  }

  /** Of the first `n` classes that are not taken, `c` is the first most probable one, if one is above zero. */
  ghost predicate IsBest(prob: seq<real>, n: nat, taken: set<int>, c: int, m: real)
    requires n <= |prob|
  {
    && (forall i | 0 <= i < n && i !in taken :: prob[i] <= m)
    && (c == NO_CLASS ==> m == 0.0)
    && (c != NO_CLASS ==>
          0 <= c < n && c !in taken && m == prob[c] > 0.0 && forall i | 0 <= i < c && i !in taken :: prob[i] < m)
  }

  /** Each of the first `n` places holds the best class that is not skipped there. */
  ghost predicate AreTop(prob: seq<real>, maxProb: seq<real>, maxClass: seq<int>, topNum: nat, n: nat) {
    && n <= topNum <= |maxProb| && topNum <= |maxClass| && LOOKED_AT <= |maxClass|
    && forall j | 0 <= j < n :: IsBest(prob, |prob|, Taken(maxClass, topNum, j), maxClass[j], maxProb[j])
  }

  /** The caller's arrays have room for the classes that are asked for, and for the five places that are read. */
  method GetTop(prob: array<real>, maxProb: array<real>, maxClass: array<int>, topNum: nat) returns (ok: bool)
    requires prob.Length <= NO_CLASS && prob != maxProb
    requires topNum <= MAX_TOP_NUM ==>
             topNum <= maxProb.Length && topNum <= maxClass.Length && LOOKED_AT <= maxClass.Length
    modifies maxProb, maxClass
    ensures ok == (topNum <= MAX_TOP_NUM)
    ensures !ok ==> maxProb[..] == old(maxProb[..]) && maxClass[..] == old(maxClass[..])
    ensures ok ==> AreTop(prob[..], maxProb[..], maxClass[..], topNum, topNum)
    ensures ok ==> maxProb[topNum..] == old(maxProb[topNum..]) && maxClass[topNum..] == old(maxClass[topNum..])
  {
    if topNum > MAX_TOP_NUM {
      return false;
    }
    Clear(maxProb, maxClass, topNum);
    for j := 0 to topNum
      invariant AreTop(prob[..], maxProb[..], maxClass[..], topNum, j)
      invariant forall k | j <= k < topNum :: maxProb[k] == 0.0 && maxClass[k] == NO_CLASS
      invariant maxProb[topNum..] == old(maxProb[topNum..]) && maxClass[topNum..] == old(maxClass[topNum..])
    {
      ghost var before, beforeProb := maxClass[..], maxProb[..];
      FindNext(prob, maxProb, maxClass, topNum, j);
      forall k | 0 <= k <= j
        ensures IsBest(prob[..], prob.Length, Taken(maxClass[..], topNum, k), maxClass[k], maxProb[k])
      {
        assert Taken(maxClass[..], topNum, k) == Taken(before, topNum, k);
        assert k < j ==> maxClass[k] == before[k] && maxProb[k] == beforeProb[k];
      }
      assert maxProb[topNum..] == beforeProb[topNum..] && maxClass[topNum..] == before[topNum..];
    }
    return true;
  }

  method Clear(maxProb: array<real>, maxClass: array<int>, topNum: nat)
    requires topNum <= maxProb.Length && topNum <= maxClass.Length
    modifies maxProb, maxClass
    ensures forall k | 0 <= k < topNum :: maxProb[k] == 0.0 && maxClass[k] == NO_CLASS
    ensures maxProb[topNum..] == old(maxProb[topNum..]) && maxClass[topNum..] == old(maxClass[topNum..])
  {
    for k := 0 to topNum
      invariant forall l | 0 <= l < k :: maxProb[l] == 0.0 && maxClass[l] == NO_CLASS
      invariant maxProb[topNum..] == old(maxProb[topNum..]) && maxClass[topNum..] == old(maxClass[topNum..])
    {
      maxProb[k], maxClass[k] := 0.0, NO_CLASS;
    }
  }

  method FindNext(prob: array<real>, maxProb: array<real>, maxClass: array<int>, topNum: nat, j: nat)
    requires prob.Length <= NO_CLASS && prob != maxProb
    requires j < topNum <= maxProb.Length && topNum <= maxClass.Length && LOOKED_AT <= maxClass.Length
    requires forall k | j <= k < topNum :: maxProb[k] == 0.0 && maxClass[k] == NO_CLASS
    modifies maxProb, maxClass
    ensures forall k | 0 <= k < maxClass.Length && k != j :: maxClass[k] == old(maxClass[k])
    ensures forall k | 0 <= k < maxProb.Length && k != j :: maxProb[k] == old(maxProb[k])
    ensures IsBest(prob[..], prob.Length, Taken(old(maxClass[..]), topNum, j), maxClass[j], maxProb[j])
  {
    ghost var taken := Taken(maxClass[..], topNum, j);
    for i := 0 to prob.Length
      invariant forall k | 0 <= k < maxClass.Length && k != j :: maxClass[k] == old(maxClass[k])
      invariant forall k | 0 <= k < maxProb.Length && k != j :: maxProb[k] == old(maxProb[k])
      invariant IsBest(prob[..], i, taken, maxClass[j], maxProb[j])
    {
      if i == maxClass[0] || i == maxClass[1] || i == maxClass[2] || i == maxClass[3] || i == maxClass[4] {
        SkippedIsTaken(maxClass[..], old(maxClass[..]), topNum, j, i);
        continue;
      }
      NotSkipped(maxClass[..], old(maxClass[..]), topNum, j, i);
      if prob[i] > maxProb[j] {
        maxProb[j] := prob[i];
        maxClass[j] := i;
      }
    }
  }

  /** A class that is skipped is one of those taken. */
  lemma SkippedIsTaken(classes: seq<int>, was: seq<int>, topNum: nat, j: nat, i: int)
    requires LOOKED_AT <= |classes| == |was| && j < topNum <= |classes| && i < NO_CLASS
    requires forall k | 0 <= k < |classes| && k != j :: classes[k] == was[k]
    requires forall k | j < k < topNum :: classes[k] == NO_CLASS
    requires i == classes[0] || i == classes[1] || i == classes[2] || i == classes[3] || i == classes[4]
    requires classes[j] != i
    ensures i in Taken(was, topNum, j)
  {
    var k :| 0 <= k < LOOKED_AT && i == classes[k];
    assert (k < j || k >= topNum) && was[k] == i;
  }

  lemma NotSkipped(classes: seq<int>, was: seq<int>, topNum: nat, j: nat, i: int)
    requires LOOKED_AT <= |classes| == |was| && j < topNum <= |classes|
    requires forall k | 0 <= k < |classes| && k != j :: classes[k] == was[k]
    requires i != classes[0] && i != classes[1] && i != classes[2] && i != classes[3] && i != classes[4]
    ensures i !in Taken(was, topNum, j)
  {
    forall k | 0 <= k < LOOKED_AT && (k < j || k >= topNum) ensures was[k] != i {
      assert was[k] == classes[k];
      assert k == 0 || k == 1 || k == 2 || k == 3 || k == 4;
    }
  }

  // What the places hold

  /** The places that are filled in turn, each looking at all before it: the first five and the sixth. */
  const IN_TURN: nat := LOOKED_AT + 1

  /** In the first six places no class occurs twice, and no later place is above an earlier one. */
  lemma TopSixAreSorted(prob: seq<real>, maxProb: seq<real>, maxClass: seq<int>, topNum: nat, j: nat, k: nat)
    requires AreTop(prob, maxProb, maxClass, topNum, topNum) && j < k < topNum && k < IN_TURN
    ensures maxProb[k] <= maxProb[j]
    ensures maxClass[j] == maxClass[k] ==> maxClass[k] == NO_CLASS
    ensures maxClass[j] == NO_CLASS ==> maxClass[k] == NO_CLASS
  {
    assert IsBest(prob, |prob|, Taken(maxClass, topNum, j), maxClass[j], maxProb[j]);
    assert IsBest(prob, |prob|, Taken(maxClass, topNum, k), maxClass[k], maxProb[k]);
    assert maxClass[j] in Taken(maxClass, topNum, k);
    assert Taken(maxClass, topNum, j) <= Taken(maxClass, topNum, k);
  }

  /** Nothing better is left out: a class in none of the first `n` places, up to six, is not above any of them. */
  lemma TopSixAreBest(prob: seq<real>, maxProb: seq<real>, maxClass: seq<int>, topNum: nat, n: nat, i: nat, j: nat)
    requires AreTop(prob, maxProb, maxClass, topNum, topNum) && j < n <= topNum && n <= IN_TURN
    requires i < |prob| && (forall k | 0 <= k < n :: maxClass[k] != i) &&
             (forall k | topNum <= k < LOOKED_AT :: maxClass[k] != i)
    ensures prob[i] <= maxProb[j]
  {
    assert i !in Taken(maxClass, topNum, j);
  }

  /** From the sixth place on all places hold the same class. */
  lemma SixthIsRepeated(prob: seq<real>, maxProb: seq<real>, maxClass: seq<int>, topNum: nat, j: nat)
    requires AreTop(prob, maxProb, maxClass, topNum, topNum) && LOOKED_AT < topNum && LOOKED_AT <= j < topNum
    requires |prob| <= NO_CLASS
    ensures maxClass[j] == maxClass[LOOKED_AT] && maxProb[j] == maxProb[LOOKED_AT]
  {
    assert Taken(maxClass, topNum, j) == Taken(maxClass, topNum, LOOKED_AT);
    assert IsBest(prob, |prob|, Taken(maxClass, topNum, j), maxClass[j], maxProb[j]);
    assert IsBest(prob, |prob|, Taken(maxClass, topNum, LOOKED_AT), maxClass[LOOKED_AT], maxProb[LOOKED_AT]);
  }

  function Positive(prob: seq<real>): set<int> {
    set i | 0 <= i < |prob| && prob[i] > 0.0 :: i
  }

  ghost predicate NoClassTwice(maxClass: seq<int>, topNum: nat)
    requires topNum <= |maxClass|
  {
    forall i, j | 0 <= i < j < topNum && maxClass[i] == maxClass[j] :: maxClass[i] == NO_CLASS
  }

  /** The classes in the first `n` places. */
  function Placed(maxClass: seq<int>, n: nat): set<int>
    requires n <= |maxClass|
  {
    set k | 0 <= k < n :: maxClass[k]
  }

  lemma {:induction false} PlacedDistinct(maxClass: seq<int>, n: nat)
    requires n <= |maxClass|
    ensures |Placed(maxClass, n)| <= n
    ensures (forall i, j | 0 <= i < j < n :: maxClass[i] != maxClass[j]) ==> |Placed(maxClass, n)| == n
    decreases n
  {
    if n > 0 {
      PlacedDistinct(maxClass, n - 1);
      assert Placed(maxClass, n) == Placed(maxClass, n - 1) + {maxClass[n - 1]};
    }
  }

  lemma SubsetIsSmaller<T>(a: set<T>, b: set<T>)
    requires a <= b
    ensures |a| <= |b|
  {
    assert b == a + (b - a);
  }

  /** The sixth place is empty exactly when at most five probabilities are above zero. */
  lemma SixthIsEmptyIff(prob: seq<real>, maxProb: seq<real>, maxClass: seq<int>, topNum: nat)
    requires AreTop(prob, maxProb, maxClass, topNum, topNum) && LOOKED_AT < topNum && |prob| <= NO_CLASS
    ensures maxClass[LOOKED_AT] == NO_CLASS <==> |Positive(prob)| <= LOOKED_AT
  {
    assert IsBest(prob, |prob|, Taken(maxClass, topNum, LOOKED_AT), maxClass[LOOKED_AT], maxProb[LOOKED_AT]);
    if maxClass[LOOKED_AT] == NO_CLASS {
      PlacedDistinct(maxClass, LOOKED_AT);
      assert Taken(maxClass, topNum, LOOKED_AT) == Placed(maxClass, LOOKED_AT);
      SubsetIsSmaller(Positive(prob), Placed(maxClass, LOOKED_AT));
    } else {
      forall i, j | 0 <= i < j < IN_TURN ensures maxClass[i] != maxClass[j] {
        TopSixAreSorted(prob, maxProb, maxClass, topNum, i, j);
        if j < LOOKED_AT {
          TopSixAreSorted(prob, maxProb, maxClass, topNum, j, LOOKED_AT);
        }
      }
      forall k | 0 <= k < IN_TURN ensures maxClass[k] in Positive(prob) {
        if k < LOOKED_AT {
          TopSixAreSorted(prob, maxProb, maxClass, topNum, k, LOOKED_AT);
        }
        assert IsBest(prob, |prob|, Taken(maxClass, topNum, k), maxClass[k], maxProb[k]);
      }
      PlacedDistinct(maxClass, IN_TURN);
      SubsetIsSmaller(Placed(maxClass, IN_TURN), Positive(prob));
    }
  }

  /** All the places hold different classes exactly when at most six are asked for or at most five probabilities are
      above zero. */
  lemma NoClassTwiceIff(prob: seq<real>, maxProb: seq<real>, maxClass: seq<int>, topNum: nat)
    requires AreTop(prob, maxProb, maxClass, topNum, topNum) && |prob| <= NO_CLASS
    ensures NoClassTwice(maxClass, topNum) <==> topNum <= IN_TURN || |Positive(prob)| <= LOOKED_AT
  {
    if topNum > IN_TURN {
      SixthIsEmptyIff(prob, maxProb, maxClass, topNum);
      SixthIsRepeated(prob, maxProb, maxClass, topNum, IN_TURN);
    }
    forall i, j | 0 <= i < j < topNum && maxClass[i] == maxClass[j] && maxClass[i] != NO_CLASS
      ensures topNum > IN_TURN && |Positive(prob)| > LOOKED_AT
    {
      if j < IN_TURN {
        TopSixAreSorted(prob, maxProb, maxClass, topNum, i, j);
      } else {
        SixthIsRepeated(prob, maxProb, maxClass, topNum, j);
      }
    }
  }
}
