/** The indexes that recipes are entered in: `CoreRecipeInfo.init_cacheData` and `add_cacheData` in cache.py. */
module CacheData {
  import opened Sequences
  import opened Wrappers

  /** The name of a file, a recipe, a package or a target. */
  datatype Name = Name(text: string)

  type Index = map<Name, seq<Name>>

  /** Reading a dictionary whose default is an empty list. */
  function At(m: Index, k: Name): seq<Name> {
    if k in m then m[k] else []
  }

  /** `s` with those of `xs` appended that are not yet in it. */
  function AddMissing(s: seq<Name>, xs: seq<Name>): (r: seq<Name>)
    ensures forall x :: x in r <==> x in s || x in xs
    decreases |xs|
  {
    if xs == [] then s else
      var r, x := AddMissing(s, xs[..|xs| - 1]), xs[|xs| - 1];
      assert xs == xs[..|xs| - 1] + [x];
      AddOne(r, x)
  }

  function AddOne(s: seq<Name>, x: Name): (r: seq<Name>)
    ensures forall y :: y in r <==> y in s || y == x
    ensures NoRepeats(s) ==> NoRepeats(r)
  {
    if x in s then s else s + [x]
  }

  lemma {:induction false} AddMissingNoRepeats(s: seq<Name>, xs: seq<Name>)
    requires NoRepeats(s)
    ensures NoRepeats(AddMissing(s, xs))
    decreases |xs|
  {
    if xs != [] {
      AddMissingNoRepeats(s, xs[..|xs| - 1]);
    }
  }

  lemma AddMissingStep(s: seq<Name>, xs: seq<Name>, i: nat)
    requires i < |xs|
    ensures var r := AddMissing(s, xs[..i]); AddMissing(s, xs[..i + 1]) == AddOne(r, xs[i])
  {
    assert xs[..i + 1][..i] == xs[..i];
  }

  // What the indexes hold, as functions of everything entered so far

  /** What one call enters: `runtime` is the recipe's list of runtime provides as the call leaves it. */
  datatype Entered = Entered(fn: Name, pn: Name, targets: seq<Name>, depends: seq<Name>, runtime: seq<Name>)

  function Provided(e: Entered): (r: seq<Name>)
    ensures forall x :: x in r <==> x == e.pn || x in e.targets
  {
    AddMissing([e.pn], e.targets)
  }

  function ProvidedBy(h: seq<Entered>, fn: Name): Option<seq<Name>>
    decreases |h|
  {
    if h == [] then None else
      var e := h[|h| - 1];
      if e.fn == fn then Some(Provided(e)) else ProvidedBy(h[..|h| - 1], fn)
  }

  function Providers(h: seq<Entered>, target: Name): seq<Name>
    decreases |h|
  {
    if h == [] then [] else
      var e := h[|h| - 1];
      Providers(h[..|h| - 1], target) + if target in Provided(e) then [e.fn] else []
  }

  function RProviders(h: seq<Entered>, target: Name): seq<Name>
    decreases |h|
  {
    if h == [] then [] else
      var e, r := h[|h| - 1], RProviders(h[..|h| - 1], target);
      if target in e.runtime then AddOne(r, e.fn) else r
  }

  function PnProvides(h: seq<Entered>, pn: Name): seq<Name>
    decreases |h|
  {
    if h == [] then [] else
      var e, r := h[|h| - 1], PnProvides(h[..|h| - 1], pn);
      if e.pn == pn then AddMissing(r, Provided(e)) else r
  }

  function Deps(h: seq<Entered>, fn: Name): seq<Name>
    decreases |h|
  {
    if h == [] then [] else
      var e, r := h[|h| - 1], Deps(h[..|h| - 1], fn);
      if e.fn == fn then AddMissing(r, e.depends) else r
  }

  function AllDepends(h: seq<Entered>): seq<Name>
    decreases |h|
  {
    if h == [] then [] else AddMissing(AllDepends(h[..|h| - 1]), h[|h| - 1].depends)
  }

  /** What one more entry changes. */
  lemma OneMore(h: seq<Entered>, e: Entered)
    ensures var n := h + [e];
            && (forall fn :: ProvidedBy(n, fn) == if e.fn == fn then Some(Provided(e)) else ProvidedBy(h, fn))
            && (forall t | t in Provided(e) :: Providers(n, t) == Providers(h, t) + [e.fn])
            && (forall t | t !in Provided(e) :: Providers(n, t) == Providers(h, t))
            && (forall pn ::
                PnProvides(n, pn) ==
                if e.pn == pn then AddMissing(PnProvides(h, pn), Provided(e)) else PnProvides(h, pn))
  {
    assert (h + [e])[..|h|] == h;
  }

  lemma OneMoreDepends(h: seq<Entered>, e: Entered)
    ensures var n := h + [e];
            && (forall t | t in e.runtime :: RProviders(n, t) == AddOne(RProviders(h, t), e.fn))
            && (forall t | t !in e.runtime :: RProviders(n, t) == RProviders(h, t))
            && (forall fn :: Deps(n, fn) == if e.fn == fn then AddMissing(Deps(h, fn), e.depends) else Deps(h, fn))
            && AllDepends(n) == AddMissing(AllDepends(h), e.depends)
  {
    assert (h + [e])[..|h|] == h;
  }

  ghost predicate DistinctNames(h: seq<Entered>) {
    forall i, j | 0 <= i < j < |h| :: h[i].fn != h[j].fn
  }

  // The inverse indexes

  ghost predicate ProvidersInvert(h: seq<Entered>) {
    forall fn, target :: fn in Providers(h, target) <==> ProvidedBy(h, fn).Some? && target in ProvidedBy(h, fn).value
  }

  ghost predicate EachOnce(h: seq<Entered>) {
    forall target :: NoRepeats(Providers(h, target))
  }

  lemma {:induction false} ProviderEntered(h: seq<Entered>, fn: Name, target: Name)
    ensures fn in Providers(h, target) <==> exists i :: 0 <= i < |h| && h[i].fn == fn && target in Provided(h[i])
    decreases |h|
  {
    if h != [] {
      var before := h[..|h| - 1];
      ProviderEntered(before, fn, target);
      if fn in Providers(before, target) {
        var i :| 0 <= i < |before| && before[i].fn == fn && target in Provided(before[i]);
        assert h[i] == before[i];
      }
      if i :| 0 <= i < |h| && h[i].fn == fn && target in Provided(h[i]) {
        if i < |before| {
          assert before[i] == h[i];
        }
      }
    }
  }

  lemma {:induction false} LastEntered(h: seq<Entered>, i: nat) returns (last: nat)
    requires i < |h|
    ensures i <= last < |h| && h[last].fn == h[i].fn && ProvidedBy(h, h[i].fn) == Some(Provided(h[last]))
    ensures forall k | last < k < |h| :: h[k].fn != h[i].fn
    decreases |h|
  {
    last := |h| - 1;
    if h[last].fn != h[i].fn {
      last := LastEntered(h[..|h| - 1], i);
    }
  }

  lemma {:induction false} ProvidedByEntered(h: seq<Entered>, fn: Name)
    ensures ProvidedBy(h, fn).Some? ==>
            exists i :: 0 <= i < |h| && h[i].fn == fn && ProvidedBy(h, fn) == Some(Provided(h[i]))
    decreases |h|
  {
    if h != [] && h[|h| - 1].fn != fn {
      var before := h[..|h| - 1];
      ProvidedByEntered(before, fn);
      if i :| 0 <= i < |before| && before[i].fn == fn && ProvidedBy(before, fn) == Some(Provided(before[i])) {
        assert h[i] == before[i];
      }
    }
  }

  lemma {:induction false} EnteredTwice(h: seq<Entered>, i: nat, j: nat, target: Name)
    requires i < j < |h| && h[i].fn == h[j].fn && target in Provided(h[i]) && target in Provided(h[j])
    ensures !NoRepeats(Providers(h, target))
    decreases |h|
  {
    var before := h[..|h| - 1];
    var r := Providers(before, target);
    if j < |h| - 1 {
      EnteredTwice(before, i, j, target);
      var k, l :| 0 <= k < l < |r| && r[k] == r[l];
      assert Providers(h, target)[k] == Providers(h, target)[l];
    } else {
      assert before[i] == h[i];
      ProviderEntered(before, h[j].fn, target);
      var k :| 0 <= k < |r| && r[k] == h[j].fn;
      assert Providers(h, target)[k] == Providers(h, target)[|r|];
    }
  }

  lemma {:induction false} DistinctOnce(h: seq<Entered>, target: Name)
    requires DistinctNames(h)
    ensures NoRepeats(Providers(h, target))
    decreases |h|
  {
    if h != [] {
      var before := h[..|h| - 1];
      DistinctOnce(before, target);
      ProviderEntered(before, h[|h| - 1].fn, target);
    }
  }

  lemma DistinctInvert(h: seq<Entered>, fn: Name, target: Name)
    requires DistinctNames(h)
    ensures fn in Providers(h, target) <==> ProvidedBy(h, fn).Some? && target in ProvidedBy(h, fn).value
  {
    ProviderEntered(h, fn, target);
    ProvidedByEntered(h, fn);
    if i :| 0 <= i < |h| && h[i].fn == fn && target in Provided(h[i]) {
      var last := LastEntered(h, i);
    }
  }

  /** The list of providers inverts the table of what each file provides, with each file once, exactly when no file
      has been entered twice. */
  lemma ProvidersInvertIffDistinct(h: seq<Entered>)
    ensures ProvidersInvert(h) && EachOnce(h) <==> DistinctNames(h)
  {
    if DistinctNames(h) {
      forall target ensures NoRepeats(Providers(h, target)) {
        DistinctOnce(h, target);
      }
      forall fn, target
        ensures fn in Providers(h, target) <==> ProvidedBy(h, fn).Some? && target in ProvidedBy(h, fn).value
      {
        DistinctInvert(h, fn, target);
      }
    } else {
      var i, j :| 0 <= i < j < |h| && h[i].fn == h[j].fn;
      var last := LastEntered(h, j);
      var target := h[i].pn;
      ProviderEntered(h, h[i].fn, target);
      if target in Provided(h[last]) {
        EnteredTwice(h, i, last, target);
      }
    }
  }

  /** The list of runtime providers has each file once, and has it exactly for what was entered for that file. */
  lemma {:induction false} RProvidersInvert(h: seq<Entered>, target: Name)
    ensures NoRepeats(RProviders(h, target))
    ensures forall fn :: fn in RProviders(h, target) <==>
            exists i :: 0 <= i < |h| && h[i].fn == fn && target in h[i].runtime
    decreases |h|
  {
    if h != [] {
      var before, e := h[..|h| - 1], h[|h| - 1];
      RProvidersInvert(before, target);
      forall fn ensures fn in RProviders(h, target) <==>
        exists i :: 0 <= i < |h| && h[i].fn == fn && target in h[i].runtime {
        if i :| 0 <= i < |before| && before[i].fn == fn && target in before[i].runtime {
          assert h[i] == before[i];
        }
        if i :| 0 <= i < |h| && h[i].fn == fn && target in h[i].runtime {
          if i < |before| {
            assert before[i] == h[i];
          }
        }
      }
    }
  }

  /** What the files of a recipe's name provide, each target once. */
  lemma {:induction false} PnProvidesIsUnion(h: seq<Entered>, pn: Name)
    ensures NoRepeats(PnProvides(h, pn))
    ensures forall x :: x in PnProvides(h, pn) <==>
            exists i :: 0 <= i < |h| && h[i].pn == pn && (x == pn || x in h[i].targets)
    decreases |h|
  {
    if h != [] {
      var before, e := h[..|h| - 1], h[|h| - 1];
      PnProvidesIsUnion(before, pn);
      AddMissingNoRepeats(PnProvides(before, pn), Provided(e));
      forall x
        ensures x in PnProvides(h, pn) <==>
                exists i :: 0 <= i < |h| && h[i].pn == pn && (x == pn || x in h[i].targets)
      {
        if i :| 0 <= i < |before| && before[i].pn == pn && (x == pn || x in before[i].targets) {
          assert h[i] == before[i];
        }
        if i :| 0 <= i < |h| && h[i].pn == pn && (x == pn || x in h[i].targets) {
          assert i < |before| ==> before[i] == h[i];
        }
      }
    }
  }

  // Dependencies

  lemma {:induction false} DepsNoRepeats(h: seq<Entered>, fn: Name)
    ensures NoRepeats(Deps(h, fn))
    decreases |h|
  {
    if h != [] {
      DepsNoRepeats(h[..|h| - 1], fn);
      AddMissingNoRepeats(Deps(h[..|h| - 1], fn), h[|h| - 1].depends);
    }
  }

  lemma {:induction false} DepsInAll(h: seq<Entered>, fn: Name)
    ensures forall d | d in Deps(h, fn) :: d in AllDepends(h)
    decreases |h|
  {
    if h != [] {
      DepsInAll(h[..|h| - 1], fn);
    }
  }

  lemma {:induction false} AllInDeps(h: seq<Entered>, d: Name) returns (fn: Name)
    requires d in AllDepends(h)
    ensures d in Deps(h, fn)
    decreases |h|
  {
    var e := h[|h| - 1];
    if d in e.depends {
      fn := e.fn;
    } else {
      fn := AllInDeps(h[..|h| - 1], d);
    }
  }

  lemma {:induction false} AllDependsNoRepeats(h: seq<Entered>)
    ensures NoRepeats(AllDepends(h))
    decreases |h|
  {
    if h != [] {
      AllDependsNoRepeats(h[..|h| - 1]);
      AddMissingNoRepeats(AllDepends(h[..|h| - 1]), h[|h| - 1].depends);
    }
  }

  /** All dependencies are the repeat-free union of the dependencies of the files. */
  lemma AllDependsIsUnion(h: seq<Entered>, d: Name)
    ensures NoRepeats(AllDepends(h))
    ensures d in AllDepends(h) <==> exists fn :: d in Deps(h, fn)
  {
    AllDependsNoRepeats(h);
    if d in AllDepends(h) {
      var fn := AllInDeps(h, d);
    }
    forall fn | d in Deps(h, fn) ensures d in AllDepends(h) {
      DepsInAll(h, fn);
    }
  }

  /** With distinct names a file's dependencies are those of its own recipe. */
  lemma {:induction false} DepsOfDistinct(h: seq<Entered>, i: nat)
    requires DistinctNames(h) && i < |h|
    ensures Deps(h, h[i].fn) == AddMissing([], h[i].depends)
    decreases |h|
  {
    if i < |h| - 1 {
      DepsOfDistinct(h[..|h| - 1], i);
    } else {
      NoDeps(h[..i], h[i].fn);
    }
  }

  lemma {:induction false} NoDeps(h: seq<Entered>, fn: Name)
    requires forall i | 0 <= i < |h| :: h[i].fn != fn
    ensures Deps(h, fn) == []
    decreases |h|
  {
    if h != [] {
      NoDeps(h[..|h| - 1], fn);
    }
  }

  // The recipe's own list

  /** The runtime provides after those of each package have been appended. */
  function Grown(runtime: seq<Name>, packages: seq<Name>, ofPackage: Index): seq<Name>
    decreases |packages|
  {
    if packages == [] then runtime else
      Grown(runtime, packages[..|packages| - 1], ofPackage) + At(ofPackage, packages[|packages| - 1])
  }

  lemma {:induction false} GrownElements(runtime: seq<Name>, packages: seq<Name>, ofPackage: Index)
    ensures forall x :: x in Grown(runtime, packages, ofPackage) <==>
              x in runtime || exists p :: p in packages && x in At(ofPackage, p)
    decreases |packages|
  {
    if packages != [] {
      GrownElements(runtime, packages[..|packages| - 1], ofPackage);
      assert packages == packages[..|packages| - 1] + [packages[|packages| - 1]];
    }
  }

  /** Entering a recipe again makes its list longer but provides nothing new. */
  lemma GrownAgain(runtime: seq<Name>, packages: seq<Name>, ofPackage: Index)
    ensures var once := Grown(runtime, packages, ofPackage);
            forall x :: x in Grown(once, packages, ofPackage) <==> x in once
  {
    GrownElements(runtime, packages, ofPackage);
    GrownElements(Grown(runtime, packages, ofPackage), packages, ofPackage);
  }

  // The objects

  // What the loops do to an index

  ghost predicate EachGets(before: Index, after: Index, keys: seq<Name>, fn: Name) {
    && (forall t | t in keys :: At(after, t) == At(before, t) + [fn])
    && (forall t | t !in keys :: At(after, t) == At(before, t))
  }

  ghost predicate EachGetsOnce(before: Index, after: Index, keys: seq<Name>, fn: Name) {
    && (forall t | t in keys :: At(after, t) == AddOne(At(before, t), fn))
    && (forall t | t !in keys :: At(after, t) == At(before, t))
  }

  ghost predicate PackagesGet(before: Index, after: Index, packages: seq<Name>, fn: Name) {
    forall p :: At(after, p) == At(before, p) + Times(fn, p, packages)
  }

  ghost predicate OtherRowsStay(before: map<Name, Index>, after: map<Name, Index>, fn: Name) {
    forall f | f != fn :: RowOf(after, f) == RowOf(before, f)
  }

  /** The recipe's own entries and those of the package, for each of its packages; nothing else changes in the row. */
  ghost predicate RuntimeRow(before: Index, row: Index, packages: seq<Name>, own: seq<Name>, ofPackage: Index) {
    && (forall p | p in packages :: At(row, p) == own + At(ofPackage, p))
    && (forall p | p !in packages :: At(row, p) == At(before, p))
  }

  /** A package depends on what the recipe and the package itself name, and on nothing else. */
  lemma RuntimeRowMeans(before: Index, row: Index, packages: seq<Name>, own: seq<Name>, ofPackage: Index, p: Name,
                        x: Name)
    requires RuntimeRow(before, row, packages, own, ofPackage)
    ensures p in packages ==> (x in At(row, p) <==> x in own || (p in ofPackage && x in ofPackage[p]))
    ensures p !in packages ==> At(row, p) == At(before, p)
  {
  }

  lemma RuntimeRowStep(before: Index, row: Index, packages: seq<Name>, i: nat, own: seq<Name>, ofPackage: Index)
    requires i < |packages| && RuntimeRow(before, row, packages[..i], own, ofPackage)
    ensures RuntimeRow(before, row[packages[i] := own + At(ofPackage, packages[i])], packages[..i + 1], own, ofPackage)
  {
    var key := packages[i];
    assert packages[..i + 1] == packages[..i] + [key];
    forall p ensures At(row[key := own + At(ofPackage, key)], p) ==
      if p == key then own + At(ofPackage, key) else At(row, p) {
      AtUpdated(row, key, own + At(ofPackage, key), p);
    }
  }

  ghost predicate RowGets(before: Index, after: Index, key: Name, xs: seq<Name>) {
    && (forall k | k != key :: At(after, k) == At(before, k))
    && At(after, key) == AddMissing(At(before, key), xs)
  }

  lemma EachGetsStep(before: Index, after: Index, keys: seq<Name>, i: nat, fn: Name)
    requires i < |keys| && NoRepeats(keys) && EachGets(before, after, keys[..i], fn)
    ensures EachGets(before, after[keys[i] := At(after, keys[i]) + [fn]], keys[..i + 1], fn)
  {
    assert keys[..i + 1] == keys[..i] + [keys[i]] && keys[i] !in keys[..i];
  }

  lemma RowGetsStep(before: Index, after: Index, key: Name, xs: seq<Name>, i: nat)
    requires i < |xs| && RowGets(before, after, key, xs[..i])
    ensures xs[i] in At(after, key) ==> RowGets(before, after, key, xs[..i + 1])
    ensures xs[i] !in At(after, key) ==> RowGets(before, after[key := At(after, key) + [xs[i]]], key, xs[..i + 1])
  {
    AddMissingStep(At(before, key), xs, i);
  }

  ghost predicate ShowsProvided(fnProvides: Index, h: seq<Entered>) {
    forall fn :: ProvidedBy(h, fn) == if fn in fnProvides then Some(fnProvides[fn]) else None
  }

  ghost predicate ShowsProviders(providers: Index, h: seq<Entered>) {
    forall t :: Providers(h, t) == At(providers, t)
  }

  ghost predicate ShowsPn(pnProvides: Index, h: seq<Entered>) {
    forall pn :: PnProvides(h, pn) == At(pnProvides, pn)
  }

  ghost predicate ShowsProvides(fnProvides: Index, providers: Index, pnProvides: Index, h: seq<Entered>) {
    ShowsProvided(fnProvides, h) && ShowsProviders(providers, h) && ShowsPn(pnProvides, h)
  }

  ghost predicate ShowsRuntime(rproviders: Index, h: seq<Entered>) {
    forall t :: RProviders(h, t) == At(rproviders, t)
  }

  ghost predicate ShowsDepends(deps: Index, allDepends: seq<Name>, h: seq<Entered>) {
    (forall fn :: Deps(h, fn) == At(deps, fn)) && allDepends == AllDepends(h)
  }

  lemma ShowsOneMoreProvides(h: seq<Entered>, e: Entered, fnProvides: Index, providers: Index, pnProvides: Index,
                             providers': Index, pnProvides': Index)
    requires ShowsProvides(fnProvides, providers, pnProvides, h)
    requires EachGets(providers, providers', Provided(e), e.fn) && RowGets(pnProvides, pnProvides', e.pn, Provided(e))
    ensures ShowsProvides(fnProvides[e.fn := Provided(e)], providers', pnProvides', h + [e])
  {
    ShowsOneMoreProvided(h, e, fnProvides);
    ShowsOneMoreProviders(h, e, providers, providers');
    ShowsOneMorePn(h, e, pnProvides, pnProvides');
  }

  lemma ShowsOneMoreProvided(h: seq<Entered>, e: Entered, fnProvides: Index)
    requires ShowsProvided(fnProvides, h)
    ensures ShowsProvided(fnProvides[e.fn := Provided(e)], h + [e])
  {
    OneMore(h, e);
  }

  lemma ShowsOneMoreProviders(h: seq<Entered>, e: Entered, providers: Index, providers': Index)
    requires ShowsProviders(providers, h) && EachGets(providers, providers', Provided(e), e.fn)
    ensures ShowsProviders(providers', h + [e])
  {
    OneMore(h, e);
  }

  lemma ShowsOneMorePn(h: seq<Entered>, e: Entered, pnProvides: Index, pnProvides': Index)
    requires ShowsPn(pnProvides, h) && RowGets(pnProvides, pnProvides', e.pn, Provided(e))
    ensures ShowsPn(pnProvides', h + [e])
  {
    OneMore(h, e);
  }

  lemma ShowsOneMoreRuntime(h: seq<Entered>, e: Entered, rproviders: Index, rproviders': Index)
    requires ShowsRuntime(rproviders, h)
    requires EachGetsOnce(rproviders, rproviders', e.runtime, e.fn)
    ensures ShowsRuntime(rproviders', h + [e])
  {
    OneMoreDepends(h, e);
  }

  lemma ShowsOneMoreDepends(h: seq<Entered>, e: Entered, deps: Index, all: seq<Name>, deps': Index)
    requires ShowsDepends(deps, all, h)
    requires RowGets(deps, deps', e.fn, e.depends)
    ensures ShowsDepends(deps', AddMissing(all, e.depends), h + [e])
  {
    OneMoreDepends(h, e);
  }

  /** The recipe's own name first, then each further target once. */
  method Targets(pn: Name, given: seq<Name>) returns (targets: seq<Name>)
    ensures targets == AddMissing([pn], given) && NoRepeats(targets)
  {
    targets := [pn];
    for i := 0 to |given|
      invariant targets == AddMissing([pn], given[..i])
    {
      AddMissingStep([pn], given, i);
      if given[i] !in targets {
        targets := targets + [given[i]];
      }
    }
    assert given[..|given|] == given;
    assert NoRepeats([pn]);
    AddMissingNoRepeats([pn], given);
  }

  class Indexes {
    var fnProvides: Index
    var pnProvides: Index
    var providers: Index
    var rproviders: Index
    var deps: Index
    var allDepends: seq<Name>
    var packages: Index
    var rundeps: map<Name, Index>
    var runrecs: map<Name, Index>
    ghost var entered: seq<Entered>

    ghost predicate Valid()
      reads this
    {
      && ShowsProvides(fnProvides, providers, pnProvides, entered)
      && ShowsRuntime(rproviders, entered)
      && ShowsDepends(deps, allDepends, entered)
    }

    constructor ()
      ensures Valid() && entered == []
    {
      fnProvides, pnProvides, providers, rproviders, deps, packages := map[], map[], map[], map[], map[], map[];
      allDepends, rundeps, runrecs, entered := [], map[], map[], [];
    }

    ghost method Record(e: Entered)
      requires ShowsProvides(fnProvides, providers, pnProvides, entered + [e])
      requires ShowsRuntime(rproviders, entered + [e]) && ShowsDepends(deps, allDepends, entered + [e])
      modifies this`entered
      ensures Valid() && entered == old(entered) + [e]
    {
      entered := entered + [e];
    }

    method EnterBuildTime(fn: Name, pn: Name, given: seq<Name>, depends: seq<Name>, ghost e: Entered)
      requires ShowsProvides(fnProvides, providers, pnProvides, entered) && ShowsDepends(deps, allDepends, entered)
      requires e.fn == fn && e.pn == pn && e.targets == given && e.depends == depends
      modifies this`fnProvides, this`providers, this`pnProvides, this`deps, this`allDepends
      ensures ShowsProvides(fnProvides, providers, pnProvides, entered + [e])
      ensures ShowsDepends(deps, allDepends, entered + [e])
    {
      EnterProvides(fn, pn, given, e);
      EnterDepends(fn, depends, e);
    }

    method EnterProvides(fn: Name, pn: Name, given: seq<Name>, ghost e: Entered)
      requires ShowsProvides(fnProvides, providers, pnProvides, entered)
      requires e.fn == fn && e.pn == pn && e.targets == given
      modifies this`fnProvides, this`providers, this`pnProvides
      ensures ShowsProvides(fnProvides, providers, pnProvides, entered + [e])
    {
      ghost var fnProvides0, providers0, pnProvides0 := fnProvides, providers, pnProvides;
      var targets := Targets(pn, given);
      EnterTargets(fn, pn, targets);
      fnProvides := fnProvides[fn := targets];
      ShowsOneMoreProvides(entered, e, fnProvides0, providers0, pnProvides0, providers, pnProvides);
    }

    method EnterTargets(fn: Name, pn: Name, targets: seq<Name>)
      requires NoRepeats(targets)
      modifies this`providers, this`pnProvides
      ensures EachGets(old(providers), providers, targets, fn) && RowGets(old(pnProvides), pnProvides, pn, targets)
    {
      for i := 0 to |targets|
        invariant EachGets(old(providers), providers, targets[..i], fn)
        invariant RowGets(old(pnProvides), pnProvides, pn, targets[..i])
      {
        var provide := targets[i];
        EachGetsStep(old(providers), providers, targets, i, fn);
        RowGetsStep(old(pnProvides), pnProvides, pn, targets, i);
        providers := providers[provide := At(providers, provide) + [fn]];
        if provide !in At(pnProvides, pn) {
          pnProvides := pnProvides[pn := At(pnProvides, pn) + [provide]];
        }
      }
      assert targets[..|targets|] == targets;
    }

    method EnterDepends(fn: Name, depends: seq<Name>, ghost e: Entered)
      requires ShowsDepends(deps, allDepends, entered) && e.fn == fn && e.depends == depends
      modifies this`deps, this`allDepends
      ensures ShowsDepends(deps, allDepends, entered + [e])
    {
      ghost var deps0, allDepends0 := deps, allDepends;
      EnterEachDepend(fn, depends);
      ShowsOneMoreDepends(entered, e, deps0, allDepends0, deps);
    }

    method EnterEachDepend(fn: Name, depends: seq<Name>)
      modifies this`deps, this`allDepends
      ensures allDepends == AddMissing(old(allDepends), depends)
      ensures RowGets(old(deps), deps, fn, depends)
    {
      for i := 0 to |depends|
        invariant allDepends == AddMissing(old(allDepends), depends[..i])
        invariant RowGets(old(deps), deps, fn, depends[..i])
      {
        AddMissingStep(old(allDepends), depends, i);
        RowGetsStep(old(deps), deps, fn, depends, i);
        if depends[i] !in At(deps, fn) {
          deps := deps[fn := At(deps, fn) + [depends[i]]];
        }
        if depends[i] !in allDepends {
          allDepends := allDepends + [depends[i]];
        }
      }
      assert depends[..|depends|] == depends;
    }

    method EnterRProvides(fn: Name, rprovides: seq<Name>)
      modifies this`rproviders
      ensures EachGetsOnce(old(rproviders), rproviders, rprovides, fn)
    {
      for i := 0 to |rprovides|
        invariant EachGetsOnce(old(rproviders), rproviders, rprovides[..i], fn)
      {
        var t := rprovides[i];
        assert rprovides[..i + 1] == rprovides[..i] + [t];
        if fn !in At(rproviders, t) {
          rproviders := rproviders[t := At(rproviders, t) + [fn]];
        }
      }
      assert rprovides[..|rprovides|] == rprovides;
    }
  }

  class CoreRecipeInfo {
    const pn: Name
    const targets: seq<Name>
    const depends: seq<Name>
    const packages: seq<Name>
    const rprovidesPkg: Index
    const rdepends: seq<Name>
    const rdependsPkg: Index
    const rrecommends: seq<Name>
    const rrecommendsPkg: Index
    var rprovides: seq<Name>

    /** The per-package tables are made from the list of packages. */
    ghost predicate Valid() {
      forall p | p in packages :: p in rprovidesPkg && p in rdependsPkg && p in rrecommendsPkg
    }

    constructor (pn: Name, targets: seq<Name>, depends: seq<Name>, packages: seq<Name>, rprovides: seq<Name>,
                 rprovidesPkg: Index, rdepends: seq<Name>, rdependsPkg: Index, rrecommends: seq<Name>,
                 rrecommendsPkg: Index)
      requires forall p | p in packages :: p in rprovidesPkg && p in rdependsPkg && p in rrecommendsPkg
      ensures Valid()
      ensures this.pn == pn && this.targets == targets && this.depends == depends && this.packages == packages
      ensures this.rprovides == rprovides && this.rprovidesPkg == rprovidesPkg
      ensures this.rdepends == rdepends && this.rdependsPkg == rdependsPkg
      ensures this.rrecommends == rrecommends && this.rrecommendsPkg == rrecommendsPkg
    {
      this.pn, this.targets, this.depends, this.packages := pn, targets, depends, packages;
      this.rprovides, this.rprovidesPkg := rprovides, rprovidesPkg;
      this.rdepends, this.rdependsPkg := rdepends, rdependsPkg;
      this.rrecommends, this.rrecommendsPkg := rrecommends, rrecommendsPkg;
    }

    /** Appends the packages' runtime provides to the recipe's own list, which is the list that is extended. */
    method GrowRuntime(cachedata: Indexes, fn: Name)
      requires Valid()
      modifies this`rprovides, cachedata`packages
      ensures rprovides == Grown(old(rprovides), packages, rprovidesPkg)
      ensures PackagesGet(old(cachedata.packages), cachedata.packages, packages, fn)
    {
      for i := 0 to |packages|
        invariant rprovides == Grown(old(rprovides), packages[..i], rprovidesPkg)
        invariant PackagesGet(old(cachedata.packages), cachedata.packages, packages[..i], fn)
      {
        var package := packages[i];
        PackagesGetStep(old(cachedata.packages), cachedata.packages, packages, i, fn);
        GrownStep(old(rprovides), packages, rprovidesPkg, i);
        cachedata.packages := cachedata.packages[package := At(cachedata.packages, package) + [fn]];
        rprovides := rprovides + rprovidesPkg[package];
      }
      assert packages[..|packages|] == packages;
    }

    method EnterRuntimeDepends(cachedata: Indexes, fn: Name)
      requires Valid()
      modifies cachedata`rundeps, cachedata`runrecs
      ensures OtherRowsStay(old(cachedata.rundeps), cachedata.rundeps, fn)
      ensures OtherRowsStay(old(cachedata.runrecs), cachedata.runrecs, fn)
      ensures RuntimeRow(RowOf(old(cachedata.rundeps), fn), RowOf(cachedata.rundeps, fn), packages, rdepends,
                         rdependsPkg)
      ensures RuntimeRow(RowOf(old(cachedata.runrecs), fn), RowOf(cachedata.runrecs, fn), packages, rrecommends,
                         rrecommendsPkg)
    {
      for i := 0 to |packages|
        invariant OtherRowsStay(old(cachedata.rundeps), cachedata.rundeps, fn)
        invariant OtherRowsStay(old(cachedata.runrecs), cachedata.runrecs, fn)
        invariant RuntimeRow(RowOf(old(cachedata.rundeps), fn), RowOf(cachedata.rundeps, fn), packages[..i], rdepends,
                             rdependsPkg)
        invariant RuntimeRow(RowOf(old(cachedata.runrecs), fn), RowOf(cachedata.runrecs, fn), packages[..i],
                             rrecommends, rrecommendsPkg)
      {
        var package := packages[i];
        RuntimeRowStep(RowOf(old(cachedata.rundeps), fn), RowOf(cachedata.rundeps, fn), packages, i, rdepends,
                       rdependsPkg);
        RuntimeRowStep(RowOf(old(cachedata.runrecs), fn), RowOf(cachedata.runrecs, fn), packages, i, rrecommends,
                       rrecommendsPkg);
        var depends := RowOf(cachedata.rundeps, fn)[package := rdepends + rdependsPkg[package]];
        var recommends := RowOf(cachedata.runrecs, fn)[package := rrecommends + rrecommendsPkg[package]];
        cachedata.rundeps := cachedata.rundeps[fn := depends];
        cachedata.runrecs := cachedata.runrecs[fn := recommends];
      }
    }

    /** Enters the recipe in every index; the tables of runtime dependencies are independent of the others. */
    method AddCacheData(cachedata: Indexes, fn: Name)
      requires Valid() && cachedata.Valid()
      modifies this`rprovides, cachedata
      ensures cachedata.Valid()
      ensures cachedata.entered == old(cachedata.entered) + [Entered(fn, pn, targets, depends, rprovides)]
      ensures rprovides == Grown(old(rprovides), packages, rprovidesPkg)
      ensures PackagesGet(old(cachedata.packages), cachedata.packages, packages, fn)
      ensures OtherRowsStay(old(cachedata.rundeps), cachedata.rundeps, fn)
      ensures OtherRowsStay(old(cachedata.runrecs), cachedata.runrecs, fn)
      ensures RuntimeRow(RowOf(old(cachedata.rundeps), fn), RowOf(cachedata.rundeps, fn), packages, rdepends,
                         rdependsPkg)
      ensures RuntimeRow(RowOf(old(cachedata.runrecs), fn), RowOf(cachedata.runrecs, fn), packages, rrecommends,
                         rrecommendsPkg)
    {
      ghost var e := Entered(fn, pn, targets, depends, Grown(rprovides, packages, rprovidesPkg));
      EnterRuntimeDepends(cachedata, fn);
      EnterIndexes(cachedata, fn, e);
    }

    method EnterIndexes(cachedata: Indexes, fn: Name, ghost e: Entered)
      requires Valid() && cachedata.Valid()
      requires e == Entered(fn, pn, targets, depends, Grown(rprovides, packages, rprovidesPkg))
      modifies this`rprovides, cachedata
      ensures cachedata.Valid() && cachedata.entered == old(cachedata.entered) + [e]
      ensures rprovides == e.runtime
      ensures PackagesGet(old(cachedata.packages), cachedata.packages, packages, fn)
      ensures cachedata.rundeps == old(cachedata.rundeps) && cachedata.runrecs == old(cachedata.runrecs)
    {
      cachedata.EnterBuildTime(fn, pn, targets, depends, e);
      EnterRuntime(cachedata, fn, e);
      cachedata.Record(e);
    }

    method EnterRuntime(cachedata: Indexes, fn: Name, ghost e: Entered)
      requires Valid() && ShowsRuntime(cachedata.rproviders, cachedata.entered)
      requires e.fn == fn && e.runtime == Grown(rprovides, packages, rprovidesPkg)
      modifies this`rprovides, cachedata`packages, cachedata`rproviders
      ensures rprovides == e.runtime
      ensures PackagesGet(old(cachedata.packages), cachedata.packages, packages, fn)
      ensures ShowsRuntime(cachedata.rproviders, cachedata.entered + [e])
    {
      ghost var rproviders := cachedata.rproviders;
      GrowRuntime(cachedata, fn);
      cachedata.EnterRProvides(fn, rprovides);
      ShowsOneMoreRuntime(cachedata.entered, e, rproviders, cachedata.rproviders);
    }
  }

  /** As many copies of `fn` as `package` occurs in the list. */
  function Times(fn: Name, package: Name, packages: seq<Name>): seq<Name>
    decreases |packages|
  {
    if packages == [] then [] else
      Times(fn, package, packages[..|packages| - 1]) + if packages[|packages| - 1] == package then [fn] else []
  }

  lemma TimesStep(fn: Name, packages: seq<Name>, i: nat)
    requires i < |packages|
    ensures forall p | p != packages[i] :: Times(fn, p, packages[..i + 1]) == Times(fn, p, packages[..i])
    ensures Times(fn, packages[i], packages[..i + 1]) == Times(fn, packages[i], packages[..i]) + [fn]
  {
    assert packages[..i + 1][..i] == packages[..i];
  }

  lemma PackagesGetStep(before: Index, after: Index, packages: seq<Name>, i: nat, fn: Name)
    requires i < |packages| && PackagesGet(before, after, packages[..i], fn)
    ensures PackagesGet(before, after[packages[i] := At(after, packages[i]) + [fn]], packages[..i + 1], fn)
  {
    TimesStep(fn, packages, i);
    var key := packages[i];
    var added := At(after, key) + [fn];
    Snoc(At(before, key), Times(fn, key, packages[..i]), fn);
    forall p ensures At(after[key := added], p) == At(before, p) + Times(fn, p, packages[..i + 1]) {
      AtUpdated(after, key, added, p);
    }
  }

  lemma AtUpdated(m: Index, key: Name, value: seq<Name>, p: Name)
    ensures At(m[key := value], p) == if p == key then value else At(m, p)
  {
  }

  lemma Snoc<T>(a: seq<T>, b: seq<T>, x: T)
    ensures a + b + [x] == a + (b + [x])
  {
  }

  lemma GrownStep(runtime: seq<Name>, packages: seq<Name>, ofPackage: Index, i: nat)
    requires i < |packages|
    ensures Grown(runtime, packages[..i + 1], ofPackage) ==
            Grown(runtime, packages[..i], ofPackage) + At(ofPackage, packages[i])
  {
    assert packages[..i + 1][..i] == packages[..i];
  }

  function RowOf(m: map<Name, Index>, fn: Name): Index {
    if fn in m then m[fn] else map[]
  }
}
