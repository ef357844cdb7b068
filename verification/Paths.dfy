/** The two functions of `os.path` that watch paths are built with. */
module Paths {
  import opened Text

  function JoinPath(a: string, b: string): string {
    if "/" <= b then b
    else if a == "" || a[|a| - 1] == '/' then a + b
    else a + "/" + b
  }

  /** Two leading slashes are kept; three or more count as one. */
  function Slashes(path: string): nat {
    if !("/" <= path) then 0 else if "//" <= path && !("///" <= path) then 2 else 1
  }

  function Repeat(n: nat): string {
    if n == 0 then "" else "/" + Repeat(n - 1)
  }

  /** Drops empty and `.` parts, and lets `..` cancel the part before it. */
  function Components(parts: seq<string>, absolute: bool): seq<string> {
    if parts == [] then
      []
    else
      var comps := Components(parts[..|parts| - 1], absolute);
      var c := Last(parts);
      if c == "" || c == "." then comps
      else if c != ".." || (!absolute && comps == []) || (comps != [] && Last(comps) == "..") then comps + [c]
      else if comps != [] then comps[..|comps| - 1]
      else comps
  }

  function Show(slashes: nat, comps: seq<string>): string {
    var r := Repeat(slashes) + Join(comps, '/');
    if r == "" then "." else r
  }

  function NormPath(path: string): string {
    if path == "" then "." else Show(Slashes(path), Components(Split(path, '/'), Slashes(path) > 0))
  }

  predicate ValidName(n: string) {
    n != "" && n != "." && n != ".." && '/' !in n
  }

  /** What the components of a normal path look like. */
  ghost predicate Normal(comps: seq<string>, absolute: bool) {
    forall i | 0 <= i < |comps| :: NormalAt(comps, i, absolute)
  }

  ghost predicate NormalAt(comps: seq<string>, i: nat, absolute: bool)
    requires i < |comps|
  {
    && comps[i] != "" && comps[i] != "." && '/' !in comps[i]
    && (comps[i] == ".." ==> !absolute && (i == 0 || comps[i - 1] == ".."))
  }

  lemma NormalParts(comps: seq<string>, absolute: bool)
    requires Normal(comps, absolute)
    ensures forall c | c in comps :: c != "" && '/' !in c
  {
    forall c | c in comps ensures c != "" && '/' !in c {
      var i :| 0 <= i < |comps| && comps[i] == c;
      assert NormalAt(comps, i, absolute);
    }
  }

  lemma NormalPrefix(comps: seq<string>, k: nat, absolute: bool)
    requires Normal(comps, absolute) && k <= |comps|
    ensures Normal(comps[..k], absolute)
  {
    var init := comps[..k];
    forall i | 0 <= i < k ensures NormalAt(init, i, absolute) {
      assert NormalAt(comps, i, absolute);
    }
  }

  lemma {:induction false} ComponentsNormal(parts: seq<string>, absolute: bool)
    requires forall p | p in parts :: '/' !in p
    ensures Normal(Components(parts, absolute), absolute)
  {
    if parts != [] {
      assert Last(parts) in parts;
      ComponentsNormal(parts[..|parts| - 1], absolute);
      var comps := Components(parts[..|parts| - 1], absolute);
      if comps != [] {
        NormalPrefix(comps, |comps| - 1, absolute);
        assert NormalAt(comps, |comps| - 1, absolute);
      }
      var after := Components(parts, absolute);
      forall i | 0 <= i < |after| ensures NormalAt(after, i, absolute) {
        if i < |comps| {
          assert NormalAt(comps, i, absolute);
        }
      }
    }
  }

  lemma {:induction false} ComponentsOfNormal(comps: seq<string>, absolute: bool)
    requires Normal(comps, absolute)
    ensures Components(comps, absolute) == comps
  {
    if comps != [] {
      var init := comps[..|comps| - 1];
      NormalPrefix(comps, |comps| - 1, absolute);
      ComponentsOfNormal(init, absolute);
      assert NormalAt(comps, |comps| - 1, absolute);
      assert comps == init + [Last(comps)];
    }
  }

  lemma {:induction false} LeadingEmpty(n: nat, comps: seq<string>, absolute: bool)
    ensures Components(seq(n, _ => "") + comps, absolute) == Components(comps, absolute)
  {
    var all := seq(n, _ => "") + comps;
    if comps != [] {
      assert all[..|all| - 1] == seq(n, _ => "") + comps[..|comps| - 1];
      LeadingEmpty(n, comps[..|comps| - 1], absolute);
    } else if n > 0 {
      assert all[..|all| - 1] == seq(n - 1, _ => "") + comps;
      LeadingEmpty(n - 1, comps, absolute);
    } else {
      assert all == comps;
    }
  }

  lemma {:induction false} SplitRepeat(n: nat, s: string)
    ensures Split(Repeat(n) + s, '/') == seq(n, _ => "") + Split(s, '/')
  {
    if n == 0 {
      assert Repeat(n) + s == s;
    } else {
      var rest := Repeat(n - 1) + s;
      assert Repeat(n) + s == "" + ['/'] + rest;
      SplitAppend("", '/', rest);
      SplitRepeat(n - 1, s);
      OneMoreEmpty(n, Split(s, '/'));
    }
  }

  lemma OneMoreEmpty(n: nat, parts: seq<string>)
    requires n > 0
    ensures [""] + (seq(n - 1, _ => "") + parts) == seq(n, _ => "") + parts
  {
  }

  lemma RepeatLength(n: nat)
    ensures |Repeat(n)| == n && forall i | 0 <= i < n :: Repeat(n)[i] == '/'
  {
  }

  /** Where a path leads, going through its parts from left to right: so many steps up from the start, which nothing
      leads above when it is the root, and down through the names from there. */
  datatype Place = Place(ups: nat, names: seq<string>)

  function Enter(p: Place, part: string, absolute: bool): Place {
    if part == "" || part == "." then p
    else if part != ".." then p.(names := p.names + [part])
    else if p.names != [] then p.(names := p.names[..|p.names| - 1])
    else if absolute then p
    else p.(ups := p.ups + 1)
  }

  function Leads(parts: seq<string>, absolute: bool): Place {
    if parts == [] then Place(0, []) else Enter(Leads(parts[..|parts| - 1], absolute), Last(parts), absolute)
  }

  /** The parts of a normal path: the steps up, and then the names. */
  function Straight(p: Place): seq<string> {
    seq(p.ups, _ => "..") + p.names
  }

  lemma {:induction false} ComponentsAreStraight(parts: seq<string>, absolute: bool)
    ensures Components(parts, absolute) == Straight(Leads(parts, absolute))
    ensures (absolute ==> Leads(parts, absolute).ups == 0) && ".." !in Leads(parts, absolute).names
  {
    if parts != [] {
      var before := Leads(parts[..|parts| - 1], absolute);
      ComponentsAreStraight(parts[..|parts| - 1], absolute);
      EnterIsStraight(before, Last(parts), absolute);
    }
  }

  lemma EnterIsStraight(p: Place, c: string, absolute: bool)
    requires (absolute ==> p.ups == 0) && ".." !in p.names
    ensures var comps, q := Straight(p), Enter(p, c, absolute);
            && (c == "" || c == "." ==> Straight(q) == comps)
            && (c != "" && c != "." ==>
                  if c != ".." || (!absolute && comps == []) || (comps != [] && Last(comps) == "..") then
                    Straight(q) == comps + [c]
                  else
                    Straight(q) == if comps != [] then comps[..|comps| - 1] else comps)
    ensures var q := Enter(p, c, absolute); (absolute ==> q.ups == 0) && ".." !in q.names
  {
    var comps := Straight(p);
    if c == ".." {
      if p.names != [] {
        assert Last(comps) == Last(p.names) && Last(p.names) in p.names;
        assert comps[..|comps| - 1] == seq(p.ups, _ => "..") + p.names[..|p.names| - 1];
      } else {
        assert comps == seq(p.ups, _ => "..");
        assert seq(p.ups + 1, _ => "..") == comps + [".."];
      }
    } else {
      assert seq(p.ups, _ => "..") + (p.names + [c]) == comps + [c];
    }
  }

  predicate IsName(part: string) {
    part != "" && part != "." && part != ".."
  }

  ghost predicate AllNames(names: seq<string>) {
    forall i | 0 <= i < |names| :: IsName(names[i])
  }

  lemma {:induction false} LeadsStraight(ups: nat, names: seq<string>, absolute: bool)
    requires (absolute ==> ups == 0) && AllNames(names)
    ensures Leads(seq(ups, _ => "..") + names, absolute) == Place(ups, names)
    decreases ups + |names|
  {
    var all := seq(ups, _ => "..") + names;
    if names != [] {
      var n := |names| - 1;
      assert all[..|all| - 1] == seq(ups, _ => "..") + names[..n] && Last(all) == names[n];
      assert IsName(names[n]);
      LeadsStraight(ups, names[..n], absolute);
      assert names[..n] + [names[n]] == names;
    } else if ups > 0 {
      assert all[..|all| - 1] == seq(ups - 1, _ => "..") + [] && Last(all) == "..";
      LeadsStraight(ups - 1, [], absolute);
    }
  }

  lemma {:induction false} NamesAreNames(parts: seq<string>, absolute: bool)
    ensures AllNames(Leads(parts, absolute).names)
  {
    if parts != [] {
      NamesAreNames(parts[..|parts| - 1], absolute);
      EnterKeepsNames(Leads(parts[..|parts| - 1], absolute), Last(parts), absolute);
    }
  }

  lemma EnterKeepsNames(p: Place, part: string, absolute: bool)
    requires AllNames(p.names)
    ensures AllNames(Enter(p, part, absolute).names)
  {
  }

  /** Normalising leads to the same place, by the shortest way: all the steps up come first, and no part is empty,
      `.`, or undone by a later one. */
  lemma NormKeepsPlace(parts: seq<string>, absolute: bool)
    ensures var comps, place := Components(parts, absolute), Leads(parts, absolute);
            comps == Straight(place) && Leads(comps, absolute) == place && (absolute ==> place.ups == 0)
  {
    ComponentsAreStraight(parts, absolute);
    NamesAreNames(parts, absolute);
    LeadsStraight(Leads(parts, absolute).ups, Leads(parts, absolute).names, absolute);
  }

  /** The components of a normal path can be read off its text. */
  lemma SplitShow(slashes: nat, comps: seq<string>)
    requires comps != [] && Normal(comps, slashes > 0)
    ensures Show(slashes, comps) == Repeat(slashes) + Join(comps, '/')
    ensures Split(Show(slashes, comps), '/') == seq(slashes, _ => "") + comps
    ensures |Show(slashes, comps)| > slashes && Show(slashes, comps)[slashes] != '/'
  {
    NormalParts(comps, slashes > 0);
    assert comps[0] != "" && '/' !in comps[0];
    assert Join(comps, '/')[0] == comps[0][0];
    RepeatLength(slashes);
    SplitRepeat(slashes, Join(comps, '/'));
    SplitOfJoin(comps, '/');
  }

  lemma ShowSlashes(slashes: nat, comps: seq<string>)
    requires slashes <= 2 && comps != [] && Normal(comps, slashes > 0)
    ensures Slashes(Show(slashes, comps)) == slashes
    ensures Last(Show(slashes, comps)) != '/'
  {
    SplitShow(slashes, comps);
    RepeatLength(slashes);
    var p := Show(slashes, comps);
    NormalParts(comps, slashes > 0);
    LastOfJoin(comps);
    assert Last(p) == Last(Join(comps, '/'));
    assert slashes >= 1 ==> p[0] == '/';
    assert slashes == 2 ==> p[1] == '/';
  }

  lemma {:induction false} LastOfJoin(comps: seq<string>)
    requires comps != [] && forall c | c in comps :: c != "" && '/' !in c
    ensures Join(comps, '/') != "" && Last(Join(comps, '/')) != '/'
  {
    if |comps| == 1 {
      assert comps[0] in comps;
    } else {
      assert forall c | c in comps[1..] :: c in comps;
      LastOfJoin(comps[1..]);
      assert Last(Join(comps, '/')) == Last(Join(comps[1..], '/'));
    }
  }

  /** Appending a name to a normal path appends a component. */
  lemma NormJoin(slashes: nat, comps: seq<string>, name: string)
    requires slashes <= 2 && Normal(comps, slashes > 0) && ValidName(name)
    ensures NormPath(JoinPath(Show(slashes, comps), name)) == Show(slashes, comps + [name])
  {
    assert name[0] != '/';
    if comps != [] {
      NormJoinBelow(slashes, comps, name);
    } else if slashes > 0 {
      NormJoinSlashes(slashes, name);
    } else {
      assert JoinPath(".", name) == "." + ['/'] + name;
      SplitAppend(".", '/', name);
      assert Split(".", '/') == ["."];
      var parts := ["."] + [name];
      assert parts[..1] == ["."] && ["."][..0] == [];
      assert Components(["."], false) == [];
      assert Components(parts, false) == [] + [name];
    }
  }

  lemma NormJoinSlashes(slashes: nat, name: string)
    requires 1 <= slashes <= 2 && ValidName(name)
    ensures NormPath(JoinPath(Show(slashes, []), name)) == Show(slashes, [name])
  {
    RepeatLength(slashes);
    var p := Repeat(slashes);
    assert p + [] == p;
    assert Show(slashes, []) == p && p[|p| - 1] == '/';
    assert name[0] != '/';
    var q := p + name;
    assert JoinPath(p, name) == q;
    SplitRepeat(slashes, name);
    LeadingEmpty(slashes, [name], true);
    assert [name][..0] == [];
    assert Components([name], true) == [] + [name];
    assert q[slashes] == name[0] && q[0] == '/';
    if slashes == 2 {
      assert q[1] == '/' && q[2] != '/';
    } else {
      assert q[1] != '/';
    }
    assert Slashes(q) == slashes;
  }

  lemma NormJoinBelow(slashes: nat, comps: seq<string>, name: string)
    requires slashes <= 2 && comps != [] && Normal(comps, slashes > 0) && ValidName(name)
    ensures NormPath(JoinPath(Show(slashes, comps), name)) == Show(slashes, comps + [name])
  {
    var p := Show(slashes, comps);
    SplitShow(slashes, comps);
    ShowSlashes(slashes, comps);
    assert JoinPath(p, name) == p + ['/'] + name;
    SplitAppend(p, '/', name);
    SplitName(name);
    ComponentsBelow(slashes, comps, name);
    SameSlashes(p, name);
  }

  lemma SplitName(name: string)
    requires ValidName(name)
    ensures Split(name, '/') == [name]
  {
  }

  lemma ComponentsBelow(slashes: nat, comps: seq<string>, name: string)
    requires Normal(comps, slashes > 0) && ValidName(name)
    ensures Components(seq(slashes, _ => "") + comps + [name], slashes > 0) == comps + [name]
  {
    var e := seq(slashes, _ => "");
    assert e + comps + [name] == e + (comps + [name]);
    LeadingEmpty(slashes, comps + [name], slashes > 0);
    ComponentsOfNormal(comps, slashes > 0);
    assert (comps + [name])[..|comps|] == comps;
  }

  lemma SameSlashes(p: string, name: string)
    requires p != "" && Last(p) != '/'
    ensures Slashes(p + ['/'] + name) == Slashes(p)
  {
    var q := p + ['/'] + name;
    assert q[0] == p[0];
    assert |p| >= 2 ==> q[1] == p[1];
    assert |p| >= 3 ==> q[2] == p[2];
    assert "//" <= p ==> |p| >= 3;
    assert |p| == 1 ==> p[0] != '/';
  }

  /** A path lies below another one exactly when its components start with the other's, however the texts
      of their last names may overlap. */
  lemma BelowIffPrefix(slashes: nat, src: seq<string>, comps: seq<string>)
    requires slashes <= 2 && src != [] && Normal(src, slashes > 0) && Normal(comps, slashes > 0)
    ensures (Show(slashes, src) + "/" <= Show(slashes, comps)) <==> (src <= comps && src != comps)
  {
    if Show(slashes, src) + "/" <= Show(slashes, comps) {
      BelowIsPrefix(slashes, src, comps);
    } else if src <= comps && src != comps {
      assert comps == src + comps[|src|..];
      PrefixIsBelow(slashes, src, comps[|src|..]);
      assert false;
    }
  }

  lemma BelowIsPrefix(slashes: nat, src: seq<string>, comps: seq<string>)
    requires slashes <= 2 && src != [] && Normal(src, slashes > 0) && Normal(comps, slashes > 0)
    requires Show(slashes, src) + "/" <= Show(slashes, comps)
    ensures src <= comps && src != comps
  {
    var p, w := Show(slashes, src), Show(slashes, comps);
    SplitShow(slashes, src);
    if comps == [] {
      RepeatLength(slashes);
    } else {
      SplitShow(slashes, comps);
      BelowSplits(p, w, slashes, src, comps);
    }
  }

  lemma BelowSplits(p: string, w: string, n: nat, src: seq<string>, comps: seq<string>)
    requires Split(p, '/') == seq(n, _ => "") + src && Split(w, '/') == seq(n, _ => "") + comps
    requires p + "/" <= w
    ensures src <= comps && src != comps
  {
    var rest := w[|p| + 1..];
    assert w == p + ['/'] + rest;
    SplitAppend(p, '/', rest);
    TailAfter(seq(n, _ => ""), comps, src, Split(rest, '/'));
  }

  lemma SameTail(n: nat, a: seq<string>, b: seq<string>)
    requires seq(n, _ => "") + a == seq(n, _ => "") + b
    ensures a == b
  {
    TailAfter(seq(n, _ => ""), a, b, []);
  }

  lemma TailAfter(e: seq<string>, a: seq<string>, b: seq<string>, c: seq<string>)
    requires e + a == e + b + c
    ensures a == b + c
  {
    assert a == (e + a)[|e|..] && b + c == (e + b + c)[|e|..];
  }

  lemma PrefixIsBelow(slashes: nat, src: seq<string>, tail: seq<string>)
    requires src != [] && tail != [] && Normal(src, slashes > 0) && Normal(src + tail, slashes > 0)
    ensures Show(slashes, src + tail) == Show(slashes, src) + "/" + Join(tail, '/')
  {
    JoinAppend(src, tail, '/');
    SplitShow(slashes, src);
    SplitShow(slashes, src + tail);
  }

  /** Putting the components below one path under another. */
  lemma Reattach(slashes: nat, dest: seq<string>, tail: seq<string>)
    requires slashes <= 2 && dest != [] && tail != [] && Normal(dest + tail, slashes > 0)
    ensures JoinPath(Show(slashes, dest), Join(tail, '/')) == Show(slashes, dest + tail)
  {
    NormalPrefix(dest + tail, |dest|, slashes > 0);
    assert (dest + tail)[..|dest|] == dest;
    PrefixIsBelow(slashes, dest, tail);
    ShowSlashes(slashes, dest);
    assert tail[0] == (dest + tail)[|dest|] && NormalAt(dest + tail, |dest|, slashes > 0);
    assert Join(tail, '/')[0] == tail[0][0];
  }
}
