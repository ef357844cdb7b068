/** Virtual file names of recipes: the printer and parsers at the top of bb/cache.py. */
module VirtualName {
  import opened Text

  datatype RealName = RealName(fn: string, cls: string, mc: string)

  function Colons(s: string): nat {
    |Split(s, ':')| - 1
  }

  predicate HasMcPrefix(s: string) {
    "mc:" <= s && Colons(s) >= 2
  }

  /** A multiconfig and something after it, whatever that is. */
  lemma McPrefixIff(s: string)
    ensures HasMcPrefix(s) <==> exists mc, rest :: s == WithMc(mc, rest)
  {
    if HasMcPrefix(s) {
      var mc, rest := McParts(s);
    }
    if mc, rest :| s == WithMc(mc, rest) {
      WithMcHasPrefix(mc, rest);
    }
  }

  function WithMc(mc: string, rest: string): string {
    "mc" + [':'] + (mc + [':'] + rest)
  }

  lemma WithMcHasPrefix(mc: string, rest: string)
    ensures HasMcPrefix(WithMc(mc, rest))
  {
    SplitAppend("mc", ':', mc + [':'] + rest);
    SplitAppend(mc, ':', rest);
  }

  lemma McParts(s: string) returns (mc: string, rest: string)
    requires HasMcPrefix(s)
    ensures s == WithMc(mc, rest)
  {
    var tail := s[3..];
    assert s == "mc" + [':'] + tail;
    SplitAppend("mc", ':', tail);
    var i :| 0 <= i < |tail| && tail[i] == ':';
    mc, rest := tail[..i], tail[i + 1..];
    assert tail == mc + [':'] + rest;
  }

  function VirtualFn2RealFn(virtualfn: string): RealName {
    var parts := Split(virtualfn, ':');
    var (mc, rest) :=
      if HasMcPrefix(virtualfn) then (parts[1], Join(parts[2..], ':')) else ("", virtualfn);
    WithoutMc(rest, mc)
  }

  function WithoutMc(rest: string, mc: string): RealName {
    if "virtual:" <= rest then
      var elems := Split(rest, ':');
      assert rest[7] == ':';
      RealName(Last(elems), Join(elems[1..|elems| - 1], ':'), mc)
    else
      RealName(rest, "", mc)
  }

  function RealFn2Virtual(realfn: string, cls: string, mc: string): string {
    var withClass := if cls != "" then "virtual:" + cls + ":" + realfn else realfn;
    if mc != "" then "mc:" + mc + ":" + withClass else withClass
  }

  function Variant2Virtual(realfn: string, variant: string): string {
    if variant == "" then
      realfn
    else if HasMcPrefix(variant) then
      var elems := Split(variant, ':');
      if elems[2] != "" then
        "mc:" + elems[1] + ":virtual:" + Join(elems[2..], ':') + ":" + realfn
      else
        "mc:" + elems[1] + ":" + realfn
    else
      "virtual:" + variant + ":" + realfn
  }

  /** The key under which the variants of a recipe are stored when multiconfigs are parsed together. */
  function VariantOf(cls: string, mc: string): string {
    if mc == "" then cls else "mc:" + mc + ":" + cls
  }

  /** The names that survive printing and parsing. */
  predicate Printable(n: RealName) {
    && ':' !in n.mc
    && (n.cls != "" ==> ':' !in n.fn)
    && (n.cls == "" ==> !("virtual:" <= n.fn) && !(n.mc == "" && HasMcPrefix(n.fn)))
  }

  lemma MiddleOf(first: string, cls: seq<string>, fn: seq<string>)
    requires cls != [] && fn != []
    ensures var elems := [first] + (cls + fn);
            |elems| >= 3 && Last(elems) == Last(fn) && (|fn| == 1 ==> elems[1..|elems| - 1] == cls)
  {
  }

  lemma SplitClass(first: string, fn: string, cls: string)
    requires ':' !in first
    ensures var elems := Split(first + [':'] + (cls + [':'] + fn), ':');
            && |elems| >= 3 && Last(elems) == Last(Split(fn, ':'))
            && (':' !in fn ==> elems[1..|elems| - 1] == Split(cls, ':'))
  {
    SplitAppend(first, ':', cls + [':'] + fn);
    SplitAppend(cls, ':', fn);
    MiddleOf(first, Split(cls, ':'), Split(fn, ':'));
  }

  lemma LastIsWhole(s: string)
    ensures Last(Split(s, ':')) == s <==> ':' !in s
  {
    assert Last(Split(s, ':')) in Split(s, ':');
  }

  /** What the parser makes of a name after the multiconfig has been taken off. */
  lemma ParseClass(fn: string, cls: string)
    ensures var r := RealFn2Virtual(fn, cls, "");
            var elems := Split(r, ':');
            if cls != "" then
              && |elems| >= 3
              && (Last(elems) == fn <==> ':' !in fn)
              && (':' !in fn ==> Join(elems[1..|elems| - 1], ':') == cls)
            else
              "virtual:" <= fn ==> |elems| >= 2 && Last(elems) != fn
  {
    if cls != "" {
      assert RealFn2Virtual(fn, cls, "") == "virtual" + [':'] + (cls + [':'] + fn);
      SplitClass("virtual", fn, cls);
      JoinSplit(cls, ':');
      LastIsWhole(fn);
    } else if "virtual:" <= fn {
      assert fn[7] == ':';
    }
  }

  /** Taking off the multiconfig that the printer put in front. */
  lemma ParseMc(mc: string, r: string)
    requires mc != ""
    ensures var v := "mc:" + mc + ":" + r;
            var parts := Split(v, ':');
            && HasMcPrefix(v)
            && (parts[1] == mc <==> ':' !in mc)
            && (':' !in mc ==> Join(parts[2..], ':') == r)
  {
    McText(mc, r);
    SplitTwo("mc", mc, r);
    JoinSplit(r, ':');
    TailAfterMc("mc", Split(mc, ':'), Split(r, ':'));
    FirstIsWhole(mc);
  }

  lemma McText(mc: string, r: string)
    ensures "mc:" + mc + ":" + r == "mc" + [':'] + (mc + [':'] + r)
  {
  }

  lemma SplitTwo(first: string, mc: string, r: string)
    requires ':' !in first
    ensures Split(first + [':'] + (mc + [':'] + r), ':') == [first] + (Split(mc, ':') + Split(r, ':'))
  {
    SplitAppend(first, ':', mc + [':'] + r);
    SplitAppend(mc, ':', r);
  }

  lemma TailAfterMc(first: string, mc: seq<string>, r: seq<string>)
    requires mc != [] && r != []
    ensures var parts := [first] + (mc + r);
            |parts| >= 3 && parts[1] == mc[0] && (|mc| == 1 ==> parts[2..] == r)
  {
  }

  lemma FirstIsWhole(s: string)
    ensures Split(s, ':')[0] == s <==> ':' !in s
  {
    assert Split(s, ':')[0] in Split(s, ':');
  }

  lemma {:induction false} LastIsShorter(parts: seq<string>)
    requires parts != []
    ensures |Last(parts)| <= |Join(parts, ':')|
  {
    if |parts| > 1 {
      LastIsShorter(parts[1..]);
    }
  }

  /** A bare file name that looks like a multiconfig name is cut. */
  lemma McPrefixIsCut(fn: string)
    requires HasMcPrefix(fn)
    ensures VirtualFn2RealFn(fn).fn != fn
  {
    var parts := Split(fn, ':');
    var rest := Join(parts[2..], ':');
    JoinSplit(fn, ':');
    JoinAppend(parts[..2], parts[2..], ':');
    assert parts == parts[..2] + parts[2..];
    assert |rest| < |fn|;
    if "virtual:" <= rest {
      LastIsShorter(Split(rest, ':'));
      JoinSplit(rest, ':');
    }
  }

  /** Parsing undoes printing exactly for the printable names. */
  lemma RealFnRoundTrip(n: RealName)
    ensures VirtualFn2RealFn(RealFn2Virtual(n.fn, n.cls, n.mc)) == n <==> Printable(n)
  {
    if n.mc != "" {
      McRoundTrip(n);
    } else {
      PlainRoundTrip(n);
    }
  }

  lemma McRoundTrip(n: RealName)
    requires n.mc != ""
    ensures VirtualFn2RealFn(RealFn2Virtual(n.fn, n.cls, n.mc)) == n <==> Printable(n)
  {
    var r := RealFn2Virtual(n.fn, n.cls, "");
    ParseClass(n.fn, n.cls);
    ParseMc(n.mc, r);
  }

  lemma PlainRoundTrip(n: RealName)
    requires n.mc == ""
    ensures VirtualFn2RealFn(RealFn2Virtual(n.fn, n.cls, "")) == n <==> Printable(n)
  {
    var r := RealFn2Virtual(n.fn, n.cls, "");
    ParseClass(n.fn, n.cls);
    if HasMcPrefix(r) {
      assert r[0] == 'm';
      McPrefixIsCut(n.fn);
    }
  }

  lemma VariantElems(cls: string, mc: string)
    requires mc != "" && ':' !in mc
    ensures var elems := Split(VariantOf(cls, mc), ':');
            && |elems| >= 3 && elems[1] == mc && Join(elems[2..], ':') == cls
            && (elems[2] == "" <==> cls == "" || cls[0] == ':')
  {
    McText(mc, cls);
    SplitTwo("mc", mc, cls);
    PartsOfVariant(Split(VariantOf(cls, mc), ':'), mc, cls, Split(cls, ':'));
  }

  lemma PartsOfVariant(elems: seq<string>, mc: string, cls: string, parts: seq<string>)
    requires parts == Split(cls, ':') && elems == ["mc"] + ([mc] + parts)
    ensures |elems| >= 3 && elems[1] == mc && Join(elems[2..], ':') == cls
    ensures elems[2] == "" <==> cls == "" || cls[0] == ':'
  {
    JoinSplit(cls, ':');
    FirstIsEmpty(cls);
    assert elems[2..] == parts && elems[2] == parts[0];
  }

  lemma FirstIsEmpty(s: string)
    ensures Split(s, ':')[0] == "" <==> s == "" || s[0] == ':'
  {
  }

  /** For multiconfig names without colons, the name of the stored variant is the printed name exactly
      when the class is not taken for part of a multiconfig prefix. */
  lemma VariantNameAgrees(realfn: string, cls: string, mc: string)
    requires ':' !in mc
    ensures Variant2Virtual(realfn, VariantOf(cls, mc)) == RealFn2Virtual(realfn, cls, mc) <==>
            if mc == "" then !HasMcPrefix(cls) else !(":" <= cls)
  {
    if mc != "" {
      McVariantNameAgrees(realfn, cls, mc);
    } else if HasMcPrefix(cls) {
      assert Variant2Virtual(realfn, cls)[0] == 'm';
      assert RealFn2Virtual(realfn, cls, mc)[0] == 'v';
    }
  }

  lemma McVariantNameAgrees(realfn: string, cls: string, mc: string)
    requires mc != "" && ':' !in mc
    ensures Variant2Virtual(realfn, VariantOf(cls, mc)) == RealFn2Virtual(realfn, cls, mc) <==> !(":" <= cls)
  {
    var variant := VariantOf(cls, mc);
    ParseMc(mc, cls);
    VariantElems(cls, mc);
    var name := Variant2Virtual(realfn, variant);
    var elems := Split(variant, ':');
    if elems[2] != "" {
      assert name == "mc:" + mc + ":virtual:" + cls + ":" + realfn;
      assert "mc:" + mc + ":" + ("virtual:" + cls + ":" + realfn) == "mc:" + mc + ":virtual:" + cls + ":" + realfn;
    } else {
      assert name == "mc:" + mc + ":" + realfn;
      if cls != "" {
        assert |name| < |RealFn2Virtual(realfn, cls, mc)|;
      }
    }
  }
}
