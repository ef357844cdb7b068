/** The copy-on-write dictionary: COWDictMeta in bb/COW.py.

  A dictionary is a class, a copy is a subclass, and looking up a key is looking up an attribute along the
  line of base classes.  Mutable values live under the key with a suffix and are copied into the current
  level the first time they are fetched there.
 */
module CowDict {
  import opened Wrappers

  const MUTABLE := "__mutable__"

  /** The content of a flat mutable value, such as a list of immutable ones. */
  type Flat = seq<int>

  /** An immutable value.  The mark of a deleted key is `tuple()`, which is the empty tuple itself. */
  datatype Atom = EmptyTuple | Scalar(x: int)

  /** What an attribute holds; `R` is a reference to a mutable value. */
  datatype Val<R> = Imm(atom: Atom) | Mut(ref: R)

  type Layer<R> = map<string, Val<R>>

  predicate PlainKey(key: string) {
    !(|MUTABLE| <= |key| && key[|key| - |MUTABLE|..] == MUTABLE)
  }

  /** Attribute lookup: the first level that has the name. */
  function GetAttr<R>(layers: seq<Layer<R>>, name: string): Option<Val<R>> {
    if layers == [] then None
    else if name in layers[0] then Some(layers[0][name])
    else GetAttr(layers[1..], name)
  }

  /** What a lookup finds, without the copying that it may do. */
  function Find<R>(layers: seq<Layer<R>>, key: string): Option<Val<R>> {
    match GetAttr(layers, key)
    case Some(v) => if v == Imm(EmptyTuple) then None else Some(v)
    case None => GetAttr(layers, key + MUTABLE)
  }

  // The classes

  class Box {
    var content: Flat

    constructor (content: Flat)
      ensures this.content == content
    {
      this.content := content;
    }
  }

  class CowClass {
    const parent: CowClass?
    const count: nat
    ghost const line: set<CowClass>  // this level and the levels below it
    var attrs: Layer<Box>

    ghost predicate Valid()
      decreases count
    {
      && this in line
      && (parent == null ==> line == {this})
      && (parent != null ==>
          count == parent.count + 1 && this !in parent.line && line == {this} + parent.line && parent.Valid())
    }

    ghost function Layers(): seq<Layer<Box>>
      requires Valid()
      reads line
      decreases count
    {
      [attrs] + if parent == null then [] else parent.Layers()
    }

    constructor Base()
      ensures Valid() && Layers() == [map[]] && fresh(line)
    {
      parent, count, attrs, line := null, 0, map[], {this};
    }

    constructor Cow(parent: CowClass)
      requires parent.Valid()
      ensures Valid() && this.parent == parent && Layers() == [map[]] + parent.Layers() && line == {this} + parent.line
    {
      this.parent, count, attrs, line := parent, parent.count + 1, map[], {this} + parent.line;
    }

    method LookupAttr(name: string) returns (r: Option<Val<Box>>)
      requires Valid()
      ensures r == GetAttr(Layers(), name)
      decreases count
    {
      assert Layers()[1..] == if parent == null then [] else parent.Layers();
      if name in attrs {
        r := Some(attrs[name]);
      } else if parent == null {
        r := None;
      } else {
        r := parent.LookupAttr(name);
      }
    }

    method SetItem(key: string, value: Val<Box>)
      requires Valid()
      modifies this`attrs
      ensures attrs == old(attrs)[(if value.Mut? then key + MUTABLE else key) := value]
      ensures Layers() == [attrs] + old(Layers())[1..]
    {
      var name := key;
      if value.Mut? {
        name := name + MUTABLE;
      }
      attrs := attrs[name := value];
      assert parent != null ==> parent.Layers() == old(parent.Layers());
    }

    method DelItem(key: string)
      requires Valid()
      modifies this`attrs
      ensures attrs == old(attrs)[key := Imm(EmptyTuple)]
    {
      SetItem(key, Imm(EmptyTuple));
    }

    /** Fetches a mutable value; unless it is only to be read, an inherited one is copied to this level.
        `inherited` is the value that was found. */
    method GetMutable(key: string, readonly: bool) returns (r: Option<Val<Box>>, ghost inherited: Option<Box>)
      requires Valid()
      modifies this`attrs
      ensures readonly || key + MUTABLE in old(attrs) || GetAttr(old(Layers()), key + MUTABLE).None? ==>
                attrs == old(attrs) && r == GetAttr(old(Layers()), key + MUTABLE)
      ensures !readonly && key + MUTABLE !in old(attrs) && GetAttr(old(Layers()), key + MUTABLE).Some? ==>
                r.Some? && attrs == old(attrs)[key + MUTABLE := r.value] &&
                if inherited.None? then r == GetAttr(old(Layers()), key + MUTABLE) && r.value.Imm?
                else && GetAttr(old(Layers()), key + MUTABLE) == Some(Mut(inherited.value))
                     && r.value.Mut? && fresh(r.value.ref) && r.value.ref.content == inherited.value.content
    {
      var nkey := key + MUTABLE;
      inherited := None;
      if nkey in attrs {
        return Some(attrs[nkey]), None;
      }
      r := LookupAttr(nkey);
      if r.None? || readonly {
        return;
      }
      if r.value.Mut? {
        inherited := Some(r.value.ref);
        var copy := new Box(r.value.ref.content);
        r := Some(Mut(copy));
      }
      attrs := attrs[nkey := r.value];
    }

    /** Fetches a value, or `None` for a KeyError.  A mutable value that is found at another level, and is not
        only to be read, is copied: afterwards this level has its own, with the same content. */
    method GetItem(key: string, readonly: bool) returns (r: Option<Val<Box>>, ghost inherited: Option<Box>)
      requires Valid()
      modifies this`attrs
      ensures r.Some? <==> Find(old(Layers()), key).Some?
      ensures readonly || r.None? || GetAttr(old(Layers()), key).Some? || key + MUTABLE in old(attrs) ==>
                attrs == old(attrs) && r == Find(old(Layers()), key)
      ensures !readonly && r.Some? && GetAttr(old(Layers()), key).None? && key + MUTABLE !in old(attrs) ==>
                attrs == old(attrs)[key + MUTABLE := r.value] &&
                if inherited.None? then r == Find(old(Layers()), key) && r.value.Imm?
                else && Find(old(Layers()), key) == Some(Mut(inherited.value))
                     && r.value.Mut? && fresh(r.value.ref) && r.value.ref.content == inherited.value.content
    {
      var value := LookupAttr(key);
      if value.None? {
        r, inherited := GetMutable(key, readonly);
        return;
      }
      r, inherited := if value.value == Imm(EmptyTuple) then None else value, None;
    }

    method HasKey(key: string) returns (b: bool)
      requires Valid()
      modifies this`attrs
      ensures attrs == old(attrs) && (b <==> Find(old(Layers()), key).Some?)
    {
      var r, _ := GetItem(key, true);
      b := r.Some?;
    }
  }

  // Trees of copies

  /** A level of the tree; a copy comes after the level it was made from. */
  datatype Node = Node(parent: Option<nat>, layer: Layer<nat>)

  /** All levels, and the contents of all mutable values. */
  datatype Forest = Forest(nodes: seq<Node>, heap: seq<Flat>)

  ghost predicate WellFormed(f: Forest) {
    forall n | 0 <= n < |f.nodes| :: f.nodes[n].parent.Some? ==> f.nodes[n].parent.value < n
  }

  ghost function LayersOf(f: Forest, n: nat): seq<Layer<nat>>
    requires WellFormed(f) && n < |f.nodes|
    decreases n
  {
    [f.nodes[n].layer] + if f.nodes[n].parent.None? then [] else LayersOf(f, f.nodes[n].parent.value)
  }

  /** `m` is `n` or a level that `n` was, directly or not, copied from. */
  ghost predicate IsLine(f: Forest, n: nat, m: nat)
    requires WellFormed(f) && n < |f.nodes|
    decreases n
  {
    n == m || (f.nodes[n].parent.Some? && IsLine(f, f.nodes[n].parent.value, m))
  }

  ghost predicate HasCopy(f: Forest, n: nat) {
    exists m :: 0 <= m < |f.nodes| && f.nodes[m].parent == Some(n)
  }

  /** A value as a user sees it. */
  datatype Content = OfAtom(atom: Atom) | OfFlat(flat: Flat)

  function ContentOf(heap: seq<Flat>, v: Val<nat>): Content {
    match v
    case Imm(a) => OfAtom(a)
    case Mut(r) => OfFlat(if r < |heap| then heap[r] else [])
  }

  /** The content of an attribute, looked up along the line of a level. */
  ghost function Resolve(f: Forest, n: nat, name: string): Option<Content>
    requires WellFormed(f) && n < |f.nodes|
    decreases n
  {
    if name in f.nodes[n].layer then Some(ContentOf(f.heap, f.nodes[n].layer[name]))
    else if f.nodes[n].parent.None? then None
    else Resolve(f, f.nodes[n].parent.value, name)
  }

  ghost function Lookup(f: Forest, n: nat, key: string): Option<Content>
    requires WellFormed(f) && n < |f.nodes|
  {
    match Resolve(f, n, key)
    case Some(c) => if c == OfAtom(EmptyTuple) then None else Some(c)
    case None => Resolve(f, n, key + MUTABLE)
  }

  function MapContent(heap: seq<Flat>, v: Option<Val<nat>>): Option<Content> {
    if v.None? then None else Some(ContentOf(heap, v.value))
  }

  /** Looking up in the tree is looking up in the levels on the line, as the classes do. */
  lemma {:induction false} ResolveIsGetAttr(f: Forest, n: nat, name: string)
    requires WellFormed(f) && n < |f.nodes|
    ensures Resolve(f, n, name) == MapContent(f.heap, GetAttr(LayersOf(f, n), name))
    decreases n
  {
    var layers := LayersOf(f, n);
    if f.nodes[n].parent.Some? {
      assert layers[1..] == LayersOf(f, f.nodes[n].parent.value);
      ResolveIsGetAttr(f, f.nodes[n].parent.value, name);
    } else {
      assert layers[1..] == [];
    }
  }

  lemma LookupIsFind(f: Forest, n: nat, key: string)
    requires WellFormed(f) && n < |f.nodes|
    ensures Lookup(f, n, key) == MapContent(f.heap, Find(LayersOf(f, n), key))
  {
    ResolveIsGetAttr(f, n, key);
    ResolveIsGetAttr(f, n, key + MUTABLE);
  }

  datatype Op =
    | Copy(n: nat)
    | SetAtom(n: nat, key: string, atom: Atom)
    | SetFlat(n: nat, key: string, flat: Flat)
    | Delete(n: nat, key: string)
    | Read(n: nat, key: string)
    | Touch(n: nat, key: string, flat: Flat)  // fetches a value and changes it in place

  function SetLayer(f: Forest, n: nat, name: string, v: Val<nat>): Forest
    requires n < |f.nodes|
  {
    f.(nodes := f.nodes[n := f.nodes[n].(layer := f.nodes[n].layer[name := v])])
  }

  /** The copying that fetching a value for writing does. */
  ghost function Fetched(f: Forest, n: nat, key: string): Forest
    requires WellFormed(f) && n < |f.nodes|
  {
    var layers := LayersOf(f, n);
    if GetAttr(layers, key).Some? || key + MUTABLE in f.nodes[n].layer then f else
      match GetAttr(layers, key + MUTABLE)
      case Some(Mut(r)) =>
        if r < |f.heap| then SetLayer(f, n, key + MUTABLE, Mut(|f.heap|)).(heap := f.heap + [f.heap[r]]) else f
      case _ => f
  }

  ghost predicate InRange(f: Forest, op: Op) {
    op.n < |f.nodes| && (op.Copy? || PlainKey(op.key))
  }

  ghost function Apply(f: Forest, op: Op): Forest
    requires WellFormed(f) && InRange(f, op)
  {
    match op
    case Copy(n) => f.(nodes := f.nodes + [Node(Some(n), map[])])
    case SetAtom(n, key, atom) => SetLayer(f, n, key, Imm(atom))
    case SetFlat(n, key, flat) => SetLayer(f, n, key + MUTABLE, Mut(|f.heap|)).(heap := f.heap + [flat])
    case Delete(n, key) => SetLayer(f, n, key, Imm(EmptyTuple))
    case Read(n, key) => Fetched(f, n, key)
    case Touch(n, key, flat) =>
      var g := Fetched(f, n, key);
      if GetAttr(LayersOf(f, n), key).None? && key + MUTABLE in g.nodes[n].layer &&
        g.nodes[n].layer[key + MUTABLE].Mut? &&
         g.nodes[n].layer[key + MUTABLE].ref < |g.heap|
      then g.(heap := g.heap[g.nodes[n].layer[key + MUTABLE].ref := flat]) else g
  }

  /** How the dictionaries are to be used: a level is not changed once it has been copied, a key that has
      been given an immutable value or deleted is not given a mutable one, and the empty tuple is not stored. */
  ghost predicate Disciplined(f: Forest, op: Op)
    requires WellFormed(f) && InRange(f, op)
  {
    match op
    case Copy(n) => true
    case Read(n, key) => true
    case SetAtom(n, key, atom) => !HasCopy(f, n) && atom != EmptyTuple
    case SetFlat(n, key, flat) => !HasCopy(f, n) && GetAttr(LayersOf(f, n), key) == None
    case Delete(n, key) => !HasCopy(f, n)
    case Touch(n, key, flat) => !HasCopy(f, n)
  }

  // Plain dictionaries

  type Plain = map<string, Content>

  function ApplyPlain(s: seq<Plain>, op: Op): seq<Plain>
    requires op.n < |s|
  {
    match op
    case Copy(n) => s + [s[n]]
    case SetAtom(n, key, atom) => s[n := s[n][key := OfAtom(atom)]]
    case SetFlat(n, key, flat) => s[n := s[n][key := OfFlat(flat)]]
    case Delete(n, key) => s[n := s[n] - {key}]
    case Read(n, key) => s
    case Touch(n, key, flat) => if key in s[n] && s[n][key].OfFlat? then s[n := s[n][key := OfFlat(flat)]] else s
  }

  /** Every level shows what the plain dictionary of the same number holds. */
  ghost predicate Shows(f: Forest, s: seq<Plain>) {
    && WellFormed(f) && |f.nodes| == |s|
    && forall n, key | 0 <= n < |s| && PlainKey(key) ::
         Lookup(f, n, key) == (if key in s[n] then Some(s[n][key]) else None)
  }

  /** Immutable values are under their keys, mutable ones under suffixed names, and each mutable value
      belongs to one name of one level. */
  ghost predicate Owned(f: Forest) {
    && (forall n, name | 0 <= n < |f.nodes| && name in f.nodes[n].layer ::
          f.nodes[n].layer[name].Mut? <==> !PlainKey(name))
    && (forall n, name | 0 <= n < |f.nodes| && name in f.nodes[n].layer && f.nodes[n].layer[name].Mut? ::
          f.nodes[n].layer[name].ref < |f.heap|)
    && (forall n, name, m, other |
          0 <= n < |f.nodes| && name in f.nodes[n].layer && f.nodes[n].layer[name].Mut? &&
          0 <= m < |f.nodes| && other in f.nodes[m].layer && f.nodes[m].layer[other].Mut? &&
          f.nodes[n].layer[name].ref == f.nodes[m].layer[other].ref :: n == m && name == other)
  }

  lemma NamesDiffer(key: string, other: string)
    requires PlainKey(key) && PlainKey(other)
    ensures !PlainKey(key + MUTABLE) && key != other + MUTABLE && (key + MUTABLE == other + MUTABLE <==> key == other)
  {
    var k, o := key + MUTABLE, other + MUTABLE;
    assert k[|k| - |MUTABLE|..] == MUTABLE && o[|o| - |MUTABLE|..] == MUTABLE;
    assert key == k[..|k| - |MUTABLE|] && other == o[..|o| - |MUTABLE|];
  }

  /** Only copies of a level have it on their line. */
  lemma {:induction false} NoCopyNoLine(f: Forest, n: nat, m: nat)
    requires WellFormed(f) && m < |f.nodes| && !HasCopy(f, n) && m != n
    ensures !IsLine(f, m, n)
    decreases m
  {
    if f.nodes[m].parent.Some? {
      NoCopyNoLine(f, n, f.nodes[m].parent.value);
    }
  }

  /** `g` differs from `f` at most in the attribute `name` of level `n`, and in mutable values that no other
      attribute of `f` refers to. */
  ghost predicate DiffersAt(f: Forest, g: Forest, n: nat, name: string) {
    && |f.nodes| == |g.nodes| && n < |f.nodes|
    && (forall m | 0 <= m < |f.nodes| :: f.nodes[m].parent == g.nodes[m].parent)
    && (forall m, other | 0 <= m < |f.nodes| && (m != n || other != name) ::
          && (other in f.nodes[m].layer <==> other in g.nodes[m].layer)
          && (other in f.nodes[m].layer ==>
                ContentOf(f.heap, f.nodes[m].layer[other]) == ContentOf(g.heap, g.nodes[m].layer[other])))
  }

  lemma {:induction false} ResolveElsewhere(f: Forest, g: Forest, n: nat, name: string, m: nat, other: string)
    requires WellFormed(f) && WellFormed(g) && DiffersAt(f, g, n, name) && m < |f.nodes|
    requires other != name || !IsLine(f, m, n)
    ensures Resolve(g, m, other) == Resolve(f, m, other)
    decreases m
  {
    if f.nodes[m].parent.Some? {
      ResolveElsewhere(f, g, n, name, f.nodes[m].parent.value, other);
    }
  }

  /** A change to a level that has no copies is seen at that level, under that key, and nowhere else. */
  lemma LookupElsewhere(f: Forest, g: Forest, n: nat, name: string, m: nat, key: string)
    requires WellFormed(f) && WellFormed(g) && DiffersAt(f, g, n, name) && m < |f.nodes|
    requires (m != n && !HasCopy(f, n)) || (key != name && key + MUTABLE != name)
    ensures Lookup(g, m, key) == Lookup(f, m, key)
  {
    if m != n && !HasCopy(f, n) {
      NoCopyNoLine(f, n, m);
    }
    ResolveElsewhere(f, g, n, name, m, key);
    ResolveElsewhere(f, g, n, name, m, key + MUTABLE);
  }

  /** Plain names hold immutable values and suffixed ones mutable values. */
  lemma {:induction false} ResolvedKind(f: Forest, n: nat, name: string)
    requires WellFormed(f) && Owned(f) && n < |f.nodes|
    ensures Resolve(f, n, name).Some? ==> (Resolve(f, n, name).value.OfFlat? <==> !PlainKey(name))
    decreases n
  {
    if name !in f.nodes[n].layer && f.nodes[n].parent.Some? {
      ResolvedKind(f, f.nodes[n].parent.value, name);
    }
  }

  lemma SetLayerDiffers(f: Forest, n: nat, name: string, v: Val<nat>, extra: seq<Flat>)
    requires WellFormed(f) && Owned(f) && n < |f.nodes|
    requires v.Mut? <==> !PlainKey(name)
    requires v.Mut? ==> v.ref == |f.heap| && extra != []
    ensures var g := SetLayer(f, n, name, v).(heap := f.heap + extra);
            WellFormed(g) && Owned(g) && DiffersAt(f, g, n, name) &&
            Resolve(g, n, name) == Some(ContentOf(f.heap + extra, v))
  {
    var g := SetLayer(f, n, name, v).(heap := f.heap + extra);
    SetLayerOwned(f, g, n, name, v);
    forall m, other | 0 <= m < |f.nodes| && (m != n || other != name)
      ensures other in f.nodes[m].layer <==> other in g.nodes[m].layer
      ensures other in f.nodes[m].layer ==>
              ContentOf(f.heap, f.nodes[m].layer[other]) == ContentOf(g.heap, g.nodes[m].layer[other])
    {
      if other in f.nodes[m].layer && f.nodes[m].layer[other].Mut? {
        assert f.nodes[m].layer[other].ref < |f.heap|;
      }
    }
  }

  lemma SetLayerOwned(f: Forest, g: Forest, n: nat, name: string, v: Val<nat>)
    requires Owned(f) && n < |f.nodes| && (v.Mut? <==> !PlainKey(name))
    requires g.nodes == SetLayer(f, n, name, v).nodes && f.heap <= g.heap
    requires v.Mut? ==> |f.heap| <= v.ref < |g.heap|
    ensures Owned(g)
  {
    forall m, other | 0 <= m < |g.nodes| && other in g.nodes[m].layer
      ensures g.nodes[m].layer[other] == if m == n && other == name then v else f.nodes[m].layer[other]
      ensures m != n || other != name ==> other in f.nodes[m].layer
    {
    }
  }

  /** Fetching a value changes no lookup at any level, whether copied or not. */
  lemma {:induction false} FetchedResolves(f: Forest, n: nat, key: string, m: nat, name: string)
    requires WellFormed(f) && Owned(f) && n < |f.nodes| && m < |f.nodes| && PlainKey(key)
    ensures WellFormed(Fetched(f, n, key)) && Resolve(Fetched(f, n, key), m, name) == Resolve(f, m, name)
    decreases m
  {
    var g := Fetched(f, n, key);
    ResolveIsGetAttr(f, n, key + MUTABLE);
    if m == n && name == key + MUTABLE && g != f {
      assert g.heap[|f.heap|] == f.heap[GetAttr(LayersOf(f, n), key + MUTABLE).value.ref];
    } else if name !in f.nodes[m].layer && f.nodes[m].parent.Some? {
      FetchedResolves(f, n, key, f.nodes[m].parent.value, name);
    }
  }

  lemma FetchedOwned(f: Forest, n: nat, key: string)
    requires WellFormed(f) && Owned(f) && n < |f.nodes| && PlainKey(key)
    ensures Owned(Fetched(f, n, key)) && WellFormed(Fetched(f, n, key))
    ensures |Fetched(f, n, key).nodes| == |f.nodes|
    ensures forall m | 0 <= m < |f.nodes| :: Fetched(f, n, key).nodes[m].parent == f.nodes[m].parent
  {
    var g := Fetched(f, n, key);
    NamesDiffer(key, key);
    if g != f {
      SetLayerOwned(f, g, n, key + MUTABLE, Mut(|f.heap|));
    }
  }

  /** After fetching, a mutable value that was found belongs to the level itself. */
  lemma FetchedIsOwn(f: Forest, n: nat, key: string)
    requires WellFormed(f) && Owned(f) && n < |f.nodes| && PlainKey(key)
    ensures var g := Fetched(f, n, key); var nkey := key + MUTABLE;
            && (GetAttr(LayersOf(f, n), key).None? && Resolve(f, n, nkey).Some? ==>
                  nkey in g.nodes[n].layer && g.nodes[n].layer[nkey].Mut? && g.nodes[n].layer[nkey].ref < |g.heap|)
            && (Resolve(f, n, nkey).None? ==> nkey !in g.nodes[n].layer)
  {
    var g, nkey := Fetched(f, n, key), key + MUTABLE;
    NamesDiffer(key, key);
    if g != f {
      assert g.nodes[n].layer == f.nodes[n].layer[nkey := Mut(|f.heap|)] && |g.heap| == |f.heap| + 1;
      ResolveIsGetAttr(f, n, nkey);
    } else if nkey !in f.nodes[n].layer && GetAttr(LayersOf(f, n), key).None? {
      ResolveIsGetAttr(f, n, nkey);
      ResolvedKind(f, n, nkey);
      GetAttrRef(f, n, nkey);
    }
  }

  lemma {:induction false} GetAttrRef(f: Forest, n: nat, name: string)
    requires WellFormed(f) && Owned(f) && n < |f.nodes|
    ensures var v := GetAttr(LayersOf(f, n), name); v.Some? && v.value.Mut? ==> v.value.ref < |f.heap|
    decreases n
  {
    var layers := LayersOf(f, n);
    if f.nodes[n].parent.Some? {
      assert layers[1..] == LayersOf(f, f.nodes[n].parent.value);
      GetAttrRef(f, f.nodes[n].parent.value, name);
    } else {
      assert layers[1..] == [];
    }
  }

  // The refinement

  lemma CopyStep(f: Forest, s: seq<Plain>, n: nat)
    requires Shows(f, s) && Owned(f) && n < |s|
    ensures Shows(Apply(f, Copy(n)), ApplyPlain(s, Copy(n))) && Owned(Apply(f, Copy(n)))
  {
    var g, after := Apply(f, Copy(n)), ApplyPlain(s, Copy(n));
    CopyOwned(f, n);
    forall m, key | 0 <= m < |after| && PlainKey(key)
      ensures Lookup(g, m, key) == (if key in after[m] then Some(after[m][key]) else None)
    {
      CopyLooksUp(f, n, m, key);
      var from := if m < |f.nodes| then m else n;
      assert after[m] == s[from];
    }
  }

  lemma CopyOwned(f: Forest, n: nat)
    requires WellFormed(f) && Owned(f) && n < |f.nodes|
    ensures Owned(Apply(f, Copy(n))) && WellFormed(Apply(f, Copy(n)))
  {
    var g := Apply(f, Copy(n));
    assert forall m, name | 0 <= m < |g.nodes| && name in g.nodes[m].layer :: m < |f.nodes| && g.nodes[m] == f.nodes[m];
  }

  lemma CopyLooksUp(f: Forest, n: nat, m: nat, key: string)
    requires WellFormed(f) && n < |f.nodes| && m <= |f.nodes|
    ensures var g := Apply(f, Copy(n));
            WellFormed(g) && Lookup(g, m, key) == Lookup(f, if m < |f.nodes| then m else n, key)
  {
    var g := Apply(f, Copy(n));
    var from := if m < |f.nodes| then m else n;
    ResolvePrefix(f, g, from, key);
    ResolvePrefix(f, g, from, key + MUTABLE);
  }

  lemma {:induction false} ResolvePrefix(f: Forest, g: Forest, m: nat, name: string)
    requires WellFormed(f) && WellFormed(g) && f.nodes <= g.nodes && f.heap == g.heap && m < |f.nodes|
    ensures Resolve(g, m, name) == Resolve(f, m, name)
    decreases m
  {
    assert g.nodes[m] == f.nodes[m];
    if f.nodes[m].parent.Some? {
      ResolvePrefix(f, g, f.nodes[m].parent.value, name);
    }
  }

  /** A change to one level and key that agrees with the change of the plain dictionary. */
  lemma ChangeStep(f: Forest, g: Forest, s: seq<Plain>, n: nat, key: string, name: string, after: Plain)
    requires Shows(f, s) && Owned(f) && WellFormed(g) && n < |s| && PlainKey(key) && !HasCopy(f, n)
    requires name == key || name == key + MUTABLE
    requires DiffersAt(f, g, n, name)
    requires Lookup(g, n, key) == (if key in after then Some(after[key]) else None)
    requires forall other | other != key ::
               (other in after <==> other in s[n]) && (other in after ==> after[other] == s[n][other])
    ensures Shows(g, s[n := after])
  {
    forall m, other | 0 <= m < |s| && PlainKey(other)
      ensures Lookup(g, m, other) == (if other in s[n := after][m] then Some(s[n := after][m][other]) else None)
    {
      if m != n || other != key {
        NamesDiffer(other, key);
        LookupElsewhere(f, g, n, name, m, other);
      }
    }
  }

  lemma SetStep(f: Forest, s: seq<Plain>, op: Op)
    requires Shows(f, s) && Owned(f) && InRange(f, op) && Disciplined(f, op)
    requires op.SetAtom? || op.SetFlat? || op.Delete?
    ensures Shows(Apply(f, op), ApplyPlain(s, op)) && Owned(Apply(f, op))
  {
    NamesDiffer(op.key, op.key);
    var g := Apply(f, op);
    match op
    case SetAtom(n, key, atom) =>
      assert f.heap + [] == f.heap;
      SetLayerDiffers(f, n, key, Imm(atom), []);
      ChangeStep(f, g, s, n, key, key, s[n][key := OfAtom(atom)]);
    case Delete(n, key) =>
      assert f.heap + [] == f.heap;
      SetLayerDiffers(f, n, key, Imm(EmptyTuple), []);
      ChangeStep(f, g, s, n, key, key, s[n] - {key});
    case SetFlat(n, key, flat) =>
      SetLayerDiffers(f, n, key + MUTABLE, Mut(|f.heap|), [flat]);
      ResolveIsGetAttr(f, n, key);
      ResolveElsewhere(f, g, n, key + MUTABLE, n, key);
      ChangeStep(f, g, s, n, key, key + MUTABLE, s[n][key := OfFlat(flat)]);
  }

  lemma ReadStep(f: Forest, s: seq<Plain>, n: nat, key: string)
    requires Shows(f, s) && Owned(f) && n < |s| && PlainKey(key)
    ensures Shows(Fetched(f, n, key), s) && Owned(Fetched(f, n, key))
  {
    FetchedOwned(f, n, key);
    var g := Fetched(f, n, key);
    forall m, other | 0 <= m < |s| && PlainKey(other) ensures Lookup(g, m, other) == Lookup(f, m, other) {
      FetchedResolves(f, n, key, m, other);
      FetchedResolves(f, n, key, m, other + MUTABLE);
    }
  }

  /** Whether a fetched value can be changed in place is what the plain dictionary says. */
  lemma TouchIsChange(f: Forest, s: seq<Plain>, n: nat, key: string, flat: Flat)
    requires Shows(f, s) && Owned(f) && n < |s| && PlainKey(key)
    ensures var g := Fetched(f, n, key); var h := Apply(f, Touch(n, key, flat)); var nkey := key + MUTABLE;
            if key in s[n] && s[n][key].OfFlat? then
              && Resolve(f, n, key).None?
              && n < |g.nodes| && nkey in g.nodes[n].layer && g.nodes[n].layer[nkey].Mut? &&
                 g.nodes[n].layer[nkey].ref < |g.heap|
              && h == g.(heap := g.heap[g.nodes[n].layer[nkey].ref := flat])
            else h == g
  {
    FetchedIsOwn(f, n, key);
    ResolveIsGetAttr(f, n, key);
    ResolvedKind(f, n, key);
    ResolvedKind(f, n, key + MUTABLE);
    NamesDiffer(key, key);
    assert Lookup(f, n, key) == (if key in s[n] then Some(s[n][key]) else None);
  }

  lemma HeapSetDiffers(g: Forest, n: nat, nkey: string, flat: Flat)
    requires WellFormed(g) && Owned(g) && n < |g.nodes| && nkey in g.nodes[n].layer && g.nodes[n].layer[nkey].Mut?
    ensures var h := g.(heap := g.heap[g.nodes[n].layer[nkey].ref := flat]);
            WellFormed(h) && Owned(h) && DiffersAt(g, h, n, nkey) && Resolve(h, n, nkey) == Some(OfFlat(flat))
  {
    var r := g.nodes[n].layer[nkey].ref;
    var h := g.(heap := g.heap[r := flat]);
    forall m, other | 0 <= m < |g.nodes| && (m != n || other != nkey) && other in g.nodes[m].layer
      ensures ContentOf(g.heap, g.nodes[m].layer[other]) == ContentOf(h.heap, h.nodes[m].layer[other])
    {
      assert g.nodes[m].layer[other].Mut? ==> g.nodes[m].layer[other].ref != r;
    }
  }

  lemma TouchStep(f: Forest, s: seq<Plain>, n: nat, key: string, flat: Flat)
    requires Shows(f, s) && Owned(f) && n < |s| && PlainKey(key) && !HasCopy(f, n)
    ensures Shows(Apply(f, Touch(n, key, flat)), ApplyPlain(s, Touch(n, key, flat))) &&
            Owned(Apply(f, Touch(n, key, flat)))
  {
    var nkey := key + MUTABLE;
    ReadStep(f, s, n, key);
    FetchedOwned(f, n, key);
    TouchIsChange(f, s, n, key, flat);
    NamesDiffer(key, key);
    if key in s[n] && s[n][key].OfFlat? {
      var g := Fetched(f, n, key);
      var h := Apply(f, Touch(n, key, flat));
      HeapSetDiffers(g, n, nkey, flat);
      FetchedResolves(f, n, key, n, key);
      ResolveElsewhere(g, h, n, nkey, n, key);
      ChangeStep(g, h, s, n, key, nkey, s[n][key := OfFlat(flat)]);
    }
  }

  lemma StepRefines(f: Forest, s: seq<Plain>, op: Op)
    requires Shows(f, s) && Owned(f) && InRange(f, op) && Disciplined(f, op)
    ensures Shows(Apply(f, op), ApplyPlain(s, op)) && Owned(Apply(f, op))
  {
    match op
    case Copy(n) => CopyStep(f, s, n);
    case Read(n, key) => ReadStep(f, s, n, key);
    case Touch(n, key, flat) => TouchStep(f, s, n, key, flat);
    case SetAtom(_, _, _) => SetStep(f, s, op);
    case SetFlat(_, _, _) => SetStep(f, s, op);
    case Delete(_, _) => SetStep(f, s, op);
  }

  const START := Forest([Node(None, map[])], [])

  ghost predicate DisciplinedRun(f: Forest, ops: seq<Op>)
    decreases |ops|
  {
    ops == [] || (WellFormed(f) && InRange(f, ops[0]) && Disciplined(f, ops[0]) &&
                  DisciplinedRun(Apply(f, ops[0]), ops[1..]))
  }

  ghost function Run(f: Forest, ops: seq<Op>): Forest
    requires DisciplinedRun(f, ops)
    decreases |ops|
  {
    if ops == [] then f else Run(Apply(f, ops[0]), ops[1..])
  }

  ghost function RunPlain(f: Forest, s: seq<Plain>, ops: seq<Op>): seq<Plain>
    requires DisciplinedRun(f, ops) && |f.nodes| == |s|
    decreases |ops|
  {
    if ops == [] then s else RunPlain(Apply(f, ops[0]), ApplyPlain(s, ops[0]), ops[1..])
  }

  /** Every disciplined use of any tree of copies is indistinguishable from plain dictionaries that are
      copied in full: each level shows exactly the changes made to it and before it was copied. */
  lemma {:induction false} RunRefines(f: Forest, s: seq<Plain>, ops: seq<Op>)
    requires Shows(f, s) && Owned(f) && DisciplinedRun(f, ops)
    ensures Shows(Run(f, ops), RunPlain(f, s, ops)) && Owned(Run(f, ops))
    decreases |ops|
  {
    if ops != [] {
      StepRefines(f, s, ops[0]);
      RunRefines(Apply(f, ops[0]), ApplyPlain(s, ops[0]), ops[1..]);
    }
  }

  lemma StartShows()
    ensures Shows(START, [map[]]) && Owned(START)
  {
    forall key ensures Lookup(START, 0, key) == None {
      assert Resolve(START, 0, key) == None && Resolve(START, 0, key + MUTABLE) == None;
    }
  }

  // What the discipline is for

  /** An in-place change of a mutable value, however it is reached, is seen only at the level that owns the
      value and at copies of that level. */
  lemma ChangeIsLocal(f: Forest, n: nat, name: string, flat: Flat, m: nat, key: string)
    requires WellFormed(f) && Owned(f) && n < |f.nodes| && m < |f.nodes|
    requires name in f.nodes[n].layer && f.nodes[n].layer[name].Mut?
    ensures var g := f.(heap := f.heap[f.nodes[n].layer[name].ref := flat]);
            Lookup(g, m, key) != Lookup(f, m, key) ==> IsLine(f, m, n) && (name == key || name == key + MUTABLE)
  {
    var g := f.(heap := f.heap[f.nodes[n].layer[name].ref := flat]);
    assert DiffersAt(f, g, n, name);
    if !IsLine(f, m, n) || (name != key && name != key + MUTABLE) {
      ResolveElsewhere(f, g, n, name, m, key);
      ResolveElsewhere(f, g, n, name, m, key + MUTABLE);
    }
  }

  /** A mutable value that is stored can be fetched exactly when no level on the line holds an immutable
      value or a deletion under the key. */
  lemma StoredFlatIsFound(f: Forest, n: nat, key: string, flat: Flat)
    requires WellFormed(f) && Owned(f) && n < |f.nodes| && PlainKey(key)
    ensures Lookup(Apply(f, SetFlat(n, key, flat)), n, key) == Some(OfFlat(flat)) <==>
            GetAttr(LayersOf(f, n), key) == None
  {
    NamesDiffer(key, key);
    var g := Apply(f, SetFlat(n, key, flat));
    SetLayerDiffers(f, n, key + MUTABLE, Mut(|f.heap|), [flat]);
    ResolveIsGetAttr(f, n, key);
    ResolvedKind(f, n, key);
    ResolveElsewhere(f, g, n, key + MUTABLE, n, key);
  }

  /** An immutable value that is stored can be fetched exactly when it is not the empty tuple. */
  lemma StoredAtomIsFound(f: Forest, n: nat, key: string, atom: Atom)
    requires WellFormed(f) && n < |f.nodes| && PlainKey(key)
    ensures Lookup(Apply(f, SetAtom(n, key, atom)), n, key) == Some(OfAtom(atom)) <==> atom != EmptyTuple
    ensures atom == EmptyTuple ==> Lookup(Apply(f, SetAtom(n, key, atom)), n, key) == None
  {
    assert Resolve(Apply(f, SetAtom(n, key, atom)), n, key) == Some(OfAtom(atom));
  }

  /** A value stored at a level after it was copied shows through in the copy exactly when the copy has no
      immutable value or deletion of its own under the key, even over a mutable value of its own. */
  lemma LateWriteShows(f: Forest, n: nat, m: nat, key: string, x: int)
    requires WellFormed(f) && m < |f.nodes| && f.nodes[m].parent == Some(n) && PlainKey(key)
    ensures var g := Apply(f, SetAtom(n, key, Scalar(x)));
            if key in f.nodes[m].layer then
              var v := f.nodes[m].layer[key];
              Lookup(g, m, key) == if v == Imm(EmptyTuple) then None else Some(ContentOf(f.heap, v))
            else Lookup(g, m, key) == Some(OfAtom(Scalar(x)))
  {
    var g := Apply(f, SetAtom(n, key, Scalar(x)));
    assert g.nodes[m] == f.nodes[m];
    assert Resolve(g, n, key) == Some(OfAtom(Scalar(x)));
  }
}
