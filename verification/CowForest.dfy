/** The classes of the copy-on-write dictionary as a tree of levels: each operation on a class is the step of the same
    name on the tree. */
module CowForest {
  import opened Wrappers
  import opened CowDict

  /** An attribute of a class and of a level of the tree, whose reference is the place of the box in the list. */
  ghost predicate SameVal(v: Val<Box>, w: Val<nat>, boxes: seq<Box>) {
    match (v, w)
    case (Imm(a), Imm(b)) => a == b
    case (Mut(box), Mut(r)) => r < |boxes| && boxes[r] == box
    case _ => false
  }

  /** Mutable values are under names with the suffix, and nothing else is. */
  ghost predicate SameLayer(attrs: Layer<Box>, layer: Layer<nat>, boxes: seq<Box>) {
    && attrs.Keys == layer.Keys
    && forall name | name in attrs ::
         SameVal(attrs[name], layer[name], boxes) && (layer[name].Mut? <==> !PlainKey(name))
  }

  ghost predicate SameParent(classes: seq<CowClass>, f: Forest, n: nat)
    requires |classes| == |f.nodes| && n < |classes|
  {
    var p := f.nodes[n].parent;
    if p.None? then classes[n].parent == null else p.value < n && classes[n].parent == classes[p.value]
  }

  /** All classes, in the order in which they were made, and all boxes are those of the tree. */
  ghost predicate Models(classes: seq<CowClass>, boxes: seq<Box>, f: Forest)
    reads classes, boxes
  {
    && |classes| == |f.nodes| && |boxes| == |f.heap|
    && (forall n | 0 <= n < |classes| :: classes[n].Valid() && SameParent(classes, f, n))
    && (forall m, n | 0 <= m < n < |classes| :: classes[m] != classes[n])
    && (forall m, n | 0 <= m < n < |boxes| :: boxes[m] != boxes[n])
    && (forall r | 0 <= r < |boxes| :: boxes[r].content == f.heap[r])
    && (forall n | 0 <= n < |classes| :: SameLayer(classes[n].attrs, f.nodes[n].layer, boxes))
  }

  ghost predicate SameFound(v: Option<Val<Box>>, w: Option<Val<nat>>, boxes: seq<Box>) {
    (v.None? <==> w.None?) && (v.Some? ==> SameVal(v.value, w.value, boxes))
  }

  /** An attribute is found in both, or in neither. */
  lemma {:induction false} SameAttr(classes: seq<CowClass>, boxes: seq<Box>, f: Forest, n: nat, name: string)
    requires Models(classes, boxes, f) && WellFormed(f) && n < |classes|
    ensures SameFound(GetAttr(classes[n].Layers(), name), GetAttr(LayersOf(f, n), name), boxes)
    ensures var w := GetAttr(LayersOf(f, n), name); w.Some? ==> (w.value.Mut? <==> !PlainKey(name))
    decreases n
  {
    assert SameParent(classes, f, n);
    assert SameLayer(classes[n].attrs, f.nodes[n].layer, boxes);
    var layers, levels := classes[n].Layers(), LayersOf(f, n);
    var p := f.nodes[n].parent;
    if p.Some? {
      SameAttr(classes, boxes, f, p.value, name);
      assert layers[1..] == classes[p.value].Layers() && levels[1..] == LayersOf(f, p.value);
    } else {
      assert layers[1..] == [] && levels[1..] == [];
    }
  }

  lemma Suffixed(key: string)
    ensures !PlainKey(key + MUTABLE)
  {
    assert (key + MUTABLE)[|key + MUTABLE| - |MUTABLE|..] == MUTABLE;
  }

  /** The content of what a class finds. */
  ghost function Seen(v: Option<Val<Box>>): Option<Content>
    reads if v.Some? && v.value.Mut? then {v.value.ref} else {}
  {
    match v
    case None => None
    case Some(Imm(a)) => Some(OfAtom(a))
    case Some(Mut(box)) => Some(OfFlat(box.content))
  }

  /** When the tree shows plain dictionaries, so do the classes. */
  lemma ClassesShowPlain(classes: seq<CowClass>, boxes: seq<Box>, f: Forest, s: seq<Plain>, n: nat, key: string)
    requires Models(classes, boxes, f) && Shows(f, s) && n < |s| && PlainKey(key)
    ensures Seen(Find(classes[n].Layers(), key)) == if key in s[n] then Some(s[n][key]) else None
  {
    SameAttr(classes, boxes, f, n, key);
    SameAttr(classes, boxes, f, n, key + MUTABLE);
    LookupIsFind(f, n, key);
  }

  // The operations

  method Copy(classes: seq<CowClass>, ghost boxes: seq<Box>, ghost f: Forest, n: nat) returns (all: seq<CowClass>)
    requires Models(classes, boxes, f) && WellFormed(f) && n < |classes|
    ensures Models(all, boxes, Apply(f, Op.Copy(n)))
    ensures |all| == |classes| + 1 && all[..|classes|] == classes && fresh(all[|classes|])
  {
    var c := new CowClass.Cow(classes[n]);
    all := classes + [c];
    ghost var g := Apply(f, Op.Copy(n));
    assert c.Layers()[0] == map[];
    forall m | 0 <= m < |all| ensures SameParent(all, g, m) && SameLayer(all[m].attrs, g.nodes[m].layer, boxes) {
      if m < |classes| {
        assert SameParent(classes, f, m) && SameLayer(classes[m].attrs, f.nodes[m].layer, boxes);
      }
    }
  }

  /** A class and the level of the same number get the same new attribute; all else stays. */
  lemma SameAfterSet(classes: seq<CowClass>, boxes: seq<Box>, f: Forest, n: nat, name: string, v: Val<Box>, w: Val<nat>,
                     g: Forest, more: seq<Box>)
    requires |classes| == |f.nodes| && n < |classes| && g == SetLayer(f, n, name, w).(heap := g.heap)
    requires boxes <= more && SameVal(v, w, more) && (w.Mut? <==> !PlainKey(name))
    requires forall m | 0 <= m < |classes| && m != n :: SameLayer(classes[m].attrs, f.nodes[m].layer, boxes)
    requires exists attrs: Layer<Box> ::
               SameLayer(attrs, f.nodes[n].layer, boxes) && classes[n].attrs == attrs[name := v]
    ensures forall m | 0 <= m < |classes| :: SameLayer(classes[m].attrs, g.nodes[m].layer, more)
  {
    forall m | 0 <= m < |classes| ensures SameLayer(classes[m].attrs, g.nodes[m].layer, more) {
      if m != n {
        assert g.nodes[m].layer == f.nodes[m].layer;
      }
    }
  }

  lemma SameParents(classes: seq<CowClass>, f: Forest, g: Forest)
    requires |classes| == |f.nodes| == |g.nodes| &&
             forall m | 0 <= m < |classes| :: g.nodes[m].parent == f.nodes[m].parent
    requires forall m | 0 <= m < |classes| :: SameParent(classes, f, m)
    ensures forall m | 0 <= m < |classes| :: SameParent(classes, g, m)
  {
    forall m | 0 <= m < |classes| ensures SameParent(classes, g, m) {
      assert SameParent(classes, f, m);
    }
  }

  method SetAtom(classes: seq<CowClass>, ghost boxes: seq<Box>, ghost f: Forest, n: nat, key: string, atom: Atom)
    requires Models(classes, boxes, f) && WellFormed(f) && n < |classes| && PlainKey(key)
    modifies classes[n]
    ensures Models(classes, boxes, Apply(f, Op.SetAtom(n, key, atom)))
  {
    ghost var g := Apply(f, Op.SetAtom(n, key, atom));
    ghost var was := classes[n].attrs;
    assert SameLayer(was, f.nodes[n].layer, boxes);
    classes[n].SetItem(key, Imm(atom));
    SameParents(classes, f, g);
    SameAfterSet(classes, boxes, f, n, key, Imm(atom), Imm(atom), g, boxes);
  }

  method Delete(classes: seq<CowClass>, ghost boxes: seq<Box>, ghost f: Forest, n: nat, key: string)
    requires Models(classes, boxes, f) && WellFormed(f) && n < |classes| && PlainKey(key)
    modifies classes[n]
    ensures Models(classes, boxes, Apply(f, Op.Delete(n, key)))
  {
    ghost var g := Apply(f, Op.Delete(n, key));
    ghost var was := classes[n].attrs;
    assert SameLayer(was, f.nodes[n].layer, boxes);
    classes[n].DelItem(key);
    SameParents(classes, f, g);
    SameAfterSet(classes, boxes, f, n, key, Imm(EmptyTuple), Imm(EmptyTuple), g, boxes);
  }

  method SetFlat(classes: seq<CowClass>, ghost boxes: seq<Box>, ghost f: Forest, n: nat, key: string, flat: Flat)
    returns (ghost more: seq<Box>)
    requires Models(classes, boxes, f) && WellFormed(f) && n < |classes| && PlainKey(key)
    modifies classes[n]
    ensures Models(classes, more, Apply(f, Op.SetFlat(n, key, flat)))
  {
    ghost var g := Apply(f, Op.SetFlat(n, key, flat));
    ghost var was := classes[n].attrs;
    assert SameLayer(was, f.nodes[n].layer, boxes);
    var box := new Box(flat);
    more := boxes + [box];
    classes[n].SetItem(key, Mut(box));
    Suffixed(key);
    SameParents(classes, f, g);
    SameAfterSet(classes, boxes, f, n, key + MUTABLE, Mut(box), Mut(|boxes|), g, more);
  }

  lemma {:induction false} LayersBelow(f: Forest, g: Forest, n: nat, m: nat)
    requires WellFormed(f) && WellFormed(g) && |f.nodes| == |g.nodes| && m < n <= |f.nodes|
    requires forall i | 0 <= i < n :: f.nodes[i] == g.nodes[i]
    ensures LayersOf(f, m) == LayersOf(g, m)
    decreases m
  {
    if f.nodes[m].parent.Some? {
      LayersBelow(f, g, n, f.nodes[m].parent.value);
    }
  }

  /** What a level has after fetching: for a mutable value its own attribute. */
  lemma FetchedHas(classes: seq<CowClass>, boxes: seq<Box>, f: Forest, n: nat, key: string)
    requires Models(classes, boxes, f) && WellFormed(f) && n < |classes| && PlainKey(key)
    ensures var g, w := Fetched(f, n, key), Find(LayersOf(f, n), key);
            && (w.Some? && w.value.Mut? <==> GetAttr(LayersOf(f, n), key).None? && key + MUTABLE in g.nodes[n].layer)
            && (w.Some? && w.value.Mut? ==>
                g.nodes[n].layer[key + MUTABLE].Mut? && g.nodes[n].layer[key + MUTABLE].ref < |g.heap|)
  {
    SameAttr(classes, boxes, f, n, key);
    SameAttr(classes, boxes, f, n, key + MUTABLE);
    Suffixed(key);
    assert SameLayer(classes[n].attrs, f.nodes[n].layer, boxes);
    assert LayersOf(f, n)[0] == f.nodes[n].layer;
  }

  /** The box whose content fetching copies to the level. */
  ghost function Copied(f: Forest, n: nat, key: string): Option<nat>
    requires WellFormed(f) && n < |f.nodes|
  {
    var layers := LayersOf(f, n);
    if GetAttr(layers, key).Some? || key + MUTABLE in f.nodes[n].layer then None else
      match GetAttr(layers, key + MUTABLE)
      case Some(Mut(r)) => if r < |f.heap| then Some(r) else None
      case _ => None
  }

  function WithCopy(f: Forest, n: nat, name: string, copied: Option<nat>): Forest
    requires n < |f.nodes| && (copied.Some? ==> copied.value < |f.heap|)
  {
    if copied.None? then f else SetLayer(f, n, name, Mut(|f.heap|)).(heap := f.heap + [f.heap[copied.value]])
  }

  lemma FetchedIsWithCopy(f: Forest, n: nat, key: string)
    requires WellFormed(f) && n < |f.nodes|
    ensures var c := Copied(f, n, key);
            (c.Some? ==> c.value < |f.heap|) && Fetched(f, n, key) == WithCopy(f, n, key + MUTABLE, c)
  {
  }

  method Fetch(classes: seq<CowClass>, ghost boxes: seq<Box>, ghost f: Forest, n: nat, key: string,
               ghost copied: Option<nat>)
    returns (v: Option<Val<Box>>, ghost more: seq<Box>)
    requires Models(classes, boxes, f) && WellFormed(f) && n < |classes| && PlainKey(key)
    requires copied == Copied(f, n, key)
    modifies classes[n]
    ensures copied.Some? ==> copied.value < |f.heap|
    ensures copied.None? ==>
            more == boxes && classes[n].attrs == old(classes[n].attrs) && v == Find(old(classes[n].Layers()), key)
    ensures copied.Some? ==>
              && v.Some? && v.value.Mut? && more == boxes + [v.value.ref] && fresh(v.value.ref)
              && v.value.ref.content == f.heap[copied.value]
              && classes[n].attrs == old(classes[n].attrs)[key + MUTABLE := v.value]
  {
    SameAttr(classes, boxes, f, n, key);
    SameAttr(classes, boxes, f, n, key + MUTABLE);
    Suffixed(key);
    assert SameLayer(classes[n].attrs, f.nodes[n].layer, boxes);
    ghost var inherited;
    v, inherited := classes[n].GetItem(key, false);
    more := if copied.None? then boxes else boxes + [v.value.ref];
  }

  /** Reading a key as `[]` does: a mutable value is the level's own afterwards, with the content that was found. */
  method Read(classes: seq<CowClass>, ghost boxes: seq<Box>, ghost f: Forest, n: nat, key: string)
    returns (v: Option<Val<Box>>, ghost more: seq<Box>)
    requires Models(classes, boxes, f) && WellFormed(f) && n < |classes| && PlainKey(key)
    modifies classes[n]
    ensures Models(classes, more, Apply(f, Op.Read(n, key)))
    ensures boxes <= more && forall r | |boxes| <= r < |more| :: fresh(more[r])
    ensures IsRead(v, f, n, key, more)
  {
    ghost var copied := Copied(f, n, key);
    ghost var was := classes[n].attrs;
    FetchedIsWithCopy(f, n, key);
    FoundIsSame(classes, boxes, f, n, key);
    FetchedHas(classes, boxes, f, n, key);
    Suffixed(key);
    assert SameLayer(was, f.nodes[n].layer, boxes);
    v, more := Fetch(classes, boxes, f, n, key, copied);
    if copied.Some? {
      ghost var g := WithCopy(f, n, key + MUTABLE, copied);
      SameParents(classes, f, g);
      SameAfterSet(classes, boxes, f, n, key + MUTABLE, v.value, Mut(|boxes|), g, more);
    }
  }

  /** What reading returns: a plain value as it is found, and for a mutable one the box of the level. */
  ghost predicate IsRead(v: Option<Val<Box>>, f: Forest, n: nat, key: string, more: seq<Box>)
    requires WellFormed(f) && n < |f.nodes|
  {
    var layer, w := Fetched(f, n, key).nodes[n].layer, Find(LayersOf(f, n), key);
    && (v.None? <==> w.None?)
    && (w.Some? && w.value.Imm? ==> v == Some(Imm(w.value.atom)))
    && (w.Some? && w.value.Mut? ==>
        v.value.Mut? && key + MUTABLE in layer && SameVal(v.value, layer[key + MUTABLE], more))
  }

  /** Without a copy, what the class finds is what the level has. */
  lemma FoundIsSame(classes: seq<CowClass>, boxes: seq<Box>, f: Forest, n: nat, key: string)
    requires Models(classes, boxes, f) && WellFormed(f) && n < |classes| && PlainKey(key)
    ensures Copied(f, n, key).None? ==> IsRead(Find(classes[n].Layers(), key), f, n, key, boxes)
    ensures Copied(f, n, key).Some? ==> Find(LayersOf(f, n), key).Some? && Find(LayersOf(f, n), key).value.Mut?
  {
    SameAttr(classes, boxes, f, n, key);
    SameAttr(classes, boxes, f, n, key + MUTABLE);
    Suffixed(key);
    FetchedHas(classes, boxes, f, n, key);
    assert LayersOf(f, n)[0] == f.nodes[n].layer;
  }

  /** Fetching a value and changing it in place. */
  method Touch(classes: seq<CowClass>, ghost boxes: seq<Box>, ghost f: Forest, n: nat, key: string, flat: Flat)
    returns (ghost more: seq<Box>)
    requires Models(classes, boxes, f) && WellFormed(f) && n < |classes| && PlainKey(key)
    modifies classes[n], boxes
    ensures Models(classes, more, Apply(f, Op.Touch(n, key, flat)))
  {
    FetchedHas(classes, boxes, f, n, key);
    var v;
    v, more := Read(classes, boxes, f, n, key);
    if v.Some? && v.value.Mut? {
      ghost var r := Fetched(f, n, key).nodes[n].layer[key + MUTABLE].ref;
      assert more[r] == v.value.ref && (r < |boxes| ==> boxes[r] == more[r]);
      v.value.ref.content := flat;
    }
  }
}
