/**
 The tree of an open HDF5 file (hdf5/hdf5tdi.c:38-47, 259-343, 597-613): items linked by
 child, attribute and brother pointers, each knowing its parent.  Listing, finding and
 freeing are three recursive walks over it.
 */
module Hdf5Tree {
  import opened Basics

  const DATASET: int := 1
  const GROUP: int := 0
  const ATTRIBUTE: int := -1
  const FILE: int := -2

  class H5Item {
    var itemType: int
    const name: string
    var obj: int
    var brother: H5Item?
    var child: H5Item?
    var attribute: H5Item?
    const parent: H5Item?

    constructor (itemType: int, name: string, parent: H5Item?)
      ensures this.itemType == itemType && this.name == name && this.parent == parent
      ensures obj == 0 && brother == null && child == null && attribute == null
    {
      this.itemType, this.name, this.parent := itemType, name, parent;
      obj, brother, child, attribute := 0, null, null, null;
    }
  }

  /** The items reachable from a pointer: the item, its attributes, its children, and its
      brothers with theirs. */
  datatype Tree = Nil | Node(item: H5Item, itemType: int, obj: int, attributes: Tree, children: Tree, brothers: Tree)

  ghost function Items(t: Tree): set<H5Item> {
    match t
    case Nil => {}
    case Node(item, itemType, obj, a, c, b) => {item} + Items(a) + Items(c) + Items(b)
  }

  /** No item occurs twice. */
  ghost predicate Distinct(t: Tree) {
    match t
    case Nil => true
    case Node(item, itemType, obj, a, c, b) =>
      && item !in Items(a) && item !in Items(c) && item !in Items(b)
      && Items(a) !! Items(c) !! Items(b)
      && Distinct(a) && Distinct(c) && Distinct(b)
  }

  ghost function Top(up: seq<H5Item>): H5Item? {
    if up == [] then null else up[0]
  }

  /** The pointers from p form the tree t under the ancestors up (nearest first), and every
      item points back to its parent. */
  ghost predicate Shape(p: H5Item?, t: Tree, up: seq<H5Item>, repr: set<H5Item>)
    reads repr
    decreases t
  {
    match t
    case Nil => p == null
    case Node(item, itemType, obj, a, c, b) =>
      && item in repr && p == item && item.parent == Top(up) && item.itemType == itemType && item.obj == obj
      && Shape(item.attribute, a, [item] + up, repr) && Shape(item.child, c, [item] + up, repr)
      && Shape(item.brother, b, up, repr)
  }

  /** A parent chain, nearest first. */
  ghost predicate Ancestors(up: seq<H5Item>) {
    up == [] || (up[0].parent == Top(up[1..]) && Ancestors(up[1..]))
  }

  /** The name with the names of all ancestors before it. */
  ghost function PathUp(name: string, up: seq<H5Item>): string
    decreases |up|
  {
    if up == [] then name else PathUp(up[0].name + "/" + name, up[1..])
  }

  lemma AncestorsOfChild(item: H5Item, up: seq<H5Item>)
    requires item.parent == Top(up) && Ancestors(up)
    ensures Ancestors([item] + up)
  {
    assert ([item] + up)[1..] == up;
  }

  // ----------------------------------------------------------- list and find

  datatype Entry = Entry(path: string, obj: int, itemType: int)

  predicate HasPath(itemType: int) { itemType == DATASET || itemType == ATTRIBUTE }

  ghost function Self(item: H5Item, itemType: int, obj: int, up: seq<H5Item>): seq<Entry> {
    if HasPath(itemType) then [Entry(PathUp(item.name, up), obj, itemType)] else []
  }

  /** Everything listed: an item, its attributes, its children, its brothers. */
  ghost function Listing(t: Tree, up: seq<H5Item>): seq<Entry> {
    match t
    case Nil => []
    case Node(item, itemType, obj, a, c, b) =>
      Self(item, itemType, obj, up)
      + Listing(a, [item] + up) + Listing(c, [item] + up) + Listing(b, up)
  }

  function Paths(entries: seq<Entry>): seq<string> {
    if entries == [] then [] else [entries[0].path] + Paths(entries[1..])
  }

  datatype Found = NotFound | Found(obj: int, itemType: int)

  /** The first entry with a path. */
  function First(entries: seq<Entry>, path: string): Found {
    if entries == [] then NotFound
    else if entries[0].path == path then Found(entries[0].obj, entries[0].itemType)
    else First(entries[1..], path)
  }

  lemma {:induction false} FirstAppend(a: seq<Entry>, b: seq<Entry>, path: string)
    ensures First(a + b, path) == if First(a, path).Found? then First(a, path) else First(b, path)
  {
    if a == [] {
      assert a + b == b;
    } else {
      assert (a + b)[1..] == a[1..] + b;
      FirstAppend(a[1..], b, path);
    }
  }

  /** Paths appended one at a time to what is already listed. */
  function Listed(xd: seq<string>, entries: seq<Entry>): seq<string>
    decreases |entries|
  {
    if entries == [] then xd else Listed(xd + [entries[0].path], entries[1..])
  }

  lemma {:induction false} ListedIsPaths(xd: seq<string>, entries: seq<Entry>)
    ensures Listed(xd, entries) == xd + Paths(entries)
    decreases |entries|
  {
    if entries != [] {
      ListedIsPaths(xd + [entries[0].path], entries[1..]);
    }
  }

  lemma {:induction false} ListedAppend(xd: seq<string>, a: seq<Entry>, b: seq<Entry>)
    ensures Listed(xd, a + b) == Listed(Listed(xd, a), b)
    decreases |a|
  {
    if a == [] {
      assert a + b == b;
    } else {
      assert (a + b)[1..] == a[1..] + b;
      ListedAppend(xd + [a[0].path], a[1..], b);
    }
  }

  /** Entry k is the first with the path, and the one that is found. */
  ghost predicate FirstAt(entries: seq<Entry>, path: string, k: nat) {
    && k < |entries| && entries[k].path == path
    && First(entries, path) == Found(entries[k].obj, entries[k].itemType)
    && forall j :: 0 <= j < k ==> entries[j].path != path
  }

  /** A path is found exactly when it is listed, and what is found is the first item listed
      under it. */
  lemma {:induction false} FoundIffListed(entries: seq<Entry>, path: string)
    ensures First(entries, path).Found? <==> path in Paths(entries)
    ensures First(entries, path).Found? ==> exists k: nat :: FirstAt(entries, path, k)
  {
    if entries != [] && entries[0].path != path {
      FoundIffListed(entries[1..], path);
      if First(entries, path).Found? {
        var k: nat :| FirstAt(entries[1..], path, k);
        assert entries[k + 1] == entries[1..][k];
        forall j | 0 <= j < k + 1 ensures entries[j].path != path {
          if j > 0 { assert entries[j] == entries[1..][j - 1]; }
        }
        assert FirstAt(entries, path, k + 1);
      }
    } else if entries != [] {
      assert FirstAt(entries, path, 0);
    }
  }

  /** The path of an item, put together by following the parent pointers. */
  method PathOf(item: H5Item, ghost up: seq<H5Item>) returns (path: string)
    requires item.parent == Top(up) && Ancestors(up)
    ensures path == PathUp(item.name, up)
  {
    path := item.name;
    var itm := item.parent;
    ghost var rest := up;
    while itm != null
      invariant Ancestors(rest) && itm == Top(rest) && PathUp(path, rest) == PathUp(item.name, up)
      decreases |rest|
    {
      path := itm.name + "/" + path;
      itm := itm.parent;
      rest := rest[1..];
    }
  }

  lemma ListingInOrder(xd: seq<string>, t: Tree, up: seq<H5Item>)
    requires t.Node?
    ensures Listed(xd, Listing(t, up)) ==
      var s := Listed(xd, Self(t.item, t.itemType, t.obj, up));
      var a := Listed(s, Listing(t.attributes, [t.item] + up));
      var c := Listed(a, Listing(t.children, [t.item] + up));
      Listed(c, Listing(t.brothers, up))
  {
    var s, a, c, b := Self(t.item, t.itemType, t.obj, up), Listing(t.attributes, [t.item] + up),
      Listing(t.children, [t.item] + up), Listing(t.brothers, up);
    ListedAppend(xd, s, a);
    ListedAppend(xd, s + a, c);
    ListedAppend(xd, s + a + c, b);
  }

  lemma ListingFirst(t: Tree, up: seq<H5Item>, path: string)
    requires t.Node?
    ensures First(Listing(t, up), path) ==
      var s := First(Self(t.item, t.itemType, t.obj, up), path);
      var a := First(Listing(t.attributes, [t.item] + up), path);
      var c := First(Listing(t.children, [t.item] + up), path);
      if s.Found? then s else if a.Found? then a else if c.Found? then c else First(Listing(t.brothers, up), path)
  {
    var s, a, c, b := Self(t.item, t.itemType, t.obj, up), Listing(t.attributes, [t.item] + up),
      Listing(t.children, [t.item] + up), Listing(t.brothers, up);
    FirstAppend(s, a, path);
    FirstAppend(s + a, c, path);
    FirstAppend(s + a + c, b, path);
  }

  /** What the walks know about the three pointers of an item. */
  lemma Pointers(item: H5Item, t: Tree, up: seq<H5Item>, repr: set<H5Item>)
    requires Shape(item, t, up, repr) && Ancestors(up)
    ensures t.Node? && t.item == item && item.parent == Top(up)
    ensures item.itemType == t.itemType && item.obj == t.obj
    ensures Ancestors([item] + up)
    ensures item.attribute == null <==> t.attributes == Nil
    ensures item.child == null <==> t.children == Nil
    ensures item.brother == null <==> t.brothers == Nil
    ensures Shape(item.attribute, t.attributes, [item] + up, repr)
    ensures Shape(item.child, t.children, [item] + up, repr)
    ensures Shape(item.brother, t.brothers, up, repr)
  {
    AncestorsOfChild(item, up);
  }

  /** Appends the path of one item, when it is of a listed type. */
  method ListSelf(item: H5Item, xd: seq<string>, ghost up: seq<H5Item>) returns (r: seq<string>)
    requires item.parent == Top(up) && Ancestors(up)
    ensures r == Listed(xd, Self(item, item.itemType, item.obj, up))
  {
    var path := PathOf(item, up);
    r := xd;
    if item.itemType == DATASET || item.itemType == ATTRIBUTE {
      r := r + [path];
    }
  }

  /** list_one: appends the paths of everything reachable from item. */
  method ListOne(item: H5Item, xd: seq<string>, ghost t: Tree, ghost up: seq<H5Item>, ghost repr: set<H5Item>)
    returns (r: seq<string>)
    requires Shape(item, t, up, repr) && Ancestors(up)
    ensures r == Listed(xd, Listing(t, up))
    decreases t, 0
  {
    Pointers(item, t, up, repr);
    ListingInOrder(xd, t, up);
    r := ListSelf(item, xd, up);
    r := ListFrom(item.attribute, r, t.attributes, [item] + up, repr);
    r := ListFrom(item.child, r, t.children, [item] + up, repr);
    r := ListFrom(item.brother, r, t.brothers, up, repr);
  }

  /** The guarded recursive call, which list_one makes three times. */
  method ListFrom(p: H5Item?, xd: seq<string>, ghost t: Tree, ghost up: seq<H5Item>, ghost repr: set<H5Item>)
    returns (r: seq<string>)
    requires Shape(p, t, up, repr) && Ancestors(up)
    ensures r == Listed(xd, Listing(t, up))
    decreases t, 1
  {
    r := xd;
    if p != null {
      r := ListOne(p, r, t, up, repr);
    }
  }

  /** The comparison find_one makes for one item. */
  method FindSelf(item: H5Item, path: string, ghost up: seq<H5Item>) returns (r: Found)
    requires item.parent == Top(up) && Ancestors(up)
    ensures r == First(Self(item, item.itemType, item.obj, up), path)
  {
    var name := PathOf(item, up);
    r := NotFound;
    if item.itemType == DATASET || item.itemType == ATTRIBUTE {
      if path == name {
        r := Found(item.obj, item.itemType);
      }
    }
  }

  /** find_one: the first item with this path, in the same order. */
  method FindOne(item: H5Item, path: string, ghost t: Tree, ghost up: seq<H5Item>, ghost repr: set<H5Item>)
    returns (r: Found)
    requires Shape(item, t, up, repr) && Ancestors(up)
    ensures r == First(Listing(t, up), path)
    decreases t
  {
    Pointers(item, t, up, repr);
    ListingFirst(t, up, path);
    r := FindSelf(item, path, up);
    if r == NotFound && item.attribute != null {
      r := FindOne(item.attribute, path, t.attributes, [item] + up, repr);
    }
    if r == NotFound && item.child != null {
      r := FindOne(item.child, path, t.children, [item] + up, repr);
    }
    if r == NotFound && item.brother != null {
      r := FindOne(item.brother, path, t.brothers, up, repr);
    }
  }

  // -------------------------------------------------------- trailing blanks

  /** A listed path that does not end in a blank finds the first item listed under it; one
      that does finds something if and only if the trimmed path is listed too, and then the
      first item listed under that other path. */
  lemma ListedPathIsRead(entries: seq<Entry>, path: string)
    requires path in Paths(entries)
    ensures !EndsInBlank(path) ==> exists k: nat :: FirstAt(entries, path, k) && FirstAt(entries, Trimmed(path), k)
    ensures EndsInBlank(path) ==> forall k: nat :: FirstAt(entries, Trimmed(path), k) ==> entries[k].path != path
    ensures EndsInBlank(path) ==> (First(entries, Trimmed(path)).Found? <==> Trimmed(path) in Paths(entries))
  {
    FoundIffListed(entries, path);
    FoundIffListed(entries, Trimmed(path));
  }

  // ------------------------------------------------------------------- free

  /** What has been given back when a tree follows xs: brothers, children, attributes, and
      the item itself last. */
  ghost function FreedAfter(xs: seq<H5Item>, t: Tree): seq<H5Item>
    decreases t
  {
    match t
    case Nil => xs
    case Node(item, itemType, obj, a, c, b) => FreedAfter(FreedAfter(FreedAfter(xs, b), c), a) + [item]
  }

  /** The library handle of an item, if it holds one. */
  function Handle(itemType: int, obj: int): seq<(int, int)> {
    if (itemType == DATASET || itemType == ATTRIBUTE || itemType == FILE) && obj != 0 then [(itemType, obj)] else []
  }

  /** The handles of a tree in the order of the listing. */
  ghost function Handles(t: Tree): seq<(int, int)> {
    match t
    case Nil => []
    case Node(item, itemType, obj, a, c, b) => Handle(itemType, obj) + Handles(a) + Handles(c) + Handles(b)
  }

  /** How many items of a tree are of this type and have this handle. */
  ghost function Holders(t: Tree, itemType: int, obj: int): nat {
    match t
    case Nil => 0
    case Node(item, k, o, a, c, b) =>
      (if k == itemType && o == obj then 1 else 0)
      + Holders(a, itemType, obj) + Holders(c, itemType, obj) + Holders(b, itemType, obj)
  }

  /** The handles of a tree are those of its data sets (1), attributes (-1) and file (-2), each
      as often as it is held; 0 is no handle, and groups hold none. */
  lemma {:induction false} HandlesAreHeld(t: Tree, itemType: int, obj: int)
    ensures multiset(Handles(t))[(itemType, obj)] ==
      if (itemType == 1 || itemType == -1 || itemType == -2) && obj != 0 then Holders(t, itemType, obj) else 0
  {
    if t.Node? {
      HandlesAreHeld(t.attributes, itemType, obj);
      HandlesAreHeld(t.children, itemType, obj);
      HandlesAreHeld(t.brothers, itemType, obj);
    }
  }

  /** What has been closed when a tree follows hs. */
  ghost function ClosedAfter(hs: seq<(int, int)>, t: Tree): seq<(int, int)>
    decreases t
  {
    match t
    case Nil => hs
    case Node(item, itemType, obj, a, c, b) =>
      ClosedAfter(ClosedAfter(ClosedAfter(hs + Handle(itemType, obj), b), c), a)
  }

  lemma DisjointBags(a: set<H5Item>, b: set<H5Item>)
    requires a !! b
    ensures multiset(a + b) == multiset(a) + multiset(b)
  {
  }

  lemma ItemsBag(t: Tree)
    requires t.Node? && Distinct(t)
    ensures multiset(Items(t)) == multiset{t.item} + multiset(Items(t.attributes))
      + multiset(Items(t.children)) + multiset(Items(t.brothers))
  {
    var a, c, b := Items(t.attributes), Items(t.children), Items(t.brothers);
    DisjointBags({t.item}, a);
    DisjointBags({t.item} + a, c);
    DisjointBags({t.item} + a + c, b);
  }

  /** Freeing a tree gives back every item of it exactly once and nothing else. */
  lemma {:induction false} EveryItemFreedOnce(xs: seq<H5Item>, t: Tree)
    requires Distinct(t)
    ensures multiset(FreedAfter(xs, t)) == multiset(xs) + multiset(Items(t))
    decreases t
  {
    if t.Node? {
      var b := FreedAfter(xs, t.brothers);
      var c := FreedAfter(b, t.children);
      var a := FreedAfter(c, t.attributes);
      EveryItemFreedOnce(xs, t.brothers);
      EveryItemFreedOnce(b, t.children);
      EveryItemFreedOnce(c, t.attributes);
      ItemsBag(t);
      assert multiset(FreedAfter(xs, t)) == multiset(a) + multiset{t.item};
    }
  }

  /** Every handle the tree holds is closed exactly as often as it is held. */
  lemma {:induction false} EveryHandleClosed(hs: seq<(int, int)>, t: Tree)
    ensures multiset(ClosedAfter(hs, t)) == multiset(hs) + multiset(Handles(t))
    decreases t
  {
    if t.Node? {
      var s := hs + Handle(t.itemType, t.obj);
      var b := ClosedAfter(s, t.brothers);
      var c := ClosedAfter(b, t.children);
      EveryHandleClosed(s, t.brothers);
      EveryHandleClosed(b, t.children);
      EveryHandleClosed(c, t.attributes);
      assert multiset(s) == multiset(hs) + multiset(Handle(t.itemType, t.obj));
    }
  }

  /** Whether no item of a tree has been given back. */
  ghost predicate NoneFreed(t: Tree, freed: seq<H5Item>) {
    forall x :: x in Items(t) ==> x !in freed
  }

  lemma {:induction false} FreedMembers(xs: seq<H5Item>, t: Tree)
    ensures forall x :: x in FreedAfter(xs, t) <==> x in xs || x in Items(t)
    decreases t
  {
    if t.Node? {
      FreedMembers(xs, t.brothers);
      var b := FreedAfter(xs, t.brothers);
      FreedMembers(b, t.children);
      var c := FreedAfter(b, t.children);
      FreedMembers(c, t.attributes);
    }
  }

  lemma StaysUnfreed(xs: seq<H5Item>, t: Tree, rest: Tree, item: H5Item)
    requires Items(t) !! Items(rest) && item !in Items(t)
    requires NoneFreed(rest, xs) && item !in xs
    ensures NoneFreed(rest, FreedAfter(xs, t)) && item !in FreedAfter(xs, t)
  {
    FreedMembers(xs, t);
  }

  /** Freeing the brothers leaves the children, the attributes and the item, and so on. */
  lemma FreeingOrder(xs: seq<H5Item>, t: Tree)
    requires t.Node? && Distinct(t) && NoneFreed(t, xs)
    ensures t.item !in xs && Distinct(t.brothers) && Distinct(t.children) && Distinct(t.attributes)
    ensures NoneFreed(t.brothers, xs)
    ensures var b := FreedAfter(xs, t.brothers); t.item !in b && NoneFreed(t.children, b)
    ensures var c := FreedAfter(FreedAfter(xs, t.brothers), t.children); t.item !in c && NoneFreed(t.attributes, c)
    ensures t.item !in FreedAfter(FreedAfter(FreedAfter(xs, t.brothers), t.children), t.attributes)
  {
    var b := FreedAfter(xs, t.brothers);
    var c := FreedAfter(b, t.children);
    StaysUnfreed(xs, t.brothers, t.children, t.item);
    StaysUnfreed(xs, t.brothers, t.attributes, t.item);
    StaysUnfreed(b, t.children, t.attributes, t.item);
    StaysUnfreed(c, t.attributes, Nil, t.item);
  }

  /** The allocator and the library: what has been given back and what has been closed. */
  class Resources {
    var freed: seq<H5Item>
    var closed: seq<(int, int)>

    constructor ()
      ensures freed == [] && closed == []
    {
      freed, closed := [], [];
    }

    method Free(item: H5Item)
      requires item !in freed
      modifies this`freed
      ensures freed == old(freed) + [item]
    {
      freed := freed + [item];
    }

    method Close(itemType: int, obj: int)
      modifies this`closed
      ensures closed == old(closed) + Handle(itemType, obj)
    {
      if itemType == DATASET && obj != 0 {
        closed := closed + [(DATASET, obj)];
      } else if itemType == ATTRIBUTE && obj != 0 {
        closed := closed + [(ATTRIBUTE, obj)];
      } else if itemType == FILE && obj != 0 {
        closed := closed + [(FILE, obj)];
      }
    }

    /** The pointers of an item, which may be read only until the item is given back. */
    method Brother(item: H5Item) returns (p: H5Item?)
      requires item !in freed
      ensures p == item.brother
    { p := item.brother; }

    method Child(item: H5Item) returns (p: H5Item?)
      requires item !in freed
      ensures p == item.child
    { p := item.child; }

    method Attribute(item: H5Item) returns (p: H5Item?)
      requires item !in freed
      ensures p == item.attribute
    { p := item.attribute; }

    /** FreeObj: closes the handle, frees the brother, the child and the attribute, and then
        the item itself. */
    method FreeObj(item: H5Item, ghost t: Tree, ghost up: seq<H5Item>, ghost repr: set<H5Item>)
      requires Shape(item, t, up, repr) && Ancestors(up) && Distinct(t) && NoneFreed(t, freed)
      modifies this
      ensures freed == FreedAfter(old(freed), t)
      ensures closed == ClosedAfter(old(closed), t)
      decreases t, 1
    {
      Pointers(item, t, up, repr);
      FreeingOrder(freed, t);
      Close(item.itemType, item.obj);
      FreeBrotherAndChild(item, t, up, repr);
      var p := Attribute(item);
      FreeFrom(p, t.attributes, [item] + up, repr);
      Free(item);
    }

    method FreeBrotherAndChild(item: H5Item, ghost t: Tree, ghost up: seq<H5Item>, ghost repr: set<H5Item>)
      requires Shape(item, t, up, repr) && Ancestors(up) && Distinct(t) && NoneFreed(t, freed)
      modifies this
      ensures freed == FreedAfter(FreedAfter(old(freed), t.brothers), t.children)
      ensures closed == ClosedAfter(ClosedAfter(old(closed), t.brothers), t.children)
      decreases t, 0
    {
      Pointers(item, t, up, repr);
      FreeingOrder(freed, t);
      var p := Brother(item);
      FreeFrom(p, t.brothers, up, repr);
      p := Child(item);
      FreeFrom(p, t.children, [item] + up, repr);
    }

    method FreeFrom(p: H5Item?, ghost t: Tree, ghost up: seq<H5Item>, ghost repr: set<H5Item>)
      requires Shape(p, t, up, repr) && Ancestors(up) && Distinct(t) && NoneFreed(t, freed)
      modifies this
      ensures freed == FreedAfter(old(freed), t)
      ensures closed == ClosedAfter(old(closed), t)
      decreases t, 2
    {
      if p != null {
        FreeObj(p, t, up, repr);
      }
    }
  }
}
