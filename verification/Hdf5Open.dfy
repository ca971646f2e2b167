/**
 Opening an HDF5 file (hdf5/hdf5tdi.c:148-235, 622-653): the callbacks that build the tree
 of items while the library walks the file, and the session that lists, reads and closes
 it.  The file is a value: what the library would report for it.
 */
module Hdf5Open {
  import opened Basics
  import opened Hdf5Tree
  import opened Hdf5File

  // ---------------------------------------------------------- growing chains

  /** A chain of brothers with a tree put after the last one. */
  ghost function Append(t: Tree, last: Tree): Tree {
    match t
    case Nil => last
    case Node(item, itemType, obj, a, c, b) => Node(item, itemType, obj, a, c, Append(b, last))
  }

  ghost function LastSet(t: Tree): set<H5Item> {
    match t
    case Nil => {}
    case Node(item, itemType, obj, a, c, b) => if b == Nil then {item} else LastSet(b)
  }

  lemma {:induction false} AppendItems(t: Tree, last: Tree)
    requires Distinct(t) && Distinct(last) && Items(t) !! Items(last)
    ensures Items(Append(t, last)) == Items(t) + Items(last)
    ensures Distinct(Append(t, last))
  {
    if t.Node? {
      AppendItems(t.brothers, last);
    }
  }

  lemma {:induction false} AppendLast(t: Tree, last: Tree)
    requires last.Node?
    ensures Append(t, last).Node? && LastSet(Append(t, last)) == LastSet(last)
  {
    if t.Node? {
      AppendLast(t.brothers, last);
    }
  }

  lemma {:induction false} AppendListing(t: Tree, last: Tree, up: seq<H5Item>)
    ensures Listing(Append(t, last), up) == Listing(t, up) + Listing(last, up)
  {
    if t.Node? {
      AppendListing(t.brothers, last, up);
    }
  }

  /** What is before the last name in a path. */
  ghost function Prefix(up: seq<H5Item>): string {
    if up == [] then "" else Prefix(up[1..]) + up[0].name + "/"
  }

  lemma {:induction false} PathIsPrefix(name: string, up: seq<H5Item>)
    ensures PathUp(name, up) == Prefix(up) + name
    decreases |up|
  {
    if up != [] {
      PathIsPrefix(up[0].name + "/" + name, up[1..]);
    }
  }

  // --------------------------------------------- the pointers at one moment

  datatype Links = Links(itemType: int, obj: int, attribute: H5Item?, child: H5Item?, brother: H5Item?)

  ghost function Snapshot(repr: set<H5Item>): map<H5Item, Links>
    reads repr
  {
    map x | x in repr :: Links(x.itemType, x.obj, x.attribute, x.child, x.brother)
  }

  /** Shape, read off a snapshot. */
  ghost predicate Drawn(p: H5Item?, t: Tree, up: seq<H5Item>, g: map<H5Item, Links>)
    decreases t
  {
    match t
    case Nil => p == null
    case Node(item, itemType, obj, a, c, b) =>
      && item in g && p == item && item.parent == Top(up)
      && g[item].itemType == itemType && g[item].obj == obj
      && Drawn(g[item].attribute, a, [item] + up, g) && Drawn(g[item].child, c, [item] + up, g)
      && Drawn(g[item].brother, b, up, g)
  }

  lemma {:induction false} ShapeIsDrawn(p: H5Item?, t: Tree, up: seq<H5Item>, repr: set<H5Item>)
    ensures Shape(p, t, up, repr) <==> Drawn(p, t, up, Snapshot(repr))
    decreases t
  {
    if t.Node? && t.item in repr {
      ShapeIsDrawn(t.item.attribute, t.attributes, [t.item] + up, repr);
      ShapeIsDrawn(t.item.child, t.children, [t.item] + up, repr);
      ShapeIsDrawn(t.item.brother, t.brothers, up, repr);
    }
  }

  /** Nothing about the items of a tree differs between two snapshots. */
  ghost predicate Kept(items: set<H5Item>, g: map<H5Item, Links>, h: map<H5Item, Links>) {
    forall x :: x in items ==> x in g && x in h && h[x] == g[x]
  }

  lemma {:induction false} DrawnKept(p: H5Item?, t: Tree, up: seq<H5Item>, g: map<H5Item, Links>, h: map<H5Item, Links>)
    requires Drawn(p, t, up, g) && Kept(Items(t), g, h)
    ensures Drawn(p, t, up, h)
    decreases t
  {
    if t.Node? {
      DrawnKept(g[t.item].attribute, t.attributes, [t.item] + up, g, h);
      DrawnKept(g[t.item].child, t.children, [t.item] + up, g, h);
      DrawnKept(g[t.item].brother, t.brothers, up, g, h);
    }
  }

  lemma {:induction false} LastIsItem(t: Tree)
    requires Distinct(t)
    ensures LastSet(t) <= Items(t) && (t.Node? ==> LastSet(t) != {})
    ensures t.Node? ==> LastSet(t) !! Items(t.attributes) && LastSet(t) !! Items(t.children)
    ensures t.Node? && t.brothers.Node? ==> t.item !in LastSet(t)
  {
    if t.Node? && t.brothers.Node? {
      LastIsItem(t.brothers);
    }
  }

  /** Between two snapshots, only the brother of the last item changed, to item. */
  ghost predicate LinkedTo(t: Tree, item: H5Item, g: map<H5Item, Links>, h: map<H5Item, Links>) {
    && Kept(Items(t) - LastSet(t), g, h)
    && forall x :: x in LastSet(t) ==> x in g && x in h && h[x] == g[x].(brother := item)
  }

  /** Linking an item behind the last brother appends its tree. */
  lemma {:induction false} DrawnLinked(p: H5Item?, t: Tree, node: Tree, up: seq<H5Item>, g: map<H5Item, Links>,
      h: map<H5Item, Links>)
    requires node.Node? && Drawn(p, t, up, g) && Distinct(t)
    requires Drawn(node.item, node, up, h) && LinkedTo(t, node.item, g, h)
    ensures Drawn(if t == Nil then node.item else p, Append(t, node), up, h)
    decreases t
  {
    if t.Node? {
      LastIsItem(t);
      LastIsItem(t.brothers);
      DrawnKept(g[t.item].attribute, t.attributes, [t.item] + up, g, h);
      DrawnKept(g[t.item].child, t.children, [t.item] + up, g, h);
      DrawnLinked(g[t.item].brother, t.brothers, node, up, g, h);
    }
  }

  // ------------------------------------------------------------ the callbacks

  /** The last brother in a chain. */
  method Last(p: H5Item, ghost t: Tree, ghost up: seq<H5Item>, ghost repr: set<H5Item>) returns (last: H5Item)
    requires Shape(p, t, up, repr)
    ensures LastSet(t) == {last} && last in repr
  {
    last := p;
    ghost var rest := t;
    while last.brother != null
      invariant Shape(last, rest, up, repr) && LastSet(rest) == LastSet(t)
      decreases rest
    {
      last := last.brother;
      rest := rest.brothers;
    }
  }

  /** Puts an item behind the children of its parent. */
  method LinkChild(parent: H5Item, item: H5Item, ghost t: Tree, ghost up: seq<H5Item>, ghost repr: set<H5Item>)
    requires Shape(parent.child, t, up, repr) && Distinct(t) && parent !in repr && repr == Items(t)
    modifies parent`child, LastSet(t)`brother
    ensures parent.child == if t == Nil then item else old(parent.child)
    ensures LinkedTo(t, item, old(Snapshot(repr)), Snapshot(repr))
  {
    if parent.child == null {
      parent.child := item;
    } else {
      var last := Last(parent.child, t, up, repr);
      last.brother := item;
    }
  }

  /** Puts an item behind the attributes of its parent. */
  method LinkAttribute(parent: H5Item, item: H5Item, ghost t: Tree, ghost up: seq<H5Item>, ghost repr: set<H5Item>)
    requires Shape(parent.attribute, t, up, repr) && Distinct(t) && parent !in repr && repr == Items(t)
    modifies parent`attribute, LastSet(t)`brother
    ensures parent.attribute == if t == Nil then item else old(parent.attribute)
    ensures LinkedTo(t, item, old(Snapshot(repr)), Snapshot(repr))
  {
    if parent.attribute == null {
      parent.attribute := item;
    } else {
      var last := Last(parent.attribute, t, up, repr);
      last.brother := item;
    }
  }

  lemma {:induction false} ShapeWider(p: H5Item?, t: Tree, up: seq<H5Item>, repr: set<H5Item>, wider: set<H5Item>)
    requires Shape(p, t, up, repr) && repr <= wider
    ensures Shape(p, t, up, wider)
    decreases t
  {
    if t.Node? {
      ShapeWider(t.item.attribute, t.attributes, [t.item] + up, repr, wider);
      ShapeWider(t.item.child, t.children, [t.item] + up, repr, wider);
      ShapeWider(t.item.brother, t.brothers, up, repr, wider);
    }
  }

  /** A well-formed chain: its shape, its items, each once, and none of them the parent. */
  ghost predicate Chain(p: H5Item?, t: Tree, parent: H5Item, up: seq<H5Item>, repr: set<H5Item>)
    reads repr
  {
    Shape(p, t, [parent] + up, repr) && Distinct(t) && repr == Items(t) && parent !in repr
  }

  /** A chain, once a node has been linked behind it. */
  lemma ChainGrows(p: H5Item?, t: Tree, node: Tree, parent: H5Item, up: seq<H5Item>,
      g: map<H5Item, Links>, repr: set<H5Item>, nodeRepr: set<H5Item>)
    requires Drawn(p, t, [parent] + up, g) && Distinct(t) && repr == Items(t) && parent !in repr
    requires node.Node? && Chain(node.item, node, parent, up, nodeRepr) && repr !! nodeRepr
    requires LinkedTo(t, node.item, g, Snapshot(repr))
    ensures Chain(if t == Nil then node.item else p, Append(t, node), parent, up, repr + nodeRepr)
    ensures LastSet(Append(t, node)) == LastSet(node) && Append(t, node).Node?
    ensures Listing(Append(t, node), [parent] + up) == Listing(t, [parent] + up) + Listing(node, [parent] + up)
  {
    AppendLast(t, node);
    var wider := repr + nodeRepr;
    LastIsItem(t);
    ShapeWider(node.item, node, [parent] + up, nodeRepr, wider);
    ShapeIsDrawn(node.item, node, [parent] + up, wider);
    assert LinkedTo(t, node.item, g, Snapshot(wider));
    DrawnLinked(p, t, node, [parent] + up, g, Snapshot(wider));
    AppendItems(t, node);
    ShapeIsDrawn(if t == Nil then node.item else p, Append(t, node), [parent] + up, wider);
    AppendListing(t, node, [parent] + up);
  }

  /** An attribute item on its own. */
  lemma Leaf(item: H5Item, attr: Attr, parent: H5Item, up: seq<H5Item>)
    requires item.name == attr.name && item.parent == parent && item != parent && item.itemType == ATTRIBUTE
    requires item.attribute == null && item.child == null && item.brother == null
    ensures Chain(item, Node(item, ATTRIBUTE, item.obj, Nil, Nil, Nil), parent, up, {item})
    ensures var e := AttributeEntry(attr, Prefix([parent] + up));
      Listing(Node(item, ATTRIBUTE, e.obj, Nil, Nil, Nil), [parent] + up) == [e]
  {
    PathIsPrefix(item.name, [parent] + up);
  }

  /** An attribute item that has been linked behind a chain. */
  lemma AttributeLinked(p: H5Item?, t: Tree, item: H5Item, attr: Attr, parent: H5Item, up: seq<H5Item>,
      g: map<H5Item, Links>, repr: set<H5Item>)
    requires Drawn(p, t, [parent] + up, g) && Distinct(t) && repr == Items(t) && parent !in repr
    requires LinkedTo(t, item, g, Snapshot(repr))
    requires item.name == attr.name && item.parent == parent && item != parent && item !in repr
    requires item.itemType == ATTRIBUTE && item.attribute == null && item.child == null && item.brother == null
    requires item.obj == if attr.handle >= 0 then attr.handle else 0
    ensures var t' := Append(t, Node(item, ATTRIBUTE, item.obj, Nil, Nil, Nil));
      && Chain(if t == Nil then item else p, t', parent, up, repr + {item})
      && t'.Node? && LastSet(t') == {item}
      && Listing(t', [parent] + up) == Listing(t, [parent] + up) + [AttributeEntry(attr, Prefix([parent] + up))]
  {
    Leaf(item, attr, parent, up);
    ChainGrows(p, t, Node(item, ATTRIBUTE, item.obj, Nil, Nil, Nil), parent, up, g, repr, {item});
  }

  /** The handle is kept only if the attribute could be opened. */
  method KeepHandle(item: H5Item, handle: int, ghost others: set<H5Item>)
    requires item !in others && item.obj == 0
    modifies item`obj
    ensures Snapshot(others) == old(Snapshot(others))
    ensures item.obj == if handle >= 0 then handle else 0
  {
    if handle >= 0 {
      item.obj := handle;
    }
  }

  /** A new item, linked behind the attributes of its parent. */
  method NewAttribute(name: string, parent: H5Item, ghost t: Tree, ghost up: seq<H5Item>, ghost repr: set<H5Item>)
    returns (item: H5Item)
    requires Chain(parent.attribute, t, parent, up, repr)
    modifies parent`attribute, LastSet(t)`brother
    ensures fresh(item) && item.name == name && item.parent == parent && item.itemType == ATTRIBUTE && item.obj == 0
    ensures item.attribute == null && item.child == null && item.brother == null
    ensures parent.attribute == if t == Nil then item else old(parent.attribute)
    ensures Drawn(old(parent.attribute), t, [parent] + up, old(Snapshot(repr)))
    ensures LinkedTo(t, item, old(Snapshot(repr)), Snapshot(repr))
  {
    ghost var g := Snapshot(repr);
    ShapeIsDrawn(parent.attribute, t, [parent] + up, repr);
    LastIsItem(t);
    item := new H5Item(ATTRIBUTE, name, parent);
    assert Snapshot(repr) == g;
    LinkAttribute(parent, item, t, [parent] + up, repr);
  }

  /** find_attr: a new item behind the attributes of its parent. */
  method FindAttr(attr: Attr, parent: H5Item, ghost t: Tree, ghost up: seq<H5Item>, ghost repr: set<H5Item>)
    returns (ghost t': Tree, ghost repr': set<H5Item>)
    requires Chain(parent.attribute, t, parent, up, repr)
    modifies parent`attribute, LastSet(t)`brother
    ensures Chain(parent.attribute, t', parent, up, repr') && t'.Node?
    ensures fresh(repr' - repr) && fresh(LastSet(t'))
    ensures Listing(t', [parent] + up) == Listing(t, [parent] + up) + [AttributeEntry(attr, Prefix([parent] + up))]
  {
    ghost var g, p := Snapshot(repr), parent.attribute;
    var item := NewAttribute(attr.name, parent, t, up, repr);
    KeepHandle(item, attr.handle, repr);
    AttributeLinked(p, t, item, attr, parent, up, g, repr);
    t', repr' := Append(t, Node(item, ATTRIBUTE, item.obj, Nil, Nil, Nil)), repr + {item};
    assert repr' - repr == {item};
  }

  /** The library's iteration over the attributes of an object. */
  method IterateAttributes(attrs: seq<Attr>, item: H5Item, ghost t: Tree, ghost up: seq<H5Item>,
      ghost repr: set<H5Item>)
    returns (ghost t': Tree, ghost repr': set<H5Item>)
    requires Chain(item.attribute, t, item, up, repr)
    modifies item`attribute, LastSet(t)`brother
    ensures Chain(item.attribute, t', item, up, repr') && fresh(repr' - repr)
    ensures t' == t || fresh(LastSet(t'))
    ensures Listing(t', [item] + up) == Listing(t, [item] + up) + AttributeEntries(attrs, Prefix([item] + up))
    decreases |attrs|
  {
    t', repr' := t, repr;
    if attrs != [] {
      var n := |attrs| - 1;
      t', repr' := IterateAttributes(attrs[..n], item, t, up, repr);
      t', repr' := FindAttr(attrs[n], item, t', up, repr');
    }
  }

  ghost function ListedMembers(m: Member, inside: string): seq<Entry> {
    if m.kind == GROUP && m.handle >= 0 then GroupEntries(m.members, m.attributes, inside) else []
  }

  /** The listing of a complete item without brothers. */
  lemma NodeListing(item: H5Item, m: Member, first: bool, ofGroup: seq<Attr>, a: Tree, c: Tree, up: seq<H5Item>)
    requires item.name == m.name
    requires Listing(a, [item] + up) == AttributeEntries(Attached(m, first, ofGroup), Prefix([item] + up))
    requires Listing(c, [item] + up) == ListedMembers(m, Prefix([item] + up))
    ensures Listing(Node(item, m.kind, Obj(m), a, c, Nil), up) == MemberEntries(m, first, ofGroup, Prefix(up))
  {
    PathIsPrefix(item.name, up);
    assert ([item] + up)[1..] == up;
  }

  /** A complete item without brothers, on its own. */
  lemma NodeChain(item: H5Item, a: Tree, c: Tree, parent: H5Item, up: seq<H5Item>, ra: set<H5Item>, rc: set<H5Item>)
    requires Chain(item.attribute, a, item, [parent] + up, ra) && Chain(item.child, c, item, [parent] + up, rc)
    requires ra !! rc && item.parent == parent && item.brother == null && parent !in {item} + ra + rc
    ensures Chain(item, Node(item, item.itemType, item.obj, a, c, Nil), parent, up, {item} + ra + rc)
  {
    ShapeWider(item.attribute, a, [item] + ([parent] + up), ra, {item} + ra + rc);
    ShapeWider(item.child, c, [item] + ([parent] + up), rc, {item} + ra + rc);
  }

  /** The attributes of the group, which go to its first member. */
  method DescribeFirst(item: H5Item, first: bool, ofGroup: seq<Attr>, ghost up: seq<H5Item>)
    returns (ghost a: Tree, ghost ra: set<H5Item>)
    requires item.attribute == null
    modifies item`attribute
    ensures Chain(item.attribute, a, item, up, ra) && fresh(ra)
    ensures Listing(a, [item] + up) == AttributeEntries(if first then ofGroup else [], Prefix([item] + up))
  {
    a, ra := Nil, {};
    if first {
      a, ra := IterateAttributes(ofGroup, item, a, up, ra);
    }
  }

  /** The two chains of an item. */
  ghost predicate Inside(item: H5Item, a: Tree, c: Tree, up: seq<H5Item>, ra: set<H5Item>, rc: set<H5Item>)
    reads {item} + ra + rc
  {
    Chain(item.attribute, a, item, up, ra) && Chain(item.child, c, item, up, rc) && ra !! rc
  }

  /** The members of a group. */
  method DescribeGroup(item: H5Item, m: Member, ghost a: Tree, ghost up: seq<H5Item>, ghost ra: set<H5Item>)
    returns (ghost c: Tree, ghost rc: set<H5Item>)
    requires m.kind == GROUP && item.child == null && Chain(item.attribute, a, item, up, ra)
    modifies item`child
    ensures Inside(item, a, c, up, ra, rc) && fresh(rc)
    ensures Listing(c, [item] + up) == ListedMembers(m, Prefix([item] + up))
    decreases m, 1
  {
    c, rc := Nil, {};
    if m.handle >= 0 {
      c, rc := IterateMembers(m.members, m.attributes, item, up);
    }
  }

  /** The handle and the attributes of a data set. */
  method DescribeDataset(item: H5Item, m: Member, ghost a: Tree, ghost up: seq<H5Item>, ghost ra: set<H5Item>)
    returns (ghost a': Tree, ghost ra': set<H5Item>)
    requires m.kind == DATASET && item.obj == 0 && item.child == null && Chain(item.attribute, a, item, up, ra)
    modifies item`obj, item`attribute, LastSet(a)`brother
    ensures item.obj == Obj(m) && Inside(item, a', Nil, up, ra', {}) && fresh(ra' - ra)
    ensures Listing(a', [item] + up)
         == Listing(a, [item] + up) + AttributeEntries(Attached(m, false, []), Prefix([item] + up))
  {
    a', ra' := a, ra;
    if m.handle >= 0 {
      item.obj := m.handle;
      a', ra' := IterateAttributes(m.attributes, item, a, up, ra);
      assert Attached(m, false, []) == m.attributes;
    }
  }

  lemma AttachedInOrder(m: Member, first: bool, ofGroup: seq<Attr>, prefix: string)
    ensures AttributeEntries(Attached(m, first, ofGroup), prefix) ==
      AttributeEntries(if first then ofGroup else [], prefix) + AttributeEntries(Attached(m, false, []), prefix)
    ensures m.kind != DATASET ==>
      AttributeEntries(Attached(m, first, ofGroup), prefix) == AttributeEntries(if first then ofGroup else [], prefix)
  {
    var own := if first then ofGroup else [];
    AttributeEntriesAppend(own, Attached(m, false, []), prefix);
    assert Attached(m, first, ofGroup) == own + Attached(m, false, []);
    assert m.kind != DATASET ==> Attached(m, first, ofGroup) == own;
  }

  /** Fills in a new item: the group's attributes when it comes first, its members when it is
      a group, its handle and attributes when it is a data set. */
  method Describe(item: H5Item, m: Member, first: bool, ofGroup: seq<Attr>, ghost up: seq<H5Item>)
    returns (ghost a: Tree, ghost c: Tree, ghost ra: set<H5Item>, ghost rc: set<H5Item>)
    requires item.obj == 0 && item.attribute == null && item.child == null
    modifies item`itemType, item`obj, item`attribute, item`child
    ensures item.itemType == m.kind && item.obj == Obj(m)
    ensures Inside(item, a, c, up, ra, rc) && fresh(ra) && fresh(rc)
    ensures Listing(a, [item] + up) == AttributeEntries(Attached(m, first, ofGroup), Prefix([item] + up))
    ensures Listing(c, [item] + up) == ListedMembers(m, Prefix([item] + up))
    decreases m, 2
  {
    AttachedInOrder(m, first, ofGroup, Prefix([item] + up));
    c, rc := Nil, {};
    a, ra := DescribeFirst(item, first, ofGroup, up);
    LastIsItem(a);
    item.itemType := m.kind;
    if m.kind == GROUP {
      c, rc := DescribeGroup(item, m, a, up, ra);
    } else if m.kind == DATASET {
      a, ra := DescribeDataset(item, m, a, up, ra);
    }
  }

  /** Describes an item and leaves all other items as they were. */
  method DescribeOnly(item: H5Item, m: Member, first: bool, ofGroup: seq<Attr>, ghost up: seq<H5Item>,
      ghost others: set<H5Item>)
    returns (ghost a: Tree, ghost c: Tree, ghost ra: set<H5Item>, ghost rc: set<H5Item>, ghost made: set<H5Item>)
    requires item.obj == 0 && item.attribute == null && item.child == null && item !in others
    modifies item`itemType, item`obj, item`attribute, item`child
    ensures Snapshot(others) == old(Snapshot(others))
    ensures item.itemType == m.kind && item.obj == Obj(m)
    ensures Inside(item, a, c, up, ra, rc) && fresh(ra) && fresh(rc)
    ensures made == {item} + ra + rc && others !! made && fresh(made - {item})
    ensures Listing(a, [item] + up) == AttributeEntries(Attached(m, first, ofGroup), Prefix([item] + up))
    ensures Listing(c, [item] + up) == ListedMembers(m, Prefix([item] + up))
    decreases m, 3
  {
    a, c, ra, rc := Describe(item, m, first, ofGroup, up);
    made := {item} + ra + rc;
  }

  /** An item that has been linked behind a chain and filled in. */
  lemma Assembled(p: H5Item?, t: Tree, item: H5Item, m: Member, ofGroup: seq<Attr>, a: Tree, c: Tree,
      parent: H5Item, up: seq<H5Item>, g: map<H5Item, Links>, repr: set<H5Item>, ra: set<H5Item>, rc: set<H5Item>)
    requires Drawn(p, t, [parent] + up, g) && Distinct(t) && repr == Items(t) && parent !in repr
    requires LinkedTo(t, item, g, Snapshot(repr))
    requires item.name == m.name && item.parent == parent && item.brother == null
    requires item.itemType == m.kind && item.obj == Obj(m)
    requires Inside(item, a, c, [parent] + up, ra, rc)
    requires repr !! {item} + ra + rc && parent !in {item} + ra + rc
    requires Listing(a, [item] + ([parent] + up)) ==
      AttributeEntries(Attached(m, t == Nil, ofGroup), Prefix([item] + ([parent] + up)))
    requires Listing(c, [item] + ([parent] + up)) == ListedMembers(m, Prefix([item] + ([parent] + up)))
    ensures var t' := Append(t, Node(item, m.kind, Obj(m), a, c, Nil));
      && Chain(if t == Nil then item else p, t', parent, up, repr + ({item} + ra + rc))
      && t'.Node? && LastSet(t') == {item}
      && Listing(t', [parent] + up) ==
        Listing(t, [parent] + up) + MemberEntries(m, t == Nil, ofGroup, Prefix([parent] + up))
  {
    NodeListing(item, m, t == Nil, ofGroup, a, c, [parent] + up);
    NodeChain(item, a, c, parent, up, ra, rc);
    ChainGrows(p, t, Node(item, m.kind, Obj(m), a, c, Nil), parent, up, g, repr, {item} + ra + rc);
  }

  /** A new item, linked behind the children of its parent. */
  method NewChild(name: string, parent: H5Item, ghost t: Tree, ghost up: seq<H5Item>, ghost repr: set<H5Item>)
    returns (item: H5Item)
    requires Chain(parent.child, t, parent, up, repr)
    modifies parent`child, LastSet(t)`brother
    ensures fresh(item) && item.name == name && item.parent == parent && item.itemType == GROUP && item.obj == 0
    ensures item.attribute == null && item.child == null && item.brother == null
    ensures parent.child == if t == Nil then item else old(parent.child)
    ensures parent.child == item <==> t == Nil
    ensures Drawn(old(parent.child), t, [parent] + up, old(Snapshot(repr)))
    ensures LinkedTo(t, item, old(Snapshot(repr)), Snapshot(repr))
  {
    ghost var g := Snapshot(repr);
    ShapeIsDrawn(parent.child, t, [parent] + up, repr);
    LastIsItem(t);
    item := new H5Item(GROUP, name, parent);
    assert Snapshot(repr) == g;
    LinkChild(parent, item, t, [parent] + up, repr);
  }

  /** find_objs: a new item behind the children of its parent, then what is inside it. */
  method FindObjs(m: Member, ofGroup: seq<Attr>, parent: H5Item, ghost t: Tree, ghost up: seq<H5Item>,
      ghost repr: set<H5Item>)
    returns (ghost t': Tree, ghost repr': set<H5Item>)
    requires Chain(parent.child, t, parent, up, repr)
    modifies parent`child, LastSet(t)`brother
    ensures Chain(parent.child, t', parent, up, repr') && t'.Node?
    ensures fresh(repr' - repr) && fresh(LastSet(t'))
    ensures Listing(t', [parent] + up)
         == Listing(t, [parent] + up) + MemberEntries(m, t == Nil, ofGroup, Prefix([parent] + up))
    decreases m, 4
  {
    ghost var g, p := Snapshot(repr), parent.child;
    var item := NewChild(m.name, parent, t, up, repr);
    LastIsItem(t);
    ghost var a, c, ra, rc, made := DescribeOnly(item, m, parent.child == item, ofGroup, [parent] + up, repr);
    assert fresh(made);
    Assembled(p, t, item, m, ofGroup, a, c, parent, up, g, repr, ra, rc);
    t', repr' := Append(t, Node(item, m.kind, Obj(m), a, c, Nil)), repr + made;
    assert repr' - repr == made;
  }

  /** The library's iteration over the members of a group. */
  method IterateMembers(ms: seq<Member>, ofGroup: seq<Attr>, parent: H5Item, ghost up: seq<H5Item>)
    returns (ghost t: Tree, ghost repr: set<H5Item>)
    requires parent.child == null
    modifies parent`child
    ensures Chain(parent.child, t, parent, up, repr) && fresh(repr)
    ensures Listing(t, [parent] + up) == GroupEntries(ms, ofGroup, Prefix([parent] + up))
    decreases ms, |ms|
  {
    t, repr := Nil, {};
    assert ms[..0] == [];
    for i := 0 to |ms|
      invariant Chain(parent.child, t, parent, up, repr) && fresh(repr)
      invariant t == Nil <==> i == 0
      invariant Listing(t, [parent] + up) == GroupEntries(ms[..i], ofGroup, Prefix([parent] + up))
    {
      LastIsItem(t);
      t, repr := FindObjs(ms[i], ofGroup, parent, t, up, repr);
      assert ms[..i + 1][..i] == ms[..i];
    }
    assert ms[..|ms|] == ms;
  }

  lemma BagOfThree(a: seq<Entry>, b: seq<Entry>, c: seq<Entry>, d: seq<Entry>)
    ensures multiset(a + (b + c) + d) == multiset(a + c + d) + multiset(b)
  {
  }

  lemma FirstMemberEntries(m: Member, ofGroup: seq<Attr>, prefix: string)
    ensures multiset(MemberEntries(m, true, ofGroup, prefix)) ==
      multiset(MemberEntries(m, true, [], prefix)) + multiset(AttributeEntries(ofGroup, prefix + m.name + "/"))
  {
    var inside := prefix + m.name + "/";
    var self := if HasPath(m.kind) then [Entry(prefix + m.name, Obj(m), m.kind)] else [];
    AttachedInOrder(m, true, ofGroup, inside);
    assert Attached(m, true, []) == Attached(m, false, []);
    BagOfThree(self, AttributeEntries(ofGroup, inside), AttributeEntries(Attached(m, false, []), inside),
      ListedMembers(m, inside));
  }

  lemma LaterMember(ms: seq<Member>, ofGroup: seq<Attr>, prefix: string)
    requires |ms| > 1
    ensures GroupEntries(ms, ofGroup, prefix) ==
      GroupEntries(ms[..|ms| - 1], ofGroup, prefix) + MemberEntries(ms[|ms| - 1], false, [], prefix)
  {
    var m := ms[|ms| - 1];
    assert Attached(m, false, ofGroup) == Attached(m, false, []);
    assert MemberEntries(m, false, ofGroup, prefix) == MemberEntries(m, false, [], prefix);
  }

  /** The attributes of a group are listed under its first member, not under the group; an
      empty group lists none of them. */
  lemma {:induction false} GroupAttributesGoToFirstMember(ms: seq<Member>, ofGroup: seq<Attr>, prefix: string)
    ensures ms == [] ==> GroupEntries(ms, ofGroup, prefix) == []
    ensures ms != [] ==>
      multiset(GroupEntries(ms, ofGroup, prefix)) ==
      multiset(GroupEntries(ms, [], prefix)) + multiset(AttributeEntries(ofGroup, prefix + ms[0].name + "/"))
    decreases |ms|
  {
    if |ms| == 1 {
      FirstMemberEntries(ms[0], ofGroup, prefix);
      assert GroupEntries(ms, ofGroup, prefix) == MemberEntries(ms[0], true, ofGroup, prefix);
      assert GroupEntries(ms, [], prefix) == MemberEntries(ms[0], true, [], prefix);
    } else if ms != [] {
      GroupAttributesGoToFirstMember(ms[..|ms| - 1], ofGroup, prefix);
      LaterMember(ms, ofGroup, prefix);
      LaterMember(ms, [], prefix);
    }
  }

  /** The root of a file, whose name is empty, with the members under it. */
  lemma RootTree(root: H5Item, c: Tree, rc: set<H5Item>)
    requires Chain(root.child, c, root, [], rc)
    requires root.name == "" && root.itemType == FILE && root.parent == null
    requires root.attribute == null && root.brother == null
    ensures Prefix([root] + []) == "/"
    ensures var t := Node(root, FILE, root.obj, Nil, c, Nil);
      && Shape(root, t, [], {root} + rc) && Distinct(t) && {root} + rc == Items(t)
      && Listing(t, []) == Listing(c, [root] + [])
  {
    assert [root] + [] == [root];
    ShapeWider(root.child, c, [root], rc, {root} + rc);
  }

  /** The open file of a process: the tree, and what has been freed and closed so far. */
  class Session {
    var current: H5Item?
    const resources: Resources
    ghost var tree: Tree
    ghost var repr: set<H5Item>

    ghost predicate Valid()
      reads this, repr, resources
    {
      && Shape(current, tree, [], repr) && Distinct(tree) && repr == Items(tree)
      && NoneFreed(tree, resources.freed)
    }

    constructor ()
      ensures Valid() && tree == Nil && fresh(resources) && resources.freed == [] && resources.closed == []
    {
      current, tree, repr := null, Nil, {};
      resources := new Resources();
    }

    /** hdf5close: frees the whole tree. */
    method Close()
      requires Valid()
      modifies this, resources
      ensures Valid() && tree == Nil && current == null
      ensures resources.freed == FreedAfter(old(resources.freed), old(tree))
      ensures resources.closed == ClosedAfter(old(resources.closed), old(tree))
    {
      if current != null {
        resources.FreeObj(current, tree, [], repr);
      }
      current, tree, repr := null, Nil, {};
    }

    /** The tree of a new file. */
    method Build(fid: int, members: seq<Member>, attributes: seq<Attr>)
      returns (root: H5Item, ghost t: Tree, ghost items: set<H5Item>)
      ensures Shape(root, t, [], items) && Distinct(t) && items == Items(t) && fresh(items)
      ensures Listing(t, []) == GroupEntries(members, attributes, "/") && Reports(Listing(t, []), members, attributes)
      ensures fid != 0 ==> (FILE, fid) in Handles(t)
    {
      root := new H5Item(FILE, "", null);
      root.obj := fid;
      ghost var c, rc := IterateMembers(members, attributes, root, []);
      t, items := Node(root, FILE, fid, Nil, c, Nil), {root} + rc;
      RootTree(root, c, rc);
      OpenedReports(members, attributes);
    }

    /** hdf5open: a file that cannot be opened changes nothing; otherwise the old tree is
        freed and the new one lists what the file holds. */
    method Open(fid: int, members: seq<Member>, attributes: seq<Attr>) returns (r: int)
      requires Valid()
      modifies this, resources
      ensures Valid()
      ensures r == if fid < 0 then -1 else fid
      ensures fid < 0 ==> current == old(current) && tree == old(tree)
      ensures fid < 0 ==> resources.freed == old(resources.freed) && resources.closed == old(resources.closed)
      ensures fid >= 0 ==> current != null && fresh(repr)
      ensures fid >= 0 ==> Listing(tree, []) == GroupEntries(members, attributes, "/")
      ensures fid >= 0 ==> Reports(Listing(tree, []), members, attributes)
      ensures fid > 0 ==> (FILE, fid) in Handles(tree)
      ensures fid >= 0 ==> resources.freed == FreedAfter(old(resources.freed), old(tree))
      ensures fid >= 0 ==> resources.closed == ClosedAfter(old(resources.closed), old(tree))
    {
      if fid < 0 {
        return -1;
      }
      if current != null {
        Close();
      }
      current, tree, repr := Build(fid, members, attributes);
      r := fid;
    }

    /** hdf5list: the paths of the open file. */
    method List() returns (xd: seq<string>)
      requires Valid()
      ensures xd == Paths(Listing(tree, []))
    {
      xd := [];
      if current != null {
        xd := ListOne(current, xd, tree, [], repr);
      }
      ListedIsPaths([], Listing(tree, []));
    }

    /** FindItem: the trailing blanks of the name are dropped first. */
    method FindItem(namein: string) returns (r: Found)
      requires Valid() && current != null
      ensures r == First(Listing(tree, []), Trimmed(namein))
      ensures r.Found? <==> Trimmed(namein) in Paths(Listing(tree, []))
    {
      var name := namein;
      var i := |name| - 1;
      while i >= 0 && name[i] == ' '
        invariant i == |name| - 1 && Trimmed(name) == Trimmed(namein)
      {
        name := name[..i];
        i := i - 1;
      }
      r := FindOne(current, name, tree, [], repr);
      FoundIffListed(Listing(tree, []), name);
    }
  }
}
