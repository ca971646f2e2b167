/**
 What an HDF5 file lists once it is open (hdf5/hdf5tdi.c:148-235, 259-329).  The file is a
 value: what the library would report for it, member by member.
 */
module Hdf5File {
  import opened Hdf5Tree

  /** An attribute and the handle the library gives for it (negative: it cannot be opened). */
  datatype Attr = Attr(name: string, handle: int)

  /** A member of a group: its kind, its handle, the attributes of the object itself, and
      the members when it is a group. */
  datatype Member = Member(name: string, kind: int, handle: int, attributes: seq<Attr>, members: seq<Member>)

  // --------------------------------------------- what the file should list

  function AttributeEntry(attr: Attr, prefix: string): Entry {
    Entry(prefix + attr.name, if attr.handle >= 0 then attr.handle else 0, ATTRIBUTE)
  }

  function AttributeEntries(attrs: seq<Attr>, prefix: string): seq<Entry> {
    if attrs == [] then []
    else AttributeEntries(attrs[..|attrs| - 1], prefix) + [AttributeEntry(attrs[|attrs| - 1], prefix)]
  }

  function Obj(m: Member): int {
    if m.kind == DATASET && m.handle >= 0 then m.handle else 0
  }

  /** The attributes attached to a member: those of its own group when it is the first
      member there, and its own when it is a data set. */
  function Attached(m: Member, first: bool, ofGroup: seq<Attr>): seq<Attr> {
    (if first then ofGroup else []) + (if m.kind == DATASET && m.handle >= 0 then m.attributes else [])
  }

  function MemberEntries(m: Member, first: bool, ofGroup: seq<Attr>, prefix: string): seq<Entry>
    decreases m, 0
  {
    var self := if HasPath(m.kind) then [Entry(prefix + m.name, Obj(m), m.kind)] else [];
    var inside := prefix + m.name + "/";
    var members := if m.kind == GROUP && m.handle >= 0 then GroupEntries(m.members, m.attributes, inside) else [];
    self + AttributeEntries(Attached(m, first, ofGroup), inside) + members
  }

  /** What a group lists, member after member. */
  function GroupEntries(ms: seq<Member>, ofGroup: seq<Attr>, prefix: string): seq<Entry>
    decreases ms, |ms|
  {
    if ms == [] then []
    else GroupEntries(ms[..|ms| - 1], ofGroup, prefix) + MemberEntries(ms[|ms| - 1], |ms| == 1, ofGroup, prefix)
  }

  // ------------------------------------------------ where the objects lie

  ghost predicate KeptHandle(handle: int, obj: int) {
    obj == if handle >= 0 then handle else 0
  }

  /** One of these attributes has this path and handle. */
  ghost predicate AmongAttributes(attrs: seq<Attr>, prefix: string, path: string, obj: int) {
    exists i :: 0 <= i < |attrs| && path == prefix + attrs[i].name && KeptHandle(attrs[i].handle, obj)
  }

  /** A data set lies at the path: it is a member itself, or it lies in an opened group. */
  ghost predicate DatasetAt(ms: seq<Member>, prefix: string, path: string, obj: int)
    decreases ms
  {
    exists i :: 0 <= i < |ms| && DatasetIn(ms[i], prefix, path, obj)
  }

  ghost predicate DatasetIn(m: Member, prefix: string, path: string, obj: int)
    decreases m
  {
    || (m.kind == DATASET && path == prefix + m.name && KeptHandle(m.handle, obj))
    || (m.kind == GROUP && m.handle >= 0 && DatasetAt(m.members, prefix + m.name + "/", path, obj))
  }

  /** An attribute lies at the path: the first member has those of the group, an opened data
      set has its own, and an opened group has what lies in it.  An object of unknown kind,
      for which the library reports -1, is taken for an attribute without a handle. */
  ghost predicate AttributeAt(ms: seq<Member>, ofGroup: seq<Attr>, prefix: string, path: string, obj: int)
    decreases ms
  {
    exists i :: 0 <= i < |ms| && AttributeIn(ms[i], i == 0, ofGroup, prefix, path, obj)
  }

  ghost predicate AttributeIn(m: Member, first: bool, ofGroup: seq<Attr>, prefix: string, path: string, obj: int)
    decreases m
  {
    var inside := prefix + m.name + "/";
    || (m.kind == -1 && path == prefix + m.name && obj == 0)
    || (first && AmongAttributes(ofGroup, inside, path, obj))
    || (m.kind == 1 && m.handle >= 0 && AmongAttributes(m.attributes, inside, path, obj))
    || (m.kind == 0 && m.handle >= 0 && AttributeAt(m.members, m.attributes, inside, path, obj))
  }

  /** What an entry says is so in the file. */
  ghost predicate Lies(e: Entry, ms: seq<Member>, ofGroup: seq<Attr>, prefix: string) {
    || (e.itemType == 1 && DatasetAt(ms, prefix, e.path, e.obj))
    || (e.itemType == -1 && AttributeAt(ms, ofGroup, prefix, e.path, e.obj))
  }

  ghost predicate LiesIn(e: Entry, m: Member, first: bool, ofGroup: seq<Attr>, prefix: string) {
    || (e.itemType == 1 && DatasetIn(m, prefix, e.path, e.obj))
    || (e.itemType == -1 && AttributeIn(m, first, ofGroup, prefix, e.path, e.obj))
  }

  lemma {:induction false} AttributesListed(e: Entry, attrs: seq<Attr>, prefix: string)
    ensures e in AttributeEntries(attrs, prefix) <==>
      e.itemType == -1 && AmongAttributes(attrs, prefix, e.path, e.obj)
  {
    if attrs != [] {
      var n := |attrs| - 1;
      AttributesListed(e, attrs[..n], prefix);
      assert forall i :: 0 <= i < |attrs| ==> attrs[i] == if i < n then attrs[..n][i] else attrs[n];
    }
  }

  lemma AttachedListed(e: Entry, m: Member, first: bool, ofGroup: seq<Attr>, prefix: string)
    ensures e in AttributeEntries(Attached(m, first, ofGroup), prefix) <==>
      e.itemType == -1
      && ((first && AmongAttributes(ofGroup, prefix, e.path, e.obj))
          || (m.kind == 1 && m.handle >= 0 && AmongAttributes(m.attributes, prefix, e.path, e.obj)))
  {
    var own := if m.kind == DATASET && m.handle >= 0 then m.attributes else [];
    var all := if first then ofGroup else [];
    AttributesListed(e, all + own, prefix);
    AttributesListed(e, all, prefix);
    AttributesListed(e, own, prefix);
    AttributeEntriesAppend(all, own, prefix);
  }

  lemma {:induction false} AttributeEntriesAppend(a: seq<Attr>, b: seq<Attr>, prefix: string)
    ensures AttributeEntries(a + b, prefix) == AttributeEntries(a, prefix) + AttributeEntries(b, prefix)
  {
    if b == [] {
      assert a + b == a;
    } else {
      assert (a + b)[..|a + b| - 1] == a + b[..|b| - 1];
      AttributeEntriesAppend(a, b[..|b| - 1], prefix);
    }
  }

  lemma LastMember(ms: seq<Member>, m: Member, ofGroup: seq<Attr>, prefix: string)
    ensures GroupEntries(ms + [m], ofGroup, prefix) ==
      GroupEntries(ms, ofGroup, prefix) + MemberEntries(m, ms == [], ofGroup, prefix)
  {
    assert (ms + [m])[..|ms|] == ms;
  }

  /** What lies in a group lies in its last member or in one before. */
  lemma LiesAmong(e: Entry, ms: seq<Member>, m: Member, ofGroup: seq<Attr>, prefix: string)
    ensures Lies(e, ms + [m], ofGroup, prefix) <==>
      Lies(e, ms, ofGroup, prefix) || LiesIn(e, m, ms == [], ofGroup, prefix)
  {
    var all := ms + [m];
    assert all[|ms|] == m && forall i :: 0 <= i < |ms| ==> all[i] == ms[i];
  }

  lemma {:induction false} MemberListed(e: Entry, m: Member, first: bool, ofGroup: seq<Attr>, prefix: string)
    ensures e in MemberEntries(m, first, ofGroup, prefix) <==> LiesIn(e, m, first, ofGroup, prefix)
    decreases m, 0
  {
    var inside := prefix + m.name + "/";
    AttachedListed(e, m, first, ofGroup, inside);
    if m.kind == GROUP && m.handle >= 0 {
      ListedExactly(e, m.members, m.attributes, inside);
    }
  }

  /** The listing of a group has an entry if and only if a data set or an attribute lies at
      its path with that handle; groups are never listed. */
  lemma {:induction false} ListedExactly(e: Entry, ms: seq<Member>, ofGroup: seq<Attr>, prefix: string)
    ensures e in GroupEntries(ms, ofGroup, prefix) <==> Lies(e, ms, ofGroup, prefix)
    decreases ms, |ms|
  {
    if ms != [] {
      var n := |ms| - 1;
      ListedExactly(e, ms[..n], ofGroup, prefix);
      MemberListed(e, ms[n], n == 0, ofGroup, prefix);
      LiesAmong(e, ms[..n], ms[n], ofGroup, prefix);
      assert ms == ms[..n] + [ms[n]];
      LastMember(ms[..n], ms[n], ofGroup, prefix);
    }
  }

  /** How many data sets and attributes a group holds; its own attributes count only when it
      has a member to hold them. */
  function Held(ms: seq<Member>, ofGroup: seq<Attr>): nat
    decreases ms, |ms|
  {
    if ms == [] then 0
    else
      var m := ms[|ms| - 1];
      Held(ms[..|ms| - 1], ofGroup) + (if |ms| == 1 then |ofGroup| else 0) +
      match m.kind
      case 1 => 1 + if m.handle >= 0 then |m.attributes| else 0
      case 0 => if m.handle >= 0 then Held(m.members, m.attributes) else 0
      case -1 => 1
      case _ => 0
  }

  lemma {:induction false} AttributesOnce(attrs: seq<Attr>, prefix: string)
    ensures |AttributeEntries(attrs, prefix)| == |attrs|
  {
    if attrs != [] { AttributesOnce(attrs[..|attrs| - 1], prefix); }
  }

  /** Nothing is listed twice: there are as many entries as data sets and attributes. */
  lemma {:induction false} ListedOnce(ms: seq<Member>, ofGroup: seq<Attr>, prefix: string)
    ensures |GroupEntries(ms, ofGroup, prefix)| == Held(ms, ofGroup)
    decreases ms, |ms|
  {
    if ms != [] {
      var n := |ms| - 1;
      var m := ms[n];
      var inside := prefix + m.name + "/";
      ListedOnce(ms[..n], ofGroup, prefix);
      AttributesOnce(Attached(m, |ms| == 1, ofGroup), inside);
      if m.kind == GROUP && m.handle >= 0 {
        ListedOnce(m.members, m.attributes, inside);
      }
    }
  }

  /** Only a first member lists attributes of its group. */
  lemma LaterMember(m: Member, ofGroup: seq<Attr>, first: bool, prefix: string)
    ensures MemberEntries(m, false, ofGroup, prefix) == MemberEntries(m, first, [], prefix)
  {
    assert Attached(m, false, ofGroup) == Attached(m, first, []);
  }

  ghost predicate OneAfterTheOther(a: seq<Member>, b: seq<Member>, ofGroup: seq<Attr>, prefix: string) {
    GroupEntries(a + b, ofGroup, prefix) == GroupEntries(a, ofGroup, prefix) + GroupEntries(b, [], prefix)
  }

  lemma OneMore(a: seq<Member>, b: seq<Member>, m: Member, ofGroup: seq<Attr>, prefix: string)
    requires a != []
    requires OneAfterTheOther(a, b, ofGroup, prefix)
    ensures OneAfterTheOther(a, b + [m], ofGroup, prefix)
  {
    var x, y, z := GroupEntries(a, ofGroup, prefix), GroupEntries(b, [], prefix), MemberEntries(m, false, [], prefix);
    calc {
      GroupEntries(a + (b + [m]), ofGroup, prefix);
      { assert a + (b + [m]) == (a + b) + [m]; }
      GroupEntries((a + b) + [m], ofGroup, prefix);
      { LastMember(a + b, m, ofGroup, prefix); LaterMember(m, ofGroup, false, prefix); }
      (x + y) + z;
      x + (y + z);
      { LastMember(b, m, [], prefix); LaterMember(m, [], b == [], prefix); }
      x + GroupEntries(b + [m], [], prefix);
    }
  }

  /** The members of a group are listed one after the other. */
  lemma {:induction false} ListedInOrder(a: seq<Member>, b: seq<Member>, ofGroup: seq<Attr>, prefix: string)
    requires a != []
    ensures OneAfterTheOther(a, b, ofGroup, prefix)
    decreases |b|
  {
    if b == [] {
      assert a + b == a;
    } else {
      var n := |b| - 1;
      ListedInOrder(a, b[..n], ofGroup, prefix);
      OneMore(a, b[..n], b[n], ofGroup, prefix);
      assert b == b[..n] + [b[n]];
    }
  }

  /** A data set is listed before an attribute of it. */
  lemma OneAttribute(m: Member, attr: Attr, first: bool, ofGroup: seq<Attr>, prefix: string)
    requires m.kind == 1 && m.handle >= 0 && attr.handle >= 0 && Attached(m, first, ofGroup) == [attr]
    ensures MemberEntries(m, first, ofGroup, prefix) ==
      [Entry(prefix + m.name, m.handle, 1), Entry(prefix + m.name + "/" + attr.name, attr.handle, -1)]
  {
    var inside := prefix + m.name + "/";
    assert [attr][..0] == [];
    assert AttributeEntries([attr], inside) == AttributeEntries([], inside) + [AttributeEntry(attr, inside)];
  }

  /** A file with data set /d, which has attribute u, and data set /g/e in a group that has
      attribute v: an object comes before its attributes, the members one after the other. */
  lemma SmallFile(d: int, u: int, g: int, e: int, v: int)
    requires d >= 0 && u >= 0 && g >= 0 && e >= 0 && v >= 0
    ensures GroupEntries([Member("d", 1, d, [Attr("u", u)], []),
                          Member("g", 0, g, [Attr("v", v)], [Member("e", 1, e, [], [])])], [], "/") ==
      [Entry("/d", d, 1), Entry("/d/u", u, -1), Entry("/g/e", e, 1), Entry("/g/e/v", v, -1)]
  {
    var one := Member("d", 1, d, [Attr("u", u)], []);
    var two := Member("g", 0, g, [Attr("v", v)], [Member("e", 1, e, [], [])]);
    assert [one, two] == [one] + [two];
    ListedInOrder([one], [two], [], "/");
    OneMember(one, [], "/");
    OneMember(two, [], "/");
    assert "/" + "d" == "/d" && "/d" + "/" + "u" == "/d/u";
    OneAttribute(one, Attr("u", u), true, [], "/");
    SmallGroup(g, e, v);
  }

  lemma SmallGroup(g: int, e: int, v: int)
    requires g >= 0 && e >= 0 && v >= 0
    ensures MemberEntries(Member("g", 0, g, [Attr("v", v)], [Member("e", 1, e, [], [])]), true, [], "/") ==
      [Entry("/g/e", e, 1), Entry("/g/e/v", v, -1)]
  {
    var of, inner := Attr("v", v), Member("e", 1, e, [], []);
    assert "/" + "g" + "/" == "/g/" && "/g/" + "e" == "/g/e" && "/g/e" + "/" + "v" == "/g/e/v";
    OneAttribute(inner, of, true, [of], "/g/");
    OneMember(inner, [of], "/g/");
  }

  lemma OneMember(m: Member, ofGroup: seq<Attr>, prefix: string)
    ensures GroupEntries([m], ofGroup, prefix) == MemberEntries(m, true, ofGroup, prefix)
  {
    assert [m][..0] == [];
  }

  /** What is found under a path lies there in the file, and if anything lies there something
      is found. */
  lemma FoundWhereItLies(ms: seq<Member>, ofGroup: seq<Attr>, path: string)
    ensures var f := First(GroupEntries(ms, ofGroup, "/"), path);
      && (f.Found? ==> Lies(Entry(path, f.obj, f.itemType), ms, ofGroup, "/"))
      && (forall obj, kind :: Lies(Entry(path, obj, kind), ms, ofGroup, "/") ==> f.Found?)
  {
    var entries := GroupEntries(ms, ofGroup, "/");
    FoundIffListed(entries, path);
    if First(entries, path).Found? {
      var k: nat :| FirstAt(entries, path, k);
      ListedExactly(entries[k], ms, ofGroup, "/");
    }
    forall obj, kind | Lies(Entry(path, obj, kind), ms, ofGroup, "/") ensures First(entries, path).Found? {
      ListedExactly(Entry(path, obj, kind), ms, ofGroup, "/");
      PathOfEntry(entries, Entry(path, obj, kind));
    }
  }

  lemma {:induction false} PathOfEntry(entries: seq<Entry>, e: Entry)
    requires e in entries
    ensures e.path in Paths(entries)
  {
    if entries[0] != e { PathOfEntry(entries[1..], e); }
  }

  /** A listing says exactly what lies in the file. */
  ghost predicate Reports(entries: seq<Entry>, ms: seq<Member>, ofGroup: seq<Attr>) {
    forall e :: e in entries <==> Lies(e, ms, ofGroup, "/")
  }

  lemma OpenedReports(ms: seq<Member>, ofGroup: seq<Attr>)
    ensures Reports(GroupEntries(ms, ofGroup, "/"), ms, ofGroup)
  {
    forall e ensures e in GroupEntries(ms, ofGroup, "/") <==> Lies(e, ms, ofGroup, "/") {
      ListedExactly(e, ms, ofGroup, "/");
    }
  }
}
