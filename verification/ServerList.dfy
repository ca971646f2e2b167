/**
 The action monitor's list of servers and the list widget that shows them
 (actions/actmon.c:193-227, 397-475): a linked list kept in case-insensitive order, and
 one widget line per server, edited by position.
 */
module ServerList {
  import opened CStrings

  // ------------------------------------------------ the names, as a sequence

  /** strcasecmp. */
  function CaseOrder(a: string, b: string): int { Order(Downcase(a), Downcase(b)) }

  ghost predicate SortedNames(names: seq<string>) {
    forall i, j :: 0 <= i < j < |names| ==> CaseOrder(names[i], names[j]) < 0
  }

  /** s with x put in at position k. */
  function Inserted<T>(s: seq<T>, k: nat, x: T): (r: seq<T>)
    requires k <= |s|
    ensures |r| == |s| + 1
  {
    s[..k] + [x] + s[k..]
  }

  lemma InsertedAt<T>(s: seq<T>, k: nat, x: T, i: nat)
    requires k <= |s| && i <= |s|
    ensures Inserted(s, k, x)[i] == if i < k then s[i] else if i == k then x else s[i - 1]
  {
  }

  /** How many names come before name. */
  function Place(names: seq<string>, name: string): (k: nat)
    ensures k <= |names|
    ensures forall i :: 0 <= i < k ==> CaseOrder(names[i], name) < 0
    ensures k < |names| ==> CaseOrder(names[k], name) >= 0
  {
    if names == [] || CaseOrder(names[0], name) >= 0 then 0
    else
      assert names == [names[0]] + names[1..];
      1 + Place(names[1..], name)
  }

  predicate Listed(names: seq<string>, name: string) {
    var k := Place(names, name);
    k < |names| && CaseOrder(names[k], name) == 0
  }

  /** The list after a server was looked for: a name not yet there is put in its place. */
  function Registered(names: seq<string>, name: string): seq<string> {
    var k := Place(names, name);
    if Listed(names, name) then names else Inserted(names, k, name)
  }

  lemma RegisteredSorted(names: seq<string>, name: string)
    requires SortedNames(names)
    ensures SortedNames(Registered(names, name))
  {
    var k := Place(names, name);
    if !Listed(names, name) {
      forall j | k <= j < |names| ensures CaseOrder(name, names[j]) < 0 {
        AfterPlace(names, name, k, j);
      }
      InsertedSorted(names, k, name);
    }
  }

  /** A name put between those before and those after it. */
  lemma InsertedSorted(names: seq<string>, k: nat, name: string)
    requires SortedNames(names) && k <= |names|
    requires forall i :: 0 <= i < k ==> CaseOrder(names[i], name) < 0
    requires forall j :: k <= j < |names| ==> CaseOrder(name, names[j]) < 0
    ensures SortedNames(Inserted(names, k, name))
  {
    var r := Inserted(names, k, name);
    forall i, j | 0 <= i < j < |r| ensures CaseOrder(r[i], r[j]) < 0 {
      InsertedAt(names, k, name, i);
      InsertedAt(names, k, name, j);
    }
  }

  /** A name behind the place of a new name comes after it. */
  lemma AfterPlace(names: seq<string>, name: string, k: nat, j: nat)
    requires SortedNames(names) && k == Place(names, name) <= j < |names| && CaseOrder(names[k], name) > 0
    ensures CaseOrder(name, names[j]) < 0
  {
    var a, b, c := Downcase(name), Downcase(names[k]), Downcase(names[j]);
    OrderAntisymmetric(a, b);
    if k < j { OrderTransitive(a, b, c); }
  }

  /** Being listed means that a name equal but for case is in the list. */
  lemma ListedMeansPresent(names: seq<string>, name: string)
    requires SortedNames(names)
    ensures Listed(names, name) <==> exists i :: 0 <= i < |names| && Downcase(names[i]) == Downcase(name)
  {
    var k := Place(names, name);
    if k < |names| { OrderEqual(Downcase(names[k]), Downcase(name)); }
    forall i | 0 <= i < |names| && Downcase(names[i]) == Downcase(name) ensures i == k {
      OrderEqual(Downcase(names[i]), Downcase(name));
      assert k < i ==> CaseOrder(names[k], names[i]) < 0;
    }
  }

  ghost function Folded(names: seq<string>): set<string> { set i | 0 <= i < |names| :: Downcase(names[i]) }

  function RegisterAll(names: seq<string>, requests: seq<string>): seq<string>
    decreases |requests|
  {
    if requests == [] then names else RegisterAll(Registered(names, requests[0]), requests[1..])
  }

  lemma RegisteredFolded(names: seq<string>, name: string)
    requires SortedNames(names)
    ensures Folded(Registered(names, name)) == Folded(names) + {Downcase(name)}
  {
    ListedMeansPresent(names, name);
    var k, r := Place(names, name), Registered(names, name);
    if !Listed(names, name) {
      forall i | 0 <= i < |names| ensures Downcase(names[i]) in Folded(r) {
        assert r[if i < k then i else i + 1] == names[i];
      }
      assert r[k] == name;
    }
  }

  /** After any sequence of look-ups the list is strictly sorted, without a name twice, and
      holds exactly the names asked for, up to case. */
  lemma {:induction false} AfterRequests(names: seq<string>, requests: seq<string>)
    requires SortedNames(names)
    ensures SortedNames(RegisterAll(names, requests))
    ensures Folded(RegisterAll(names, requests)) == Folded(names) + Folded(requests)
    decreases |requests|
  {
    if requests != [] {
      RegisteredSorted(names, requests[0]);
      RegisteredFolded(names, requests[0]);
      AfterRequests(Registered(names, requests[0]), requests[1..]);
      FoldedCons(requests);
    }
  }

  lemma FoldedCons(names: seq<string>)
    requires names != []
    ensures Folded(names) == {Downcase(names[0])} + Folded(names[1..])
  {
    forall i | 1 <= i < |names| ensures Downcase(names[i]) in Folded(names[1..]) {
      assert names[i] == names[1..][i - 1];
    }
  }

  // ------------------------------------------------- names, actions and lines

  /** "%-20.20s": exactly twenty characters of s. */
  function Column20(s: string): (r: string)
    ensures |r| == 20
  {
    if |s| >= 20 then s[..20] else s + seq(20 - |s|, _ => ' ')
  }

  /** A widget line: the bare name while a server is idle, else name, time, shot and path. */
  function IdleLine(server: string): string { server }

  function BusyLine(server: string, rest: string): string { Column20(server) + " " + rest }

  /** Per server: its name, the action it is doing ("" for none), and its widget line. */
  datatype View = View(names: seq<string>, paths: seq<string>, widget: seq<string>)

  ghost predicate SameLength(v: View) { |v.names| == |v.paths| == |v.widget| }

  /** FindServer: a new name gets a node without an action and a line with its name. */
  function LookedUp(v: View, name: string): (r: View)
    requires SameLength(v)
    ensures SameLength(r) && Place(v.names, name) < |r.names|
  {
    var k := Place(v.names, name);
    if Listed(v.names, name) then v
    else View(Inserted(v.names, k, name), Inserted(v.paths, k, ""), Inserted(v.widget, k, IdleLine(name)))
  }

  datatype LogEvent =
    | Doing(server: string, path: string, rest: string)
    | Done(server: string, path: string)
    | Other

  /** Server k has a new action and a new line. */
  function Rewritten(v: View, k: nat, path: string, line: string): (r: View)
    requires SameLength(v) && k < |v.names|
    ensures SameLength(r)
  {
    v.(paths := v.paths[k := path], widget := v.widget[k := line])
  }

  /** The current-actions part of PutLog: a server that starts an action shows it; if it
      reports the action shown as done, its line becomes the bare name again. */
  function Logged(v: View, e: LogEvent): (r: View)
    requires SameLength(v)
    ensures SameLength(r)
  {
    match e
    case Doing(server, path, rest) =>
      var (w, k) := (LookedUp(v, server), Place(v.names, server));
      Rewritten(w, k, path, BusyLine(server, rest))
    case Done(server, path) =>
      var (w, k) := (LookedUp(v, server), Place(v.names, server));
      if w.paths[k] == path then Rewritten(w, k, "", IdleLine(server)) else w
    case Other => v
  }

  function LoggedAll(v: View, events: seq<LogEvent>): (r: View)
    requires SameLength(v)
    ensures SameLength(r)
    decreases |events|
  {
    if events == [] then v else LoggedAll(Logged(v, events[0]), events[1..])
  }

  /** The first twenty characters of the line are the name's, up to case, then blanks. */
  ghost predicate InColumn(line: string, name: string) {
    |line| >= 20 && forall i :: 0 <= i < 20 ==>
      if i < |name| then ToLower(line[i]) == ToLower(name[i]) else line[i] == ' '
  }

  /** The line shows this server: it is its name, up to case, or the name stands in the
      first twenty columns and a blank follows. */
  ghost predicate Shows(line: string, name: string) {
    Downcase(line) == Downcase(name) || (InColumn(line, name) && |line| > 20 && line[20] == ' ')
  }

  lemma ShowsUpToCase(line: string, a: string, b: string)
    requires Downcase(a) == Downcase(b) && Shows(line, a)
    ensures Shows(line, b)
  {
    forall i | 0 <= i < |a| && |a| == |b| ensures ToLower(a[i]) == ToLower(b[i]) {
      assert Downcase(a)[i] == Downcase(b)[i];
    }
    assert |Downcase(a)| == |Downcase(b)|;
  }

  /** What a busy line looks like. */
  lemma BusyLineShows(server: string, rest: string)
    ensures var line := BusyLine(server, rest);
      |line| == 21 + |rest| && line[20] == ' ' && line[21..] == rest && InColumn(line, server) && Shows(line, server)
  {
    var line := BusyLine(server, rest);
    assert forall i :: 0 <= i < 20 ==> line[i] == Column20(server)[i];
  }

  /** Column i of a name, up to case, filled up with blanks. */
  function ColumnOf(name: string, i: nat): char { if i < |name| then ToLower(name[i]) else ' ' }

  /** A busy line shows two servers only if their names agree, up to case, in the first
      twenty columns. */
  lemma BusyLineShowsOne(server: string, rest: string, name: string)
    requires Shows(BusyLine(server, rest), name)
    ensures forall i :: 0 <= i < 20 ==> ColumnOf(server, i) == ColumnOf(name, i)
  {
    var line := BusyLine(server, rest);
    BusyLineShows(server, rest);
    forall i | 0 <= i < 20 ensures ToLower(line[i]) == ColumnOf(server, i) == ColumnOf(name, i) {
      if Downcase(line) == Downcase(name) {
        assert |Downcase(line)| == |Downcase(name)| && Downcase(line)[i] == Downcase(name)[i];
      }
    }
  }

  /** The list is in strict order and line k of the widget belongs to server k. */
  ghost predicate Mirrored(v: View) {
    && SameLength(v) && SortedNames(v.names)
    && forall k :: 0 <= k < |v.names| ==> Shows(v.widget[k], v.names[k])
  }

  lemma LookedUpMirrored(v: View, name: string)
    requires Mirrored(v)
    ensures Mirrored(LookedUp(v, name))
    ensures LookedUp(v, name).names == Registered(v.names, name)
    ensures Downcase(LookedUp(v, name).names[Place(v.names, name)]) == Downcase(name)
  {
    var k, r := Place(v.names, name), LookedUp(v, name);
    RegisteredSorted(v.names, name);
    if Listed(v.names, name) {
      OrderEqual(Downcase(v.names[k]), Downcase(name));
    } else {
      forall i | 0 <= i < |r.names| ensures Shows(r.widget[i], r.names[i]) {
        if i != k {
          var j := if i < k then i else i - 1;
          assert r.widget[i] == v.widget[j] && r.names[i] == v.names[j];
        }
      }
    }
  }

  lemma RewrittenMirrored(v: View, k: nat, path: string, line: string, server: string)
    requires Mirrored(v) && k < |v.names|
    requires Downcase(server) == Downcase(v.names[k]) && Shows(line, server)
    ensures Mirrored(Rewritten(v, k, path, line))
  {
    ShowsUpToCase(line, server, v.names[k]);
  }

  lemma LoggedMirrored(v: View, e: LogEvent)
    requires Mirrored(v)
    ensures Mirrored(Logged(v, e))
    ensures Logged(v, e).names == if e.Other? then v.names else Registered(v.names, e.server)
  {
    match e
    case Doing(server, path, rest) =>
      LookedUpMirrored(v, server);
      BusyLineShows(server, rest);
      RewrittenMirrored(LookedUp(v, server), Place(v.names, server), path, BusyLine(server, rest), server);
    case Done(server, path) =>
      LookedUpMirrored(v, server);
      RewrittenMirrored(LookedUp(v, server), Place(v.names, server), "", IdleLine(server), server);
    case Other =>
  }

  /** Over every run of log events the widget mirrors the sorted list, so a selected line
      always stands for the server at its position. */
  lemma {:induction false} WidgetMirrorsList(v: View, events: seq<LogEvent>)
    requires Mirrored(v)
    ensures Mirrored(LoggedAll(v, events))
    decreases |events|
  {
    if events != [] {
      LoggedMirrored(v, events[0]);
      WidgetMirrorsList(Logged(v, events[0]), events[1..]);
    }
  }

  // ------------------------------------------------------ one server, event by event

  predicate SameServer(a: string, b: string) { Downcase(a) == Downcase(b) }

  /** What a line shows: a bare name, or a name and what follows it. */
  datatype Shown = Bare(name: string) | Busy(name: string, rest: string)

  ghost predicate LineIs(line: string, shown: Shown) {
    match shown
    case Bare(name) => line == name
    case Busy(name, rest) =>
      |line| == 21 + |rest| && InColumn(line, name) && line[20] == ' ' && line[21..] == rest
  }

  /** What is known of one server. */
  datatype Status = Absent | Present(path: string, shown: Shown)

  /** What an event says of server b: an action that starts is shown; when the action shown
      is done, only the name is left.  Events of other servers do not matter. */
  function Told(st: Status, e: LogEvent, b: string): Status {
    match e
    case Doing(server, path, rest) =>
      if SameServer(server, b) then Present(path, Busy(server, rest)) else st
    case Done(server, path) =>
      if SameServer(server, b) && (st.Absent? || st.path == path) then Present("", Bare(server)) else st
    case Other => st
  }

  function ToldAll(st: Status, events: seq<LogEvent>, b: string): Status
    decreases |events|
  {
    if events == [] then st else ToldAll(Told(st, events[0], b), events[1..], b)
  }

  /** The list and the widget say this of server b. */
  ghost predicate Tells(v: View, st: Status, b: string)
    requires SameLength(v)
  {
    var k := Place(v.names, b);
    if Listed(v.names, b) then st.Present? && v.paths[k] == st.path && LineIs(v.widget[k], st.shown)
    else st.Absent?
  }

  /** In a sorted list a name has one place. */
  lemma OnePlace(names: seq<string>, i: nat, b: string)
    requires SortedNames(names) && i < |names| && SameServer(names[i], b)
    ensures Place(names, b) == i && Listed(names, b)
  {
    OrderEqual(Downcase(names[i]), Downcase(b));
    forall j | 0 <= j < i ensures CaseOrder(names[j], b) < 0 {
      assert CaseOrder(names[j], names[i]) < 0;
    }
  }

  lemma SamePlace(names: seq<string>, a: string, b: string)
    requires SortedNames(names) && SameServer(a, b)
    ensures Place(names, a) == Place(names, b) && (Listed(names, a) <==> Listed(names, b))
    decreases |names|
  {
    if names != [] {
      assert CaseOrder(names[0], a) == CaseOrder(names[0], b);
      assert SortedNames(names[1..]);
      SamePlace(names[1..], a, b);
    }
  }

  /** Looking a server up says nothing new of others. */
  lemma LookedUpTells(v: View, st: Status, server: string, b: string)
    requires Mirrored(v) && Tells(v, st, b)
    ensures SameServer(server, b) && st.Absent? ==> Tells(LookedUp(v, server), Present("", Bare(server)), b)
    ensures !(SameServer(server, b) && st.Absent?) ==> Tells(LookedUp(v, server), st, b)
  {
    var k, w := Place(v.names, server), LookedUp(v, server);
    LookedUpMirrored(v, server);
    if Listed(v.names, server) {
      if SameServer(server, b) { SamePlace(v.names, server, b); }
    } else {
      if Listed(v.names, b) {
        var i := Place(v.names, b);
        OrderEqual(Downcase(v.names[i]), Downcase(b));
        var j := if i < k then i else i + 1;
        InsertedAt(v.names, k, server, j);
        InsertedAt(v.paths, k, "", j);
        InsertedAt(v.widget, k, IdleLine(server), j);
        OnePlace(w.names, j, b);
        if SameServer(server, b) { SamePlace(v.names, server, b); }
      } else if SameServer(server, b) {
        OnePlace(w.names, k, b);
      } else {
        NotListedAfter(v.names, server, b);
      }
    }
  }

  lemma NotListedAfter(names: seq<string>, server: string, b: string)
    requires SortedNames(names) && !Listed(names, b) && !SameServer(server, b)
    ensures !Listed(Registered(names, server), b)
  {
    RegisteredSorted(names, server);
    ListedMeansPresent(names, b);
    ListedMeansPresent(Registered(names, server), b);
    var k, r := Place(names, server), Registered(names, server);
    forall i | 0 <= i < |r| ensures Downcase(r[i]) != Downcase(b) {
      if !Listed(names, server) { InsertedAt(names, k, server, i); }
    }
  }

  /** Writing a line anew changes what is said of its server and of no other. */
  lemma RewrittenTells(w: View, st: Status, server: string, path: string, line: string, shown: Shown, b: string)
    requires Mirrored(w) && Listed(w.names, server) && LineIs(line, shown)
    requires SameServer(server, b) || Tells(w, st, b)
    ensures var k := Place(w.names, server);
      k < |w.names| && Tells(Rewritten(w, k, path, line), if SameServer(server, b) then Present(path, shown) else st, b)
  {
    if SameServer(server, b) {
      SamePlace(w.names, server, b);
    } else if Listed(w.names, b) {
      OrderEqual(Downcase(w.names[Place(w.names, b)]), Downcase(b));
      OrderEqual(Downcase(w.names[Place(w.names, server)]), Downcase(server));
    }
  }

  lemma ListedAfterLookUp(v: View, server: string)
    requires Mirrored(v)
    ensures var w := LookedUp(v, server);
      Mirrored(w) && Listed(w.names, server) && Place(w.names, server) == Place(v.names, server)
  {
    LookedUpMirrored(v, server);
    OnePlace(LookedUp(v, server).names, Place(v.names, server), server);
  }

  lemma DoingTells(v: View, st: Status, server: string, path: string, rest: string, b: string)
    requires Mirrored(v) && Tells(v, st, b)
    ensures Tells(Logged(v, Doing(server, path, rest)), Told(st, Doing(server, path, rest), b), b)
  {
    ListedAfterLookUp(v, server);
    LookedUpTells(v, st, server, b);
    BusyLineShows(server, rest);
    RewrittenTells(LookedUp(v, server), st, server, path, BusyLine(server, rest), Busy(server, rest), b);
  }

  lemma DoneTells(v: View, st: Status, server: string, path: string, b: string)
    requires Mirrored(v) && Tells(v, st, b)
    ensures Tells(Logged(v, Done(server, path)), Told(st, Done(server, path), b), b)
  {
    var w, k := LookedUp(v, server), Place(v.names, server);
    ListedAfterLookUp(v, server);
    LookedUpTells(v, st, server, b);
    if SameServer(server, b) { SamePlace(w.names, server, b); }
    if w.paths[k] == path { RewrittenTells(w, st, server, "", IdleLine(server), Bare(server), b); }
  }

  /** Over every run, the line of a server says what the events of that server say last: an
      action that started and what followed it, or the bare name when it is done. */
  lemma {:induction false} RunTells(v: View, st: Status, events: seq<LogEvent>, b: string)
    requires Mirrored(v) && Tells(v, st, b)
    ensures Tells(LoggedAll(v, events), ToldAll(st, events, b), b)
    decreases |events|
  {
    if events != [] {
      LoggedMirrored(v, events[0]);
      match events[0]
      case Doing(server, path, rest) =>
        DoingTells(v, st, server, path, rest, b);
        RunTells(Logged(v, events[0]), Told(st, events[0], b), events[1..], b);
      case Done(server, path) =>
        DoneTells(v, st, server, path, b);
        RunTells(Logged(v, events[0]), Told(st, events[0], b), events[1..], b);
      case Other =>
        RunTells(Logged(v, events[0]), Told(st, events[0], b), events[1..], b);
    }
  }

  ghost predicate OfOthers(events: seq<LogEvent>, b: string) {
    forall i :: 0 <= i < |events| ==> events[i].Other? || !SameServer(events[i].server, b)
  }

  lemma {:induction false} OthersTellNothing(st: Status, events: seq<LogEvent>, b: string)
    requires OfOthers(events, b)
    ensures ToldAll(st, events, b) == st
    decreases |events|
  {
    if events != [] {
      assert Told(st, events[0], b) == st;
      OthersTellNothing(st, events[1..], b);
    }
  }

  lemma {:induction false} ToldInTurn(st: Status, first: seq<LogEvent>, then_: seq<LogEvent>, b: string)
    ensures ToldAll(st, first + then_, b) == ToldAll(ToldAll(st, first, b), then_, b)
    decreases |first|
  {
    if first == [] {
      assert first + then_ == then_;
    } else {
      assert (first + then_)[0] == first[0] && (first + then_)[1..] == first[1..] + then_;
      ToldInTurn(Told(st, first[0], b), first[1..], then_, b);
    }
  }

  /** From an empty list: an action is shown while other servers report, and when it is
      reported as done the line is the bare name again. */
  lemma ActionComesAndGoes(before: seq<LogEvent>, server: string, path: string, rest: string, between: seq<LogEvent>)
    requires OfOthers(between, server)
    ensures var v := LoggedAll(View([], [], []), before + ([Doing(server, path, rest)] + between));
      && Listed(v.names, server)
      && v.paths[Place(v.names, server)] == path
      && LineIs(v.widget[Place(v.names, server)], Busy(server, rest))
    ensures var v := LoggedAll(View([], [], []),
        before + ([Doing(server, path, rest)] + between) + [Done(server, path)]);
      Listed(v.names, server) && v.widget[Place(v.names, server)] == server
  {
    var v0 := View([], [], []);
    var shown := before + ([Doing(server, path, rest)] + between);
    RunTells(v0, Absent, shown, server);
    RunTells(v0, Absent, shown + [Done(server, path)], server);
    var st := ToldAll(Absent, before, server);
    ToldInTurn(Absent, before, [Doing(server, path, rest)] + between, server);
    ToldInTurn(st, [Doing(server, path, rest)], between, server);
    OneTold(st, Doing(server, path, rest), server);
    OthersTellNothing(Present(path, Busy(server, rest)), between, server);
    ToldInTurn(Absent, shown, [Done(server, path)], server);
    OneTold(Present(path, Busy(server, rest)), Done(server, path), server);
  }

  lemma OneTold(st: Status, e: LogEvent, b: string)
    ensures ToldAll(st, [e], b) == Told(st, e, b)
  {
    assert [e][1..] == [];
  }

  // --------------------------------------------------------- the list in memory

  class Server {
    const name: string
    var path: string
    var next: Server?

    constructor (name: string, next: Server?)
      ensures this.name == name && path == "" && this.next == next
    {
      this.name, path := name, "";
      this.next := next;
    }
  }

  /** The actions of the nodes, one of them new. */
  lemma InsertedPaths(nodes: seq<Server>, paths: seq<string>, k: nat, srv: Server)
    requires |nodes| == |paths| && k <= |nodes| && srv.path == ""
    requires forall i :: 0 <= i < |nodes| ==> nodes[i].path == paths[i]
    ensures forall i :: 0 <= i <= |nodes| ==> Inserted(nodes, k, srv)[i].path == Inserted(paths, k, "")[i]
  {
    forall i | 0 <= i <= |nodes| ensures Inserted(nodes, k, srv)[i].path == Inserted(paths, k, "")[i] {
      InsertedAt(nodes, k, srv, i);
      InsertedAt(paths, k, "", i);
    }
  }

  class Monitor {
    var servers: Server?
    var widget: seq<string>
    var killTarget: string
    /** The nodes from servers on, their names and their actions. */
    ghost var nodes: seq<Server>
    ghost var names: seq<string>
    ghost var paths: seq<string>

    ghost predicate Linked()
      reads this, nodes
    {
      && servers == (if nodes == [] then null else nodes[0])
      && (forall i :: 0 <= i < |nodes| - 1 ==> nodes[i].next == nodes[i + 1])
      && (nodes != [] ==> nodes[|nodes| - 1].next == null)
      && (forall i, j :: 0 <= i < j < |nodes| ==> nodes[i] != nodes[j])
    }

    ghost predicate Named()
      reads this
    {
      |names| == |nodes| && forall i :: 0 <= i < |nodes| ==> nodes[i].name == names[i]
    }

    ghost predicate Shown()
      reads this, nodes
    {
      |paths| == |nodes| && forall i :: 0 <= i < |nodes| ==> nodes[i].path == paths[i]
    }

    ghost predicate Valid()
      reads this, nodes
    {
      Linked() && Named() && Shown() && |widget| == |nodes|
    }

    ghost function Now(): View
      reads this
    {
      View(names, paths, widget)
    }

    constructor ()
      ensures Valid() && Now() == View([], [], [])
    {
      servers, widget, killTarget := null, [], "";
      nodes, names, paths := [], [], [];
    }

    /** Walks to the first server that does not come before name. */
    method Walk(name: string) returns (prev: Server?, ptr: Server?, idx: nat, match_: int)
      requires Valid()
      ensures idx == Place(names, name) + 1
      ensures prev == (if idx == 1 then null else nodes[idx - 2])
      ensures ptr == (if idx - 1 == |nodes| then null else nodes[idx - 1])
      ensures match_ == 0 <==> Listed(names, name)
    {
      prev, ptr, idx, match_ := null, servers, 1, 1;
      while ptr != null
        invariant 1 <= idx <= |nodes| + 1 && idx - 1 <= Place(names, name)
        invariant prev == (if idx == 1 then null else nodes[idx - 2])
        invariant ptr == (if idx - 1 == |nodes| then null else nodes[idx - 1])
        invariant match_ != 0
        decreases |nodes| + 1 - idx
      {
        match_ := CaseOrder(ptr.name, name);
        if match_ >= 0 {
          break;
        }
        prev, ptr, idx := ptr, ptr.next, idx + 1;
      }
    }

    /** Links a new node in between. */
    method LinkIn(prev: Server?, ptr: Server?, idx: nat, name: string, ghost ps: seq<string>) returns (srv: Server)
      requires Linked() && 1 <= idx <= |nodes| + 1
      requires |ps| == |nodes| && forall i :: 0 <= i < |ps| ==> nodes[i].path == ps[i]
      requires prev == (if idx == 1 then null else nodes[idx - 2])
      requires ptr == (if idx - 1 == |nodes| then null else nodes[idx - 1])
      modifies this`servers, this`nodes, nodes
      ensures Linked() && fresh(srv) && srv.name == name && srv.path == ""
      ensures nodes == Inserted(old(nodes), idx - 1, srv)
      ensures forall i :: 0 <= i < |ps| ==> old(nodes)[i].path == ps[i]
    {
      srv := new Server(name, ptr);
      if prev != null {
        prev.next := srv;
      } else {
        servers := srv;
      }
      nodes := Inserted(nodes, idx - 1, srv);
    }

    method LinkNamed(prev: Server?, ptr: Server?, idx: nat, name: string, ghost ps: seq<string>)
      returns (srv: Server)
      requires Linked() && Named() && 1 <= idx <= |nodes| + 1
      requires |ps| == |nodes| && forall i :: 0 <= i < |ps| ==> nodes[i].path == ps[i]
      requires prev == (if idx == 1 then null else nodes[idx - 2])
      requires ptr == (if idx - 1 == |nodes| then null else nodes[idx - 1])
      modifies this`servers, this`nodes, this`names, nodes
      ensures Linked() && Named() && fresh(srv) && srv.path == ""
      ensures nodes == Inserted(old(nodes), idx - 1, srv) && names == Inserted(old(names), idx - 1, name)
      ensures forall i :: 0 <= i < |ps| ==> old(nodes)[i].path == ps[i]
    {
      srv := LinkIn(prev, ptr, idx, name, ps);
      names := Inserted(names, idx - 1, name);
    }

    method LinkShown(prev: Server?, ptr: Server?, idx: nat, name: string) returns (srv: Server)
      requires Linked() && Named() && Shown() && 1 <= idx <= |nodes| + 1
      requires prev == (if idx == 1 then null else nodes[idx - 2])
      requires ptr == (if idx - 1 == |nodes| then null else nodes[idx - 1])
      modifies this`servers, this`nodes, this`names, this`paths, nodes
      ensures Linked() && Named() && Shown() && fresh(srv)
      ensures nodes == Inserted(old(nodes), idx - 1, srv) && names == Inserted(old(names), idx - 1, name)
      ensures paths == Inserted(old(paths), idx - 1, "")
    {
      ghost var n, was := nodes, paths;
      paths := Inserted(was, idx - 1, "");
      srv := LinkNamed(prev, ptr, idx, name, was);
      InsertedPaths(n, was, idx - 1, srv);
    }

    /** A new server: its node, and its line at the same position. */
    method AddServer(prev: Server?, ptr: Server?, idx: nat, name: string) returns (srv: Server)
      requires Valid() && 1 <= idx <= |nodes| + 1
      requires prev == (if idx == 1 then null else nodes[idx - 2])
      requires ptr == (if idx - 1 == |nodes| then null else nodes[idx - 1])
      modifies this, nodes
      ensures Valid() && fresh(srv) && killTarget == old(killTarget)
      ensures nodes == Inserted(old(nodes), idx - 1, srv)
      ensures Now() == View(Inserted(old(names), idx - 1, name), Inserted(old(paths), idx - 1, ""),
                            Inserted(old(widget), idx - 1, IdleLine(name)))
    {
      srv := LinkShown(prev, ptr, idx, name);
      widget := Inserted(widget, idx - 1, IdleLine(name));
    }

    /** The node for a name, made and shown if the name is new, and its 1-based position. */
    method FindServer(name: string) returns (srv: Server, idx: nat)
      requires Valid()
      modifies this, nodes
      ensures Valid() && Now() == LookedUp(old(Now()), name) && killTarget == old(killTarget)
      ensures idx == old(Place(Now().names, name)) + 1 && 1 <= idx <= |nodes| && srv == nodes[idx - 1]
      ensures srv in old(nodes) || fresh(srv)
    {
      var prev, ptr, match_;
      prev, ptr, idx, match_ := Walk(name);
      if match_ != 0 {
        srv := AddServer(prev, ptr, idx, name);
      } else {
        srv := ptr;
      }
    }

    /** What both PutLog branches do to a line: the node's action and the line at its
        position are written anew. */
    method Rewrite(srv: Server, idx: nat, path: string, line: string)
      requires Valid() && 1 <= idx <= |nodes| && srv == nodes[idx - 1]
      modifies this`widget, this`paths, srv`path
      ensures Valid()
      ensures Now() == Rewritten(old(Now()), idx - 1, path, line) && killTarget == old(killTarget)
    {
      srv.path := path;
      paths := paths[idx - 1 := path];
      widget := widget[idx - 1 := line];
    }

    method PutDoing(server: string, path: string, rest: string)
      requires Valid()
      modifies this, nodes
      ensures Valid() && Now() == Logged(old(Now()), Doing(server, path, rest)) && killTarget == old(killTarget)
    {
      var srv, idx := FindServer(server);
      Rewrite(srv, idx, path, BusyLine(server, rest));
    }

    /** The line becomes the bare name again if it shows this action. */
    method ClearIfShown(srv: Server, idx: nat, server: string, path: string)
      requires Valid() && 1 <= idx <= |nodes| && srv == nodes[idx - 1]
      modifies this`widget, this`paths, srv`path
      ensures Valid() && killTarget == old(killTarget)
      ensures Now() ==
        if old(paths)[idx - 1] == path then Rewritten(old(Now()), idx - 1, "", IdleLine(server)) else old(Now())
    {
      if srv.path == path {
        Rewrite(srv, idx, "", IdleLine(server));
      }
    }

    method PutDone(server: string, path: string)
      requires Valid()
      modifies this, nodes
      ensures Valid() && Now() == Logged(old(Now()), Done(server, path)) && killTarget == old(killTarget)
    {
      var srv, idx := FindServer(server);
      ClearIfShown(srv, idx, server, path);
    }

    method PutLog(e: LogEvent)
      requires Valid()
      modifies this, nodes
      ensures Valid() && Now() == Logged(old(Now()), e) && killTarget == old(killTarget)
    {
      match e {
        case Doing(server, path, rest) => PutDoing(server, path, rest);
        case Done(server, path) => PutDone(server, path);
        case Other =>
      }
    }

    /** A selection in the widget sets the target to the server at its position, which by
        WidgetMirrorsList is the one the selected line shows. */
    method SetKillTarget(selectedCount: nat, position: nat)
      requires Valid() && (selectedCount == 1 ==> 1 <= position <= |widget|)
      modifies `killTarget
      ensures Valid() && Now() == old(Now())
      ensures killTarget == if selectedCount == 1 then Now().names[position - 1] else ""
      ensures selectedCount == 1 && Mirrored(Now()) ==> Shows(widget[position - 1], killTarget)
    {
      if selectedCount == 1 {
        var idx := position;
        var server := servers;
        while idx > 1
          invariant 1 <= idx <= position && server == nodes[position - idx]
        {
          idx, server := idx - 1, server.next;
        }
        killTarget := server.name;
      } else {
        killTarget := "";
      }
    }
  }
}
