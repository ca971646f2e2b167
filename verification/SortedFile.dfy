/**
 A file of fixed-size slots: a strictly sorted prefix of records in use, then blank
 slots.  This is the database as its commands see it (camshr/verbs.c), for any kind of
 record; CamacFile says what the records are.
 */
module SortedFile {
  import opened Basics
  import opened InsertionSort

  const INCREMENT: nat := 10

  /** What a database knows about its records. */
  datatype Layout<!T> = Layout(
    blank: T,                              // an unused slot
    inUse: T -> bool,                      // what get_file_count looks at
    wellFormed: T -> bool,                 // a record as the commands write it
    before: (T, T) -> bool,                // strict order by name
    matches: (T, string) -> bool,          // the record a name stands for
    named: (T, string) -> bool,            // the name a new record was looked up under
    cmp: (T, T) -> int,                    // the comparison of the sort
    lookup: (seq<T>, string) -> int)       // the search

  /** What the rest of the module needs to know about a layout. */
  ghost predicate Lawful<T(!new)>(l: Layout<T>) {
    && TotalPreorder(l.cmp)
    && !l.inUse(l.blank)
    && (forall r :: l.wellFormed(r) ==> l.inUse(r))
    && (forall r :: !l.before(r, r))
    && (forall a, b :: l.wellFormed(a) && l.wellFormed(b) && Apart(l, a, b) && l.cmp(a, b) <= 0 ==> l.before(a, b))
    && (forall r, line, name :: l.wellFormed(r) && l.wellFormed(line) && l.named(line, name) && !l.matches(r, name)
          ==> Apart(l, r, line))
    && (forall live, name :: SortedLive(l, live) ==> LookupCorrect(l, live, name))
  }

  /** Two records with different names. */
  ghost predicate Apart<T>(l: Layout<T>, a: T, b: T) { l.before(a, b) || l.before(b, a) }

  ghost predicate LookupCorrect<T>(l: Layout<T>, live: seq<T>, name: string) {
    var index := l.lookup(live, name);
    if index < 0 then forall i :: 0 <= i < |live| ==> !l.matches(live[i], name)
    else index < |live| && l.matches(live[index], name)
  }

  ghost predicate SortedLive<T>(l: Layout<T>, live: seq<T>) {
    && (forall i :: 0 <= i < |live| ==> l.wellFormed(live[i]))
    && (forall i, j :: 0 <= i < j < |live| ==> l.before(live[i], live[j]))
  }

  /** get_file_count: the length of the prefix of records in use. */
  function Count<T>(file: seq<T>, inUse: T -> bool): (n: nat)
    ensures n <= |file|
    ensures forall i :: 0 <= i < n ==> inUse(file[i])
    ensures n < |file| ==> !inUse(file[n])
  {
    if file == [] || !inUse(file[0]) then 0
    else
      assert file == [file[0]] + file[1..];
      1 + Count(file[1..], inUse)
  }

  function Live<T>(l: Layout<T>, file: seq<T>): seq<T> { file[..Count(file, l.inUse)] }

  ghost predicate ValidFile<T>(l: Layout<T>, file: seq<T>) {
    && SortedLive(l, Live(l, file))
    && forall i :: Count(file, l.inUse) <= i < |file| ==> file[i] == l.blank
  }

  /** The finite set of records the file stands for. */
  ghost function Records<T>(l: Layout<T>, file: seq<T>): set<T> { Members(Live(l, file)) }

  ghost function Members<T>(s: seq<T>): set<T> { set r | r in s }

  function Blanks<T>(blank: T, n: nat): (s: seq<T>)
    ensures |s| == n
    ensures forall i :: 0 <= i < n ==> s[i] == blank
  {
    seq(n, _ => blank)
  }

  lemma {:induction false} CountIs<T>(file: seq<T>, inUse: T -> bool, n: nat)
    requires n <= |file| && forall i :: 0 <= i < n ==> inUse(file[i])
    requires n < |file| ==> !inUse(file[n])
    ensures Count(file, inUse) == n
  {
    if n > 0 { CountIs(file[1..], inUse, n - 1); }
  }

  lemma MakeValid<T(!new)>(l: Layout<T>, live: seq<T>, free: nat)
    requires Lawful(l) && SortedLive(l, live)
    ensures Live(l, live + Blanks(l.blank, free)) == live
    ensures ValidFile(l, live + Blanks(l.blank, free))
  {
    CountIs(live + Blanks(l.blank, free), l.inUse, |live|);
  }

  lemma SplitValid<T>(l: Layout<T>, file: seq<T>)
    requires ValidFile(l, file)
    ensures file == Live(l, file) + Blanks(l.blank, |file| - |Live(l, file)|)
  {
    var n := |Live(l, file)|;
    assert file[n..] == Blanks(l.blank, |file| - n);
  }

  // ---------------------------------------------------------------- commands

  /** The size expand_db gives the file: the next multiple of the increment. */
  function ExpandedSize(n: nat): (size: nat)
    ensures size > n && size % INCREMENT == 0 && size <= n + INCREMENT
  {
    (n / INCREMENT + 1) * INCREMENT
  }

  /** A file with room for one more record. */
  function Expanded<T>(l: Layout<T>, file: seq<T>): (r: seq<T>) {
    var n := Count(file, l.inUse);
    if n == |file| then file + Blanks(l.blank, ExpandedSize(n) - n) else file
  }

  /** add_entry: shift up, put the line first, sort the entries. */
  function Added<T>(l: Layout<T>, file: seq<T>, line: T): (r: seq<T>) {
    var n := Count(file, l.inUse);
    Sort([line] + file[..n], l.cmp) + (if n < |file| then file[n + 1..] else [])
  }

  /** remove_entry: shift down from index on, blank the last slot used. */
  function Removed<T>(l: Layout<T>, file: seq<T>, index: nat): (r: seq<T>)
    requires index < |file|
  {
    file[..index] + file[index + 1..] + [l.blank]
  }

  /** What a pattern leaves, in order. */
  function Keep<T>(live: seq<T>, gone: T -> bool): (r: seq<T>)
    ensures |r| <= |live|
  {
    if live == [] then []
    else (if gone(live[0]) then [] else [live[0]]) + Keep(live[1..], gone)
  }

  function Deassigned<T>(l: Layout<T>, file: seq<T>, gone: T -> bool): (r: seq<T>) {
    var kept := Keep(Live(l, file), gone);
    kept + Blanks(l.blank, |file| - |kept|)
  }

  datatype Command<!T> =
    | Add(name: string, line: T)          // assign, add crate
    | Delete(name: string)                // delete crate
    | DeleteMatching(gone: T -> bool)     // deassign

  datatype Outcome = Success | Failure

  function Step<T>(l: Layout<T>, file: seq<T>, cmd: Command<T>): (seq<T>, Outcome) {
    match cmd
    case Add(name, line) =>
      if l.lookup(Live(l, file), name) >= 0 then (file, Failure)
      else (Added(l, Expanded(l, file), line), Success)
    case Delete(name) =>
      var index := l.lookup(Live(l, file), name);
      if 0 <= index < |file| then (Removed(l, file, index), Success) else (file, Failure)
    case DeleteMatching(gone) =>
      if Count(file, l.inUse) == 0 then (file, Failure) else (Deassigned(l, file, gone), Success)
  }

  /** The same commands on a finite set of records. */
  ghost predicate AbstractStep<T(!new)>(l: Layout<T>, s: set<T>, cmd: Command<T>, t: set<T>, out: Outcome) {
    match cmd
    case Add(name, line) =>
      if exists r :: r in s && l.matches(r, name) then out == Failure && t == s
      else out == Success && t == s + {line}
    case Delete(name) =>
      if exists r :: r in s && l.matches(r, name)
      then out == Success && exists r :: r in s && l.matches(r, name) && t == s - {r}
      else out == Failure && t == s
    case DeleteMatching(gone) =>
      t == (set r | r in s && !gone(r)) && (out == Failure <==> s == {})
  }

  /** When a command does what it should: an addition is refused, or the line is a record
      with the name it was looked up under; a deletion finds nothing to delete, or a free slot
      behind the last entry to copy down. */
  ghost predicate Enabled<T>(l: Layout<T>, file: seq<T>, cmd: Command<T>) {
    match cmd
    case Add(name, line) =>
      l.lookup(Live(l, file), name) >= 0 || (l.wellFormed(line) && l.named(line, name))
    case Delete(name) =>
      l.lookup(Live(l, file), name) < 0 || Count(file, l.inUse) < |file|
    case DeleteMatching(gone) =>
      MatchCount(Live(l, file), gone) == 0 || Count(file, l.inUse) < |file|
  }

  // --------------------------------------------------------------------- add

  lemma LiveOfExpanded<T(!new)>(l: Layout<T>, file: seq<T>)
    requires Lawful(l) && ValidFile(l, file)
    ensures ValidFile(l, Expanded(l, file)) && Live(l, Expanded(l, file)) == Live(l, file)
    ensures |Expanded(l, file)| > |Live(l, file)|
  {
    if |Live(l, file)| == |file| {
      MakeValid(l, file, ExpandedSize(|file|) - |file|);
    }
  }

  /** Sorting records that are all apart puts them in strict order. */
  lemma SortApart<T(!new)>(l: Layout<T>, all: seq<T>)
    requires Lawful(l) && forall i :: 0 <= i < |all| ==> l.wellFormed(all[i])
    requires forall a, b :: 0 <= a < b < |all| ==> Apart(l, all[a], all[b])
    ensures SortedLive(l, Sort(all, l.cmp))
  {
    var s := Sort(all, l.cmp);
    SortIsStable(all, l.cmp);
    SortKeepsElements(all, l.cmp);
    forall i | 0 <= i < |s| ensures l.wellFormed(s[i]) {
      assert s[i] in multiset(s) && s[i] in multiset(all);
    }
    forall i, j | 0 <= i < j < |s| ensures l.before(s[i], s[j]) {
      StillApart(l, all, s, i, j);
      assert l.cmp(s[i], s[j]) <= 0;
    }
  }

  /** Rearranging records that are all apart leaves them apart. */
  lemma StillApart<T(!new)>(l: Layout<T>, all: seq<T>, s: seq<T>, i: nat, j: nat)
    requires Lawful(l) && multiset(s) == multiset(all) && i < j < |s|
    requires forall a, b :: 0 <= a < b < |all| ==> Apart(l, all[a], all[b])
    ensures Apart(l, s[i], s[j])
  {
    assert s[i] in multiset(s) && s[j] in multiset(s);
    var a :| 0 <= a < |all| && all[a] == s[i];
    var b :| 0 <= b < |all| && all[b] == s[j];
    if s[i] == s[j] {
      Twice(s, i, j);
      AtMostOnce(all, s[i]);
    } else {
      assert if a < b then Apart(l, all[a], all[b]) else Apart(l, all[b], all[a]);
    }
  }

  lemma {:induction false} AtMostOnce<T>(s: seq<T>, x: T)
    requires forall a, b :: 0 <= a < b < |s| ==> s[a] != s[b]
    ensures multiset(s)[x] <= 1
  {
    if s != [] {
      AtMostOnce(s[1..], x);
      assert s == [s[0]] + s[1..];
      if x == s[0] { assert x !in s[1..]; }
    }
  }

  lemma SameMembers<T>(s: seq<T>, line: T, live: seq<T>)
    requires multiset(s) == multiset([line] + live)
    ensures Members(s) == Members(live) + {line}
  {
    forall r ensures r in s <==> r in live || r == line {
      assert r in s <==> r in multiset(s);
      assert r in [line] + live <==> r in multiset([line] + live);
    }
  }

  /** Adding: refused exactly when the name is there; otherwise one more record, same order. */
  lemma AddRefines<T(!new)>(l: Layout<T>, file: seq<T>, name: string, line: T)
    requires Lawful(l) && ValidFile(l, file) && l.wellFormed(line) && l.named(line, name)
    requires l.lookup(Live(l, file), name) < 0
    ensures ValidFile(l, Added(l, Expanded(l, file), line))
    ensures Records(l, Added(l, Expanded(l, file), line)) == Records(l, file) + {line}
    ensures forall r :: r in Records(l, file) ==> !l.matches(r, name)
  {
    var live, big := Live(l, file), Expanded(l, file);
    assert LookupCorrect(l, live, name);
    LiveOfExpanded(l, file);
    NewNameIsApart(l, live, name, line);
    var all := [line] + live;
    SortApart(l, all);
    SortKeepsElements(all, l.cmp);
    var s := Sort(all, l.cmp);
    SameMembers(s, line, live);
    MakeValid(l, s, |big| - |s|);
    AddedSplit(l, big, line);
  }

  lemma NewNameIsApart<T(!new)>(l: Layout<T>, live: seq<T>, name: string, line: T)
    requires Lawful(l) && SortedLive(l, live) && l.wellFormed(line) && l.named(line, name)
    requires forall i :: 0 <= i < |live| ==> !l.matches(live[i], name)
    ensures var all := [line] + live;
      forall a, b :: 0 <= a < b < |all| ==> Apart(l, all[a], all[b])
  {
    var all := [line] + live;
    forall a, b | 0 <= a < b < |all| ensures Apart(l, all[a], all[b]) {
      assert all[b] == live[b - 1];
      if a == 0 {
        assert !l.matches(live[b - 1], name);
        assert Apart(l, all[b], line);
      } else {
        assert l.before(live[a - 1], live[b - 1]);
      }
    }
  }

  /** A file with a new line in it: the sorted entries, then blanks. */
  lemma AddedSplit<T>(l: Layout<T>, file: seq<T>, line: T)
    requires ValidFile(l, file) && Count(file, l.inUse) < |file|
    ensures var s := Sort([line] + Live(l, file), l.cmp);
      Added(l, file, line) == s + Blanks(l.blank, |file| - |s|)
  {
  }

  /** The line that is added is an entry of the new file, whatever it looks like. */
  lemma AddedIsLive<T>(l: Layout<T>, file: seq<T>, line: T)
    requires ValidFile(l, file) && Count(file, l.inUse) < |file| && l.inUse(line) && !l.inUse(l.blank)
    ensures line in Live(l, Added(l, file, line))
  {
    var live := Live(l, file);
    var s := Sort([line] + live, l.cmp);
    SortKeepsElements([line] + live, l.cmp);
    SameMembers(s, line, live);
    AllInUse(l.inUse, live, line, s);
    AddedSplit(l, file, line);
    LiveInFront(l, s, |file| - |s|);
    assert line in Members(s);
  }

  lemma LiveInFront<T>(l: Layout<T>, s: seq<T>, free: nat)
    requires !l.inUse(l.blank) && forall i :: 0 <= i < |s| ==> l.inUse(s[i])
    ensures Live(l, s + Blanks(l.blank, free)) == s
  {
    CountIs(s + Blanks(l.blank, free), l.inUse, |s|);
  }

  lemma AllInUse<T>(inUse: T -> bool, live: seq<T>, line: T, s: seq<T>)
    requires Members(s) == Members(live) + {line}
    requires inUse(line) && forall i :: 0 <= i < |live| ==> inUse(live[i])
    ensures forall i :: 0 <= i < |s| ==> inUse(s[i])
  {
    forall i | 0 <= i < |s| ensures inUse(s[i]) {
      assert s[i] in Members(s);
    }
  }

  // ------------------------------------------------------------------ delete

  lemma LiveWithout<T(!new)>(l: Layout<T>, live: seq<T>, index: nat)
    requires Lawful(l) && SortedLive(l, live) && index < |live|
    ensures SortedLive(l, live[..index] + live[index + 1..])
    ensures Members(live[..index] + live[index + 1..]) == Members(live) - {live[index]}
  {
    var s := live[..index] + live[index + 1..];
    forall r | r in s ensures r in live && r != live[index] {
      var i :| 0 <= i < |s| && s[i] == r;
      var j := if i < index then i else i + 1;
      assert live[j] == r;
      assert if j < index then l.before(live[j], live[index]) else l.before(live[index], live[j]);
    }
    forall r | r in live && r != live[index] ensures r in s {
      var j :| 0 <= j < |live| && live[j] == r;
      assert s[if j < index then j else j - 1] == r;
    }
  }

  /** Deleting one entry from a file that has a free slot. */
  lemma RemovedRefines<T(!new)>(l: Layout<T>, file: seq<T>, index: nat)
    requires Lawful(l) && ValidFile(l, file) && index < Count(file, l.inUse) < |file|
    ensures ValidFile(l, Removed(l, file, index))
    ensures Records(l, Removed(l, file, index)) == Records(l, file) - {file[index]}
  {
    RemovedLive(l, file, index);
    LiveWithout(l, Live(l, file), index);
  }

  lemma RemovedLive<T(!new)>(l: Layout<T>, file: seq<T>, index: nat)
    requires Lawful(l) && ValidFile(l, file) && index < Count(file, l.inUse)
    ensures ValidFile(l, Removed(l, file, index))
    ensures Live(l, Removed(l, file, index)) == Live(l, file)[..index] + Live(l, file)[index + 1..]
  {
    var live := Live(l, file);
    var s := live[..index] + live[index + 1..];
    RemovedSplit(l, file, index);
    LiveWithout(l, live, index);
    MakeValid(l, s, |file| - |live| + 1);
  }

  lemma RemovedSplit<T>(l: Layout<T>, file: seq<T>, index: nat)
    requires ValidFile(l, file) && index < Count(file, l.inUse)
    ensures Removed(l, file, index)
         == Live(l, file)[..index] + Live(l, file)[index + 1..] + Blanks(l.blank, |file| - |Live(l, file)| + 1)
  {
    SplitValid(l, file);
    RemovedShape(Live(l, file), l.blank, |file| - |Live(l, file)|, index);
  }

  lemma RemovedShape<T>(live: seq<T>, blank: T, free: nat, index: nat)
    requires index < |live|
    ensures var file := live + Blanks(blank, free);
      file[..index] + file[index + 1..] + [blank] == live[..index] + live[index + 1..] + Blanks(blank, free + 1)
  {
  }

  lemma {:induction false} KeepMember<T>(live: seq<T>, gone: T -> bool, r: T)
    ensures r in Keep(live, gone) <==> r in live && !gone(r)
  {
    if live != [] { KeepMember(live[1..], gone, r); }
  }

  lemma {:induction false} KeepSorted<T>(l: Layout<T>, live: seq<T>, gone: T -> bool)
    requires SortedLive(l, live)
    ensures SortedLive(l, Keep(live, gone))
  {
    if live != [] {
      var rest := live[1..];
      KeepSorted(l, rest, gone);
      var k := Keep(rest, gone);
      forall j | 0 <= j < |k| ensures l.before(live[0], k[j]) {
        KeepMember(rest, gone, k[j]);
        var m :| 0 <= m < |rest| && rest[m] == k[j];
        assert live[m + 1] == k[j];
      }
    }
  }

  // ----------------------------------------------------- deassign, pass by pass

  function Without<T>(live: seq<T>, i: nat): (r: seq<T>)
    requires i < |live|
    ensures |r| == |live| - 1
  {
    live[..i] + live[i + 1..]
  }

  /** One pass of the deletion loop from position i: after a deletion the next record
      moves into position i, but the loop goes on at i + 1 and so skips it. */
  function Pass<T>(live: seq<T>, i: nat, gone: T -> bool): (r: seq<T>)
    decreases |live| - i
  {
    if i >= |live| then live
    else if gone(live[i]) then Pass(Without(live, i), i + 1, gone)
    else Pass(live, i + 1, gone)
  }

  /** The number of records that match. */
  function MatchCount<T>(live: seq<T>, gone: T -> bool): nat { |live| - |Keep(live, gone)| }

  lemma KeepCons<T>(live: seq<T>, gone: T -> bool)
    requires live != []
    ensures Keep(live, gone) == (if gone(live[0]) then [] else [live[0]]) + Keep(live[1..], gone)
  {
  }

  lemma {:induction false} KeepWithout<T>(live: seq<T>, i: nat, gone: T -> bool)
    requires i < |live| && gone(live[i])
    ensures Keep(Without(live, i), gone) == Keep(live, gone)
  {
    if i == 0 {
      assert Without(live, 0) == live[1..];
    } else {
      KeepWithout(live[1..], i - 1, gone);
      KeepCons(live, gone);
      KeepCons(Without(live, i), gone);
      assert Without(live, i)[0] == live[0] && Without(live, i)[1..] == Without(live[1..], i - 1);
    }
  }

  lemma {:induction false} KeepLast<T>(live: seq<T>, x: T, gone: T -> bool)
    ensures Keep(live + [x], gone) == Keep(live, gone) + if gone(x) then [] else [x]
  {
    if live == [] {
      assert (live + [x])[1..] == [];
    } else {
      var h, k := if gone(live[0]) then [] else [live[0]], Keep(live[1..], gone);
      var t := if gone(x) then [] else [x];
      KeepLast(live[1..], x, gone);
      assert (live + [x])[1..] == live[1..] + [x];
      assert Keep(live, gone) == h + k && Keep(live + [x], gone) == h + (k + t);
      assert (h + k) + t == h + (k + t);
    }
  }

  /** A pass loses nothing that should stay, and deletes at least one match if there is one. */
  lemma {:induction false} PassProgress<T>(live: seq<T>, i: nat, gone: T -> bool)
    ensures Keep(Pass(live, i, gone), gone) == Keep(live, gone)
    ensures |Pass(live, i, gone)| <= |live|
    ensures (exists k :: i <= k < |live| && gone(live[k])) ==> |Pass(live, i, gone)| < |live|
    decreases |live| - i
  {
    if i < |live| {
      if gone(live[i]) {
        KeepWithout(live, i, gone);
        PassProgress(Without(live, i), i + 1, gone);
      } else {
        PassProgress(live, i + 1, gone);
      }
    }
  }

  lemma {:induction false} NothingMatches<T>(live: seq<T>, gone: T -> bool)
    ensures |Keep(live, gone)| == |live| ==> Keep(live, gone) == live
    ensures |Keep(live, gone)| < |live| ==> exists k :: 0 <= k < |live| && gone(live[k])
  {
    if live != [] {
      NothingMatches(live[1..], gone);
      assert live == [live[0]] + live[1..];
      if !gone(live[0]) && |Keep(live, gone)| < |live| {
        var k :| 0 <= k < |live[1..]| && gone(live[1..][k]);
        assert gone(live[k + 1]);
      }
    }
  }

  /** Every pass from the front brings the number of matches down until it is zero, so as
      many passes as there are matches always suffice. */
  lemma PassReducesMatches<T>(live: seq<T>, gone: T -> bool)
    ensures Keep(Pass(live, 0, gone), gone) == Keep(live, gone)
    ensures MatchCount(live, gone) == 0 ==> live == Keep(live, gone) == Pass(live, 0, gone)
    ensures MatchCount(live, gone) > 0 ==> MatchCount(Pass(live, 0, gone), gone) < MatchCount(live, gone)
  {
    PassProgress(live, 0, gone);
    NothingMatches(live, gone);
    NothingMatches(Pass(live, 0, gone), gone);
  }

  lemma DeassignedRefines<T(!new)>(l: Layout<T>, file: seq<T>, gone: T -> bool)
    requires Lawful(l) && ValidFile(l, file)
    ensures ValidFile(l, Deassigned(l, file, gone))
    ensures Records(l, Deassigned(l, file, gone)) == set r | r in Records(l, file) && !gone(r)
  {
    var kept := Keep(Live(l, file), gone);
    KeepSorted(l, Live(l, file), gone);
    forall r ensures r in kept <==> r in Live(l, file) && !gone(r) {
      KeepMember(Live(l, file), gone, r);
    }
    MakeValid(l, kept, |file| - |kept|);
  }

  // -------------------------------------------------------------------- runs

  /** Every command keeps the file valid and does to the set of records what it is for. */
  lemma StepRefines<T(!new)>(l: Layout<T>, file: seq<T>, cmd: Command<T>)
    requires Lawful(l) && ValidFile(l, file) && Enabled(l, file, cmd)
    ensures var (f, out) := Step(l, file, cmd);
      && ValidFile(l, f)
      && AbstractStep(l, Records(l, file), cmd, Records(l, f), out)
  {
    var live := Live(l, file);
    match cmd
    case Add(name, line) =>
      assert LookupCorrect(l, live, name);
      if l.lookup(live, name) >= 0 {
        assert live[l.lookup(live, name)] in Records(l, file);
      } else {
        AddRefines(l, file, name, line);
      }
    case Delete(name) =>
      assert LookupCorrect(l, live, name);
      var index := l.lookup(live, name);
      if index >= 0 {
        assert live[index] in Records(l, file);
        RemovedRefines(l, file, index);
      }
    case DeleteMatching(gone) =>
      DeassignedRefines(l, file, gone);
      if live != [] { assert live[0] in Records(l, file); }
  }

  /** The commands take the file to the file last, each one enabled when it runs. */
  ghost predicate RunsTo<T>(l: Layout<T>, file: seq<T>, cmds: seq<Command<T>>, last: seq<T>)
    decreases |cmds|
  {
    if cmds == [] then last == file
    else Enabled(l, file, cmds[0]) && RunsTo(l, Step(l, file, cmds[0]).0, cmds[1..], last)
  }

  /** The same commands take the set of records s to the set t. */
  ghost predicate AbstractRunsTo<T(!new)>(l: Layout<T>, s: set<T>, cmds: seq<Command<T>>, t: set<T>)
    decreases |cmds|
  {
    if cmds == [] then t == s
    else exists m, out :: AbstractStep(l, s, cmds[0], m, out) && AbstractRunsTo(l, m, cmds[1..], t)
  }

  /** Over every run the file stays valid and refines the finite set of records. */
  lemma {:induction false} RunRefines<T(!new)>(l: Layout<T>, file: seq<T>, cmds: seq<Command<T>>, last: seq<T>)
    requires Lawful(l) && ValidFile(l, file) && RunsTo(l, file, cmds, last)
    ensures ValidFile(l, last)
    ensures AbstractRunsTo(l, Records(l, file), cmds, Records(l, last))
    decreases |cmds|
  {
    if cmds != [] {
      StepRefines(l, file, cmds[0]);
      var (next, out) := Step(l, file, cmds[0]);
      RunRefines(l, next, cmds[1..], last);
      assert AbstractStep(l, Records(l, file), cmds[0], Records(l, next), out);
    }
  }
}
