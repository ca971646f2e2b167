/**
 The module and crate databases as sorted files: how records are searched for
 (camshr/bisearch.c), and why the search, the sort and the names fit together.
 */
module CamacFile {
  import opened CStrings
  import opened CamacRecords
  import opened InsertionSort
  import opened SortedFile

  type Record = string

  // ------------------------------------------------------------------ search

  /** What bisearch compares the target with: the trimmed name, or for crates six
      characters, or four when the target has four. */
  function Candidate(kind: Kind, rec: Record, target: string): string {
    match kind
    case Cts => Name(kind, rec)
    case Crate => Truncate(rec, if |target| == 4 then 4 else 6)
  }

  predicate Matches(kind: Kind, rec: Record, target: string) {
    Upcase(Candidate(kind, rec, target)) == Upcase(target)
  }

  /** The probes of the binary search for t in keys[left..right+1]. */
  function Probe(keys: seq<string>, t: string, left: int, right: int): (r: int)
    requires 0 <= left && right < |keys|
    decreases right - left + 1
  {
    if left > right then -1
    else
      var middle := (left + right) / 2;
      match Order(keys[middle], t)
      case -1 => Probe(keys, t, middle + 1, right)
      case 1 => Probe(keys, t, left, middle - 1)
      case _ => middle
  }

  /** One probe. */
  lemma ProbeStep(keys: seq<string>, t: string, left: int, right: int)
    requires 0 <= left <= right < |keys|
    ensures var middle := (left + right) / 2;
      Probe(keys, t, left, right) ==
        if Order(keys[middle], t) == -1 then Probe(keys, t, middle + 1, right)
        else if Order(keys[middle], t) == 1 then Probe(keys, t, left, middle - 1)
        else middle
  {
  }

  ghost predicate Ascending(keys: seq<string>) {
    forall i, j :: 0 <= i < j < |keys| ==> Order(keys[i], keys[j]) <= 0
  }

  /** What one probe rules out: everything on the wrong side of the middle. */
  lemma NotBeside(keys: seq<string>, t: string, m: nat, i: nat)
    requires Ascending(keys) && m < |keys| && i < |keys|
    requires (Order(keys[m], t) == -1 && i <= m) || (Order(keys[m], t) == 1 && m <= i)
    ensures keys[i] != t
  {
    OrderEqual(keys[i], t);
    OrderAntisymmetric(keys[m], t);
    OrderAntisymmetric(keys[i], t);
    if i < m { OrderTransitive(keys[i], keys[m], t); }
    if m < i { OrderTransitive(t, keys[m], keys[i]); }
  }

  /** The search finds a key equal to t, or there is none. */
  lemma {:induction false} ProbeFinds(keys: seq<string>, t: string, left: int, right: int)
    requires Ascending(keys) && 0 <= left && right < |keys|
    ensures var r := Probe(keys, t, left, right);
      if r == -1 then forall i :: left <= i <= right ==> keys[i] != t
      else left <= r <= right && keys[r] == t
    decreases right - left + 1
  {
    if left <= right {
      var m := (left + right) / 2;
      OrderEqual(keys[m], t);
      if Order(keys[m], t) == -1 {
        ProbeFinds(keys, t, m + 1, right);
        forall i: nat | left <= i <= m ensures keys[i] != t { NotBeside(keys, t, m, i); }
      } else if Order(keys[m], t) == 1 {
        ProbeFinds(keys, t, left, m - 1);
        forall i: nat | m <= i <= right ensures keys[i] != t { NotBeside(keys, t, m, i); }
      }
    }
  }

  function Candidates(kind: Kind, live: seq<Record>, target: string): (keys: seq<string>)
    ensures |keys| == |live|
  {
    if live == [] then [] else [Upcase(Candidate(kind, live[0], target))] + Candidates(kind, live[1..], target)
  }

  lemma {:induction false} CandidateKey(kind: Kind, live: seq<Record>, target: string, i: nat)
    requires i < |live|
    ensures Candidates(kind, live, target)[i] == Upcase(Candidate(kind, live[i], target))
  {
    if i > 0 { CandidateKey(kind, live[1..], target, i - 1); }
  }

  function Lookup(kind: Kind, live: seq<Record>, target: string): int {
    Probe(Candidates(kind, live, target), Upcase(target), 0, |live| - 1)
  }

  // ------------------------------------------------------------------ layout

  predicate InUse(r: Record) { |r| > 0 && r[0] != ' ' }

  predicate Before(kind: Kind, a: Record, b: Record) { Order(Key(kind, a), Key(kind, b)) < 0 }

  ghost function LayoutOf(kind: Kind): Layout<Record> {
    Layout(
      Blank(kind),
      InUse,
      r => WellFormed(kind, r),
      (a, b) => Before(kind, a, b),
      (r, target) => Matches(kind, r, target),
      (line, name) => Name(kind, line) == name,
      RecordOrder,
      (live, target) => Lookup(kind, live, target))
  }

  lemma CandidatesOrdered(kind: Kind, a: Record, b: Record, target: string)
    requires WellFormed(kind, a) && WellFormed(kind, b) && Before(kind, a, b)
    ensures Order(Upcase(Candidate(kind, a, target)), Upcase(Candidate(kind, b, target))) <= 0
  {
    if kind == Crate && |target| == 4 {
      var ka, kb := Key(kind, a), Key(kind, b);
      var ca, cb := Upcase(Candidate(kind, a, target)), Upcase(Candidate(kind, b, target));
      assert ca == ka[..4] && cb == kb[..4];
      if ca == cb {
        OrderEqual(ca, cb);
      } else {
        var i := FirstDifference(ca, cb);
        assert ka[..i] == ca[..i] && kb[..i] == cb[..i];
        OrderAtDifference(ca, cb, i);
        OrderAtDifference(ka, kb, i);
      }
    }
  }

  lemma CandidatesAscend(kind: Kind, live: seq<Record>, target: string)
    requires SortedLive(LayoutOf(kind), live)
    ensures Ascending(Candidates(kind, live, target))
  {
    var keys := Candidates(kind, live, target);
    forall i, j | 0 <= i < j < |keys| ensures Order(keys[i], keys[j]) <= 0 {
      assert LayoutOf(kind).wellFormed(live[i]) && LayoutOf(kind).wellFormed(live[j]);
      assert LayoutOf(kind).before(live[i], live[j]);
      CandidatesOrdered(kind, live[i], live[j], target);
      CandidateKey(kind, live, target, i);
      CandidateKey(kind, live, target, j);
    }
  }

  /** On sorted entries the search returns one that matches if there is one, else -1. */
  lemma LookupFinds(kind: Kind, live: seq<Record>, target: string)
    requires SortedLive(LayoutOf(kind), live)
    ensures var r := Lookup(kind, live, target);
      if r == -1 then forall i :: 0 <= i < |live| ==> !Matches(kind, live[i], target)
      else 0 <= r < |live| && Matches(kind, live[r], target)
  {
    var keys := Candidates(kind, live, target);
    CandidatesAscend(kind, live, target);
    ProbeFinds(keys, Upcase(target), 0, |live| - 1);
    forall i | 0 <= i < |live| ensures Matches(kind, live[i], target) <==> keys[i] == Upcase(target) {
      CandidateKey(kind, live, target, i);
    }
  }

  /** On sorted entries every one is found by its own name, and no other is. */
  lemma EveryEntryIsFound(kind: Kind, live: seq<Record>, i: nat)
    requires SortedLive(LayoutOf(kind), live) && i < |live|
    ensures Lookup(kind, live, Name(kind, live[i])) == i
  {
    var l := LayoutOf(kind);
    var target := Name(kind, live[i]);
    assert l.wellFormed(live[i]);
    assert Matches(kind, live[i], target);
    LookupFinds(kind, live, target);
    var r := Lookup(kind, live, target);
    assert r >= 0 && l.wellFormed(live[r]);
    forall j | 0 <= j < |live| && j != i ensures Key(kind, live[j]) != Key(kind, live[i]) {
      OrderEqual(Key(kind, live[i]), Key(kind, live[i]));
      assert if j < i then l.before(live[j], live[i]) else l.before(live[i], live[j]);
    }
  }

  /** What a target stands for: a module's whole name, the six characters of a crate, or the
      first four of them, ignoring case. */
  lemma MatchesMeans(kind: Kind, rec: Record, target: string)
    requires WellFormed(kind, rec)
    ensures kind == Cts ==> (Matches(kind, rec, target) <==> Upcase(Name(kind, rec)) == Upcase(target))
    ensures kind == Crate && |target| == 6 ==> (Matches(kind, rec, target) <==> Upcase(rec[..6]) == Upcase(target))
    ensures kind == Crate && |target| == 4 ==> (Matches(kind, rec, target) <==> Upcase(rec[..4]) == Upcase(target))
    ensures kind == Crate && |target| != 4 && |target| != 6 ==> !Matches(kind, rec, target)
  {
  }

  /** A crate name that has neither four nor six characters is never found. */
  lemma OddCrateNameIsNeverFound(live: seq<Record>, target: string)
    requires SortedLive(LayoutOf(Crate), live)
    requires |target| != 4 && |target| != 6
    ensures Lookup(Crate, live, target) == -1
  {
    LookupFinds(Crate, live, target);
    assert forall i :: 0 <= i < |live| ==> LayoutOf(Crate).wellFormed(live[i]);
  }

  // ------------------------------------------------------- the layout is lawful

  lemma NameIsFresh(kind: Kind, r: Record, line: Record)
    requires WellFormed(kind, r) && WellFormed(kind, line) && !Matches(kind, r, Name(kind, line))
    ensures Before(kind, r, line) || Before(kind, line, r)
  {
    OrderEqual(Key(kind, r), Key(kind, line));
    OrderAntisymmetric(Key(kind, r), Key(kind, line));
  }

  lemma SortedMeansBefore(kind: Kind, a: Record, b: Record)
    requires WellFormed(kind, a) && WellFormed(kind, b)
    requires Before(kind, a, b) || Before(kind, b, a)
    requires RecordOrder(a, b) <= 0
    ensures Before(kind, a, b)
  {
    OrderEqual(Key(kind, a), Key(kind, b));
    OrderAntisymmetric(Key(kind, a), Key(kind, b));
    PaddedOrderIsNameOrder(kind, a, b);
  }

  lemma RecordOrderTotal()
    ensures TotalPreorder(RecordOrder)
  {
    forall a, b ensures RecordOrder(a, b) > 0 <==> RecordOrder(b, a) < 0 {
      RecordOrderIsPreorder(a, b, a);
    }
    forall a, b, c | RecordOrder(a, b) <= 0 && RecordOrder(b, c) <= 0 ensures RecordOrder(a, c) <= 0 {
      RecordOrderIsPreorder(a, b, c);
    }
  }

  lemma LayoutIsLawful(kind: Kind)
    ensures Lawful(LayoutOf(kind))
  {
    var l := LayoutOf(kind);
    RecordOrderTotal();
    forall r | l.wellFormed(r) ensures l.inUse(r) {
      assert Graphic(Name(kind, r)[0]);
    }
    forall r ensures !l.before(r, r) {
      OrderEqual(Key(kind, r), Key(kind, r));
    }
    forall a, b | l.wellFormed(a) && l.wellFormed(b) && Apart(l, a, b) && l.cmp(a, b) <= 0 ensures l.before(a, b) {
      SortedMeansBefore(kind, a, b);
    }
    forall r, line, name | l.wellFormed(r) && l.wellFormed(line) && l.named(line, name) && !l.matches(r, name)
      ensures Apart(l, r, line)
    {
      NameIsFresh(kind, r, line);
    }
    forall live, name | SortedLive(l, live) ensures LookupCorrect(l, live, name) {
      LookupFinds(kind, live, name);
    }
  }

  /** One command, on a file of either kind. */
  lemma DatabaseStepRefines(kind: Kind, file: seq<Record>, cmd: Command<Record>)
    requires ValidFile(LayoutOf(kind), file) && Enabled(LayoutOf(kind), file, cmd)
    ensures var (f, out) := Step(LayoutOf(kind), file, cmd);
      && ValidFile(LayoutOf(kind), f)
      && AbstractStep(LayoutOf(kind), Records(LayoutOf(kind), file), cmd, Records(LayoutOf(kind), f), out)
  {
    LayoutIsLawful(kind);
    StepRefines(LayoutOf(kind), file, cmd);
  }

  /** Runs start from a file of blank records, which is valid and stands for no record. */
  lemma BlankFileIsValid(kind: Kind, count: nat)
    ensures ValidFile(LayoutOf(kind), Blanks(Blank(kind), count))
    ensures Records(LayoutOf(kind), Blanks(Blank(kind), count)) == {}
  {
    LayoutIsLawful(kind);
    MakeValid(LayoutOf(kind), [], count);
    assert [] + Blanks(Blank(kind), count) == Blanks(Blank(kind), count);
  }

  lemma StepKeepsValid(kind: Kind, file: seq<Record>, cmd: Command<Record>)
    requires ValidFile(LayoutOf(kind), file) && Enabled(LayoutOf(kind), file, cmd)
    ensures ValidFile(LayoutOf(kind), Step(LayoutOf(kind), file, cmd).0)
  {
    DatabaseStepRefines(kind, file, cmd);
  }

  /** A malformed line spoils the file it is added to. */
  lemma MalformedLineSpoils(kind: Kind, file: seq<Record>, line: Record)
    requires ValidFile(LayoutOf(kind), file) && InUse(line) && !WellFormed(kind, line)
    ensures !ValidFile(LayoutOf(kind), Added(LayoutOf(kind), Expanded(LayoutOf(kind), file), line))
  {
    var l := LayoutOf(kind);
    LayoutIsLawful(kind);
    LiveOfExpanded(l, file);
    AddedIsLive(l, Expanded(l, file), line);
    assert !l.wellFormed(line);
  }

  lemma RemovedKeepsValid(kind: Kind, file: seq<Record>, index: nat)
    requires ValidFile(LayoutOf(kind), file) && index < Count(file, InUse)
    ensures ValidFile(LayoutOf(kind), Removed(LayoutOf(kind), file, index))
    ensures Live(LayoutOf(kind), Removed(LayoutOf(kind), file, index)) == Without(Live(LayoutOf(kind), file), index)
  {
    LayoutIsLawful(kind);
    RemovedLive(LayoutOf(kind), file, index);
  }

  lemma ExpandedHasRoom(kind: Kind, file: seq<Record>)
    requires ValidFile(LayoutOf(kind), file)
    ensures Live(LayoutOf(kind), Expanded(LayoutOf(kind), file)) == Live(LayoutOf(kind), file)
    ensures Count(Expanded(LayoutOf(kind), file), InUse) == Count(file, InUse) < |Expanded(LayoutOf(kind), file)|
  {
    LayoutIsLawful(kind);
    LiveOfExpanded(LayoutOf(kind), file);
    assert |Live(LayoutOf(kind), Expanded(LayoutOf(kind), file))| == Count(Expanded(LayoutOf(kind), file), InUse);
  }

  /** Over every run of assign, deassign, add crate and delete crate, a database file stays
      a strictly sorted duplicate-free prefix followed by blanks, and stands for the set of
      records that the same commands make of the set it stood for at the start. */
  lemma DatabaseRunRefines(kind: Kind, file: seq<Record>, cmds: seq<Command<Record>>, last: seq<Record>)
    requires ValidFile(LayoutOf(kind), file) && RunsTo(LayoutOf(kind), file, cmds, last)
    ensures ValidFile(LayoutOf(kind), last)
    ensures AbstractRunsTo(LayoutOf(kind), Records(LayoutOf(kind), file), cmds, Records(LayoutOf(kind), last))
  {
    LayoutIsLawful(kind);
    RunRefines(LayoutOf(kind), file, cmds, last);
  }
}
