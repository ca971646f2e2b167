/**
 The memory-mapped database and the commands that edit it in place
 (camshr/verbs.c, add_entry.c, remove_entry.c, issort.c, bisearch.c, get_file_count.c,
 expand_db.c, copy.c, lookup_entry.c).

 The mapping is one flat character array.  It is a little longer than the file, as a
 mapping of whole pages is: the two slots behind the last record of the file can be
 read and written but are not part of it.
 */
module CamacDatabase {
  import opened CStrings
  import opened CamacRecords
  import opened InsertionSort
  import opened SortedFile
  import opened CamacFile
  import opened CamacRemoval

  lemma SlotBounds(i: nat, e: nat, n: nat)
    requires i < n
    ensures 0 <= i * e <= i * e + e <= n * e
  {
    assert (i + 1) * e <= n * e;
  }

  lemma SlotsDisjoint(i: nat, j: nat, e: nat)
    requires i < j
    ensures i * e + e <= j * e
  {
    assert (i + 1) * e <= j * e;
  }

  /** Slot i of n slots of e characters. */
  function SlotAt(m: seq<char>, e: nat, n: nat, i: nat): (r: Record)
    requires |m| == n * e && i < n
    ensures |r| == e
  {
    SlotBounds(i, e, n);
    m[i * e..i * e + e]
  }

  /** The n slots of e characters that m holds. */
  ghost predicate Holds(m: seq<char>, e: nat, slots: seq<Record>) {
    && |m| == |slots| * e
    && forall i :: 0 <= i < |slots| ==> SlotAt(m, e, |slots|, i) == slots[i]
  }

  /** m with s written over it from position p on. */
  function Splice(m: seq<char>, p: nat, s: seq<char>): (r: seq<char>)
    requires p + |s| <= |m|
    ensures |r| == |m|
  {
    m[..p] + s + m[p + |s|..]
  }

  lemma SplicePart(m: seq<char>, p: nat, s: seq<char>, a: nat, b: nat)
    requires p + |s| <= |m| && a <= b <= |m|
    ensures b <= p || p + |s| <= a ==> Splice(m, p, s)[a..b] == m[a..b]
    ensures a == p && b == p + |s| ==> Splice(m, p, s)[a..b] == s
  {
  }

  lemma SlotAfterSplice(m: seq<char>, e: nat, n: nat, i: nat, s: Record, j: nat)
    requires |m| == n * e && i < n && j < n && |s| == e
    requires i * e + e <= |m|
    ensures SlotAt(Splice(m, i * e, s), e, n, j) == if j == i then s else SlotAt(m, e, n, j)
  {
    SlotBounds(j, e, n);
    if j < i { SlotsDisjoint(j, i, e); }
    if i < j { SlotsDisjoint(i, j, e); }
    SplicePart(m, i * e, s, j * e, j * e + e);
  }

  /** Overwriting one slot changes that slot only. */
  lemma SpliceSlot(m: seq<char>, e: nat, slots: seq<Record>, i: nat, s: Record)
    requires Holds(m, e, slots) && i < |slots| && |s| == e
    ensures i * e + e <= |m|
    ensures Holds(Splice(m, i * e, s), e, slots[i := s])
  {
    var n := |slots|;
    SlotBounds(i, e, n);
    forall j | 0 <= j < n ensures SlotAt(Splice(m, i * e, s), e, n, j) == slots[i := s][j] {
      SlotAfterSplice(m, e, n, i, s, j);
    }
  }

  lemma SpliceNext(m: seq<char>, p: nat, s: seq<char>, k: nat)
    requires p + |s| <= |m| && k < |s|
    ensures Splice(m, p, s[..k])[p + k := s[k]] == Splice(m, p, s[..k + 1])
  {
    assert s[..k + 1] == s[..k] + [s[k]];
  }

  /** memcpy of s to position p. */
  method Write(mem: array<char>, p: nat, s: seq<char>)
    requires p + |s| <= mem.Length
    modifies mem
    ensures mem[..] == Splice(old(mem[..]), p, s)
  {
    for k := 0 to |s|
      invariant mem[..] == Splice(old(mem[..]), p, s[..k])
    {
      SpliceNext(old(mem[..]), p, s, k);
      ghost var now := mem[..];
      mem[p + k] := s[k];
      assert mem[..] == now[p + k := s[k]];
    }
    assert s[..|s|] == s;
  }

  function Zeros(n: nat): (s: string)
    ensures |s| == n && forall i :: 0 <= i < n ==> s[i] == NUL
  {
    seq(n, _ => NUL)
  }

  /** What a comparison routine is given: memory from two places on. */
  type Comparison = (Memory, Memory) -> int

  /** What lies behind the mapping, and behind the scratch record of the sort. */
  datatype Around = Around(mapping: Memory, scratch: Memory)

  /** On these two records the routine computes cmp, whatever lies behind them. */
  ghost predicate Agrees(a: Record, b: Record, compare: Comparison, cmp: (Record, Record) -> int) {
    forall u: Memory, v: Memory :: compare(a + u, b + v) == cmp(a, b)
  }

  ghost predicate AllAgree(s: seq<Record>, key: Record, compare: Comparison, cmp: (Record, Record) -> int) {
    forall a :: a in s ==> Agrees(a, key, compare, cmp)
  }

  /** The sort compares every record with records that were before it. */
  ghost predicate Comparable(s: seq<Record>, compare: Comparison, cmp: (Record, Record) -> int) {
    forall j :: 0 <= j < |s| ==> AllAgree(s[..j], s[j], compare, cmp)
  }

  /** Memory from slot i on is the slot and what follows. */
  lemma FromSlot(m: seq<char>, e: nat, slots: seq<Record>, i: nat)
    requires Holds(m, e, slots) && i < |slots|
    ensures i * e + e <= |m| && m[i * e..] == slots[i] + m[i * e + e..]
  {
    SlotBounds(i, e, |slots|);
    assert SlotAt(m, e, |slots|, i) == slots[i];
    assert m[i * e..] == m[i * e..i * e + e] + m[i * e + e..];
  }

  class Database {
    const kind: Kind
    var mem: array<char>
    var capacity: nat
    /** The records in the mapping, the two slots behind the file included. */
    ghost var slots: seq<Record>

    ghost predicate Mapped()
      reads this, mem
    {
      |slots| == capacity + TAIL && Holds(mem[..], EntrySize(kind), slots)
    }

    ghost function File(): seq<Record>
      requires |slots| == capacity + TAIL
      reads this
    {
      slots[..capacity]
    }

    ghost predicate Valid()
      reads this, mem
    {
      Mapped() && ValidFile(LayoutOf(kind), File())
    }

    /** There is a free slot, or the memory behind the file happens to hold a blank record. */
    ghost predicate NextRemovalIsRight()
      requires |slots| == capacity + TAIL
      reads this
    {
      Count(File(), InUse) < capacity || slots[capacity] == Blank(kind)
    }

    /** create_tmp_file: a file of count blank records; the page behind it reads as zeros. */
    constructor (kind: Kind, count: nat)
      ensures Valid() && fresh(mem)
      ensures this.kind == kind && capacity == count && File() == Blanks(Blank(kind), count)
      ensures slots[capacity] == slots[capacity + 1] == Zeros(EntrySize(kind))
    {
      var e := EntrySize(kind);
      this.kind := kind;
      mem := new char[(count + TAIL) * e](_ => NUL);
      capacity := count;
      slots := seq(count + TAIL, _ => Zeros(e));
      new;
      assert Holds(mem[..], e, slots) by {
        forall i | 0 <= i < |slots| ensures SlotAt(mem[..], e, |slots|, i) == slots[i] {
          SlotBounds(i, e, |slots|);
        }
      }
      for i := 0 to count
        invariant Mapped() && capacity == count && this.kind == kind && fresh(mem)
        invariant forall j :: 0 <= j < count + TAIL ==> slots[j] == if j < i then Blank(kind) else Zeros(e)
      {
        Store(i, Blank(kind));
      }
      assert File() == Blanks(Blank(kind), count);
      BlankFileIsValid(kind, count);
    }

    // ------------------------------------------------------------ slot access

    method Load(i: nat) returns (r: Record)
      requires Mapped() && i < capacity + TAIL
      ensures r == slots[i] && |r| == EntrySize(kind)
    {
      var e := EntrySize(kind);
      SlotBounds(i, e, |slots|);
      r := mem[i * e..i * e + e];
      assert SlotAt(mem[..], e, |slots|, i) == slots[i];
      assert mem[..][i * e..i * e + e] == r;
    }

    /** memcpy of a record into the mapping. */
    method Store(i: nat, r: Record)
      requires Mapped() && i < capacity + TAIL && |r| == EntrySize(kind)
      modifies mem, `slots
      ensures Mapped() && slots == old(slots)[i := r]
    {
      SpliceSlot(mem[..], EntrySize(kind), slots, i, r);
      Write(mem, i * EntrySize(kind), r);
      slots := slots[i := r];
    }

    /** memcpy of one record over another. */
    method Move(dst: nat, src: nat)
      requires Mapped() && dst < capacity + TAIL && src < capacity + TAIL
      modifies mem, `slots
      ensures Mapped() && slots == old(slots)[dst := old(slots)[src]]
    {
      var r := Load(src);
      Store(dst, r);
    }

    // ----------------------------------------------------------------- count

    /** Counts records up to the first that starts with a space, or to the file's end. */
    method GetFileCount() returns (n: nat)
      requires Mapped()
      ensures n == Count(File(), InUse)
    {
      var e := EntrySize(kind);
      var size := capacity * e;
      var i := 0;
      n := 0;
      while true
        invariant n <= capacity && i == n * e
        invariant forall j :: 0 <= j < n ==> InUse(File()[j])
        decreases capacity - n
      {
        if i + e > size {
          if n < capacity { SlotBounds(n, e, capacity); }
          break;
        }
        assert n == capacity ==> i == size;
        SlotBounds(n, e, capacity + TAIL);
        assert SlotAt(mem[..], e, |slots|, n) == File()[n];
        assert File()[n][0] == mem[i];
        if mem[i] == ' ' {
          break;
        }
        n := n + 1;
        i := i + e;
      }
      CountIs(File(), InUse, n);
    }

    // ------------------------------------------------------------------ sort

    /** The comparison of slot i with the scratch record, both running on in memory. */
    method CompareWithKey(i: nat, key: Record, compare: Comparison, around: Around, ghost cmp: (Record, Record) -> int)
      returns (c: int)
      requires Mapped() && i < capacity + TAIL
      ensures Agrees(slots[i], key, compare, cmp) ==> c == cmp(slots[i], key)
    {
      var e := EntrySize(kind);
      FromSlot(mem[..], e, slots, i);
      ghost var u := mem[..][i * e + e..] + around.mapping;
      assert mem[i * e..] == mem[..][i * e..];
      assert mem[i * e..] + around.mapping == slots[i] + u;
      assert around.mapping[|around.mapping| - 1] in u;
      c := compare(mem[i * e..] + around.mapping, key + around.scratch);
    }

    /** The inner loop of issort: slot j is taken out, the greater slots before it move up
        by one, and it is put down in the gap. */
    method InsertSlot(j: nat, compare: Comparison, around: Around, ghost cmp: (Record, Record) -> int)
      requires Mapped() && j < capacity + TAIL
      modifies mem, `slots
      ensures Mapped()
      ensures AllAgree(old(slots)[..j], old(slots)[j], compare, cmp) ==>
        slots == Insert(old(slots)[..j], old(slots)[j], cmp) + old(slots)[j + 1..]
    {
      ghost var was := slots;
      var key := Load(j);
      var i: int := j - 1;
      ShiftStart(was, j, cmp);
      while i >= 0
        invariant -1 <= i < j && Mapped()
        invariant Inserting(was, slots, j, i, compare, cmp)
      {
        StillBefore(was, slots, j, i, compare, cmp);
        var c := CompareWithKey(i, key, compare, around, cmp);
        if c <= 0 {
          break;
        }
        InsertingStep(was, slots, j, i, compare, cmp);
        Move(i + 1, i);
        i := i - 1;
      }
      InsertingEnd(was, slots, j, i, compare, cmp);
      Store(i + 1, key);
    }

    /** Insertion sort of the first size slots, in place, with one record of scratch. */
    method Issort(size: nat, compare: Comparison, around: Around, ghost cmp: (Record, Record) -> int)
      requires Mapped() && size <= capacity + TAIL
      modifies mem, `slots
      ensures Mapped()
      ensures Comparable(old(slots)[..size], compare, cmp) ==>
        slots == Sort(old(slots)[..size], cmp) + old(slots)[size..]
    {
      ghost var was := slots;
      SortShort(was, size, compare, cmp);
      var j := 1;
      while j < size
        invariant Mapped() && 1 <= j && SortedUpTo(was, slots, size, j, compare, cmp)
      {
        ghost var now := slots;
        InsertSlot(j, compare, around, cmp);
        SortNext(was, now, slots, size, j, compare, cmp);
        j := j + 1;
      }
      SortedWhole(was, slots, size, j, compare, cmp);
    }

    // ---------------------------------------------------------------- search

    /** Compares record i with the target by its trimmed name, or by a prefix of it. */
    method CompareAt(i: nat, target: string) returns (c: int)
      requires Mapped() && i < capacity + TAIL && NulFree(slots[i]) && NulFree(target)
      ensures c == Order(Upcase(Candidate(kind, slots[i], target)), Upcase(target))
    {
      var rec := Load(i);
      var length, tmp;
      match kind {
        case Cts =>
          tmp := Truncate(rec, 32);
          length := SpanToSpace(tmp);
        case Crate =>
          tmp := rec;
          length := if |target| == 4 then 4 else 6;
      }
      var candidate := tmp[..length];
      c := CompareNames(candidate, target);
    }

    /** Binary search over the first size records. */
    method Bisearch(target: string, size: nat) returns (r: int)
      requires Mapped() && size <= capacity && NulFree(target) && AllNulFree(slots[..size])
      ensures r == Lookup(kind, slots[..size], target)
    {
      ghost var t, keys := Upcase(target), Candidates(kind, slots[..size], target);
      ghost var found := Probe(keys, t, 0, size - 1);
      var left: int, right: int := 0, size - 1;
      while left <= right
        invariant 0 <= left && right < size
        invariant Probe(keys, t, left, right) == found
        decreases right - left + 1
      {
        var middle := (left + right) / 2;
        assert slots[..size][middle] == slots[middle];
        var c := CompareAt(middle, target);
        CandidateKey(kind, slots[..size], target, middle);
        ProbeStep(keys, t, left, right);
        if c == -1 {
          left := middle + 1;
        } else if c == 1 {
          right := middle - 1;
        } else {
          return middle;
        }
      }
      return -1;
    }

    /** The position of an entry, -1 if it is not found, -2 if there are no entries. */
    method LookupEntry(name: string) returns (r: int)
      requires Valid() && NulFree(name)
      ensures r == if Count(File(), InUse) == 0 then -2 else Lookup(kind, Live(LayoutOf(kind), File()), name)
    {
      var n := GetFileCount();
      if n == 0 {
        return -2;
      }
      LiveNulFree(kind, File());
      assert slots[..n] == Live(LayoutOf(kind), File());
      r := Bisearch(name, n);
    }

    // ------------------------------------------------------- editing in place

    /** Moves the first n records up by one and puts the line in front of them. */
    method PutFirst(n: int, line: Record)
      requires Mapped() && 0 <= n < |slots| && |line| == EntrySize(kind)
      modifies mem, `slots
      ensures Mapped() && slots == [line] + old(slots)[..n] + old(slots)[n + 1..]
    {
      ghost var was := slots;
      var i := n - 1;
      while i >= 0
        invariant Mapped() && Raised(was, slots, n, i)
      {
        RaiseStep(was, slots, n, i);
        Move(i + 1, i);
        i := i - 1;
      }
      RaiseEnd(was, slots, n, line);
      Store(0, line);
    }

    /** The sort of add_entry, which a file with one entry does not need. */
    method SortEntries(n: nat, around: Around)
      requires Mapped() && n < |slots|
      modifies mem, `slots
      ensures Mapped()
      ensures Comparable(old(slots)[..n + 1], StringOrder, RecordOrder) ==>
        slots == Sort(old(slots)[..n + 1], RecordOrder) + old(slots)[n + 1..]
    {
      SortOne(slots, RecordOrder);
      if n > 0 {
        Issort(n + 1, StringOrder, around, RecordOrder);
      }
    }

    /** Adds a record to a file that has room: shift up, put it first, sort.  The result is
        the sorted file if the comparison can tell the records apart. */
    method AddEntry(line: Record, around: Around)
      requires Mapped() && Count(File(), InUse) < capacity && |line| == EntrySize(kind)
      modifies mem, `slots
      ensures Mapped()
      ensures AllToldApart([line] + old(File()[..Count(File(), InUse)])) ==>
        File() == Added(LayoutOf(kind), old(File()), line)
    {
      ghost var was := slots;
      var n := GetFileCount();
      assert was[..n] == File()[..n];
      PutFirst(n, line);
      ghost var mid := slots;
      SortEntries(n, around);
      if AllToldApart([line] + was[..n]) {
        assert mid[..n + 1] == [line] + was[..n];
        ToldApartComparable(mid[..n + 1]);
        AddedSlots(kind, was, mid, slots, n, line, capacity);
      }
    }

    /** Moves the records behind index, up to the one in slot n, down by one. */
    method ShiftDown(index: nat, n: nat)
      requires Mapped() && index <= n < |slots|
      modifies mem, `slots
      ensures Mapped() && slots == Lowered(old(slots), index, n)
    {
      var i := index;
      while i < n
        invariant index <= i <= n && Mapped() && slots == Lowered(old(slots), index, i)
      {
        Move(i, i + 1);
        i := i + 1;
      }
    }

    /** Removes one record: shift down from index on, then blank the slot behind the last
        one read. */
    method RemoveEntry(index: nat) returns (status: Outcome)
      requires Mapped() && (Count(File(), InUse) > 0 ==> index < Count(File(), InUse))
      modifies mem, `slots
      ensures Mapped() && status == if old(Count(File(), InUse)) == 0 then Failure else Success
      ensures slots == if old(Count(File(), InUse)) == 0 then old(slots)
        else RemoveAt(old(slots), index, old(Count(File(), InUse)), Blank(kind))
    {
      var n := GetFileCount();
      if n == 0 {
        return Failure;
      }
      LoweredIsRemoval(slots, index, n, Blank(kind));
      ShiftDown(index, n);
      Store(n + 1, Blank(kind));
      status := Success;
    }

    /** copy: the first n records, one after the other, into a blank file. */
    method CopyTo(tmp: Database, n: nat)
      requires Mapped() && tmp.Mapped() && tmp != this && tmp.mem != mem && tmp.kind == kind
      requires n <= capacity && n <= tmp.capacity && tmp.File() == Blanks(Blank(kind), tmp.capacity)
      modifies tmp.mem, tmp`slots
      ensures tmp.Mapped() && tmp.File() == File()[..n] + Blanks(Blank(kind), tmp.capacity - n)
    {
      for i := 0 to n
        invariant Mapped() && tmp.Mapped()
        invariant tmp.File() == File()[..i] + Blanks(Blank(kind), tmp.capacity - i)
      {
        var line := Load(i);
        CopiedOne(File(), Blank(kind), tmp.capacity, i);
        tmp.Store(i, line);
      }
    }

    /** expand_db: a new file of the next multiple of ten records, the old entries copied
        into it, mapped in place of the old one. */
    method ExpandDb(n: nat)
      requires Valid() && n == Count(File(), InUse) == capacity
      modifies this
      ensures Mapped() && fresh(mem) && File() == Expanded(LayoutOf(kind), old(File()))
    {
      var newCount := (n / INCREMENT + 1) * INCREMENT;
      var tmp := new Database(kind, newCount);
      ghost var file := File();
      CopyTo(tmp, n);
      assert file[..n] == file;
      mem, capacity, slots := tmp.mem, tmp.capacity, tmp.slots;
    }

    /** The file grows when it has no slot for one more record. */
    method MakeRoom(n: nat)
      requires Valid() && n == Count(File(), InUse)
      modifies this
      ensures Mapped() && (mem == old(mem) || fresh(mem))
      ensures File() == Expanded(LayoutOf(kind), old(File()))
    {
      if capacity == 0 || n == capacity {
        ExpandDb(n);
      }
    }

    // ------------------------------------------------------------- commands

    method IsTaken(name: string, n: nat) returns (taken: bool)
      requires Valid() && NulFree(name) && n == Count(File(), InUse)
      ensures taken <==> Lookup(kind, Live(LayoutOf(kind), File()), name) >= 0
    {
      taken := false;
      if n != 0 {
        var index := LookupEntry(name);
        taken := index >= 0;
      }
    }

    /** What assign and add crate do with a finished line. */
    method AddRecord(name: string, line: Record, around: Around) returns (status: Outcome)
      requires Valid() && NulFree(name) && InUse(line) && |line| == EntrySize(kind)
      requires if WellFormed(kind, line) then Name(kind, line) == name else !NulFree(line)
      modifies this, mem
      ensures Mapped() && (mem == old(mem) || fresh(mem))
      ensures (File(), status) == Step(LayoutOf(kind), old(File()), Add(name, line))
      ensures Valid() <==> status == Failure || WellFormed(kind, line)
      ensures status == Success ==> line in Live(LayoutOf(kind), File())
    {
      ghost var file := File();
      ExpandedHasRoom(kind, file);
      var n := GetFileCount();
      var taken := IsTaken(name, n);
      if taken {
        return Failure;
      }
      MakeRoom(n);
      AllEntriesToldApart(kind, file, name, line);
      assert File()[..n] == Live(LayoutOf(kind), file);
      AddEntry(line, around);
      status := Success;
      AddedOutcome(kind, file, name, line);
    }

    /** assign: names are upper-cased, the comment is optional (empty when absent). */
    method Assign(logName: string, phyName: string, comment: string, around: Around) returns (status: Outcome)
      requires Valid() && kind == Cts
      requires IsName(Cts, logName) && |phyName| <= 10 && |comment| <= 40
      requires NulFree(phyName) && NulFree(comment)
      modifies this, mem
      ensures Valid() && (mem == old(mem) || fresh(mem))
      ensures (File(), status) == Step(LayoutOf(Cts), old(File()),
        Add(Upcase(logName), ModuleLine(Upcase(logName), Upcase(phyName), comment)))
      ensures status == Success ==> exists rec ::
        rec in Live(LayoutOf(Cts), File()) && SaysModule(rec, Upcase(logName), Upcase(phyName), comment)
    {
      ModuleLineSays(Upcase(logName), Upcase(phyName), comment);
      UpcaseIsName(Cts, logName);
      var line := ModuleLine(Upcase(logName), Upcase(phyName), comment);
      ModuleLineWellFormed(Upcase(logName), Upcase(phyName), comment);
      status := AddRecord(Upcase(logName), line, around);
    }

    /** add crate: the name is cut to six characters; with fewer than six, the record is
        malformed and the file is no longer a sorted file of crates.  The contract describes
        the file before Autoconfig, which the command calls after a success. */
    method AddCrate(phyName: string, stack: seq<char>, around: Around) returns (status: Outcome)
      requires Valid() && kind == Crate && |stack| == 18
      requires forall i :: 0 <= i < |phyName| ==> Graphic(phyName[i])
      modifies this, mem
      ensures Mapped() && (mem == old(mem) || fresh(mem))
      ensures (File(), status) == Step(LayoutOf(Crate), old(File()),
        Add(Truncate(Upcase(phyName), 6), CrateLine(Upcase(phyName), stack)))
      ensures Valid() <==> status == Failure || |phyName| >= 6
      ensures status == Success && |phyName| >= 6 ==> exists rec ::
        rec in Live(LayoutOf(Crate), File()) && SaysCrate(rec, Upcase(phyName)[..6])
    {
      if |phyName| >= 6 { CrateLineSays(Upcase(phyName), stack); }
      var line := CrateLine(Upcase(phyName), stack);
      CrateLineWellFormed(Upcase(phyName), stack);
      status := AddRecord(Truncate(Upcase(phyName), 6), line, around);
    }

    /** delete crate: right exactly when nothing was removed, or the file had a free slot, or
        the slot behind it held a blank record. */
    method DelCrate(phyName: string) returns (status: Outcome)
      requires Valid() && kind == Crate && NulFree(phyName)
      modifies mem, `slots
      ensures Mapped()
      ensures var (file, outcome) := Step(LayoutOf(Crate), old(File()), Delete(Truncate(Upcase(phyName), 6)));
        status == outcome && (File() == file <==> status == Failure || old(NextRemovalIsRight()))
      ensures status == Failure || old(NextRemovalIsRight()) ==> Valid()
    {
      var name := Truncate(Upcase(phyName), 6);
      var n := GetFileCount();
      if n == 0 {
        return Failure;
      }
      var index := LookupEntry(name);
      LookupFinds(kind, Live(LayoutOf(kind), File()), name);
      if index >= 0 {
        DeletedExactly(slots, capacity, name, index);
        status := RemoveEntry(index);
      } else {
        status := Failure;
      }
    }

    /** The first loop of deassign: how many entries match. */
    method CountMatches(n: nat, gone: Record -> bool) returns (m: nat)
      requires Mapped() && n <= capacity
      ensures m == MatchCount(slots[..n], gone)
    {
      m := 0;
      for i := 0 to n
        invariant m == MatchCount(slots[..i], gone)
      {
        var rec := Load(i);
        MatchCountNext(slots, i, gone);
        if gone(rec) {
          m := m + 1;
        }
      }
    }

    /** The inner loop of deassign: one pass over the file, deleting while iterating. */
    method DeletePass(gone: Record -> bool)
      requires Mapped()
      modifies mem, `slots
      ensures Mapped() && slots == Scan(old(slots), capacity, 0, InUse, Blank(kind), gone)
    {
      ghost var all := Scan(slots, capacity, 0, InUse, Blank(kind), gone);
      var i := 0;
      var n: int := GetFileCount();
      while i < n
        invariant Mapped() && n == Entries(slots, capacity, InUse)
        invariant Scan(slots, capacity, i, InUse, Blank(kind), gone) == all
        decreases capacity - i
      {
        var rec := Load(i);
        if gone(rec) {
          var status := RemoveEntry(i);
        }
        i := i + 1;
        n := GetFileCount();
      }
    }

    /** The outer loop of deassign. */
    method RepeatPasses(passes: nat, gone: Record -> bool)
      requires Mapped()
      modifies mem, `slots
      ensures Mapped() && slots == Passes(old(slots), capacity, passes, InUse, Blank(kind), gone)
    {
      ghost var all := Passes(slots, capacity, passes, InUse, Blank(kind), gone);
      var modulesToDeassign := passes;
      while modulesToDeassign > 0
        invariant Mapped()
        invariant Passes(slots, capacity, modulesToDeassign, InUse, Blank(kind), gone) == all
      {
        DeletePass(gone);
        modulesToDeassign := modulesToDeassign - 1;
      }
    }

    /** deassign: as many passes as there were matches leave exactly the entries that do
        not match, in their order.  With a full file that is so exactly when the slot
        behind the file held a blank record, or nothing matched. */
    method Deassign(gone: Record -> bool) returns (status: Outcome)
      requires Valid()
      modifies mem, `slots
      ensures Mapped()
      ensures var (file, outcome) := Step(LayoutOf(kind), old(File()), DeleteMatching(gone));
        status == outcome && (File() == file <==>
          status == Failure || old(NextRemovalIsRight()) || MatchCount(old(Live(LayoutOf(kind), File())), gone) == 0)
      ensures File() == Step(LayoutOf(kind), old(File()), DeleteMatching(gone)).0 ==> Valid()
    {
      ghost var was, l := slots, LayoutOf(kind);
      var n := GetFileCount();
      if n == 0 {
        return Failure;
      }
      assert slots[..n] == Live(l, File());
      var modulesToDeassign := CountMatches(n, gone);
      RepeatPasses(modulesToDeassign, gone);
      DeassignedSlots(kind, was, capacity, gone);
      status := Success;
    }
  }

  lemma NewLineToldApart(kind: Kind, file: seq<Record>, name: string, line: Record, i: nat)
    requires ValidFile(LayoutOf(kind), file) && |line| == EntrySize(kind)
    requires if WellFormed(kind, line) then Name(kind, line) == name else !NulFree(line)
    requires Lookup(kind, Live(LayoutOf(kind), file), name) < 0 && i < |Live(LayoutOf(kind), file)|
    ensures ToldApart(line, Live(LayoutOf(kind), file)[i])
  {
    var live := Live(LayoutOf(kind), file);
    assert LayoutOf(kind).wellFormed(live[i]);
    LookupFinds(kind, live, name);
    if WellFormed(kind, line) {
      DifferentNamesToldApart(kind, line, live[i]);
    } else {
      NulToldApart(kind, line, live[i]);
    }
  }

  lemma EntriesToldApart(kind: Kind, file: seq<Record>, i: nat, j: nat)
    requires ValidFile(LayoutOf(kind), file) && i < j < |Live(LayoutOf(kind), file)|
    ensures ToldApart(Live(LayoutOf(kind), file)[i], Live(LayoutOf(kind), file)[j])
  {
    var l := LayoutOf(kind);
    var live := Live(l, file);
    assert l.wellFormed(live[i]) && l.wellFormed(live[j]) && l.before(live[i], live[j]);
    OrderEqual(Key(kind, live[i]), Key(kind, live[j]));
    DifferentNamesToldApart(kind, live[i], live[j]);
  }

  /** A line that was not found, and the entries, are told apart: entries with different
      names are, and so is a line that has a new name or holds a NUL. */
  lemma AllEntriesToldApart(kind: Kind, file: seq<Record>, name: string, line: Record)
    requires ValidFile(LayoutOf(kind), file) && |line| == EntrySize(kind)
    requires if WellFormed(kind, line) then Name(kind, line) == name else !NulFree(line)
    requires Lookup(kind, Live(LayoutOf(kind), file), name) < 0
    ensures AllToldApart([line] + Live(LayoutOf(kind), file))
  {
    var live := Live(LayoutOf(kind), file);
    forall i | 0 <= i < |live| ensures ToldApart(line, live[i]) {
      NewLineToldApart(kind, file, name, line, i);
    }
    forall i, j | 0 <= i < j < |live| ensures ToldApart(live[i], live[j]) {
      EntriesToldApart(kind, file, i, j);
    }
    ToldApartCons(line, live);
  }

  lemma ToldApartCons(line: Record, live: seq<Record>)
    requires AllToldApart(live) && forall i :: 0 <= i < |live| ==> ToldApart(line, live[i])
    ensures AllToldApart([line] + live)
  {
    var all := [line] + live;
    forall i, j | 0 <= i < j < |all| ensures ToldApart(all[i], all[j]) {
      assert all[j] == live[j - 1];
      if i > 0 { assert all[i] == live[i - 1]; }
    }
  }

  /** Adding a line that was not found. */
  lemma AddedOutcome(kind: Kind, file: seq<Record>, name: string, line: Record)
    requires ValidFile(LayoutOf(kind), file) && InUse(line)
    requires WellFormed(kind, line) ==> Name(kind, line) == name
    requires Lookup(kind, Live(LayoutOf(kind), file), name) < 0
    ensures ValidFile(LayoutOf(kind), Added(LayoutOf(kind), Expanded(LayoutOf(kind), file), line))
      <==> WellFormed(kind, line)
    ensures line in Live(LayoutOf(kind), Added(LayoutOf(kind), Expanded(LayoutOf(kind), file), line))
  {
    LayoutIsLawful(kind);
    LiveOfExpanded(LayoutOf(kind), file);
    AddedIsLive(LayoutOf(kind), Expanded(LayoutOf(kind), file), line);
    if WellFormed(kind, line) {
      StepKeepsValid(kind, file, Add(name, line));
    } else {
      MalformedLineSpoils(kind, file, line);
    }
  }

  /** DeassignExactly for a database of either kind. */
  lemma DeassignedSlots(kind: Kind, was: seq<Record>, capacity: nat, gone: Record -> bool)
    requires |was| == capacity + TAIL && ValidFile(LayoutOf(kind), was[..capacity])
    ensures var l, file := LayoutOf(kind), was[..capacity];
      var matches := MatchCount(Live(l, file), gone);
      var r := Passes(was, capacity, matches, InUse, Blank(kind), gone);
      && (r[..capacity] == Deassigned(l, file, gone)
          <==> Count(file, InUse) < capacity || was[capacity] == Blank(kind) || matches == 0)
      && ValidFile(l, Deassigned(l, file, gone))
  {
    var l := LayoutOf(kind);
    LayoutIsLawful(kind);
    DeassignExactly(l, was, capacity, gone);
    DeassignedRefines(l, was[..capacity], gone);
  }

  /** compare_str on two strings in buffers of their own. */
  method CompareNames(a: string, b: string) returns (c: int)
    requires NulFree(a) && NulFree(b)
    ensures c == Order(Upcase(a), Upcase(b))
  {
    CStringOf(a, []);
    CStringOf(b, []);
    assert a + [NUL] + [] == a + [NUL] && b + [NUL] + [] == b + [NUL];
    c := CompareStr(a + [NUL], b + [NUL]);
  }

  lemma LiveNulFree(kind: Kind, file: seq<Record>)
    requires ValidFile(LayoutOf(kind), file)
    ensures AllNulFree(Live(LayoutOf(kind), file))
  {
    var l := LayoutOf(kind);
    var live := Live(l, file);
    forall i | 0 <= i < |live| ensures NulFree(live[i]) {
      assert l.wellFormed(live[i]);
    }
  }

  ghost predicate AllNulFree(s: seq<Record>) {
    forall i :: 0 <= i < |s| ==> NulFree(s[i])
  }

  lemma CopiedOne(file: seq<Record>, blank: Record, count: nat, i: nat)
    requires i < |file| && i < count
    ensures (file[..i] + Blanks(blank, count - i))[i := file[i]] == file[..i + 1] + Blanks(blank, count - i - 1)
  {
  }

  lemma UpcaseIsName(kind: Kind, s: string)
    requires IsName(kind, s)
    ensures IsName(kind, Upcase(s))
  {
  }

  lemma MatchCountNext(slots: seq<Record>, i: nat, gone: Record -> bool)
    requires i < |slots|
    ensures MatchCount(slots[..i + 1], gone) == MatchCount(slots[..i], gone) + if gone(slots[i]) then 1 else 0
  {
    assert slots[..i + 1] == slots[..i] + [slots[i]];
    KeepLast(slots[..i], slots[i], gone);
  }

  // ----------------------------------------------- what the sort does to the slots

  /** The slots i+2 .. j hold what the slots i+1 .. j-1 held, all greater than the key. */
  ghost predicate Shifted(was: seq<Record>, now: seq<Record>, j: int, i: int, cmp: (Record, Record) -> int) {
    && |now| == |was| && -1 <= i < j < |was|
    && now[..i + 1] == was[..i + 1]
    && now[i + 2..] == was[i + 1..j] + was[j + 1..]
    && Insert(was[..j], was[j], cmp) == Insert(was[..i + 1], was[j], cmp) + was[i + 1..j]
  }

  lemma ShiftStart(was: seq<Record>, j: nat, cmp: (Record, Record) -> int)
    requires j < |was|
    ensures Shifted(was, was, j, j - 1, cmp)
  {
    assert was[j..j] == [];
  }

  lemma ShiftStep(was: seq<Record>, now: seq<Record>, j: nat, i: nat, cmp: (Record, Record) -> int)
    requires Shifted(was, now, j, i, cmp) && cmp(now[i], was[j]) > 0
    ensures Shifted(was, now[i + 1 := now[i]], j, i - 1, cmp)
  {
    var next := now[i + 1 := now[i]];
    assert now[i] == now[..i + 1][i] == was[i];
    assert was[..i + 1][..i] == was[..i];
    assert [was[i]] + was[i + 1..j] == was[i..j];
    assert next[..i] == now[..i + 1][..i];
    assert next[i + 1..] == [now[i]] + now[i + 2..];
    assert Insert(was[..i + 1], was[j], cmp) == Insert(was[..i], was[j], cmp) + [was[i]];
  }

  lemma ShiftEnd(was: seq<Record>, now: seq<Record>, j: nat, i: int, cmp: (Record, Record) -> int)
    requires Shifted(was, now, j, i, cmp) && (i == -1 || cmp(now[i], was[j]) <= 0)
    ensures now[i + 1 := was[j]] == Insert(was[..j], was[j], cmp) + was[j + 1..]
  {
    if i >= 0 { assert now[i] == now[..i + 1][i] == was[..i + 1][i]; }
    assert Insert(was[..i + 1], was[j], cmp) == was[..i + 1] + [was[j]];
    assert now[i + 1 := was[j]] == now[..i + 1] + [was[j]] + now[i + 2..];
  }

  /** Deleting a crate that was found is what the delete command says exactly when there is a
      free slot or a blank record behind the file. */
  lemma DeletedExactly(slots: seq<Record>, capacity: nat, name: string, index: nat)
    requires |slots| == capacity + TAIL && ValidFile(LayoutOf(Crate), slots[..capacity])
    requires index == Lookup(Crate, Live(LayoutOf(Crate), slots[..capacity]), name)
    requires index < Count(slots[..capacity], InUse)
    ensures var (file, outcome) := Step(LayoutOf(Crate), slots[..capacity], Delete(name));
      var n := Count(slots[..capacity], InUse);
      && outcome == Success && ValidFile(LayoutOf(Crate), file)
      && (RemoveAt(slots, index, n, Blank(Crate))[..capacity] == file <==>
            n < capacity || slots[capacity] == Blank(Crate))
  {
    RemovalExactly(LayoutOf(Crate), slots, capacity, index);
    RemovedKeepsValid(Crate, slots[..capacity], index);
  }

  /** The slots i+2 .. n hold what the slots i+1 .. n-1 held. */
  ghost predicate Raised(was: seq<Record>, now: seq<Record>, n: int, i: int) {
    && -1 <= i < n < |was|
    && |now| == |was|
    && (forall k :: 0 <= k < i + 2 || n < k < |was| ==> now[k] == was[k])
    && (forall k :: i + 2 <= k <= n ==> now[k] == was[k - 1])
  }

  lemma RaiseStep(was: seq<Record>, now: seq<Record>, n: nat, i: nat)
    requires Raised(was, now, n, i)
    ensures Raised(was, now[i + 1 := now[i]], n, i - 1)
  {
    var next := now[i + 1 := now[i]];
    forall k | i + 1 <= k <= n ensures next[k] == was[k - 1] {
      assert k > i + 1 ==> next[k] == now[k];
    }
  }

  lemma RaiseEnd(was: seq<Record>, now: seq<Record>, n: nat, line: Record)
    requires Raised(was, now, n, -1)
    ensures now[0 := line] == [line] + was[..n] + was[n + 1..]
  {
    var r := [line] + was[..n] + was[n + 1..];
    assert |r| == |now|;
    forall k | 0 <= k < |r| ensures now[0 := line][k] == r[k] {
    }
  }

  lemma AddedSlots(kind: Kind, was: seq<Record>, mid: seq<Record>, now: seq<Record>, n: nat, line: Record,
      capacity: nat)
    requires n < capacity <= |was| && n == Count(was[..capacity], InUse)
    requires mid == [line] + was[..n] + was[n + 1..]
    requires now == Sort(mid[..n + 1], RecordOrder) + mid[n + 1..]
    ensures now[..capacity] == Added(LayoutOf(kind), was[..capacity], line)
  {
    var file := was[..capacity];
    assert file[..n] == was[..n] && file[n + 1..] == was[n + 1..capacity];
    HalvesOfAppend([line] + was[..n], was[n + 1..]);
    TakeOfAppend(Sort([line] + file[..n], RecordOrder), was[n + 1..], capacity);
    assert was[n + 1..][..capacity - n - 1] == file[n + 1..];
  }

  lemma HalvesOfAppend<T>(s: seq<T>, t: seq<T>)
    ensures (s + t)[..|s|] == s && (s + t)[|s|..] == t
  {
  }

  lemma TakeOfAppend<T>(s: seq<T>, t: seq<T>, k: nat)
    requires |s| <= k <= |s| + |t|
    ensures (s + t)[..k] == s + t[..k - |s|]
  {
  }

  /** Slots index+1 .. i copied down by one, one after the other. */
  ghost function Lowered(was: seq<Record>, index: nat, i: nat): (r: seq<Record>)
    requires index <= i < |was|
    ensures |r| == |was|
    decreases i
  {
    if i == index then was
    else
      var r := Lowered(was, index, i - 1);
      r[i - 1 := r[i]]
  }

  lemma {:induction false} LoweredIs(was: seq<Record>, index: nat, i: nat)
    requires index <= i < |was|
    ensures Lowered(was, index, i) == was[..index] + was[index + 1..i + 1] + was[i..]
    decreases i
  {
    if i == index {
      assert was[index + 1..index + 1] == [];
    } else {
      LoweredIs(was, index, i - 1);
      var front := was[..index] + was[index + 1..i];
      var r := front + was[i - 1..];
      assert |front| == i - 1 && r[i] == was[i] && r[i..] == was[i..];
      assert r[i - 1 := r[i]] == front + [was[i]] + was[i..];
      assert was[index + 1..i + 1] == was[index + 1..i] + [was[i]];
    }
  }

  lemma LoweredIsRemoval(was: seq<Record>, index: nat, n: nat, blank: Record)
    requires index < n && n + 1 < |was|
    ensures Lowered(was, index, n)[n + 1 := blank] == RemoveAt(was, index, n, blank)
  {
    LoweredIs(was, index, n);
  }

  /** What removing from a full file does when the memory behind the file reads as zeros, as
      a fresh mapping's does: the last slot is filled with NULs, which count as a record
      in use, so the number of entries does not go down. */
  lemma FullFileKeepsItsCount(kind: Kind, slots: seq<Record>, capacity: nat, index: nat)
    requires |slots| == capacity + TAIL && index < Count(slots[..capacity], InUse) == capacity
    requires slots[capacity] == Zeros(EntrySize(kind))
    ensures Count(RemoveAt(slots, index, capacity, Blank(kind))[..capacity], InUse) == capacity
  {
    assert slots[capacity][0] == NUL;
    JunkComesDown(LayoutOf(kind), slots, capacity, index, slots[capacity]);
  }

  ghost predicate AllToldApart(s: seq<Record>) {
    forall i, j :: 0 <= i < j < |s| ==> ToldApart(s[i], s[j])
  }

  lemma ToldApartComparable(s: seq<Record>)
    requires AllToldApart(s)
    ensures Comparable(s, StringOrder, RecordOrder)
  {
    forall j, a | 0 <= j < |s| && a in s[..j] ensures Agrees(a, s[j], StringOrder, RecordOrder) {
      var i :| 0 <= i < j && s[i] == a;
      forall u: Memory, v: Memory ensures StringOrder(a + u, s[j] + v) == RecordOrder(a, s[j]) {
        ComparedInMemory(s[i], s[j], u, v);
      }
    }
  }

  /** How far the inner loop has come, if the routine compares slot j as cmp does. */
  ghost predicate Inserting(was: seq<Record>, now: seq<Record>, j: int, i: int, compare: Comparison,
      cmp: (Record, Record) -> int)
  {
    && |now| == |was| && -1 <= i < j < |was|
    && (AllAgree(was[..j], was[j], compare, cmp) ==> Shifted(was, now, j, i, cmp))
  }

  /** A slot the inner loop comes to is one that was before slot j. */
  lemma StillBefore(was: seq<Record>, now: seq<Record>, j: nat, i: nat, compare: Comparison, cmp: (Record,
      Record) -> int)
    requires Inserting(was, now, j, i, compare, cmp)
    ensures AllAgree(was[..j], was[j], compare, cmp) ==> Agrees(now[i], was[j], compare, cmp)
  {
    if AllAgree(was[..j], was[j], compare, cmp) {
      assert now[i] == now[..i + 1][i] == was[i] == was[..j][i];
    }
  }

  lemma InsertingStep(was: seq<Record>, now: seq<Record>, j: nat, i: nat, compare: Comparison, cmp: (Record,
      Record) -> int)
    requires Inserting(was, now, j, i, compare, cmp)
    requires AllAgree(was[..j], was[j], compare, cmp) ==> cmp(now[i], was[j]) > 0
    ensures Inserting(was, now[i + 1 := now[i]], j, i - 1, compare, cmp)
  {
    if AllAgree(was[..j], was[j], compare, cmp) { ShiftStep(was, now, j, i, cmp); }
  }

  lemma InsertingEnd(was: seq<Record>, now: seq<Record>, j: nat, i: int, compare: Comparison, cmp: (Record,
      Record) -> int)
    requires Inserting(was, now, j, i, compare, cmp)
    requires AllAgree(was[..j], was[j], compare, cmp) ==> i == -1 || cmp(now[i], was[j]) <= 0
    ensures AllAgree(was[..j], was[j], compare, cmp) ==>
      now[i + 1 := was[j]] == Insert(was[..j], was[j], cmp) + was[j + 1..]
  {
    if AllAgree(was[..j], was[j], compare, cmp) { ShiftEnd(was, now, j, i, cmp); }
  }

  /** How far the outer loop has come, if the routine compares the records as cmp does. */
  ghost predicate SortedUpTo(was: seq<Record>, now: seq<Record>, size: nat, j: nat, compare: Comparison,
      cmp: (Record, Record) -> int)
  {
    && size <= |was| == |now|
    && (Comparable(was[..size], compare, cmp) ==>
          now == if j <= size then Sort(was[..j], cmp) + was[j..] else Sort(was[..size], cmp) + was[size..])
  }

  lemma SortedWhole(was: seq<Record>, now: seq<Record>, size: nat, j: nat, compare: Comparison, cmp: (Record,
      Record) -> int)
    requires SortedUpTo(was, now, size, j, compare, cmp) && j >= size
    ensures Comparable(was[..size], compare, cmp) ==> now == Sort(was[..size], cmp) + was[size..]
  {
  }

  /** Sorting the slots before j does not change what key j is compared with. */
  lemma AgreeAfterSort(was: seq<Record>, now: seq<Record>, size: nat, j: nat, compare: Comparison, cmp: (Record,
      Record) -> int)
    requires j < size <= |was| && Comparable(was[..size], compare, cmp)
    requires now == Sort(was[..j], cmp) + was[j..]
    ensures AllAgree(now[..j], now[j], compare, cmp)
  {
    assert was[..size][..j] == was[..j] && was[..size][j] == was[j] == now[j];
    assert AllAgree(was[..size][..j], was[..size][j], compare, cmp);
    forall a | a in now[..j] ensures a in was[..j] {
      SortMember(was[..j], a, cmp);
    }
  }

  lemma SortMember(s: seq<Record>, a: Record, cmp: (Record, Record) -> int)
    ensures a in Sort(s, cmp) <==> a in s
  {
    SortKeepsElements(s, cmp);
    assert a in Sort(s, cmp) <==> a in multiset(Sort(s, cmp));
  }

  /** Inserting record j is the next step of the sort. */
  lemma SortNext(was: seq<Record>, now: seq<Record>, next: seq<Record>, size: nat, j: nat, compare: Comparison,
      cmp: (Record, Record) -> int)
    requires j < size && SortedUpTo(was, now, size, j, compare, cmp) && |next| == |was|
    requires AllAgree(now[..j], now[j], compare, cmp) ==> next == Insert(now[..j], now[j], cmp) + now[j + 1..]
    ensures SortedUpTo(was, next, size, j + 1, compare, cmp)
  {
    if Comparable(was[..size], compare, cmp) {
      AgreeAfterSort(was, now, size, j, compare, cmp);
      InsertNext(was, now, j, cmp);
    }
  }

  lemma SortShort(was: seq<Record>, size: nat, compare: Comparison, cmp: (Record, Record) -> int)
    requires size <= |was|
    ensures SortedUpTo(was, was, size, 1, compare, cmp)
  {
    assert was == Sort(was[..0], cmp) + was[0..];
    if size > 0 { SortOne(was, cmp); }
  }

  lemma SortOne(was: seq<Record>, cmp: (Record, Record) -> int)
    requires was != []
    ensures was == Sort(was[..1], cmp) + was[1..]
  {
    assert was[..1] == [was[0]];
    SortSingle(was[0], cmp);
  }

  lemma SortSingle(x: Record, cmp: (Record, Record) -> int)
    ensures Sort([x], cmp) == [x]
  {
    assert [x][..0] == [];
  }

  lemma InsertNext(was: seq<Record>, now: seq<Record>, j: nat, cmp: (Record, Record) -> int)
    requires j < |was| && now == Sort(was[..j], cmp) + was[j..]
    ensures Insert(now[..j], now[j], cmp) + now[j + 1..] == Sort(was[..j + 1], cmp) + was[j + 1..]
  {
    assert now[..j] == Sort(was[..j], cmp);
    assert was[..j + 1][..j] == was[..j];
    assert now[j + 1..] == was[j + 1..];
  }
}
