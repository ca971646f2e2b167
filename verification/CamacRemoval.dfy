/**
 Removing entries from the mapping (camshr/remove_entry.c:135-143, camshr/verbs.c:392-427),
 on the slots of the file and the two behind it.  In a full file the shift copies the
 first slot behind the file into the last one; this module says exactly when that matters.
 */
module CamacRemoval {
  import opened SortedFile

  /** The slots behind the last record that can still be read and written. */
  const TAIL: nat := 2

  /** Slots index+1 .. n move down by one; slot n+1 is blanked. */
  function RemoveAt<T>(slots: seq<T>, index: nat, n: nat, blank: T): (r: seq<T>)
    requires index < n && n + 1 < |slots|
    ensures |r| == |slots|
    ensures forall k :: 0 <= k < |slots| ==>
      r[k] == if k == n + 1 then blank else if index <= k < n then slots[k + 1] else slots[k]
  {
    (slots[..index] + slots[index + 1..n + 1] + slots[n..])[n + 1 := blank]
  }

  function Entries<T>(slots: seq<T>, capacity: nat, inUse: T -> bool): (n: nat)
    requires |slots| == capacity + TAIL
    ensures n <= capacity
  {
    Count(slots[..capacity], inUse)
  }

  /** One pass of the deletion loop, from entry i on; the number of entries is taken anew
      before every step. */
  function Scan<T>(slots: seq<T>, capacity: nat, i: nat, inUse: T -> bool, blank: T, gone: T -> bool): (r: seq<T>)
    requires |slots| == capacity + TAIL
    ensures |r| == |slots|
    decreases capacity - i
  {
    var n := Entries(slots, capacity, inUse);
    if i >= n then slots
    else Scan(if gone(slots[i]) then RemoveAt(slots, i, n, blank) else slots, capacity, i + 1, inUse, blank, gone)
  }

  /** k passes. */
  function Passes<T>(slots: seq<T>, capacity: nat, k: nat, inUse: T -> bool, blank: T, gone: T -> bool): (r: seq<T>)
    requires |slots| == capacity + TAIL
    ensures |r| == |slots|
    decreases k
  {
    if k == 0 then slots
    else Passes(Scan(slots, capacity, 0, inUse, blank, gone), capacity, k - 1, inUse, blank, gone)
  }

  // ------------------------------------------------- when a removal is right

  /** A valid file whose next removal will be right: it has a free slot, or the slot behind
      it happens to be blank. */
  ghost predicate Sound<T>(l: Layout<T>, slots: seq<T>, capacity: nat) {
    && |slots| == capacity + TAIL && ValidFile(l, slots[..capacity])
    && (Entries(slots, capacity, l.inUse) < capacity || slots[capacity] == l.blank)
  }

  /** What a wrong removal leaves, and every later removal keeps: the record from behind the
      file stands where a blank should. */
  ghost predicate Spoiled<T>(l: Layout<T>, slots: seq<T>, capacity: nat, junk: T) {
    && |slots| == capacity + TAIL && capacity > 0 && junk != l.blank
    && var n := Entries(slots, capacity, l.inUse);
      if l.inUse(junk) then n == capacity && slots[capacity - 1] == slots[capacity] == junk
      else n < capacity && slots[n] == junk
  }

  lemma RemovedFile<T>(l: Layout<T>, slots: seq<T>, capacity: nat, i: nat)
    requires Sound(l, slots, capacity) && i < Entries(slots, capacity, l.inUse)
    ensures RemoveAt(slots, i, Entries(slots, capacity, l.inUse), l.blank)[..capacity]
         == Removed(l, slots[..capacity], i)
  {
    var n := Entries(slots, capacity, l.inUse);
    var f, g := RemoveAt(slots, i, n, l.blank)[..capacity], Removed(l, slots[..capacity], i);
    forall k | n <= k < capacity ensures slots[k] == l.blank {
      assert slots[k] == slots[..capacity][k];
    }
    forall k | 0 <= k < capacity ensures f[k] == g[k] {
      assert g[k] == if k == capacity - 1 then l.blank else if k < i then slots[k] else slots[k + 1];
    }
  }

  lemma SoundRemoval<T(!new)>(l: Layout<T>, slots: seq<T>, capacity: nat, i: nat)
    requires Lawful(l) && Sound(l, slots, capacity) && i < Entries(slots, capacity, l.inUse)
    ensures var r := RemoveAt(slots, i, Entries(slots, capacity, l.inUse), l.blank);
      && r[..capacity] == Removed(l, slots[..capacity], i) && Sound(l, r, capacity)
      && Live(l, r[..capacity]) == Without(Live(l, slots[..capacity]), i)
  {
    RemovedFile(l, slots, capacity, i);
    RemovedLive(l, slots[..capacity], i);
    var r := RemoveAt(slots, i, Entries(slots, capacity, l.inUse), l.blank);
    assert Entries(r, capacity, l.inUse) == |Live(l, r[..capacity])|;
  }

  lemma {:induction false} SoundScan<T(!new)>(l: Layout<T>, slots: seq<T>, capacity: nat, i: nat, gone: T -> bool)
    requires Lawful(l) && Sound(l, slots, capacity)
    ensures var r := Scan(slots, capacity, i, l.inUse, l.blank, gone);
      Sound(l, r, capacity) && Live(l, r[..capacity]) == Pass(Live(l, slots[..capacity]), i, gone)
    decreases capacity - i
  {
    var n := Entries(slots, capacity, l.inUse);
    assert n == |Live(l, slots[..capacity])|;
    if i < n {
      if gone(slots[i]) {
        SoundRemoval(l, slots, capacity, i);
        SoundScan(l, RemoveAt(slots, i, n, l.blank), capacity, i + 1, gone);
      } else {
        SoundScan(l, slots, capacity, i + 1, gone);
      }
    }
  }

  lemma {:induction false} SoundPasses<T(!new)>(l: Layout<T>, slots: seq<T>, capacity: nat, k: nat, gone: T -> bool)
    requires Lawful(l) && Sound(l, slots, capacity)
    requires MatchCount(Live(l, slots[..capacity]), gone) <= k
    ensures var r := Passes(slots, capacity, k, l.inUse, l.blank, gone);
      Sound(l, r, capacity) && Live(l, r[..capacity]) == Keep(Live(l, slots[..capacity]), gone)
    decreases k
  {
    PassReducesMatches(Live(l, slots[..capacity]), gone);
    if k > 0 {
      SoundScan(l, slots, capacity, 0, gone);
      SoundPasses(l, Scan(slots, capacity, 0, l.inUse, l.blank, gone), capacity, k - 1, gone);
    }
  }

  // ------------------------------------------------- when a removal is wrong

  /** A removal that copies junk down from behind the last entry. */
  lemma JunkComesDown<T>(l: Layout<T>, slots: seq<T>, capacity: nat, i: nat, junk: T)
    requires |slots| == capacity + TAIL && junk != l.blank
    requires var n := Entries(slots, capacity, l.inUse); i < n && slots[n] == junk && (l.inUse(junk) ==> n == capacity)
    ensures Spoiled(l, RemoveAt(slots, i, Entries(slots, capacity, l.inUse), l.blank), capacity, junk)
  {
    var n := Entries(slots, capacity, l.inUse);
    var file := RemoveAt(slots, i, n, l.blank)[..capacity];
    forall k | 0 <= k < n - 1 ensures l.inUse(file[k]) {
      assert file[k] == slots[..capacity][if k < i then k else k + 1];
    }
    assert file[n - 1] == junk;
    CountIs(file, l.inUse, if l.inUse(junk) then n else n - 1);
  }

  lemma {:induction false} SpoiledScan<T>(l: Layout<T>, slots: seq<T>, capacity: nat, i: nat, gone: T -> bool, junk: T)
    requires Spoiled(l, slots, capacity, junk)
    ensures Spoiled(l, Scan(slots, capacity, i, l.inUse, l.blank, gone), capacity, junk)
    decreases capacity - i
  {
    var n := Entries(slots, capacity, l.inUse);
    if i < n {
      if gone(slots[i]) {
        JunkComesDown(l, slots, capacity, i, junk);
        SpoiledScan(l, RemoveAt(slots, i, n, l.blank), capacity, i + 1, gone, junk);
      } else {
        SpoiledScan(l, slots, capacity, i + 1, gone, junk);
      }
    }
  }

  lemma {:induction false} SpoiledPasses<T>(l: Layout<T>, slots: seq<T>, capacity: nat, k: nat, gone: T -> bool,
      junk: T)
    requires Spoiled(l, slots, capacity, junk)
    ensures Spoiled(l, Passes(slots, capacity, k, l.inUse, l.blank, gone), capacity, junk)
    decreases k
  {
    if k > 0 {
      SpoiledScan(l, slots, capacity, 0, gone, junk);
      SpoiledPasses(l, Scan(slots, capacity, 0, l.inUse, l.blank, gone), capacity, k - 1, gone, junk);
    }
  }

  /** A pass over a full file with something else than a blank behind it: the first match
      spoils it. */
  lemma {:induction false} FirstMatchSpoils<T>(l: Layout<T>, slots: seq<T>, capacity: nat, i: nat, gone: T -> bool)
    requires |slots| == capacity + TAIL && slots[capacity] != l.blank
    requires Entries(slots, capacity, l.inUse) == capacity
    requires exists k :: i <= k < capacity && gone(slots[k])
    ensures Spoiled(l, Scan(slots, capacity, i, l.inUse, l.blank, gone), capacity, slots[capacity])
    decreases capacity - i
  {
    if gone(slots[i]) {
      JunkComesDown(l, slots, capacity, i, slots[capacity]);
      SpoiledScan(l, RemoveAt(slots, i, capacity, l.blank), capacity, i + 1, gone, slots[capacity]);
    } else {
      FirstMatchSpoils(l, slots, capacity, i + 1, gone);
    }
  }

  /** The file with the matches gone has a blank where a spoiled file has the junk. */
  lemma SpoiledIsWrong<T(!new)>(l: Layout<T>, slots: seq<T>, capacity: nat, file: seq<T>, gone: T -> bool, junk: T)
    requires Lawful(l) && Spoiled(l, slots, capacity, junk)
    requires ValidFile(l, file) && MatchCount(Live(l, file), gone) > 0
    ensures slots[..capacity] != Deassigned(l, file, gone)
  {
    var kept := Keep(Live(l, file), gone);
    KeepSorted(l, Live(l, file), gone);
    MakeValid(l, kept, |file| - |kept|);
    assert Deassigned(l, file, gone)[|kept|] == l.blank;
    assert Count(Deassigned(l, file, gone), l.inUse) == |kept|;
  }

  lemma DeassignSound<T(!new)>(l: Layout<T>, slots: seq<T>, capacity: nat, gone: T -> bool)
    requires Lawful(l) && Sound(l, slots, capacity)
    ensures var file := slots[..capacity];
      var r := Passes(slots, capacity, MatchCount(Live(l, file), gone), l.inUse, l.blank, gone);
      ValidFile(l, r[..capacity]) && r[..capacity] == Deassigned(l, file, gone)
  {
    var matches := MatchCount(Live(l, slots[..capacity]), gone);
    SoundPasses(l, slots, capacity, matches, gone);
    SplitValid(l, Passes(slots, capacity, matches, l.inUse, l.blank, gone)[..capacity]);
  }

  lemma DeassignWrong<T(!new)>(l: Layout<T>, slots: seq<T>, capacity: nat, gone: T -> bool)
    requires Lawful(l) && |slots| == capacity + TAIL && ValidFile(l, slots[..capacity])
    requires Entries(slots, capacity, l.inUse) == capacity && slots[capacity] != l.blank
    requires MatchCount(Live(l, slots[..capacity]), gone) > 0
    ensures var file := slots[..capacity];
      var r := Passes(slots, capacity, MatchCount(Live(l, file), gone), l.inUse, l.blank, gone);
      r[..capacity] != Deassigned(l, file, gone)
  {
    var file, junk := slots[..capacity], slots[capacity];
    var matches := MatchCount(Live(l, file), gone);
    NothingMatches(Live(l, file), gone);
    var k :| 0 <= k < capacity && gone(Live(l, file)[k]);
    assert gone(slots[k]);
    FirstMatchSpoils(l, slots, capacity, 0, gone);
    var first := Scan(slots, capacity, 0, l.inUse, l.blank, gone);
    SpoiledPasses(l, first, capacity, matches - 1, gone, junk);
    SpoiledIsWrong(l, Passes(first, capacity, matches - 1, l.inUse, l.blank, gone), capacity, file, gone, junk);
  }

  /** deassign leaves exactly the entries that do not match, in their order, when and only
      when the file had a free slot, or the slot behind it was blank, or nothing matched. */
  lemma DeassignExactly<T(!new)>(l: Layout<T>, slots: seq<T>, capacity: nat, gone: T -> bool)
    requires Lawful(l) && |slots| == capacity + TAIL && ValidFile(l, slots[..capacity])
    ensures var file, n := slots[..capacity], Entries(slots, capacity, l.inUse);
      var matches := MatchCount(Live(l, file), gone);
      Passes(slots, capacity, matches, l.inUse, l.blank, gone)[..capacity] == Deassigned(l, file, gone)
      <==> n < capacity || slots[capacity] == l.blank || matches == 0
  {
    var file := slots[..capacity];
    var matches := MatchCount(Live(l, file), gone);
    if Sound(l, slots, capacity) {
      DeassignSound(l, slots, capacity, gone);
    } else if matches == 0 {
      PassReducesMatches(Live(l, file), gone);
      SplitValid(l, file);
    } else {
      DeassignWrong(l, slots, capacity, gone);
    }
  }

  /** remove_entry on one entry, in the same terms. */
  lemma RemovalExactly<T>(l: Layout<T>, slots: seq<T>, capacity: nat, i: nat)
    requires |slots| == capacity + TAIL && ValidFile(l, slots[..capacity])
    requires i < Entries(slots, capacity, l.inUse)
    ensures var n := Entries(slots, capacity, l.inUse);
      RemoveAt(slots, i, n, l.blank)[..capacity] == Removed(l, slots[..capacity], i)
      <==> n < capacity || slots[capacity] == l.blank
  {
    var n := Entries(slots, capacity, l.inUse);
    if Sound(l, slots, capacity) {
      RemovedFile(l, slots, capacity, i);
    } else {
      assert RemoveAt(slots, i, n, l.blank)[..capacity][capacity - 1] == slots[capacity];
      assert Removed(l, slots[..capacity], i)[capacity - 1] == l.blank;
    }
  }
}
