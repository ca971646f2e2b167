/**
 Making a node name from an HDF5 name (hdf5/hdf5ToMds.c:58-137): the name is cleaned in a
 character buffer, and if the tree has it already its last characters are overwritten
 with a running number until a free name is found.
 */
module NodeNames {
  import opened Basics
  import opened CStrings

  const SEPARATED: nat := 13      // separator and twelve characters

  predicate IsLetter(c: char) { 'A' <= c <= 'Z' || 'a' <= c <= 'z' }

  predicate NameChar(c: char) { 'A' <= c <= 'Z' || '0' <= c <= '9' || c == '_' }

  /** A name the tree library takes: separator, a letter, at most twelve characters. */
  ghost predicate NodeName(n: string) {
    && 2 <= |n| <= SEPARATED && (n[0] == ':' || n[0] == '.')
    && 'A' <= n[1] <= 'Z' && forall i :: 1 <= i < |n| ==> NameChar(n[i])
  }

  /** The part of s from its first letter on. */
  function FromLetter(s: string): (r: string)
    ensures r == [] || IsLetter(r[0])
    ensures |r| <= |s|
    ensures NulFree(s) ==> NulFree(r)
  {
    if s == [] || IsLetter(s[0]) then s
    else
      assert s == [s[0]] + s[1..];
      FromLetter(s[1..])
  }

  function CleanChar(c: char): (r: char)
    ensures NameChar(r)
    ensures IsLetter(c) ==> 'A' <= r <= 'Z'
  {
    var u := ToUpper(c);
    if NameChar(u) then u else '_'
  }

  function CleanAll(s: string): (r: string)
    ensures |r| == |s| && forall i :: 0 <= i < |s| ==> r[i] == CleanChar(s[i])
  {
    seq(|s|, i requires 0 <= i < |s| => CleanChar(s[i]))
  }

  function Separator(structure: bool): char { if structure then '.' else ':' }

  /** The first name tried. */
  function Cleaned(h5name: string, structure: bool): string {
    var letters := FromLetter(h5name);
    var word := if letters == [] then "ITEM" else letters;
    [Separator(structure)] + CleanAll(if |word| > 12 then word[..12] else word)
  }

  /** A letter: its upper case is one of A to Z. */
  predicate Alphabetic(c: char) { 'A' <= ToUpper(c) <= 'Z' }

  /** What is written for a character: a letter in upper case, a digit or an underscore as it
      is, an underscore for everything else. */
  predicate Written(c: char, r: char) {
    if Alphabetic(c) then r == ToUpper(c)
    else if '0' <= c <= '9' then r == c
    else r == '_'
  }

  /** The word of a name starts at position j, the first letter. */
  ghost predicate WordAt(h5name: string, cleaned: string, j: nat) {
    && j < |h5name| && Alphabetic(h5name[j]) && (forall i :: 0 <= i < j ==> !Alphabetic(h5name[i]))
    && |cleaned| == 1 + (if |h5name| - j < 12 then |h5name| - j else 12)
    && forall i :: 1 <= i < |cleaned| ==> Written(h5name[j + i - 1], cleaned[i])
  }

  lemma {:induction false} FirstLetter(s: string) returns (j: nat)
    ensures j <= |s| && FromLetter(s) == s[j..]
    ensures forall i :: 0 <= i < j ==> !Alphabetic(s[i])
    ensures j < |s| ==> Alphabetic(s[j])
  {
    j := 0;
    if s != [] && !IsLetter(s[0]) {
      j := FirstLetter(s[1..]);
      j := j + 1;
    }
  }

  lemma CharWritten(c: char)
    ensures Written(c, CleanChar(c))
  {
  }

  lemma FoundWord(h5name: string, word: string, sep: char, j: nat)
    requires j < |h5name| && Alphabetic(h5name[j]) && forall i :: 0 <= i < j ==> !Alphabetic(h5name[i])
    requires word == (if |h5name| - j > 12 then h5name[j..][..12] else h5name[j..])
    ensures WordAt(h5name, [sep] + CleanAll(word), j)
  {
    var c := [sep] + CleanAll(word);
    forall i | 1 <= i < |c| ensures Written(h5name[j + i - 1], c[i]) {
      assert c[i] == CleanChar(word[i - 1]);
      CharWritten(word[i - 1]);
    }
  }

  /** The first name tried, character by character: '.' for a structure and ':' otherwise, and
      then up to twelve characters from the first letter on; ITEM if there is no letter. */
  lemma CleanedSays(h5name: string, structure: bool) returns (j: nat)
    ensures var c := Cleaned(h5name, structure);
      && c != [] && (if structure then c[0] == '.' else c[0] == ':')
      && if j < |h5name| then WordAt(h5name, c, j)
         else c[1..] == "ITEM" && forall i :: 0 <= i < |h5name| ==> !Alphabetic(h5name[i])
  {
    j := FirstLetter(h5name);
    if j < |h5name| {
      var word := FromLetter(h5name);
      FoundWord(h5name, if |word| > 12 then word[..12] else word, Separator(structure), j);
    } else {
      assert CleanAll("ITEM") == "ITEM";
    }
  }

  lemma CleanedIsNodeName(h5name: string, structure: bool)
    ensures NodeName(Cleaned(h5name, structure))
  {
  }

  /** A name that is valid already is tried as it is, in upper case. */
  lemma ValidNameIsKept(h5name: string, structure: bool)
    requires 1 <= |h5name| <= 12 && IsLetter(h5name[0])
    requires forall i :: 0 <= i < |h5name| ==> NameChar(ToUpper(h5name[i]))
    ensures Cleaned(h5name, structure) == [Separator(structure)] + Upcase(h5name)
  {
    assert CleanAll(h5name) == Upcase(h5name);
  }

  /** The last w decimal digits of n. */
  function Digits(n: nat, w: nat): (s: string)
    ensures |s| == w && forall i :: 0 <= i < w ==> '0' <= s[i] <= '9'
  {
    if w == 0 then "" else Digits(n / 10, w - 1) + [('0' as int + n % 10) as char]
  }

  lemma {:induction false} DigitsInjective(a: nat, b: nat, w: nat, bound: nat)
    requires a < bound && b < bound && bound == Pow10(w)
    requires Digits(a, w) == Digits(b, w)
    ensures a == b
  {
    if w > 0 {
      var x, y := Digits(a, w), Digits(b, w);
      assert x[..w - 1] == Digits(a / 10, w - 1) && y[..w - 1] == Digits(b / 10, w - 1);
      assert x[w - 1] == y[w - 1];
      DigitsInjective(a / 10, b / 10, w - 1, bound / 10);
    }
  }

  // ---------------------------------------------------------------- the loop

  datatype Status = Added | AlreadyThere | Refused

  /** What the tree library answers: the names it has, and whether it takes a new one. */
  datatype Tree = Tree(names: set<string>, takes: string -> bool) {
    function Add(name: string): Status {
      if name in names then AlreadyThere else if takes(name) then Added else Refused
    }
  }

  datatype Outcome = Made(name: string) | NotTaken(name: string) | GaveUp

  /** The name in the buffer. */
  ghost function InBuffer(buffer: array<char>, len: nat): string
    requires len <= buffer.Length
    reads buffer
  {
    buffer[..len]
  }

  /** The word behind the separator, cut to twelve characters; the buffer always has room. */
  method CopyWord(word: string, separator: char, memlen: nat) returns (buffer: array<char>, len: nat)
    requires memlen >= SEPARATED + 1 && memlen >= |word| + 2
    ensures fresh(buffer) && buffer.Length == memlen && len == (if |word| > 12 then 12 else |word|) + 1
    ensures InBuffer(buffer, len) == [separator] + word[..len - 1] && buffer[len] == NUL
  {
    buffer := new char[memlen];
    buffer[0] := separator;
    for k := 0 to |word|
      invariant buffer[..k + 1] == [separator] + word[..k]
    {
      buffer[k + 1] := word[k];
    }
    len := |word| + 1;
    assert word[..|word|] == word;
    buffer[len] := NUL;
    ghost var whole := buffer[..len];
    assert whole == [separator] + word;
    if len > SEPARATED {
      buffer[SEPARATED] := NUL;
      len := SEPARATED;
      assert buffer[..len] == whole[..len];
    }
    assert ([separator] + word)[..len] == [separator] + word[..len - 1];
  }

  method CleanBuffer(buffer: array<char>, len: nat)
    requires 1 <= len < buffer.Length
    modifies buffer
    ensures InBuffer(buffer, len) == [old(buffer[0])] + CleanAll(old(buffer[1..len])) && buffer[len] == old(buffer[len])
  {
    for i := 1 to len
      invariant buffer[0] == old(buffer[0])
      invariant forall k :: 1 <= k < i ==> buffer[k] == CleanChar(old(buffer[k]))
      invariant forall k :: i <= k < buffer.Length ==> buffer[k] == old(buffer[k])
    {
      buffer[i] := CleanChar(buffer[i]);
    }
  }

  /** Everything before the first attempt. */
  method Prepare(h5name: string, structure: bool) returns (buffer: array<char>, len: nat)
    requires NulFree(h5name)
    ensures fresh(buffer) && buffer.Length >= SEPARATED + 1
    ensures len <= SEPARATED && InBuffer(buffer, len) == Cleaned(h5name, structure) && buffer[len] == NUL
  {
    var memlen := (if |h5name| < 12 then 12 else |h5name|) + 2;
    var letters := FromLetter(h5name);
    var word := if letters == [] then "ITEM" else letters;
    buffer, len := CopyWord(word, Separator(structure), memlen);
    assert buffer[..len][1..] == buffer[1..len] && buffer[..len][0] == buffer[0];
    CleanBuffer(buffer, len);
    assert word[..len - 1] == if |word| > 12 then word[..12] else word;
  }

  /** sprintf of a number of w digits over the end of a full name. */
  method WriteDigits(buffer: array<char>, n: nat, w: nat)
    requires buffer.Length > SEPARATED && w <= SEPARATED
    modifies buffer
    ensures InBuffer(buffer, SEPARATED) == old(InBuffer(buffer, SEPARATED))[..SEPARATED - w] + Digits(n, w)
  {
    var d := Digits(n, w);
    for k := 0 to w
      invariant buffer[..SEPARATED] == old(buffer[..SEPARATED])[..SEPARATED - w] + d[..k]
                                       + old(buffer[..SEPARATED])[SEPARATED - w + k..]
    {
      buffer[SEPARATED - w + k] := d[k];
    }
    buffer[SEPARATED] := NUL;
  }

  /** Fills a short name up with zeros to twelve characters, the last one a 1. */
  method PadName(buffer: array<char>, len: nat)
    requires 1 <= len < SEPARATED < buffer.Length
    modifies buffer
    ensures InBuffer(buffer, SEPARATED) == Padded(old(InBuffer(buffer, len)))
  {
    for k := len to SEPARATED
      invariant buffer[..len] == old(buffer[..len])
      invariant forall i :: len <= i < k ==> buffer[i] == '0'
    {
      buffer[k] := '0';
    }
    buffer[SEPARATED - 1] := '1';
    buffer[SEPARATED] := NUL;
  }

  function Padded(name: string): (r: string)
    requires 1 <= |name| < SEPARATED
    ensures |r| == SEPARATED
  {
    name + seq(SEPARATED - 1 - |name|, _ => '0') + "1"
  }

  /** How many digits number idx is written with. */
  function Width(idx: nat): nat { if idx < 10 then 1 else if idx < 100 then 2 else if idx < 1000 then 3 else 4 }

  /** Overwriting the end of a full name with digits leaves a valid name. */
  lemma NumberedIsNodeName(name: string, n: nat, w: nat)
    requires NodeName(name) && |name| == SEPARATED && w <= 4
    ensures NodeName(name[..SEPARATED - w] + Digits(n, w))
    ensures (name[..SEPARATED - w] + Digits(n, w))[..9] == name[..9]
  {
  }

  lemma PaddedIsNodeName(name: string)
    requires NodeName(name) && |name| < SEPARATED
    ensures NodeName(Padded(name))
  {
  }

  /** Distinct elements of a set are at most as many as the set. */
  lemma {:induction false} DistinctInSet<T>(s: seq<T>, all: set<T>)
    requires forall i :: 0 <= i < |s| ==> s[i] in all
    requires forall i, j :: 0 <= i < j < |s| ==> s[i] != s[j]
    ensures |s| <= |all|
  {
    if s != [] {
      DistinctInSet(s[1..], all - {s[0]});
    }
  }

  /** The name tried after name, when idx is the next number. */
  function Renamed(name: string, idx: nat): (r: string)
    requires 1 <= |name| <= SEPARATED
    ensures |r| == SEPARATED
  {
    if |name| < SEPARATED then Padded(name) else name[..SEPARATED - Width(idx)] + Digits(idx, Width(idx))
  }

  /** Attempt number k: a short name is padded first, a full name gets the next number,
      counted from 1, written over its end. */
  function Attempt(first: string, k: nat): (r: string)
    requires 1 <= |first| <= SEPARATED
    ensures 1 <= |r| <= SEPARATED && (k > 0 ==> |r| == SEPARATED)
  {
    if k == 0 then first else Renamed(Attempt(first, k - 1), NextNumber(first, k - 1))
  }

  /** The number idx stands at while attempt k is made. */
  function NextNumber(first: string, k: nat): nat {
    if |first| < SEPARATED && k > 0 then k else k + 1
  }

  /** The attempt after which there is no number left. */
  function LastAttempt(first: string): nat { if |first| < SEPARATED then 10000 else 9999 }

  /** The attempts from number k on: the first name the tree does not have is offered to it. */
  function Search(first: string, tree: Tree, k: nat): Outcome
    requires 1 <= |first| <= SEPARATED && k <= LastAttempt(first)
    decreases LastAttempt(first) - k
  {
    var name := Attempt(first, k);
    if name !in tree.names then if tree.takes(name) then Made(name) else NotTaken(name)
    else if k == LastAttempt(first) then GaveUp
    else Search(first, tree, k + 1)
  }

  /** Every attempt is a valid name. */
  lemma {:induction false} AttemptIsNodeName(first: string, k: nat)
    requires NodeName(first)
    ensures NodeName(Attempt(first, k))
  {
    if k > 0 {
      var name, idx := Attempt(first, k - 1), NextNumber(first, k - 1);
      AttemptIsNodeName(first, k - 1);
      if |name| < SEPARATED { PaddedIsNodeName(name); } else { NumberedIsNodeName(name, idx, Width(idx)); }
    }
  }

  /** The number a string of digits stands for. */
  function NumberOf(s: string): int {
    if s == "" then 0 else 10 * NumberOf(s[..|s| - 1]) + (s[|s| - 1] as int - '0' as int)
  }

  lemma {:induction false} DigitsDenote(n: nat, w: nat, bound: nat)
    requires bound == Pow10(w) && n < bound
    ensures NumberOf(Digits(n, w)) == n
  {
    if w > 0 {
      assert Digits(n, w)[..w - 1] == Digits(n / 10, w - 1);
      DigitsDenote(n / 10, w - 1, bound / 10);
    }
  }

  /** A name is prev with a number over its last w characters, written without leading zeros. */
  ghost predicate EndsInNumber(name: string, prev: string, n: int, w: nat) {
    && 1 <= w <= 4 && |name| == |prev| == SEPARATED && name[..SEPARATED - w] == prev[..SEPARATED - w]
    && NumberOf(name[SEPARATED - w..]) == n && (w == 1 || name[SEPARATED - w] != '0')
  }

  ghost predicate Numbered(name: string, prev: string, n: int) {
    exists w: nat :: EndsInNumber(name, prev, n, w)
  }

  lemma {:induction false} LeadingDigit(n: nat, w: nat, low: nat)
    requires w >= 1 && low == Pow10(w - 1) && low <= n < 10 * low
    ensures Digits(n, w)[0] != '0'
  {
    if w > 1 {
      assert Digits(n, w)[..w - 1] == Digits(n / 10, w - 1);
      LeadingDigit(n / 10, w - 1, low / 10);
    }
  }

  lemma WidthFits(n: nat, w: nat)
    requires 1 <= n <= 9999 && w == Width(n)
    ensures Pow10(w - 1) <= n < Pow10(w) == 10 * Pow10(w - 1)
  {
    assert Pow10(0 + 1) == 10 * Pow10(0);
    assert Pow10(1 + 1) == 10 * Pow10(1);
    assert Pow10(2 + 1) == 10 * Pow10(2);
    assert Pow10(3 + 1) == 10 * Pow10(3);
  }

  lemma RenamedIsNumbered(prev: string, n: nat, w: nat)
    requires |prev| == SEPARATED && 1 <= n <= 9999 && w == Width(n)
    ensures Numbered(Renamed(prev, n), prev, n)
  {
    var r := Renamed(prev, n);
    WidthFits(n, w);
    DigitsDenote(n, w, Pow10(w));
    LeadingDigit(n, w, Pow10(w - 1));
    assert r[SEPARATED - w..] == Digits(n, w);
    assert EndsInNumber(r, prev, n, w);
  }

  /** What the retry loop tries: a short name is first filled up with zeros and a final 1; from
      then on, and for a full name from the start, each attempt is the one before with the
      next number, counted from 1, written over its end. */
  lemma AttemptsAreNumbered(first: string, k: nat)
    requires 1 <= |first| <= SEPARATED && k < LastAttempt(first)
    ensures |first| < SEPARATED && k == 0 ==> var r := Attempt(first, 1);
      first < r && r[SEPARATED - 1] == '1' && forall i :: |first| <= i < SEPARATED - 1 ==> r[i] == '0'
    ensures |first| < SEPARATED && k > 0 ==> Numbered(Attempt(first, k + 1), Attempt(first, k), k)
    ensures |first| == SEPARATED ==> Numbered(Attempt(first, k + 1), Attempt(first, k), k + 1)
  {
    var prev, n := Attempt(first, k), NextNumber(first, k);
    if |prev| == SEPARATED {
      RenamedIsNumbered(prev, n, Width(n));
    }
  }

  /** The first nine characters stay what they were when the name became full. */
  lemma {:induction false} FrontIsKept(first: string, k: nat)
    requires 1 <= |first| <= SEPARATED && (|first| < SEPARATED ==> k > 0)
    ensures Attempt(first, k)[..9] == Attempt(first, if |first| < SEPARATED then 1 else 0)[..9]
  {
    if k > (if |first| < SEPARATED then 1 else 0) {
      FrontIsKept(first, k - 1);
      var name := Attempt(first, k - 1);
      var w := Width(NextNumber(first, k - 1));
      assert (name[..SEPARATED - w] + Digits(NextNumber(first, k - 1), w))[..9] == name[..9];
    }
  }

  /** The attempt made with the four-digit number m. */
  function AttemptWith(first: string, m: nat): nat { if |first| < SEPARATED then m + 1 else m }

  lemma FourDigitAttempt(first: string, m: nat)
    requires 1 <= |first| <= SEPARATED && 1000 <= m <= 9999
    ensures AttemptWith(first, m) <= LastAttempt(first)
    ensures Attempt(first, AttemptWith(first, m)) ==
      Attempt(first, if |first| < SEPARATED then 1 else 0)[..9] + Digits(m, 4)
  {
    var k := AttemptWith(first, m) - 1;
    assert NextNumber(first, k) == m && Width(m) == 4;
    FrontIsKept(first, k);
  }

  lemma FourDigitAttemptsDiffer(first: string, a: nat, b: nat)
    requires 1 <= |first| <= SEPARATED && 1000 <= a < b <= 9999
    ensures Attempt(first, AttemptWith(first, a)) != Attempt(first, AttemptWith(first, b))
  {
    FourDigitAttempt(first, a);
    FourDigitAttempt(first, b);
    var x, y := Attempt(first, AttemptWith(first, a)), Attempt(first, AttemptWith(first, b));
    if x == y {
      assert Digits(a, 4) == x[9..] == y[9..] == Digits(b, 4);
      var w: nat := 4;
      assert Pow10(w) == 10000;
      DigitsInjective(a, b, w, 10000);
    }
  }

  function FourDigitAttempts(first: string): (s: seq<string>)
    requires 1 <= |first| <= SEPARATED
    ensures |s| == 9000 && forall i :: 0 <= i < |s| ==> s[i] == Attempt(first, AttemptWith(first, 1000 + i))
  {
    seq(9000, i requires 0 <= i < 9000 => Attempt(first, AttemptWith(first, 1000 + i)))
  }

  lemma AttemptsDistinct(first: string)
    requires 1 <= |first| <= SEPARATED
    ensures var s := FourDigitAttempts(first); forall i, j :: 0 <= i < j < |s| ==> s[i] != s[j]
  {
    var s := FourDigitAttempts(first);
    forall i, j | 0 <= i < j < |s| ensures s[i] != s[j] {
      FourDigitAttemptsDiffer(first, 1000 + i, 1000 + j);
    }
  }

  /** If every attempt was in vain, the tree has at least nine thousand names. */
  lemma ManyNames(first: string, names: set<string>)
    requires 1 <= |first| <= SEPARATED
    requires forall k :: 0 <= k <= LastAttempt(first) ==> Attempt(first, k) in names
    ensures |names| >= 9000
  {
    var s := FourDigitAttempts(first);
    forall i | 0 <= i < |s| ensures s[i] in names {
      var k := AttemptWith(first, 1000 + i);
      assert k <= LastAttempt(first);
    }
    AttemptsDistinct(first);
    DistinctInSet(s, names);
  }

  /** Attempt r is where the search ends: all before it are taken. */
  ghost predicate EndsAt(first: string, tree: Tree, outcome: Outcome, r: nat)
    requires 1 <= |first| <= SEPARATED
  {
    && r <= LastAttempt(first)
    && (forall k :: 0 <= k < r ==> Attempt(first, k) in tree.names)
    && match outcome
       case Made(name) => name == Attempt(first, r) && name !in tree.names && tree.takes(name)
       case NotTaken(name) => name == Attempt(first, r) && name !in tree.names && !tree.takes(name)
       case GaveUp => r == LastAttempt(first) && Attempt(first, r) in tree.names && |tree.names| >= 9000
  }

  /** The search makes at most 10000 further attempts; the name it ends with is new to the
      tree, and it gives up only in a tree with thousands of names. */
  lemma {:induction false} SearchEnds(first: string, tree: Tree, k: nat) returns (r: nat)
    requires 1 <= |first| <= SEPARATED && k <= LastAttempt(first)
    requires forall j :: 0 <= j < k ==> Attempt(first, j) in tree.names
    ensures k <= r <= 10000 && EndsAt(first, tree, Search(first, tree, k), r)
    decreases LastAttempt(first) - k
  {
    r := k;
    if Attempt(first, k) in tree.names {
      if k == LastAttempt(first) {
        ManyNames(first, tree.names);
      } else {
        r := SearchEnds(first, tree, k + 1);
      }
    }
  }

  /** The body of the retry loop: pad a short name, else write the next number over its end. */
  method Rename(buffer: array<char>, len: nat, idx: nat)
    requires 1 <= len <= SEPARATED < buffer.Length
    modifies buffer
    ensures InBuffer(buffer, SEPARATED) == Renamed(old(InBuffer(buffer, len)), idx)
  {
    if len < SEPARATED {
      PadName(buffer, len);
    } else if idx < 10 {
      WriteDigits(buffer, idx, 1);
    } else if idx < 100 {
      WriteDigits(buffer, idx, 2);
    } else if idx < 1000 {
      WriteDigits(buffer, idx, 3);
    } else {
      WriteDigits(buffer, idx, 4);
    }
  }

  /** Adds a node under a name made from the HDF5 name; SearchEnds says what the search is
      good for. */
  method AddNode(h5name: string, structure: bool, tree: Tree) returns (outcome: Outcome)
    requires NulFree(h5name)
    ensures 1 <= |Cleaned(h5name, structure)| <= SEPARATED
    ensures outcome == Search(Cleaned(h5name, structure), tree, 0)
  {
    var buffer, len := Prepare(h5name, structure);
    ghost var first, k := Cleaned(h5name, structure), 0;
    var idx := 1;
    var status := tree.Add(buffer[..len]);
    while status == AlreadyThere
      invariant fresh(buffer) && 1 <= len <= SEPARATED < buffer.Length && k <= LastAttempt(first)
      invariant InBuffer(buffer, len) == Attempt(first, k) && idx == NextNumber(first, k)
      invariant status == tree.Add(Attempt(first, k)) && Search(first, tree, k) == Search(first, tree, 0)
      decreases LastAttempt(first) - k
    {
      if len == SEPARATED && idx == 10000 {
        outcome := GaveUp;
        return;
      }
      Rename(buffer, len, idx);
      len, idx := SEPARATED, if len < SEPARATED then idx else idx + 1;
      k := k + 1;
      status := tree.Add(buffer[..len]);
    }
    outcome := if status == Added then Made(buffer[..len]) else NotTaken(buffer[..len]);
  }
}
