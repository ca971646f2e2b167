/**
 NUL-terminated strings and the case-insensitive comparisons of the repository
 (camshr/compare_str.c; strcasecmp of the C library).

 A C string is read from a stretch of memory: the characters before the first NUL.
 What comes after the NUL belongs to something else and is never looked at.
 */
module CStrings {
  const NUL: char := '\0'

  function ToUpper(c: char): (u: char) {
    if 'a' <= c <= 'z' then (c as int - 32) as char else c
  }

  function ToLower(c: char): (l: char) {
    if 'A' <= c <= 'Z' then (c as int + 32) as char else c
  }

  /** An upper-case letter and the same letter in lower case. */
  predicate Cases(upper: char, lower: char) {
    'A' <= upper <= 'Z' && lower as int - 'a' as int == upper as int - 'A' as int
  }

  /** Changing the case replaces a letter by its other case and nothing else, so it identifies
      the two cases of a letter and keeps all other characters apart. */
  lemma CaseIsAllThatIsLost(c: char, d: char)
    ensures ToUpper(c) == c || Cases(ToUpper(c), c)
    ensures ToLower(c) == c || Cases(c, ToLower(c))
    ensures ToUpper(c) == ToUpper(d) <==> c == d || Cases(c, d) || Cases(d, c)
    ensures ToLower(c) == ToLower(d) <==> c == d || Cases(c, d) || Cases(d, c)
  {
  }

  function Upcase(s: string): (r: string)
    ensures |r| == |s|
    ensures forall i :: 0 <= i < |s| ==> r[i] == ToUpper(s[i])
  {
    seq(|s|, i requires 0 <= i < |s| => ToUpper(s[i]))
  }

  function Downcase(s: string): (r: string)
    ensures |r| == |s|
    ensures forall i :: 0 <= i < |s| ==> r[i] == ToLower(s[i])
  {
    seq(|s|, i requires 0 <= i < |s| => ToLower(s[i]))
  }

  ghost predicate NulFree(s: string) {
    forall i :: 0 <= i < |s| ==> s[i] != NUL
  }

  ghost predicate Terminated(mem: seq<char>) { NUL in mem }

  /** What is in memory from some place on, up to a NUL and further. */
  type Memory = m: seq<char> | NUL in m witness [NUL]

  /** The length strlen finds. */
  function StrLen(mem: seq<char>): (n: nat)
    requires Terminated(mem)
    ensures n < |mem| && mem[n] == NUL && NulFree(mem[..n])
  {
    if mem[0] == NUL then 0
    else
      assert mem == [mem[0]] + mem[1..];
      var n := 1 + StrLen(mem[1..]);
      assert mem[..n] == [mem[0]] + mem[1..][..n - 1];
      n
  }

  /** The string stored at the start of mem. */
  function CString(mem: seq<char>): (s: string)
    requires Terminated(mem)
    ensures NulFree(s)
  {
    mem[..StrLen(mem)]
  }

  lemma CStringOf(s: string, rest: seq<char>)
    requires NulFree(s)
    ensures Terminated(s + [NUL] + rest) && CString(s + [NUL] + rest) == s
  {
    var mem := s + [NUL] + rest;
    assert mem[|s|] == NUL;
    assert forall i :: 0 <= i < |s| ==> mem[i] == s[i];
    assert mem[..|s|] == s;
  }

  // ------------------------------------------------------------------- order

  /** Lexicographic order, a proper prefix first: -1, 0 or 1. */
  function Order(a: string, b: string): (r: int)
    ensures -1 <= r <= 1
  {
    if a == [] then (if b == [] then 0 else -1)
    else if b == [] then 1
    else if a[0] < b[0] then -1
    else if a[0] > b[0] then 1
    else Order(a[1..], b[1..])
  }

  lemma {:induction false} OrderEqual(a: string, b: string)
    ensures Order(a, b) == 0 <==> a == b
  {
    if a != [] && b != [] && a[0] == b[0] {
      OrderEqual(a[1..], b[1..]);
      assert a == [a[0]] + a[1..] && b == [b[0]] + b[1..];
    }
  }

  lemma {:induction false} OrderAntisymmetric(a: string, b: string)
    ensures Order(a, b) == -Order(b, a)
  {
    if a != [] && b != [] && a[0] == b[0] {
      OrderAntisymmetric(a[1..], b[1..]);
    }
  }

  lemma {:induction false} OrderTransitive(a: string, b: string, c: string)
    requires Order(a, b) <= 0 && Order(b, c) <= 0
    ensures Order(a, c) <= 0
    ensures Order(a, b) < 0 || Order(b, c) < 0 ==> Order(a, c) < 0
  {
    if a != [] && b != [] && c != [] && a[0] == b[0] == c[0] {
      OrderTransitive(a[1..], b[1..], c[1..]);
    }
  }

  /** Order is decided at the first difference. */
  lemma {:induction false} OrderAtDifference(a: string, b: string, i: nat)
    requires i <= |a| && i <= |b| && a[..i] == b[..i]
    ensures i < |a| && i < |b| && a[i] < b[i] ==> Order(a, b) == -1
    ensures i < |a| && i < |b| && a[i] > b[i] ==> Order(a, b) == 1
    ensures i == |a| < |b| ==> Order(a, b) == -1
    ensures i == |b| < |a| ==> Order(a, b) == 1
  {
    if i > 0 {
      assert a[0] == a[..i][0] == b[..i][0] == b[0];
      assert a[1..][..i - 1] == a[..i][1..] && b[1..][..i - 1] == b[..i][1..];
      OrderAtDifference(a[1..], b[1..], i - 1);
    }
  }

  /** Two different strings have a first difference. */
  lemma {:induction false} FirstDifference(a: string, b: string) returns (i: nat)
    requires a != b
    ensures i <= |a| && i <= |b| && a[..i] == b[..i]
    ensures (i == |a| < |b|) || (i == |b| < |a|) || (i < |a| && i < |b| && a[i] != b[i])
  {
    i := 0;
    while i < |a| && i < |b| && a[i] == b[i]
      invariant i <= |a| && i <= |b| && a[..i] == b[..i]
    {
      i := i + 1;
    }
    assert a[..|a|] == a && b[..|b|] == b;
  }

  // --------------------------------------------------------------- comparison

  /** Case-insensitive comparison of the first n characters: the difference of the first
      two that differ.  For n the longer length, no character beyond either NUL is read. */
  method StrncmpNocase(s: seq<char>, t: seq<char>, n: nat) returns (diff: int)
    requires Terminated(s) && Terminated(t)
    requires n == if StrLen(s) >= StrLen(t) then StrLen(s) else StrLen(t)
    ensures Sign(diff) == Order(Upcase(CString(s)), Upcase(CString(t)))
  {
    ghost var a, b := Upcase(CString(s)), Upcase(CString(t));
    diff := 0;
    var k := 0;
    while k < n
      invariant k <= n && diff == 0
      invariant k <= |a| && k <= |b| && a[..k] == b[..k]
    {
      diff := ToUpper(s[k]) as int - ToUpper(t[k]) as int;
      if diff != 0 {
        OrderAtDifference(a, b, k);
        break;
      }
      if k == |a| || k == |b| {
        UpperIsNotNul(s[k], t[k]);
      }
      k := k + 1;
    }
    if diff == 0 {
      assert a == a[..k] && b == b[..k];
      OrderEqual(a, b);
    }
  }

  lemma UpperIsNotNul(c: char, d: char)
    ensures ToUpper(c) == NUL <==> c == NUL
    ensures ToUpper(d) == NUL <==> d == NUL
  {
  }

  function Sign(x: int): int { if x < 0 then -1 else if x > 0 then 1 else 0 }

  /** The comparison of the strings at two places in memory. */
  function StringOrder(key1: Memory, key2: Memory): int {
    Order(Upcase(CString(key1)), Upcase(CString(key2)))
  }

  /** compare_str: -1, 0 or 1 by the upper-cased strings. */
  method CompareStr(key1: seq<char>, key2: seq<char>) returns (r: int)
    requires Terminated(key1) && Terminated(key2)
    ensures r == StringOrder(key1, key2)
  {
    var length := if StrLen(key1) >= StrLen(key2) then StrLen(key1) else StrLen(key2);
    var retval := StrncmpNocase(key1, key2, length);
    if retval > 0 {
      r := 1;
    } else if retval < 0 {
      r := -1;
    } else {
      r := 0;
    }
  }
}
