/** Small facts that several components need. */
module Basics {
  function Pow10(n: nat): (p: nat)
    ensures p >= 1
  {
    if n == 0 then 1 else 10 * Pow10(n - 1)
  }

  lemma MulMono(a: int, b: int, c: int)
    requires 0 <= a && b <= c
    ensures a * b <= a * c
  {
  }

  /** An element at two positions is counted at least twice. */
  lemma Twice<T>(s: seq<T>, i: nat, j: nat)
    requires i < j < |s| && s[i] == s[j]
    ensures multiset(s)[s[i]] >= 2
  {
    assert s == s[..j] + [s[j]] + s[j + 1..];
    assert s[i] in s[..j];
  }

  /** A name without its trailing blanks. */
  function Trimmed(name: string): (r: string)
    ensures r <= name && (r == "" || r[|r| - 1] != ' ')
    ensures forall i :: |r| <= i < |name| ==> name[i] == ' '
  {
    if name != "" && name[|name| - 1] == ' ' then Trimmed(name[..|name| - 1]) else name
  }

  predicate EndsInBlank(name: string) {
    name != "" && name[|name| - 1] == ' '
  }

  /** A text is read back from a field that is filled up with blanks, unless it ends in one. */
  lemma {:induction false} TrimmedField(field: string, s: string)
    requires |s| <= |field| && forall i :: 0 <= i < |field| ==> field[i] == if i < |s| then s[i] else ' '
    requires !EndsInBlank(s)
    ensures Trimmed(field) == s
  {
    if |field| == |s| {
      assert field == s;
    } else {
      TrimmedField(field[..|field| - 1], s);
    }
  }
}
