/**
 The text codecs of the scope's setup file (dwscope/dwscopesubs.c:1087-1138): newlines
 are written as "|||" and read back.  Both work in two passes, one that counts and one
 that fills a buffer of exactly the counted size.
 */
module ScopeText {
  import opened CStrings

  const BARS: string := "|||"

  /** FixupLFS as a function. */
  function Encode(s: string): string {
    if s == [] then [] else (if s[0] == '\n' then BARS else [s[0]]) + Encode(s[1..])
  }

  predicate StartsWithBars(s: string) { |s| >= 3 && s[0] == '|' && s[1] == '|' && s[2] == '|' }

  /** FixupBARS as a function: bars are taken three at a time, from the left. */
  function Decode(s: string): string {
    if s == [] then []
    else if StartsWithBars(s) then ['\n'] + Decode(s[3..])
    else [s[0]] + Decode(s[1..])
  }

  function CountNewlines(s: string): nat {
    if s == [] then 0 else (if s[0] == '\n' then 1 else 0) + CountNewlines(s[1..])
  }

  function CountBars(s: string): nat {
    if s == [] then 0
    else if StartsWithBars(s) then 1 + CountBars(s[3..])
    else CountBars(s[1..])
  }

  // ------------------------------------------------------------- round trips

  ghost predicate NewlineFree(s: string) { '\n' !in s }

  /** No three bars in a row, and no bar directly before a newline. */
  ghost predicate Clean(s: string) {
    && (forall i :: 0 <= i < |s| - 2 ==> !(s[i] == '|' && s[i + 1] == '|' && s[i + 2] == '|'))
    && (forall i :: 0 <= i < |s| - 1 ==> !(s[i] == '|' && s[i + 1] == '\n'))
  }

  lemma {:induction false} EncodeNewlineFree(s: string)
    ensures NewlineFree(Encode(s))
  {
    if s != [] { EncodeNewlineFree(s[1..]); }
  }

  lemma CleanTail(s: string)
    requires Clean(s) && s != []
    ensures Clean(s[1..])
  {
    var t := s[1..];
    forall i | 0 <= i < |t| - 2 ensures !(t[i] == '|' && t[i + 1] == '|' && t[i + 2] == '|') {
      assert t[i] == s[i + 1] && t[i + 1] == s[(i + 1) + 1] && t[i + 2] == s[(i + 1) + 2];
    }
    forall i | 0 <= i < |t| - 1 ensures !(t[i] == '|' && t[i + 1] == '\n') {
      assert t[i] == s[i + 1] && t[i + 1] == s[(i + 1) + 1];
    }
  }

  /** The encoding of a clean text starts with three bars only if the text starts with a newline. */
  lemma NoFalseBars(s: string)
    requires Clean(s) && s != [] && s[0] != '\n'
    ensures !StartsWithBars(Encode(s))
  {
    if s[0] == '|' && |s| > 1 {
      assert s[1] != '\n' by { assert !(s[0] == '|' && s[0 + 1] == '\n'); }
      assert Encode(s) == [s[0]] + Encode(s[1..]) && Encode(s[1..]) == [s[1]] + Encode(s[1..][1..]);
      if s[1] == '|' && |s| > 2 {
        assert s[2] != '\n' by { assert !(s[1] == '|' && s[1 + 1] == '\n'); }
        assert s[2] != '|' by { assert !(s[0] == '|' && s[0 + 1] == '|' && s[0 + 2] == '|'); }
        assert s[1..][1..] == s[2..];
        assert Encode(s[2..]) == [s[2]] + Encode(s[2..][1..]);
      }
    }
  }

  lemma {:induction false} DecodeAfterEncode(s: string)
    requires Clean(s)
    ensures Decode(Encode(s)) == s
  {
    if s != [] {
      CleanTail(s);
      DecodeAfterEncode(s[1..]);
      var e, rest := Encode(s), Encode(s[1..]);
      if s[0] == '\n' {
        assert e == BARS + rest && e[3..] == rest;
      } else {
        NoFalseBars(s);
        assert e == [s[0]] + rest && e[1..] == rest;
      }
    }
  }

  lemma {:induction false} EncodeAfterDecode(t: string)
    requires NewlineFree(t)
    ensures Encode(Decode(t)) == t
  {
    if t != [] {
      if StartsWithBars(t) {
        assert NewlineFree(t[3..]);
        EncodeAfterDecode(t[3..]);
        assert t == BARS + t[3..];
      } else {
        assert NewlineFree(t[1..]);
        EncodeAfterDecode(t[1..]);
        assert t == [t[0]] + t[1..];
      }
    }
  }

  /** What the first character of a decoded text says about the text. */
  lemma FirstDecoded(t: string)
    requires NewlineFree(t) && t != []
    ensures Decode(t) != [] && (Decode(t)[0] == '\n' <==> StartsWithBars(t))
    ensures Decode(t)[0] == '|' ==> t[0] == '|' && Decode(t)[1..] == Decode(t[1..])
  {
    assert t[0] in t;
  }

  lemma {:induction false} DecodeClean(t: string)
    requires NewlineFree(t)
    ensures Clean(Decode(t))
  {
    if t != [] {
      var d := Decode(t);
      FirstDecoded(t);
      var rest := if StartsWithBars(t) then t[3..] else t[1..];
      assert NewlineFree(rest);
      DecodeClean(rest);
      assert d[1..] == Decode(rest);
      if d[0] == '|' && rest != [] {
        FirstDecoded(rest);
        if d[1] == '|' && rest[1..] != [] {
          assert NewlineFree(rest[1..]);
          FirstDecoded(rest[1..]);
        }
      }
      CleanCons(d);
    }
  }

  lemma CleanCons(d: string)
    requires d != [] && Clean(d[1..])
    requires |d| > 1 ==> !(d[0] == '|' && d[1] == '\n')
    requires |d| > 2 ==> !(d[0] == '|' && d[1] == '|' && d[2] == '|')
    ensures Clean(d)
  {
    var t := d[1..];
    forall i | 0 <= i < |d| - 2 ensures !(d[i] == '|' && d[i + 1] == '|' && d[i + 2] == '|') {
      if i > 0 { assert d[i] == t[i - 1] && d[i + 1] == t[(i - 1) + 1] && d[i + 2] == t[(i - 1) + 2]; }
    }
    forall i | 0 <= i < |d| - 1 ensures !(d[i] == '|' && d[i + 1] == '\n') {
      if i > 0 { assert d[i] == t[i - 1] && d[i + 1] == t[(i - 1) + 1]; }
    }
  }

  /** Writing and reading back restores a text exactly when it is clean. */
  lemma {:induction false} TextRoundTrip(s: string)
    ensures Decode(Encode(s)) == s <==> Clean(s)
  {
    EncodeNewlineFree(s);
    DecodeClean(Encode(s));
    if Clean(s) { DecodeAfterEncode(s); }
  }

  /** Reading and writing back restores a line exactly when it has no newline. */
  lemma {:induction false} LineRoundTrip(t: string)
    ensures Encode(Decode(t)) == t <==> NewlineFree(t)
  {
    EncodeNewlineFree(Decode(t));
    if NewlineFree(t) { EncodeAfterDecode(t); }
  }

  /** The smallest texts that are not restored. */
  lemma TextsThatAreLost()
    ensures Decode(Encode("|\n")) == "\n|" && Decode(Encode("|||")) == "\n"
  {
    assert "|\n"[1..] == "\n" && "\n"[1..] == "";
    assert Encode("|\n") == "||||";
    assert "||||"[3..] == "|" && "|"[1..] == "" && "|||"[3..] == "";
    assert "|||"[1..] == "||" && "||"[1..] == "|";
    assert Encode("|||") == "|||";
  }

  // ------------------------------------------------------------ the two loops

  lemma {:induction false} EncodeAppend(s: string, c: char)
    ensures Encode(s + [c]) == Encode(s) + if c == '\n' then BARS else [c]
    ensures CountNewlines(s + [c]) == CountNewlines(s) + if c == '\n' then 1 else 0
  {
    if s == [] {
      assert (s + [c])[1..] == [];
    } else {
      assert (s + [c])[1..] == s[1..] + [c];
      EncodeAppend(s[1..], c);
    }
  }

  lemma {:induction false} EncodeLength(s: string)
    ensures |Encode(s)| == |s| + 2 * CountNewlines(s)
  {
    if s != [] { EncodeLength(s[1..]); }
  }

  lemma {:induction false} DecodeLength(s: string)
    ensures |Decode(s)| == |s| - 2 * CountBars(s)
  {
    if s != [] {
      if StartsWithBars(s) { DecodeLength(s[3..]); } else { DecodeLength(s[1..]); }
    }
  }

  lemma {:induction false} EncodePrefix(s: string, i: nat)
    requires i <= |s|
    ensures |Encode(s[..i])| <= |Encode(s)|
    ensures i < |s| ==> |Encode(s[..i + 1])| <= |Encode(s)|
    decreases |s| - i
  {
    if i < |s| {
      assert s[..i + 1] == s[..i] + [s[i]];
      EncodeAppend(s[..i], s[i]);
      EncodePrefix(s, i + 1);
    } else {
      assert s[..i] == s;
    }
  }

  /** The first pass of FixupLFS. */
  method CountLinesPass(input: seq<char>) returns (lfs: nat)
    requires Terminated(input)
    ensures lfs == CountNewlines(CString(input))
  {
    ghost var s := CString(input);
    lfs := 0;
    var i := 0;
    while input[i] != NUL
      invariant i <= |s| && lfs == CountNewlines(s[..i])
      decreases |s| - i
    {
      NextEncoded(s, i);
      if input[i] == '\n' {
        lfs := lfs + 1;
      }
      i := i + 1;
    }
    assert s[..i] == s;
  }

  /** One more character of a text, encoded. */
  lemma NextEncoded(s: string, i: nat)
    requires i < |s|
    ensures CountNewlines(s[..i + 1]) == CountNewlines(s[..i]) + if s[i] == '\n' then 1 else 0
    ensures Encode(s[..i + 1]) == Encode(s[..i]) + if s[i] == '\n' then BARS else [s[i]]
    ensures |Encode(s[..i + 1])| <= |Encode(s)|
  {
    assert s[..i + 1] == s[..i] + [s[i]];
    EncodeAppend(s[..i], s[i]);
    EncodePrefix(s, i);
  }

  /** FixupLFS: the count of the first pass is the room the second pass needs. */
  method FixupLFS(input: seq<char>) returns (out: array<char>)
    requires Terminated(input)
    ensures fresh(out) && out[..] == Encode(CString(input)) + [NUL]
  {
    ghost var s := CString(input);
    var lfs := CountLinesPass(input);
    EncodeLength(s);
    out := new char[StrLen(input) + lfs * 2 + 1];
    var i, j := 0, 0;
    while input[i] != NUL
      invariant i <= |s| && j <= |Encode(s)| && out[..j] == Encode(s[..i])
      decreases |s| - i
    {
      NextEncoded(s, i);
      if input[i] == '\n' {
        out[j] := '|';
        out[j + 1] := '|';
        out[j + 2] := '|';
        j := j + 3;
      } else {
        out[j] := input[i];
        j := j + 1;
      }
      i := i + 1;
    }
    assert s[..i] == s;
    out[j] := NUL;
  }

  /** How the rest of a text is decoded from position i on. */
  lemma NextBars(s: string, i: nat)
    requires i < |s|
    ensures StartsWithBars(s[i..]) <==> i + 3 <= |s| && s[i] == '|' && s[i + 1] == '|' && s[i + 2] == '|'
    ensures StartsWithBars(s[i..]) ==> CountBars(s[i..]) == 1 + CountBars(s[i + 3..])
    ensures StartsWithBars(s[i..]) ==> Decode(s[i..]) == ['\n'] + Decode(s[i + 3..])
    ensures !StartsWithBars(s[i..]) ==> CountBars(s[i..]) == CountBars(s[i + 1..])
    ensures !StartsWithBars(s[i..]) ==> Decode(s[i..]) == [s[i]] + Decode(s[i + 1..])
  {
    assert i + 3 <= |s| ==> s[i..][3..] == s[i + 3..];
    assert s[i..][1..] == s[i + 1..];
  }

  /** What is left to decode, and what is left of the result and of the count. */
  ghost predicate Left(s: string, d: string, i: nat, j: nat, lfs: nat) {
    i <= |s| && j <= |d| && d[j..] == Decode(s[i..]) && lfs == CountBars(s[i..])
  }

  /** The next character of the result, and what is left to do after it. */
  lemma NextDecoded(s: string, d: string, i: nat, j: nat, lfs: nat)
    requires i < |s| && Left(s, d, i, j, lfs)
    ensures j < |d|
    ensures lfs != 0 && i + 3 <= |s| && s[i] == '|' && s[i + 1] == '|' && s[i + 2] == '|' ==>
      d[j] == '\n' && Left(s, d, i + 3, j + 1, lfs - 1)
    ensures lfs == 0 || i + 3 > |s| || s[i] != '|' || s[i + 1] != '|' || s[i + 2] != '|' ==>
      d[j] == s[i] && Left(s, d, i + 1, j + 1, lfs)
  {
    NextBars(s, i);
    assert d[j..] != [] && d[j] == d[j..][0] && d[j + 1..] == d[j..][1..];
  }

  lemma NextCount(s: string, i: nat, lfs: nat, total: nat)
    requires i + 3 <= |s| && lfs + CountBars(s[i..]) == total
    ensures s[i] == '|' && s[i + 1] == '|' && s[i + 2] == '|' ==> lfs + 1 + CountBars(s[i + 3..]) == total
    ensures s[i] != '|' || s[i + 1] != '|' || s[i + 2] != '|' ==> lfs + CountBars(s[i + 1..]) == total
  {
    NextBars(s, i);
  }

  /** The first pass of FixupBARS. */
  method CountPass(input: seq<char>) returns (lfs: nat)
    requires Terminated(input)
    ensures lfs == CountBars(CString(input))
  {
    ghost var s := CString(input);
    ghost var total := CountBars(s);
    lfs := 0;
    var i := 0;
    assert s[0..] == s;
    while input[i] != NUL && input[i + 1] != NUL && input[i + 2] != NUL
      invariant i <= |s| && lfs + CountBars(s[i..]) == total
      decreases |s| - i
    {
      NextCount(s, i, lfs, total);
      if input[i] == '|' && input[i + 1] == '|' && input[i + 2] == '|' {
        lfs := lfs + 1;
        i := i + 2;
      }
      i := i + 1;
    }
    FewCharacters(s[i..]);
  }

  /** FixupBARS: the guard on the remaining count never stops a decoding early, and no
      character behind the NUL is looked at. */
  method FixupBARS(input: seq<char>) returns (out: array<char>)
    requires Terminated(input)
    ensures fresh(out) && out[..] == Decode(CString(input)) + [NUL]
  {
    ghost var s := CString(input);
    ghost var d := Decode(s);
    var lfs := CountPass(input);
    DecodeLength(s);
    out := new char[StrLen(input) - lfs * 2 + 1];
    var i, j := 0, 0;
    assert s[0..] == s && d[0..] == d;
    while input[i] != NUL
      invariant Left(s, d, i, j, lfs)
      invariant forall k :: 0 <= k < j ==> out[k] == d[k]
      decreases |s| - i
    {
      NextDecoded(s, d, i, j, lfs);
      if lfs != 0 && input[i] == '|' && input[i + 1] == '|' && input[i + 2] == '|' {
        out[j] := '\n';
        j := j + 1;
        lfs := lfs - 1;
        i := i + 2;
      } else {
        out[j] := input[i];
        j := j + 1;
      }
      i := i + 1;
    }
    out[j] := NUL;
    assert j == |d|;
  }

  lemma FewCharacters(s: string)
    requires |s| < 3
    ensures CountBars(s) == 0
  {
    if s != [] { FewCharacters(s[1..]); }
  }
}
