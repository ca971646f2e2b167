/**
 The records of the CAMAC module and crate databases (camshr/module.h, camshr/crate.h)
 and the two views of their names: the sort compares whole space-padded records, the
 search compares trimmed names.
 */
module CamacRecords {
  import opened Basics
  import opened CStrings

  datatype Kind = Cts | Crate

  function EntrySize(kind: Kind): nat {
    match kind
    case Cts => 85
    case Crate => 17
  }

  function NameField(kind: Kind): nat {
    match kind
    case Cts => 32
    case Crate => 6
  }

  function Spaces(n: nat): (s: string)
    ensures |s| == n
    ensures forall i :: 0 <= i < n ==> s[i] == ' '
  {
    seq(n, _ => ' ')
  }

  /** "%-<w>s": s padded with spaces on the right. */
  function Pad(s: string, w: nat): (r: string)
    ensures |s| <= w ==> |r| == w
    ensures |r| >= |s| && r[..|s|] == s
    ensures forall i :: |s| <= i < |r| ==> r[i] == ' '
  {
    if |s| <= w then s + Spaces(w - |s|) else s
  }

  /** An unused record: spaces and a newline. */
  function Blank(kind: Kind): (s: string)
    ensures |s| == EntrySize(kind) && s[0] == ' '
    ensures s[|s| - 1] == '\n' && forall i :: 0 <= i < |s| - 1 ==> s[i] == ' '
  {
    Spaces(EntrySize(kind) - 1) + "\n"
  }

  /** Printable and not a space. */
  predicate Graphic(c: char) { '!' <= c <= '~' }

  ghost predicate IsName(kind: Kind, s: string) {
    1 <= |s| <= NameField(kind) && forall i :: 0 <= i < |s| ==> Graphic(s[i])
  }

  /** strcspn(s, " "): the length of the part before the first space. */
  function SpanToSpace(s: string): (n: nat)
    ensures n <= |s|
    ensures forall i :: 0 <= i < n ==> s[i] != ' '
    ensures n < |s| ==> s[n] == ' '
  {
    if s == [] || s[0] == ' ' then 0
    else
      assert s == [s[0]] + s[1..];
      1 + SpanToSpace(s[1..])
  }

  /** "%.<n>s": at most the first n characters. */
  function Truncate(s: string, n: nat): (r: string)
    ensures |s| >= n ==> r == s[..n]
    ensures |s| <= n ==> r == s
  {
    if |s| <= n then s else s[..n]
  }

  /** The name a record is known by. */
  function Name(kind: Kind, rec: string): string {
    match kind
    case Cts => var field := Truncate(rec, 32); field[..SpanToSpace(field)]
    case Crate => Truncate(rec, 6)
  }

  function Key(kind: Kind, rec: string): string { Upcase(Name(kind, rec)) }

  /** A record in use: a name, then (for modules) only spaces up to column 32 inclusive,
      or (for crates) a colon. */
  ghost predicate WellFormed(kind: Kind, rec: string) {
    && |rec| == EntrySize(kind) && NulFree(rec)
    && IsName(kind, Name(kind, rec))
    && match kind
       case Cts => forall i :: |Name(kind, rec)| <= i <= 32 ==> rec[i] == ' '
       case Crate => rec[6] == ':'
  }

  /** The comparison the sort uses on two records. */
  function RecordOrder(a: string, b: string): int { Order(Upcase(a), Upcase(b)) }

  lemma UpcaseGraphic(c: char)
    requires Graphic(c)
    ensures ToUpper(c) > ' '
  {
  }

  lemma UpcasePrefix(s: string, n: nat)
    requires n <= |s|
    ensures Upcase(s[..n]) == Upcase(s)[..n]
  {
  }

  /** Comparing padded records is comparing trimmed names. */
  lemma PaddedOrderIsNameOrder(kind: Kind, a: string, b: string)
    requires WellFormed(kind, a) && WellFormed(kind, b)
    requires Key(kind, a) != Key(kind, b)
    ensures RecordOrder(a, b) == Order(Key(kind, a), Key(kind, b))
  {
    KeyStartsRecord(kind, a);
    KeyStartsRecord(kind, b);
    PaddedOrder(Upcase(a), |Key(kind, a)|, Upcase(b), |Key(kind, b)|);
  }

  /** An upper-cased record starts with its key; behind a module's key there is a space. */
  lemma KeyStartsRecord(kind: Kind, a: string)
    requires WellFormed(kind, a)
    ensures var n := |Key(kind, a)|;
      n < |a| && Upcase(a)[..n] == Key(kind, a) && Visible(Key(kind, a))
      && (if kind == Cts then Upcase(a)[n] == ' ' else n == 6)
  {
    var name := Name(kind, a);
    UpcasePrefix(a, |name|);
    assert a[..|name|] == name;
    forall i | 0 <= i < |name| ensures Upcase(name)[i] > ' ' {
      UpcaseGraphic(name[i]);
    }
  }

  ghost predicate Visible(s: string) {
    forall i :: 0 <= i < |s| ==> s[i] > ' '
  }

  /** Two strings that start with different words of visible characters, which either have
      the same length or end in a space, compare as the words do. */
  lemma PaddedOrder(a: string, m: nat, b: string, n: nat)
    requires m < |a| && n < |b| && a[..m] != b[..n] && Visible(a[..m]) && Visible(b[..n])
    requires m == n || (a[m] == ' ' && b[n] == ' ')
    ensures Order(a, b) == Order(a[..m], b[..n])
  {
    var ka, kb := a[..m], b[..n];
    var i := FirstDifference(ka, kb);
    assert a[..i] == ka[..i] && b[..i] == kb[..i];
    if i < m { assert a[i] == ka[i]; }
    if i < n { assert b[i] == kb[i]; }
    OrderAtDifference(a, b, i);
    OrderAtDifference(ka, kb, i);
  }

  /** Two records that the comparison can tell apart without looking behind them: they
      differ, and at least one has no NUL. */
  ghost predicate ToldApart(a: string, b: string) {
    |a| == |b| && Upcase(a) != Upcase(b) && (NulFree(a) || NulFree(b))
  }

  /** The comparison routine runs on behind a record to the first NUL it finds there, or
      stops at a NUL in the record; what lies behind has no influence. */
  lemma ComparedInMemory(a: string, b: string, u: Memory, v: Memory)
    requires ToldApart(a, b)
    ensures StringOrder(a + u, b + v) == RecordOrder(a, b)
  {
    var i := FirstDifference(Upcase(a), Upcase(b));
    forall k | 0 <= k < i ensures a[k] != NUL && b[k] != NUL {
      assert Upcase(a)[k] == Upcase(a)[..i][k] == Upcase(b)[..i][k] == Upcase(b)[k];
      UpperIsNotNul(a[k], b[k]);
    }
    StringFrom(a, u, i);
    StringFrom(b, v, i);
    var x, y := Upcase(CString(a + u)), Upcase(CString(b + v));
    UpperIsNotNul(a[i], b[i]);
    assert x[..i] == Upcase(a)[..i] && y[..i] == Upcase(b)[..i];
    OrderAtDifference(x, y, i);
    OrderAtDifference(Upcase(a), Upcase(b), i);
  }

  /** The string at a place: it goes past i unless there is a NUL. */
  lemma StringFrom(a: string, u: Memory, i: nat)
    requires i < |a| && forall k :: 0 <= k < i ==> a[k] != NUL
    ensures var s := CString(a + u);
      && i <= |s| && s[..i] == a[..i]
      && (if a[i] == NUL then |s| == i else i < |s| && s[i] == a[i])
  {
    var m, n := a + u, StrLen(a + u);
    assert m[n] == NUL && NulFree(m[..n]);
    assert forall k :: 0 <= k <= i ==> m[k] == a[k];
    assert m[i] == if i < n then m[..n][i] else m[i];
  }

  /** Well-formed records with different names are told apart. */
  lemma DifferentNamesToldApart(kind: Kind, a: string, b: string)
    requires WellFormed(kind, a) && WellFormed(kind, b) && Key(kind, a) != Key(kind, b)
    ensures ToldApart(a, b)
  {
    PaddedOrderIsNameOrder(kind, a, b);
    OrderEqual(Upcase(a), Upcase(b));
    OrderEqual(Key(kind, a), Key(kind, b));
  }

  /** So is a line with a NUL in it, and a well-formed record. */
  lemma NulToldApart(kind: Kind, line: string, b: string)
    requires |line| == EntrySize(kind) && !NulFree(line) && WellFormed(kind, b)
    ensures ToldApart(line, b)
  {
    var k :| 0 <= k < |line| && line[k] == NUL;
    UpperIsNotNul(line[k], b[k]);
    assert Upcase(line)[k] != Upcase(b)[k];
  }

  /** When the names differ, what lies behind two well-formed records has no influence. */
  lemma FollowingMemoryIsIrrelevant(kind: Kind, a: string, b: string, u: Memory, v: Memory)
    requires WellFormed(kind, a) && WellFormed(kind, b) && Key(kind, a) != Key(kind, b)
    ensures StringOrder(a + u, b + v) == RecordOrder(a, b) == Order(Key(kind, a), Key(kind, b))
  {
    DifferentNamesToldApart(kind, a, b);
    ComparedInMemory(a, b, u, v);
    PaddedOrderIsNameOrder(kind, a, b);
  }

  lemma RecordOrderIsPreorder(a: string, b: string, c: string)
    ensures RecordOrder(a, b) > 0 <==> RecordOrder(b, a) < 0
    ensures RecordOrder(a, b) <= 0 && RecordOrder(b, c) <= 0 ==> RecordOrder(a, c) <= 0
  {
    OrderAntisymmetric(Upcase(a), Upcase(b));
    if RecordOrder(a, b) <= 0 && RecordOrder(b, c) <= 0 {
      OrderTransitive(Upcase(a), Upcase(b), Upcase(c));
    }
  }

  // ------------------------------------------------------------- new records

  /** The comment field with the text "(null)" at its start replaced by spaces. */
  function MaskNull(line: string): (r: string)
    requires |line| == 85
    ensures |r| == |line| && r[..44] == line[..44]
  {
    if line[44..50] == "(null)" then line[..44] + Spaces(6) + line[50..] else line
  }

  /** A module line: "%-32s %-10s %-40s\n". */
  function ModuleLine(logName: string, phyName: string, comment: string): (line: string)
    requires |logName| <= 32 && |phyName| <= 10 && |comment| <= 40
    ensures |line| == 85 && line[..33] == Pad(logName, 32) + " "
  {
    MaskNull(Pad(logName, 32) + " " + Pad(phyName, 10) + " " + Pad(comment, 40) + "\n")
  }

  lemma ModuleLineWellFormed(logName: string, phyName: string, comment: string)
    requires IsName(Cts, logName) && |phyName| <= 10 && |comment| <= 40
    requires NulFree(phyName) && NulFree(comment)
    ensures WellFormed(Cts, ModuleLine(logName, phyName, comment))
    ensures Name(Cts, ModuleLine(logName, phyName, comment)) == logName
  {
    var line := ModuleLine(logName, phyName, comment);
    assert forall i :: 0 <= i < 33 ==> line[i] == line[..33][i];
    assert line[..|logName|] == logName by {
      assert line[..|logName|] == line[..33][..|logName|] == Pad(logName, 32)[..|logName|];
    }
    assert forall i :: 0 <= i < |logName| ==> line[i] == logName[i] && Graphic(logName[i]);
    assert |logName| < 32 ==> line[|logName|] == (Pad(logName, 32) + " ")[|logName|] == ' ';
    assert SpanToSpace(line[..32]) == |logName|;
    var raw := Pad(logName, 32) + " " + Pad(phyName, 10) + " " + Pad(comment, 40) + "\n";
    PadNulFree(logName, 32);
    PadNulFree(phyName, 10);
    PadNulFree(comment, 40);
    assert NulFree(raw);
  }

  /** A field of a record: a text, then blanks. */
  ghost predicate Field(rec: string, from: nat, width: nat, s: string) {
    && from + width <= |rec| && |s| <= width
    && forall i :: 0 <= i < width ==> rec[from + i] == if i < |s| then s[i] else ' '
  }

  /** A comment as it is stored: "(null)" at its start counts as no comment. */
  function StoredComment(comment: string): (r: string)
    ensures |r| == |comment|
  {
    if |comment| >= 6 && comment[..6] == "(null)" then "      " + comment[6..] else comment
  }

  /** A record says this of a module: name, physical name and comment in their columns. */
  ghost predicate SaysModule(rec: string, logName: string, phyName: string, comment: string) {
    && |rec| == 85
    && Field(rec, 0, 32, logName) && rec[32] == ' '
    && Field(rec, 33, 10, phyName) && rec[43] == ' '
    && Field(rec, 44, 40, StoredComment(comment)) && rec[84] == '\n'
  }

  /** The line assign prints says what it is for. */
  lemma ModuleLineSays(logName: string, phyName: string, comment: string)
    requires |logName| <= 32 && |phyName| <= 10 && |comment| <= 40
    ensures SaysModule(ModuleLine(logName, phyName, comment), logName, phyName, comment)
  {
    var line := ModuleLine(logName, phyName, comment);
    var head := Pad(logName, 32) + " " + Pad(phyName, 10) + " ";
    var c := Pad(comment, 40);
    var raw := head + c + "\n";
    assert raw == Pad(logName, 32) + " " + Pad(phyName, 10) + " " + Pad(comment, 40) + "\n";
    assert raw[44..50] == c[..6] && line[..44] == raw[..44] == head;
    NullAtStart(comment, c);
    CommentField(line, head, c, comment);
    assert forall i :: 0 <= i < 44 ==> line[i] == head[i];
  }

  lemma NullAtStart(comment: string, c: string)
    requires |comment| <= 40 && c == Pad(comment, 40)
    ensures c[..6] == "(null)" <==> |comment| >= 6 && comment[..6] == "(null)"
  {
    if |comment| < 6 {
      assert forall i :: 0 <= i < 6 ==> "(null)"[i] != ' ';
      assert c[..6][|comment|] == c[|comment|] == ' ';
    } else {
      assert c[..6] == c[..|comment|][..6];
    }
  }

  lemma CommentField(line: string, head: string, c: string, comment: string)
    requires |head| == 44 && |comment| <= 40 && c == Pad(comment, 40) && line == MaskNull(head + c + "\n")
    requires c[..6] == "(null)" <==> |comment| >= 6 && comment[..6] == "(null)"
    ensures |line| == 85 && Field(line, 44, 40, StoredComment(comment)) && line[84] == '\n'
  {
    var raw := head + c + "\n";
    assert raw[44..50] == c[..6];
    assert forall i :: 0 <= i < 40 ==> raw[44 + i] == c[i];
    assert forall i :: 0 <= i < |comment| ==> c[i] == c[..|comment|][i] == comment[i];
  }

  /** Cutting the fields out and dropping the blanks behind gives the texts back, the comment
      with those six columns blank if it starts with "(null)". */
  lemma ModuleReadBack(rec: string, logName: string, phyName: string, comment: string)
    requires SaysModule(rec, logName, phyName, comment)
    ensures !EndsInBlank(logName) ==> Trimmed(rec[..32]) == logName
    ensures !EndsInBlank(phyName) ==> Trimmed(rec[33..43]) == phyName
    ensures !EndsInBlank(StoredComment(comment)) ==> Trimmed(rec[44..84]) == StoredComment(comment)
  {
    assert rec[..32] == rec[0..0 + 32];
    FieldReadBack(rec, 0, 32, logName);
    FieldReadBack(rec, 33, 10, phyName);
    FieldReadBack(rec, 44, 40, StoredComment(comment));
  }

  lemma FieldReadBack(rec: string, from: nat, width: nat, s: string)
    requires Field(rec, from, width, s)
    ensures !EndsInBlank(s) ==> Trimmed(rec[from..from + width]) == s
  {
    var f := rec[from..from + width];
    assert forall i :: 0 <= i < width ==> f[i] == rec[from + i];
    if !EndsInBlank(s) { TrimmedField(f, s); }
  }

  /** A record says this of a crate: its name, and that nothing else is known of it. */
  ghost predicate SaysCrate(rec: string, name: string) {
    |rec| == 17 && |name| == 6 && rec[..6] == name && rec[6..] == ":...:.:.:.\n"
  }

  lemma CrateLineSays(phyName: string, stack: seq<char>)
    requires |stack| == 18 && |phyName| >= 6
    ensures SaysCrate(CrateLine(phyName, stack), phyName[..6])
  {
    assert CrateLine(phyName, stack) == phyName[..6] + ":...:.:.:.\n";
  }

  lemma PadNulFree(s: string, w: nat)
    requires NulFree(s)
    ensures NulFree(Pad(s, w))
  {
  }

  /** A crate line: "%-.6s:...:.:.:.\n" in a buffer whose other bytes are whatever the
      stack held.  The precision cuts long names, but nothing pads short ones. */
  function CrateLine(phyName: string, stack: seq<char>): (line: string)
    requires |stack| == 18
    ensures |line| == 17
  {
    var text := Truncate(phyName, 6) + ":...:.:.:.\n" + [NUL];
    (text + stack[|text|..])[..17]
  }

  /** Only a name of six characters or more gives a well-formed crate record. */
  lemma CrateLineWellFormed(phyName: string, stack: seq<char>)
    requires |stack| == 18
    requires forall i :: 0 <= i < |phyName| ==> Graphic(phyName[i])
    ensures WellFormed(Crate, CrateLine(phyName, stack)) <==> |phyName| >= 6
    ensures |phyName| < 6 ==> !NulFree(CrateLine(phyName, stack))
    ensures |phyName| >= 6 ==> Name(Crate, CrateLine(phyName, stack)) == phyName[..6]
  {
    var line, name := CrateLine(phyName, stack), Truncate(phyName, 6);
    var text := name + ":...:.:.:.\n" + [NUL];
    if |phyName| >= 6 {
      assert line == name + ":...:.:.:.\n";
      assert line[..6] == name;
    } else {
      assert line[|name| + 11] == text[|name| + 11] == NUL;
    }
  }
}
