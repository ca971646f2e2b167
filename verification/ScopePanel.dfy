/**
 Copying a scope panel through a selection (dwscope/dwscopesubs.c:163-235, 451-517;
 dwscope/dwscope.h:107-130): a fixed header with the flags and thirteen text lengths,
 each a 16-bit number, followed by the thirteen texts without separators.
 */
module ScopePanel {
  import opened CStrings

  const TEXTS: nat := 13
  const HEADER_SIZE: nat := 48

  type c_int = x: int | -0x8000_0000 <= x < 0x8000_0000
  type c_char = x: int | -128 <= x < 128

  datatype Flags = Flags(
    update: c_char, xGridLabels: c_char, yGridLabels: c_char, showMode: c_char, stepPlot: c_char,
    xGridLines: c_int, yGridLines: c_int, globalDefaults: c_int)

  /** lengths: database, shot, default_node, x, y, xmin, xmax, ymin, ymax, title, event,
      print_title, pad_label, in this order. */
  datatype CutHeader = CutHeader(flags: Flags, lengths: seq<int>)

  /** Conversion to short. */
  function ToShort(n: int): (r: int)
    ensures -32768 <= r < 32768
  {
    (n + 32768) % 65536 - 32768
  }

  /** Conversion to unsigned long. */
  function ToUnsignedLong(n: int): int { n % 0x1_0000_0000_0000_0000 }

  /** The sum of the first k lengths: where piece k starts. */
  function Start(lengths: seq<int>, k: nat): int
    requires k <= |lengths|
    decreases lengths, k
  {
    if k == 0 then 0 else Start(lengths, k - 1) + lengths[k - 1]
  }

  function Sum(lengths: seq<int>): int { Start(lengths, |lengths|) }

  function Lengths(texts: seq<string>): (r: seq<int>)
    ensures |r| == |texts| && forall i :: 0 <= i < |texts| ==> r[i] == |texts[i]|
  {
    seq(|texts|, i requires 0 <= i < |texts| => |texts[i]|)
  }

  /** The first k texts, one after the other. */
  function Joined(texts: seq<string>, k: nat): string
    requires k <= |texts|
    decreases texts, k
  {
    if k == 0 then "" else Joined(texts, k - 1) + texts[k - 1]
  }

  function Concat(texts: seq<string>): string { Joined(texts, |texts|) }

  function Shorts(lengths: seq<int>): (r: seq<int>)
    ensures |r| == |lengths| && forall i :: 0 <= i < |lengths| ==> r[i] == ToShort(lengths[i])
  {
    seq(|lengths|, i requires 0 <= i < |lengths| => ToShort(lengths[i]))
  }

  /** The check the receiver makes. */
  predicate Accepts(header: CutHeader, length: int) {
    length >= HEADER_SIZE && length == ToUnsignedLong(HEADER_SIZE + Sum(header.lengths))
  }

  // ------------------------------------------------------- lengths and offsets

  lemma {:induction false} JoinedLength(texts: seq<string>, k: nat)
    requires k <= |texts|
    ensures |Joined(texts, k)| == Start(Lengths(texts), k)
  {
    if k > 0 { JoinedLength(texts, k - 1); }
  }

  lemma {:induction false} JoinedPrefix(texts: seq<string>, k: nat, n: nat)
    requires k <= n <= |texts|
    ensures Joined(texts, k) <= Joined(texts, n)
    decreases n
  {
    if k < n { JoinedPrefix(texts, k, n - 1); }
  }

  /** Where text k lies in the concatenation: the offset is the sum of the lengths before it. */
  lemma TextAt(texts: seq<string>, k: nat)
    requires k < |texts|
    ensures var l := Lengths(texts);
      && 0 <= Start(l, k) <= Start(l, k + 1) <= |Concat(texts)|
      && Concat(texts)[Start(l, k)..Start(l, k + 1)] == texts[k]
  {
    JoinedLength(texts, k);
    JoinedLength(texts, k + 1);
    JoinedPrefix(texts, k + 1, |texts|);
    var a, b := |Joined(texts, k)|, |Joined(texts, k + 1)|;
    assert Concat(texts)[..b] == Joined(texts, k + 1) == Joined(texts, k) + texts[k];
    assert Concat(texts)[a..b] == Concat(texts)[..b][a..];
  }

  /** Truncating a length to 16 bits never makes it longer, and keeps it exactly up to 32767. */
  lemma ShortIsSmaller(n: nat)
    ensures ToShort(n) <= n && (ToShort(n) == n <==> n <= 32767)
  {
  }

  lemma {:induction false} ShortSum(l: seq<int>, k: nat)
    requires k <= |l| && forall i :: 0 <= i < |l| ==> l[i] >= 0
    ensures -32768 * k <= Start(Shorts(l), k) <= Start(l, k)
    ensures Start(Shorts(l), k) == Start(l, k) <==> forall i :: 0 <= i < k ==> l[i] <= 32767
  {
    if k > 0 {
      ShortSum(l, k - 1);
      ShortIsSmaller(l[k - 1]);
    }
  }

  // --------------------------------------------------------------- round trip

  /** The selection the sender makes. */
  function Packed(flags: Flags, texts: seq<string>): (CutHeader, string, int) {
    (CutHeader(flags, Shorts(Lengths(texts))), Concat(texts), ToUnsignedLong(HEADER_SIZE + Sum(Lengths(texts))))
  }

  /** The receiver accepts a selection exactly when no text is longer than 32767: a longer
      one has a truncated length, and the sum of the lengths no longer agrees.  (The
      selection has to fit the address space, as the sender's allocation does.) */
  lemma AcceptedExactly(flags: Flags, texts: seq<string>)
    requires |texts| == TEXTS && HEADER_SIZE + Sum(Lengths(texts)) < 0x8000_0000_0000_0000
    ensures var (header, text, length) := Packed(flags, texts);
      Accepts(header, length) <==> forall i :: 0 <= i < TEXTS ==> |texts[i]| <= 32767
  {
    var l := Lengths(texts);
    JoinedLength(texts, TEXTS);
    ShortSum(l, TEXTS);
    assert (forall i :: 0 <= i < |l| ==> l[i] <= 32767) <==> forall i :: 0 <= i < TEXTS ==> |texts[i]| <= 32767;
  }

  /** strncpy: the characters up to the first NUL. */
  function CutAtNul(s: string): (r: string)
    ensures NulFree(s) ==> r == s
  {
    if s == [] || s[0] == NUL then []
    else
      assert s == [s[0]] + s[1..];
      [s[0]] + CutAtNul(s[1..])
  }

  /** Piece k of the text, by the header's lengths. */
  ghost predicate PieceFits(lengths: seq<int>, text: string, k: nat)
    requires k < |lengths|
  {
    0 <= Start(lengths, k) <= Start(lengths, k + 1) <= |text|
  }

  /** The lengths of the header are those of consecutive pieces of the text. */
  ghost predicate Fits(header: CutHeader, text: string) {
    |header.lengths| == TEXTS && forall k :: 0 <= k < TEXTS ==> PieceFits(header.lengths, text, k)
  }

  ghost function Piece(header: CutHeader, text: string, k: nat): string
    requires Fits(header, text) && k < TEXTS
  {
    assert PieceFits(header.lengths, text, k);
    CutAtNul(text[Start(header.lengths, k)..Start(header.lengths, k + 1)])
  }

  /** Decoding undoes encoding: what the receiver accepts it cuts back into the sender's
      texts, and it accepts everything but texts longer than 32767. */
  lemma PanelRoundTrip(flags: Flags, texts: seq<string>)
    requires |texts| == TEXTS && HEADER_SIZE + Sum(Lengths(texts)) < 0x8000_0000_0000_0000
    requires forall i :: 0 <= i < TEXTS ==> NulFree(texts[i])
    ensures var (header, text, length) := Packed(flags, texts);
      && (Accepts(header, length) <==> forall i :: 0 <= i < TEXTS ==> |texts[i]| <= 32767)
      && (Accepts(header, length) ==>
            header.flags == flags && Fits(header, text)
            && forall k :: 0 <= k < TEXTS ==> Piece(header, text, k) == texts[k])
  {
    AcceptedExactly(flags, texts);
    if forall i :: 0 <= i < TEXTS ==> |texts[i]| <= 32767 {
      PiecesAreTexts(flags, texts);
    }
  }

  lemma PiecesAreTexts(flags: Flags, texts: seq<string>)
    requires |texts| == TEXTS && forall i :: 0 <= i < TEXTS ==> NulFree(texts[i])
    requires forall i :: 0 <= i < TEXTS ==> |texts[i]| <= 32767
    ensures var header, text := CutHeader(flags, Shorts(Lengths(texts))), Concat(texts);
      Fits(header, text) && forall k :: 0 <= k < TEXTS ==> Piece(header, text, k) == texts[k]
  {
    var header, text := CutHeader(flags, Shorts(Lengths(texts))), Concat(texts);
    assert header.lengths == Lengths(texts);
    forall k | 0 <= k < TEXTS ensures PieceFits(header.lengths, text, k) {
      TextAt(texts, k);
    }
    forall k | 0 <= k < TEXTS ensures Piece(header, text, k) == texts[k] {
      TextAt(texts, k);
    }
  }

  // ---------------------------------------------------------------- in memory

  class WaveInfo {
    var flags: Flags
    var database: string
    var shot: string
    var defaultNode: string
    var x: string
    var y: string
    var xmin: string
    var xmax: string
    var ymin: string
    var ymax: string
    var title: string
    var event: string
    var printTitle: string
    var padLabel: string

    ghost function Texts(): (t: seq<string>)
      reads this
      ensures |t| == TEXTS
    {
      [database, shot, defaultNode, x, y, xmin, xmax, ymin, ymax, title, event, printTitle, padLabel]
    }
  }

  /** memcpy(text, s, strlen(s)); text += strlen(s), for text k of the panel. */
  method Put(buffer: array<char>, offset: nat, s: string, ghost texts: seq<string>, ghost k: nat) returns (next: nat)
    requires k < |texts| && s == texts[k] && buffer.Length == |Concat(texts)|
    requires offset <= buffer.Length && buffer[..offset] == Joined(texts, k)
    modifies buffer
    ensures next <= buffer.Length && buffer[..next] == Joined(texts, k + 1)
  {
    JoinedPrefix(texts, k + 1, |texts|);
    for i := 0 to |s|
      invariant offset + |s| <= buffer.Length && buffer[..offset + i] == Joined(texts, k) + s[..i]
    {
      buffer[offset + i] := s[i];
    }
    next := offset + |s|;
    assert s[..|s|] == s;
  }

  /** The sender.  The texts exactly fill what was allocated for them. */
  method ConvertWaveToSelection(wave: WaveInfo) returns (header: CutHeader, buffer: array<char>, length: int)
    requires HEADER_SIZE + Sum(Lengths(wave.Texts())) < 0x8000_0000_0000_0000
    ensures fresh(buffer) && (header, buffer[..], length) == Packed(wave.flags, wave.Texts())
  {
    ghost var t := wave.Texts();
    var lengths := [|wave.database|, |wave.shot|, |wave.defaultNode|, |wave.x|, |wave.y|, |wave.xmin|, |wave.xmax|,
                    |wave.ymin|, |wave.ymax|, |wave.title|, |wave.event|, |wave.printTitle|, |wave.padLabel|];
    assert lengths == Lengths(t);
    JoinedLength(t, TEXTS);
    length := ToUnsignedLong(HEADER_SIZE + Sum(lengths));
    header := CutHeader(wave.flags, Shorts(lengths));
    buffer := new char[length - HEADER_SIZE];
    var offset := PutFirst(wave, buffer, t);
    offset := PutMiddle(wave, buffer, offset, t);
    offset := PutLast(wave, buffer, offset, t);
  }

  method PutFirst(wave: WaveInfo, buffer: array<char>, ghost t: seq<string>) returns (offset: nat)
    requires t == wave.Texts() && buffer.Length == |Concat(t)|
    modifies buffer
    ensures offset <= buffer.Length && buffer[..offset] == Joined(t, 5)
  {
    offset := Put(buffer, 0, wave.database, t, 0);
    offset := Put(buffer, offset, wave.shot, t, 1);
    offset := Put(buffer, offset, wave.defaultNode, t, 2);
    offset := Put(buffer, offset, wave.x, t, 3);
    offset := Put(buffer, offset, wave.y, t, 4);
  }

  method PutMiddle(wave: WaveInfo, buffer: array<char>, start: nat, ghost t: seq<string>) returns (offset: nat)
    requires t == wave.Texts() && buffer.Length == |Concat(t)|
    requires start <= buffer.Length && buffer[..start] == Joined(t, 5)
    modifies buffer
    ensures offset <= buffer.Length && buffer[..offset] == Joined(t, 9)
  {
    offset := Put(buffer, start, wave.xmin, t, 5);
    offset := Put(buffer, offset, wave.xmax, t, 6);
    offset := Put(buffer, offset, wave.ymin, t, 7);
    offset := Put(buffer, offset, wave.ymax, t, 8);
  }

  method PutLast(wave: WaveInfo, buffer: array<char>, start: nat, ghost t: seq<string>) returns (offset: nat)
    requires t == wave.Texts() && buffer.Length == |Concat(t)|
    requires start <= buffer.Length && buffer[..start] == Joined(t, 9)
    modifies buffer
    ensures buffer[..] == Concat(t)
  {
    offset := Put(buffer, start, wave.title, t, 9);
    offset := Put(buffer, offset, wave.event, t, 10);
    offset := Put(buffer, offset, wave.printTitle, t, 11);
    offset := Put(buffer, offset, wave.padLabel, t, 12);
    assert offset == buffer.Length;
  }

  /** ReplaceCountedString for text k: the copied piece and the text position behind it. */
  method ReplaceCountedString(text: string, offset: nat, header: CutHeader, k: nat) returns (s: string, next: nat)
    requires Fits(header, text) && k < TEXTS && offset == Start(header.lengths, k)
    ensures s == Piece(header, text, k) && next == Start(header.lengths, k + 1)
  {
    assert PieceFits(header.lengths, text, k);
    next := offset + header.lengths[k];
    s := CutAtNul(text[offset..next]);
  }

  /** The receiver: an accepted selection replaces flags and texts, any other changes nothing. */
  method ConvertSelectionToWave(header: CutHeader, text: string, length: int, wave: WaveInfo)
    requires |header.lengths| == TEXTS && (Accepts(header, length) ==> Fits(header, text))
    modifies wave
    ensures !Accepts(header, length) ==> wave.flags == old(wave.flags) && wave.Texts() == old(wave.Texts())
    ensures Accepts(header, length) ==> wave.flags == header.flags
    ensures Accepts(header, length) ==> forall k :: 0 <= k < TEXTS ==> wave.Texts()[k] == Piece(header, text, k)
  {
    if Accepts(header, length) {
      wave.flags := header.flags;
      var offset := TakeFirst(wave, header, text);
      offset := TakeMiddle(wave, header, text, offset);
      TakeLast(wave, header, text, offset);
    }
  }

  method TakeFirst(wave: WaveInfo, header: CutHeader, text: string) returns (offset: nat)
    requires Fits(header, text)
    modifies wave`database, wave`shot, wave`defaultNode, wave`x, wave`y
    ensures offset == Start(header.lengths, 5)
    ensures forall k :: 0 <= k < 5 ==> wave.Texts()[k] == Piece(header, text, k)
  {
    wave.database, offset := ReplaceCountedString(text, 0, header, 0);
    wave.shot, offset := ReplaceCountedString(text, offset, header, 1);
    wave.defaultNode, offset := ReplaceCountedString(text, offset, header, 2);
    wave.x, offset := ReplaceCountedString(text, offset, header, 3);
    wave.y, offset := ReplaceCountedString(text, offset, header, 4);
  }

  method TakeMiddle(wave: WaveInfo, header: CutHeader, text: string, start: nat) returns (offset: nat)
    requires Fits(header, text) && start == Start(header.lengths, 5)
    modifies wave`xmin, wave`xmax, wave`ymin, wave`ymax
    ensures offset == Start(header.lengths, 9)
    ensures forall k :: 5 <= k < 9 ==> wave.Texts()[k] == Piece(header, text, k)
  {
    wave.xmin, offset := ReplaceCountedString(text, start, header, 5);
    wave.xmax, offset := ReplaceCountedString(text, offset, header, 6);
    wave.ymin, offset := ReplaceCountedString(text, offset, header, 7);
    wave.ymax, offset := ReplaceCountedString(text, offset, header, 8);
  }

  method TakeLast(wave: WaveInfo, header: CutHeader, text: string, start: nat)
    requires Fits(header, text) && start == Start(header.lengths, 9)
    modifies wave`title, wave`event, wave`printTitle, wave`padLabel
    ensures forall k :: 9 <= k < TEXTS ==> wave.Texts()[k] == Piece(header, text, k)
  {
    var offset;
    wave.title, offset := ReplaceCountedString(text, start, header, 9);
    wave.event, offset := ReplaceCountedString(text, offset, header, 10);
    wave.printTitle, offset := ReplaceCountedString(text, offset, header, 11);
    wave.padLabel, offset := ReplaceCountedString(text, offset, header, 12);
  }
}
