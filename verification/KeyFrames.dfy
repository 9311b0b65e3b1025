/**
  Key transfer over animated QR codes: a payload cut into frames, and the collector that
  puts it together again from whatever the camera sees, in any order and with any noise.
 */
module KeyFrames {
  import opened Wrappers
  import opened Text
  import opened Radix
  import opened Counting

  const MAGIC := "CAPK1"
  const SEP := '|'
  const NUMERALS := "0123456789"

  // ---------------------------------------------------------------------------
  // Numbers in decimal
  // ---------------------------------------------------------------------------

  function NatToString(n: nat): string {
    ValueOfDigits(n, 10);
    if n == 0 then "0" else Render(Digits(n, 10), NUMERALS)
  }

  predicate IsNumeral(c: char) {
    c in NUMERALS
  }

  /** Characters that number parsing skips at the start. */
  predicate IsSpace(c: char) {
    c == ' ' || '\t' <= c <= '\r' || c == '\U{00A0}' || c == '\U{1680}' || '\U{2000}' <= c <= '\U{200A}'
    || c == '\U{2028}' || c == '\U{2029}' || c == '\U{202F}' || c == '\U{205F}' || c == '\U{3000}' || c == '\U{FEFF}'
  }

  /** These and no others. */
  lemma SpacesInFull(c: char)
    ensures IsSpace(c) <==>
            c in "\t\n\U{000B}\U{000C}\r\U{0020}\U{00A0}\U{1680}\U{2028}\U{2029}\U{202F}\U{205F}\U{3000}\U{FEFF}"
            || c in "\U{2000}\U{2001}\U{2002}\U{2003}\U{2004}\U{2005}\U{2006}\U{2007}\U{2008}\U{2009}\U{200A}"
  {
  }

  function SkipSpace(s: string): string {
    if s != [] && IsSpace(s[0]) then SkipSpace(s[1..]) else s
  }

  function NumeralPrefix(s: string): (p: string)
    ensures Over(p, NUMERALS)
  {
    if s != [] && IsNumeral(s[0]) then [s[0]] + NumeralPrefix(s[1..]) else ""
  }

  /** What the source makes of a decimal value: a floating-point number, infinite if too large, and exact if small. */
  type Rounding = nat -> Option<nat>

  const EXACT_LIMIT := 0x20_0000_0000_0000

  ghost predicate ExactWhenSmall(num: Rounding) {
    forall n :: 0 <= n < EXACT_LIMIT ==> num(n) == Some(n)
  }

  /** Lenient decimal parsing: space, a sign, then as many numerals as there are; infinity is no integer. */
  function ParseInt(num: Rounding, s: string): Option<int> {
    var t := SkipSpace(s);
    var negative := t != [] && t[0] == '-';
    var p := NumeralPrefix(if t != [] && (t[0] == '-' || t[0] == '+') then t[1..] else t);
    if p == "" then None
    else
      match num(Value(Unrender(p, NUMERALS), 10))
      case None => None
      case Some(value) => Some(if negative then -(value as int) else value)
  }

  lemma {:induction false} PrefixOfNumerals(s: string)
    requires Over(s, NUMERALS)
    ensures NumeralPrefix(s) == s
    decreases |s|
  {
    if s != [] {
      PrefixOfNumerals(s[1..]);
    }
  }

  lemma PrintedNumber(n: nat)
    ensures NatToString(n) != "" && Over(NatToString(n), NUMERALS)
    ensures Value(Unrender(NatToString(n), NUMERALS), 10) == n
  {
    if n == 0 {
      assert Unrender("0", NUMERALS) == [0] && [0][..0] == [];
    } else {
      ValueOfDigits(n, 10);
      UnrenderOfRender(Digits(n, 10), NUMERALS);
    }
  }

  lemma NumeralsArePlain(c: char)
    requires IsNumeral(c)
    ensures c != SEP && c != '-' && c != '+' && !IsSpace(c)
  {
  }

  lemma PrintedIsPlain(n: nat)
    ensures SEP !in NatToString(n)
    ensures var s := NatToString(n); s != "" && s[0] != '-' && s[0] != '+' && !IsSpace(s[0])
  {
    hide NatToString, IsNumeral, Over;
    var s := NatToString(n);
    PrintedNumber(n);
    forall i | 0 <= i < |s| ensures s[i] != SEP && s[i] != '-' && s[i] != '+' && !IsSpace(s[i]) {
      NumeralAt(s, i);
      NumeralsArePlain(s[i]);
    }
  }

  /** A printed number parses to whatever its value is rounded to. */
  lemma ParseOfPrinted(num: Rounding, n: nat)
    ensures ParseInt(num, NatToString(n)) == if num(n).Some? then Some(num(n).value) else None
  {
    hide NatToString, IsNumeral, Over, IsSpace;
    PrintedNumber(n);
    PrintedIsPlain(n);
    PrefixOfNumerals(NatToString(n));
  }

  lemma NumeralAt(s: string, i: nat)
    requires Over(s, NUMERALS) && i < |s|
    ensures IsNumeral(s[i])
  {
  }

  // ---------------------------------------------------------------------------
  // Frames
  // ---------------------------------------------------------------------------

  datatype Frame = Frame(id: string, i: nat, n: nat, chunk: string)

  function FrameText(f: Frame): string {
    Join([MAGIC, f.id, NatToString(f.i), NatToString(f.n), f.chunk], SEP)
  }

  function ParseKeyFrame(num: Rounding, s: string): (frame: Option<Frame>)
    ensures frame.Some? ==> frame.value.i < frame.value.n
  {
    var parts := Split(s, SEP);
    if !StartsWith(s, MAGIC + [SEP]) || |parts| < 5 then None
    else
      var id, i, n, chunk := parts[1], ParseInt(num, parts[2]), ParseInt(num, parts[3]), Join(parts[4..], SEP);
      if id == "" || i.None? || n.None? || n.value < 1 || i.value < 0 || i.value >= n.value then None
      else Some(Frame(id, i.value, n.value, chunk))
  }

  predicate ProperId(id: string) {
    id != "" && SEP !in id
  }

  /** A text of at least five parts, the first four of which are plain. */
  lemma SplitFive(magic: string, id: string, a: string, b: string, chunk: string)
    requires SEP !in magic && SEP !in id && SEP !in a && SEP !in b
    ensures Split(Join([magic, id, a, b, chunk], SEP), SEP) == [magic, id, a, b] + Split(chunk, SEP)
    ensures Join([magic, id, a, b, chunk], SEP)
            == magic + [SEP] + (id + [SEP] + (a + [SEP] + (b + [SEP] + chunk)))
  {
    hide Split;
    var t3 := b + [SEP] + chunk;
    var t2 := a + [SEP] + t3;
    var t1 := id + [SEP] + t2;
    JoinCons(b, [chunk], SEP);
    JoinCons(a, [b] + [chunk], SEP);
    JoinCons(id, [a] + ([b] + [chunk]), SEP);
    JoinCons(magic, [id] + ([a] + ([b] + [chunk])), SEP);
    assert [magic, id, a, b, chunk] == [magic] + ([id] + ([a] + ([b] + [chunk])));
    SplitCons(magic, t1, SEP);
    SplitCons(id, t2, SEP);
    SplitCons(a, t3, SEP);
    SplitCons(b, chunk, SEP);
  }

  lemma SplitFrame(f: Frame)
    requires SEP !in f.id
    ensures Split(FrameText(f), SEP) == [MAGIC, f.id, NatToString(f.i), NatToString(f.n)] + Split(f.chunk, SEP)
  {
    hide NatToString, Split;
    PrintedIsPlain(f.i);
    PrintedIsPlain(f.n);
    SplitFive(MAGIC, f.id, NatToString(f.i), NatToString(f.n), f.chunk);
  }

  /** A text in the form of a frame: the magic word, an id, two numbers that make sense, and the chunk. */
  ghost predicate FrameForm(num: Rounding, s: string, f: Frame, a: string, b: string) {
    && s == "CAPK1" + "|" + (f.id + "|" + (a + "|" + (b + "|" + f.chunk)))
    && f.id != "" && '|' !in f.id && '|' !in a && '|' !in b
    && ParseInt(num, a) == Some(f.i) && ParseInt(num, b) == Some(f.n) && f.i < f.n
  }

  lemma FormParses(num: Rounding, s: string, f: Frame, a: string, b: string)
    requires FrameForm(num, s, f, a, b)
    ensures ParseKeyFrame(num, s) == Some(f)
  {
    hide Split, ParseInt;
    SplitFive(MAGIC, f.id, a, b, f.chunk);
    JoinOfSplit(f.chunk, SEP);
    var parts := Split(s, SEP);
    assert parts[4..] == Split(f.chunk, SEP);
    assert s[..6] == MAGIC + [SEP];
  }

  lemma ParsedParts(num: Rounding, s: string, f: Frame)
    requires ParseKeyFrame(num, s) == Some(f)
    ensures var parts := Split(s, SEP);
            && |parts| >= 5 && parts[0] == MAGIC && parts[1] == f.id != "" && Join(parts[4..], SEP) == f.chunk
            && SEP !in parts[1] && SEP !in parts[2] && SEP !in parts[3]
            && ParseInt(num, parts[2]) == Some(f.i) && ParseInt(num, parts[3]) == Some(f.n) && f.i < f.n
  {
    hide ParseInt;
    var parts, rest := Split(s, SEP), s[6..];
    SplitIsFree(s, SEP);
    assert s == MAGIC + [SEP] + rest;
    SplitCons(MAGIC, rest, SEP);
    assert parts[1] in parts && parts[2] in parts && parts[3] in parts;
  }

  lemma ParsedHasForm(num: Rounding, s: string, f: Frame)
    requires ParseKeyFrame(num, s) == Some(f)
    ensures exists a, b :: FrameForm(num, s, f, a, b)
  {
    ParsedParts(num, s, f);
    hide ParseInt, ParseKeyFrame, Split, Join;
    var parts := Split(s, SEP);
    JoinOfSplit(s, SEP);
    assert parts == [parts[0], parts[1], parts[2], parts[3]] + parts[4..];
    JoinAfterFour(parts[0], parts[1], parts[2], parts[3], parts[4..]);
    assert FrameForm(num, s, f, parts[2], parts[3]);
  }

  lemma JoinAfterFour(p: string, q: string, a: string, b: string, rest: seq<string>)
    requires rest != []
    ensures Join([p, q, a, b] + rest, SEP) == p + [SEP] + (q + [SEP] + (a + [SEP] + (b + [SEP] + Join(rest, SEP))))
  {
    hide Join;
    JoinCons(b, rest, SEP);
    JoinCons(a, [b] + rest, SEP);
    JoinCons(q, [a] + ([b] + rest), SEP);
    JoinCons(p, [q] + ([a] + ([b] + rest)), SEP);
    assert [p, q, a, b] + rest == [p] + ([q] + ([a] + ([b] + rest)));
  }

  /** Exactly which texts parse, and to what. */
  lemma ParseInFields(num: Rounding, s: string, f: Frame)
    ensures ParseKeyFrame(num, s) == Some(f) <==> exists a, b :: FrameForm(num, s, f, a, b)
  {
    if ParseKeyFrame(num, s) == Some(f) {
      ParsedHasForm(num, s, f);
    }
    forall a, b | FrameForm(num, s, f, a, b) ensures ParseKeyFrame(num, s) == Some(f) {
      FormParses(num, s, f, a, b);
    }
  }

  predicate AllSpace(s: string) {
    forall i :: 0 <= i < |s| ==> IsSpace(s[i])
  }

  lemma {:induction false} SkipsSpace(pad: string, s: string)
    requires AllSpace(pad) && (s != "" ==> !IsSpace(s[0]))
    ensures SkipSpace(pad + s) == s
    decreases |pad|
  {
    if pad == "" {
      assert pad + s == s;
    } else {
      SkipsSpace(pad[1..], s);
      assert (pad + s)[1..] == pad[1..] + s;
    }
  }

  lemma {:induction false} PrefixStops(p: string, rest: string)
    requires Over(p, NUMERALS) && (rest != "" ==> !IsNumeral(rest[0]))
    ensures NumeralPrefix(p + rest) == p
    decreases |p|
  {
    if p == "" {
      assert p + rest == rest;
    } else {
      assert IsNumeral(p[0]);
      PrefixStops(p[1..], rest);
      assert (p + rest)[1..] == p[1..] + rest;
    }
  }

  /** Numbers are read leniently: space and a sign before the numerals, and anything else after them. */
  lemma NumbersAreLenient(num: Rounding, pad: string, sign: string, n: nat, rest: string)
    requires AllSpace(pad) && sign in ["", "+", "-"] && (rest != "" ==> rest[0] !in "0123456789")
    ensures ParseInt(num, pad + (sign + (NatToString(n) + rest))) ==
            if num(n).None? then None
            else Some(if sign == "-" then -(num(n).value as int) else num(n).value)
  {
    hide NatToString, Over, IsSpace;
    var printed := NatToString(n) + rest;
    PrintedNumber(n);
    PrintedIsPlain(n);
    SignIsPlain();
    PrefixStops(NatToString(n), rest);
    SkipsSpace(pad, sign + printed);
    assert sign != "" ==> (sign + printed)[1..] == printed;
    assert sign == "" ==> sign + printed == printed;
  }

  lemma SignIsPlain()
    ensures !IsSpace('+') && !IsSpace('-')
  {
  }

  /** Nothing parses to a frame with an empty id or one that contains the separator. */
  lemma ParsedIdIsProper(num: Rounding, s: string)
    requires ParseKeyFrame(num, s).Some?
    ensures ProperId(ParseKeyFrame(num, s).value.id)
  {
    SplitIsFree(s, SEP);
    assert Split(s, SEP)[1] in Split(s, SEP);
  }

  /** A printed frame parses to itself, whatever its chunk contains, exactly if its transfer id is proper. */
  lemma ParseOfFrame(num: Rounding, f: Frame)
    requires ExactWhenSmall(num) && f.i < f.n < EXACT_LIMIT
    ensures ParseKeyFrame(num, FrameText(f)) == Some(f) <==> ProperId(f.id)
  {
    hide NatToString, Split, ParseInt;
    if ProperId(f.id) {
      SplitFrame(f);
      ParseOfPrinted(num, f.i);
      ParseOfPrinted(num, f.n);
      JoinOfSplit(f.chunk, SEP);
      var parts := Split(FrameText(f), SEP);
      assert parts[4..] == Split(f.chunk, SEP);
      assert FrameText(f)[..6] == MAGIC + [SEP];
    } else if ParseKeyFrame(num, FrameText(f)) == Some(f) {
      ParsedIdIsProper(num, FrameText(f));
    }
  }

  // ---------------------------------------------------------------------------
  // Cutting a payload
  // ---------------------------------------------------------------------------

  function Pieces(s: string, size: nat): seq<string>
    requires size > 0
  {
    if s == "" then [] else if |s| <= size then [s] else [s[..size]] + Pieces(s[size..], size)
  }

  function Chunks(s: string, size: nat): (chunks: seq<string>)
    requires size > 0
    ensures chunks != []
  {
    if s == "" then [""] else Pieces(s, size)
  }

  function Frames(payload: string, size: nat, id: string): seq<Frame>
    requires size > 0
  {
    var chunks := Chunks(payload, size);
    seq(|chunks|, i requires 0 <= i < |chunks| => Frame(id, i, |chunks|, chunks[i]))
  }

  function Concat(parts: seq<string>): string {
    if parts == [] then "" else Concat(parts[..|parts| - 1]) + parts[|parts| - 1]
  }

  lemma {:induction false} ConcatCons(p: string, parts: seq<string>)
    ensures Concat([p] + parts) == p + Concat(parts)
    decreases |parts|
  {
    var all := [p] + parts;
    if parts == [] {
      assert all[..0] == [];
    } else {
      ConcatCons(p, parts[..|parts| - 1]);
      assert all[..|all| - 1] == [p] + parts[..|parts| - 1];
    }
  }

  lemma {:induction false} ConcatOfPieces(s: string, size: nat)
    requires size > 0
    ensures Concat(Pieces(s, size)) == s
    decreases |s|
  {
    if |s| > size {
      ConcatOfPieces(s[size..], size);
      ConcatCons(s[..size], Pieces(s[size..], size));
    } else if s != "" {
      assert [s][..0] == [];
    }
  }

  lemma ConcatOfChunks(s: string, size: nat)
    requires size > 0
    ensures Concat(Chunks(s, size)) == s
  {
    ConcatOfPieces(s, size);
    assert [""][..0] == [];
  }

  /** Every chunk is full except perhaps the last, which is empty only for an empty payload. */
  lemma {:induction false} PieceSizes(s: string, size: nat, i: nat)
    requires size > 0 && i < |Pieces(s, size)|
    ensures |Pieces(s, size)[i]| == if i < |Pieces(s, size)| - 1 then size else |s| - i * size
    ensures 0 < |Pieces(s, size)[i]| <= size
    decreases i
  {
    if |s| > size && i > 0 {
      PieceSizes(s[size..], size, i - 1);
      assert (i - 1) * size == i * size - size;
    }
  }

  lemma PiecesStep(s: string, size: nat)
    requires size > 0 && s != ""
    ensures var k := Min(size, |s|); Pieces(s, size) == [s[..k]] + Pieces(s[k..], size)
  {
    if |s| <= size {
      assert s[..|s|] == s && Pieces(s[|s|..], size) == [];
    }
  }

  lemma PiecesOfNothing(s: string, size: nat)
    requires size > 0
    ensures Pieces(s, size) == [] <==> s == ""
  {
  }

  lemma {:induction false} PieceCount(s: string, size: nat)
    requires size > 0
    ensures |Pieces(s, size)| <= |s|
    decreases |s|
  {
    if |s| > size {
      PieceCount(s[size..], size);
    }
  }

  method ChunkPayload(payload: string, chunkSize: nat, id: string) returns (frames: seq<string>)
    requires chunkSize > 0
    ensures |frames| == |Chunks(payload, chunkSize)| == |Frames(payload, chunkSize, id)|
    ensures forall k :: 0 <= k < |frames| ==> frames[k] == FrameText(Frames(payload, chunkSize, id)[k])
  {
    hide Pieces, FrameText;
    PiecesOfNothing(payload, chunkSize);
    PiecesOfNothing("", chunkSize);
    var chunks: seq<string> := [];
    var i := 0;
    assert payload[0..] == payload;
    while i < |payload|
      invariant i >= 0
      invariant chunks + Pieces(payload[Min(i, |payload|)..], chunkSize) == Pieces(payload, chunkSize)
    {
      var piece := payload[i..Min(i + chunkSize, |payload|)];
      ghost var rest := payload[i..];
      assert piece == rest[..|piece|] && rest[|piece|..] == payload[Min(i + chunkSize, |payload|)..];
      PiecesStep(rest, chunkSize);
      chunks := chunks + [piece];
      i := i + chunkSize;
    }
    assert payload[Min(i, |payload|)..] == "";
    assert chunks + [] == chunks == Pieces(payload, chunkSize);
    if |chunks| == 0 {
      chunks := [""];
    }
    assert chunks == Chunks(payload, chunkSize);
    var n := |chunks|;
    frames := seq(n, k requires 0 <= k < n => FrameText(Frame(id, k, n, chunks[k])));
  }

  function Min(a: nat, b: nat): nat {
    if a < b then a else b
  }

  // ---------------------------------------------------------------------------
  // Collecting
  // ---------------------------------------------------------------------------

  datatype Collected = Collected(id: Option<string>, n: nat, frames: map<nat, string>)

  const NOTHING := Collected(None, 0, map[])

  predicate Accepts(c: Collected, f: Frame) {
    c.id.None? || (f.id == c.id.value && f.n == c.n)
  }

  /** The first frame fixes the transfer; later ones must belong to it. */
  function Add(c: Collected, frame: Option<Frame>): Collected {
    if frame.None? || !Accepts(c, frame.value) then c
    else Collected(Some(frame.value.id), frame.value.n, c.frames[frame.value.i := frame.value.chunk])
  }

  predicate Complete(c: Collected) {
    c.n > 0 && |c.frames| == c.n
  }

  /** A missing chunk would print as the word that string concatenation gives it. */
  function Slot(c: Collected, i: nat): string {
    if i in c.frames then c.frames[i] else "undefined"
  }

  function Slots(c: Collected): seq<string> {
    seq(c.n, i requires 0 <= i < c.n => Slot(c, i))
  }

  /** Nothing until complete; then the chunks in the order of their positions. */
  function Assembled(c: Collected): Option<string> {
    if Complete(c) then Some(Concat(Slots(c))) else None
  }

  ghost predicate InRange(c: Collected) {
    forall i :: i in c.frames ==> i < c.n
  }

  /** A full set of frames has one for each position. */
  lemma CompleteHasAll(c: Collected)
    requires InRange(c)
    ensures |c.frames| == c.n <==> forall i :: 0 <= i < c.n ==> i in c.frames
  {
    RangeIsRange(c.n);
    var keys := c.frames.Keys;
    assert |keys| == |c.frames|;
    assert keys <= Range(c.n);
    if |keys| == c.n {
      SubsetOfSameSize(keys, Range(c.n));
    }
    if forall i :: 0 <= i < c.n ==> i in c.frames {
      assert keys == Range(c.n);
    }
  }

  /** Parsing lets no frame through that is beyond the end; where one is taken all the same, a chunk is missing. */
  lemma CompleteMissesNoneExactlyIf(c: Collected)
    requires Complete(c)
    ensures InRange(c) <==> forall i :: 0 <= i < c.n ==> i in c.frames
  {
    RangeIsRange(c.n);
    var keys := c.frames.Keys;
    assert |keys| == |c.frames|;
    if InRange(c) {
      CompleteHasAll(c);
    } else if forall i :: 0 <= i < c.n ==> i in c.frames {
      assert Range(c.n) <= keys;
      SubsetOfSameSize(Range(c.n), keys);
      assert false;
    }
  }

  /** What is missing is not noticed. */
  lemma MissingChunkIsNotNoticed(id: string, i: nat, chunk: string)
    requires i > 0
    ensures Assembled(Add(NOTHING, Some(Frame(id, i, 1, chunk)))) == Some("undefined")
  {
    var c := Add(NOTHING, Some(Frame(id, i, 1, chunk)));
    var keys := c.frames.Keys;
    assert keys == {i} && |c.frames| == |keys|;
    assert Complete(c);
    var slots := Slots(c);
    assert slots == ["undefined"] && slots[..0] == [] && Concat([]) == "";
    assert Concat(slots) == Concat(slots[..0]) + slots[0] == slots[0];
    assert Assembled(c) == Some(slots[0]);
  }

  class KeyFrameCollector {
    const num: Rounding
    var id: Option<string>
    var n: nat
    var frames: map<nat, string>

    function State(): Collected
      reads this
    {
      Collected(id, n, frames)
    }

    constructor (num: Rounding)
      ensures this.num == num && State() == NOTHING
    {
      this.num := num;
      id, n, frames := None, 0, map[];
    }

    method AddFrame(frame: Option<Frame>) returns (accepted: bool)
      modifies this
      ensures State() == Add(old(State()), frame)
      ensures accepted <==> frame.Some? && Accepts(old(State()), frame.value)
    {
      if frame.None? {
        return false;
      }
      var f := frame.value;
      if id.None? {
        id := Some(f.id);
        n := f.n;
      }
      if f.id != id.value || f.n != n {
        return false;
      }
      frames := frames[f.i := f.chunk];
      return true;
    }

    method AddRaw(raw: string) returns (accepted: bool)
      modifies this
      ensures State() == Add(old(State()), ParseKeyFrame(num, raw))
      ensures accepted <==> ParseKeyFrame(num, raw).Some? && Accepts(old(State()), ParseKeyFrame(num, raw).value)
    {
      accepted := AddFrame(ParseKeyFrame(num, raw));
    }

    method Assemble() returns (payload: Option<string>)
      ensures payload == Assembled(State())
    {
      if !Complete(State()) {
        return None;
      }
      var out := "";
      for i := 0 to n
        invariant out == Concat(Slots(State())[..i])
      {
        assert Slots(State())[..i + 1][..i] == Slots(State())[..i];
        out := out + Slot(State(), i);
      }
      assert Slots(State())[..n] == Slots(State());
      return Some(out);
    }
  }

  // ---------------------------------------------------------------------------
  // Any scan of one transfer
  // ---------------------------------------------------------------------------

  /** What the collector holds after a scan. */
  function Scan(num: Rounding, raws: seq<string>): Collected {
    if raws == [] then NOTHING else Add(Scan(num, raws[..|raws| - 1]), ParseKeyFrame(num, raws[|raws| - 1]))
  }

  ghost predicate SameTransfer(f: Frame, frames: seq<Frame>) {
    frames != [] && f.id == frames[0].id && f.n == |frames|
  }

  ghost predicate IsTransfer(frames: seq<Frame>) {
    frames != [] && forall k :: 0 <= k < |frames| ==>
      frames[k].id == frames[0].id && frames[k].i == k && frames[k].n == |frames|
  }

  /** No frame seen passes for one of the transfer without being one of its frames. */
  ghost predicate NoForeign(num: Rounding, raws: seq<string>, frames: seq<Frame>) {
    forall k :: 0 <= k < |raws| ==> Harmless(ParseKeyFrame(num, raws[k]), frames)
  }

  ghost predicate Harmless(parsed: Option<Frame>, frames: seq<Frame>) {
    parsed.Some? && parsed.value.i < |frames| && SameTransfer(parsed.value, frames) ==>
      parsed.value == frames[parsed.value.i]
  }

  /** The first key frame seen, if any, belongs to the transfer. */
  ghost predicate FirstBelongs(num: Rounding, raws: seq<string>, frames: seq<Frame>) {
    forall k :: 0 <= k < |raws| && ParseKeyFrame(num, raws[k]).Some? && IsFirst(num, raws, k)
      ==> SameTransfer(ParseKeyFrame(num, raws[k]).value, frames)
  }

  ghost predicate IsFirst(num: Rounding, raws: seq<string>, k: nat)
    requires k <= |raws|
  {
    forall j :: 0 <= j < k ==> ParseKeyFrame(num, raws[j]).None?
  }

  ghost predicate Seen(num: Rounding, raws: seq<string>, f: Frame) {
    exists k :: 0 <= k < |raws| && ParseKeyFrame(num, raws[k]) == Some(f)
  }

  ghost predicate AllSeen(num: Rounding, raws: seq<string>, frames: seq<Frame>) {
    forall k :: 0 <= k < |frames| ==> Seen(num, raws, frames[k])
  }

  /** What a scan of the transfer leaves: exactly the frames seen. */
  ghost predicate Collects(num: Rounding, c: Collected, raws: seq<string>, frames: seq<Frame>) {
    && frames != []
    && (forall i :: i in c.frames ==> i < |frames| && c.frames[i] == frames[i].chunk)
    && (forall i :: 0 <= i < |frames| ==> (i in c.frames <==> Seen(num, raws, frames[i])))
    && (c.id.None? ==> IsFirst(num, raws, |raws|) && c.n == 0)
    && (c.id.Some? ==> c.id == Some(frames[0].id) && c.n == |frames|)
  }

  lemma SeenSnoc(num: Rounding, raws: seq<string>, raw: string, f: Frame)
    ensures Seen(num, raws + [raw], f) <==> Seen(num, raws, f) || ParseKeyFrame(num, raw) == Some(f)
  {
    var all := raws + [raw];
    if Seen(num, raws, f) {
      var k :| 0 <= k < |raws| && ParseKeyFrame(num, raws[k]) == Some(f);
      assert ParseKeyFrame(num, all[k]) == Some(f);
    }
    assert all[|raws|] == raw;
  }

  lemma {:induction false} ScanCollects(num: Rounding, raws: seq<string>, frames: seq<Frame>)
    requires IsTransfer(frames) && NoForeign(num, raws, frames) && FirstBelongs(num, raws, frames)
    ensures Collects(num, Scan(num, raws), raws, frames)
    decreases |raws|
  {
    hide ParseKeyFrame;
    if raws != [] {
      var init, raw := raws[..|raws| - 1], raws[|raws| - 1];
      ScanCollects(num, init, frames);
      assert raws == init + [raw];
      ScanStep(num, Scan(num, init), init, raw, frames);
    }
  }

  lemma ScanStep(num: Rounding, c: Collected, init: seq<string>, raw: string, frames: seq<Frame>)
    requires IsTransfer(frames) && NoForeign(num, init + [raw], frames) && FirstBelongs(num, init + [raw], frames)
    requires Collects(num, c, init, frames)
    ensures Collects(num, Add(c, ParseKeyFrame(num, raw)), init + [raw], frames)
  {
    hide ParseKeyFrame;
    var raws, parsed := init + [raw], ParseKeyFrame(num, raw);
    assert raws[|init|] == raw;
    assert Harmless(parsed, frames);
    if c.id.None? && parsed.Some? {
      assert IsFirst(num, raws, |init|);
    }
    forall i | 0 <= i < |frames|
      ensures i in Add(c, parsed).frames <==> Seen(num, raws, frames[i])
    {
      SeenSnoc(num, init, raw, frames[i]);
    }
  }

  lemma PayloadFrames(payload: string, size: nat, id: string)
    requires size > 0
    ensures IsTransfer(Frames(payload, size, id))
  {
  }

  /**
    For any payload, chunk size and scan, in which the first key frame belongs to the transfer and no
    other frame claims to: complete exactly when every frame has been seen, and what the collector
    then assembles is the payload.
   */
  lemma CollectorDeliversThePayload(num: Rounding, payload: string, size: nat, id: string, raws: seq<string>)
    requires size > 0
    requires NoForeign(num, raws, Frames(payload, size, id)) && FirstBelongs(num, raws, Frames(payload, size, id))
    ensures Complete(Scan(num, raws)) <==> AllSeen(num, raws, Frames(payload, size, id))
    ensures Assembled(Scan(num, raws)) == if AllSeen(num, raws, Frames(payload, size, id)) then Some(payload) else None
  {
    hide ParseKeyFrame, Scan;
    var frames, c := Frames(payload, size, id), Scan(num, raws);
    PayloadFrames(payload, size, id);
    ScanCollects(num, raws, frames);
    CompleteHasAll(c);
    assert Seen(num, raws, frames[0]) ==> !IsFirst(num, raws, |raws|);
    if Complete(c) {
      assert forall i :: 0 <= i < c.n ==> Seen(num, raws, frames[i]);
      assert Slots(c) == Chunks(payload, size);
      ConcatOfChunks(payload, size);
    }
  }

  /** Scanning every printed frame at least once, in whatever order and company, is enough. No string is longer. */
  lemma PrintedFramesAreSeen(num: Rounding, payload: string, size: nat, id: string, raws: seq<string>)
    requires size > 0 && ProperId(id) && ExactWhenSmall(num) && |payload| < EXACT_LIMIT
    requires forall k :: 0 <= k < |Frames(payload, size, id)| ==> FrameText(Frames(payload, size, id)[k]) in raws
    ensures AllSeen(num, raws, Frames(payload, size, id))
  {
    hide ParseKeyFrame, FrameText;
    var frames := Frames(payload, size, id);
    PieceCount(payload, size);
    forall k | 0 <= k < |frames| ensures Seen(num, raws, frames[k]) {
      ParseOfFrame(num, frames[k]);
      var j :| 0 <= j < |raws| && raws[j] == FrameText(frames[k]);
      assert ParseKeyFrame(num, raws[j]) == Some(frames[k]);
    }
  }
}
