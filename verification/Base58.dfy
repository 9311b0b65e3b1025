/** Base58 text for byte strings: the encoder of the did:key identifiers, and the decoder that undoes it. */
module Base58 {
  import opened Wrappers
  import opened Radix

  const ALPHABET :=
    "123456789" + "ABCDEFGH" + "JKLMN" + "PQRSTUVWXYZ" + "abcdefghijk" + "mnopqrstuvwxyz"

  type Byte = b: nat | b < 256

  lemma AscendingRuns()
    ensures Ascending("123456789") && Ascending("ABCDEFGH") && Ascending("JKLMN") && Ascending("PQRSTUVWXYZ")
    ensures Ascending("abcdefghijk") && Ascending("mnopqrstuvwxyz")
  {
  }

  lemma AlphabetIsAscending()
    ensures |ALPHABET| == 58 && Ascending(ALPHABET)
  {
    AscendingRuns();
    AscendingJoin("123456789", "ABCDEFGH");
    AscendingJoin("123456789" + "ABCDEFGH", "JKLMN");
    AscendingJoin("123456789" + "ABCDEFGH" + "JKLMN", "PQRSTUVWXYZ");
    AscendingJoin("123456789" + "ABCDEFGH" + "JKLMN" + "PQRSTUVWXYZ", "abcdefghijk");
    AscendingJoin("123456789" + "ABCDEFGH" + "JKLMN" + "PQRSTUVWXYZ" + "abcdefghijk", "mnopqrstuvwxyz");
  }

  lemma AlphabetIsDistinct()
    ensures |ALPHABET| == 58 && Distinct(ALPHABET)
  {
    AlphabetIsAscending();
    AscendingIsDistinct(ALPHABET);
  }

  lemma RunsInFull(c: char)
    ensures c in "123456789" <==> '1' <= c <= '9'
    ensures c in "ABCDEFGH" <==> 'A' <= c <= 'H'
    ensures c in "JKLMN" <==> 'J' <= c <= 'N'
    ensures c in "PQRSTUVWXYZ" <==> 'P' <= c <= 'Z'
    ensures c in "abcdefghijk" <==> 'a' <= c <= 'k'
    ensures c in "mnopqrstuvwxyz" <==> 'm' <= c <= 'z'
  {
  }

  /** The alphabet is, in ascending order, the letters and numerals that cannot be taken for another. */
  lemma AlphabetInFull()
    ensures |ALPHABET| == 58
    ensures forall i, j :: 0 <= i < j < 58 ==> ALPHABET[i] < ALPHABET[j]
    ensures forall c :: c in ALPHABET <==>
              ('0' <= c <= '9' || 'A' <= c <= 'Z' || 'a' <= c <= 'z') && c !in {'0', 'O', 'I', 'l'}
  {
    AlphabetIsAscending();
    forall i, j | 0 <= i < j < 58 ensures ALPHABET[i] < ALPHABET[j] {
      AscendingFrom(ALPHABET, i, j);
    }
    forall c
      ensures c in ALPHABET <==>
              ('0' <= c <= '9' || 'A' <= c <= 'Z' || 'a' <= c <= 'z') && c !in {'0', 'O', 'I', 'l'}
    {
      RunsInFull(c);
    }
  }

  /** How many zeros the sequence starts with. */
  function LeadingZeros(d: seq<nat>): (k: nat)
    ensures k <= |d| && d[..k] == Zeros(k) && (k < |d| ==> d[k] != 0)
  {
    if d == [] || d[0] != 0 then 0 else
      assert d == [0] + d[1..];
      1 + LeadingZeros(d[1..])
  }

  lemma LeadingZerosUnique(d: seq<nat>, k: nat)
    requires k <= |d| && d[..k] == Zeros(k) && (k < |d| ==> d[k] != 0)
    ensures LeadingZeros(d) == k
  {
    var j := LeadingZeros(d);
    assert forall i :: 0 <= i < k ==> d[i] == d[..k][i];
    assert forall i :: 0 <= i < j ==> d[i] == d[..j][i];
  }

  /** Change of base, with a leading zero for each leading zero. */
  function Convert(d: seq<nat>, from: nat, to: nat): seq<nat>
    requires to >= 2
  {
    Zeros(LeadingZeros(d)) + Digits(Value(d, from), to)
  }

  lemma ConvertShape(d: seq<nat>, from: nat, to: nat)
    requires to >= 2
    ensures AreDigits(Convert(d, from, to), to)
    ensures LeadingZeros(Convert(d, from, to)) == LeadingZeros(d)
    ensures Value(Convert(d, from, to), to) == Value(d, from)
  {
    var k, tail := LeadingZeros(d), Digits(Value(d, from), to);
    ValueOfDigits(Value(d, from), to);
    LeadingZerosAreWorthless(k, tail, to);
    LeadingZerosUnique(Zeros(k) + tail, k);
  }

  /** Converting there and back gives the same digits. */
  lemma ConvertBack(d: seq<nat>, from: nat, to: nat)
    requires from >= 2 && to >= 2 && AreDigits(d, from)
    ensures Convert(Convert(d, from, to), to, from) == d
  {
    var k := LeadingZeros(d);
    ConvertShape(d, from, to);
    LeadingZerosAreWorthless(k, d[k..], from);
    assert d == Zeros(k) + d[k..];
    DigitsOfValue(d[k..], from);
  }

  function Encode(payload: seq<Byte>): string {
    AlphabetIsDistinct();
    ConvertShape(payload, 256, 58);
    Render(Convert(payload, 256, 58), ALPHABET)
  }

  /** The encoding in two parts, the leading zeros and the number. */
  lemma EncodingParts(payload: seq<Byte>)
    ensures |ALPHABET| == 58 && AreDigits(Digits(Value(payload, 256), 58), 58)
    ensures Encode(payload) == seq(LeadingZeros(payload), _ => ALPHABET[0])
                               + Render(Digits(Value(payload, 256), 58), ALPHABET)
  {
    hide ALPHABET;
    AlphabetIsDistinct();
    ValueOfDigits(Value(payload, 256), 58);
    var k := LeadingZeros(payload);
    RenderConcat(Zeros(k), Digits(Value(payload, 256), 58), ALPHABET);
    assert Render(Zeros(k), ALPHABET) == seq(k, _ => ALPHABET[0]);
  }

  method B58Encode(payload: seq<Byte>) returns (text: string)
    ensures text == Encode(payload)
  {
    hide ALPHABET, Encode, Digits, Render, Value;
    AlphabetIsDistinct();
    EncodingParts(payload);
    var leading := 0;
    while leading < |payload| && payload[leading] == 0
      invariant 0 <= leading <= |payload|
      invariant forall i :: 0 <= i < leading ==> payload[i] == 0
    {
      leading := leading + 1;
    }
    assert payload[..leading] == Zeros(leading);
    LeadingZerosUnique(payload, leading);
    var n := Value(payload, 256);
    ghost var all, done: seq<nat> := Digits(n, 58), [];
    var result := "";
    NoDigits(58, all, ALPHABET);
    while n > 0
      invariant n >= 0 && Digits(n, 58) + done == all
      invariant AreDigits(done, 58) && result == Render(done, ALPHABET)
    {
      LastDigitMoves(n, 58, done, ALPHABET);
      var rem := n % 58;
      result := [ALPHABET[rem]] + result;
      done := [rem] + done;
      n := n / 58;
    }
    NoDigits(58, done, ALPHABET);
    return seq(leading, _ => ALPHABET[0]) + result;
  }

  /** The natural decoder; it refuses characters outside the alphabet. */
  function Decode(text: string): Option<seq<Byte>> {
    AlphabetIsDistinct();
    if Over(text, ALPHABET) then
      ConvertShape(Unrender(text, ALPHABET), 58, 256);
      Some(AsBytes(Convert(Unrender(text, ALPHABET), 58, 256)))
    else None
  }

  function AsBytes(d: seq<nat>): (bytes: seq<Byte>)
    requires AreDigits(d, 256)
    ensures bytes == d
  {
    seq(|d|, i requires 0 <= i < |d| => d[i])
  }

  lemma DecodeOfEncode(payload: seq<Byte>)
    ensures Decode(Encode(payload)) == Some(payload)
  {
    AlphabetIsDistinct();
    ConvertShape(payload, 256, 58);
    UnrenderOfRender(Convert(payload, 256, 58), ALPHABET);
    ConvertBack(payload, 256, 58);
  }

  lemma EncodeOfDecode(text: string)
    ensures Decode(text).Some? <==> Over(text, ALPHABET)
    ensures Decode(text).Some? ==> Encode(Decode(text).value) == text
  {
    AlphabetIsDistinct();
    if Over(text, ALPHABET) {
      ConvertBack(Unrender(text, ALPHABET), 58, 256);
    }
  }

  /** Encoding is injective, and its image is exactly the texts over the alphabet. */
  lemma EncodingIsBijective(a: seq<Byte>, b: seq<Byte>, text: string)
    ensures Encode(a) == Encode(b) ==> a == b
    ensures Over(text, ALPHABET) <==> exists p: seq<Byte> :: Encode(p) == text
  {
    DecodeOfEncode(a);
    DecodeOfEncode(b);
    if Over(text, ALPHABET) {
      EncodeOfDecode(text);
    }
    forall p: seq<Byte> | Encode(p) == text ensures Over(text, ALPHABET) {
      DecodeOfEncode(p);
    }
  }

  /** Each leading zero byte is one leading '1'; what follows is minimal, and its value is that of the bytes. */
  lemma EncodingShape(payload: seq<Byte>)
    ensures var k, text := LeadingZeros(payload), Encode(payload);
            && k <= |text|
            && (forall i :: 0 <= i < k ==> text[i] == '1')
            && (k < |text| ==> text[k] != '1')
            && Over(text[k..], ALPHABET)
            && Minimal(Unrender(text[k..], ALPHABET), 58)
            && Value(Unrender(text[k..], ALPHABET), 58) == Value(payload, 256)
  {
    assert ALPHABET[0] == '1';
    hide ALPHABET, Encode;
    AlphabetIsDistinct();
    EncodingParts(payload);
    var k, digits := LeadingZeros(payload), Digits(Value(payload, 256), 58);
    ValueOfDigits(Value(payload, 256), 58);
    UnrenderOfRender(digits, ALPHABET);
    assert Encode(payload)[k..] == Render(digits, ALPHABET);
    assert digits != [] ==> ALPHABET[digits[0]] != ALPHABET[0];
  }
}
