/** Base64 with the URL-safe alphabet and no padding (sections 5 and 3.5 of RFC 4648): decoding accepts canonical text
    only. */
module Base64Url {
  import opened Prelude

  function Digit(v: nat): char
    requires v < 64
  {
    if v < 26 then 'A' + v as char
    else if v < 52 then 'a' + (v - 26) as char
    else if v < 62 then '0' + (v - 52) as char
    else if v == 62 then '-'
    else '_'
  }

  function DigitValue(c: char): (v: Option<nat>)
    ensures v.Some? ==> v.value < 64
  {
    if 'A' <= c <= 'Z' then Some(c as int - 'A' as int)
    else if 'a' <= c <= 'z' then Some(c as int - 'a' as int + 26)
    else if '0' <= c <= '9' then Some(c as int - '0' as int + 52)
    else if c == '-' then Some(62)
    else if c == '_' then Some(63)
    else None
  }

  // Three bytes as four digits of six bits, and back.

  function First(b0: byte): (v: nat) ensures v < 64 { b0 / 4 }

  function Second(b0: byte, b1: byte): (v: nat) ensures v < 64 { b0 % 4 * 16 + b1 / 16 }

  function Third(b1: byte, b2: byte): (v: nat) ensures v < 64 { b1 % 16 * 4 + b2 / 64 }

  function Fourth(b2: byte): (v: nat) ensures v < 64 { b2 % 64 }

  function Byte0(v0: nat, v1: nat): byte requires v0 < 64 && v1 < 64 { v0 * 4 + v1 / 16 }

  function Byte1(v1: nat, v2: nat): byte requires v1 < 64 && v2 < 64 { v1 % 16 * 16 + v2 / 4 }

  function Byte2(v2: nat, v3: nat): byte requires v2 < 64 && v3 < 64 { v2 % 4 * 64 + v3 }

  lemma DigitsHoldByte0(b0: byte, b1: byte)
    ensures Byte0(First(b0), Second(b0, b1)) == b0 && Second(b0, 0) % 16 == 0
  {
  }

  lemma DigitsHoldByte1(b0: byte, b1: byte, b2: byte)
    ensures Byte1(Second(b0, b1), Third(b1, b2)) == b1 && Third(b1, 0) % 4 == 0
  {
    assert Second(b0, b1) % 16 == b1 / 16;
    assert Third(b1, b2) / 4 == b1 % 16;
  }

  lemma DigitsHoldByte2(b1: byte, b2: byte)
    ensures Byte2(Third(b1, b2), Fourth(b2)) == b2
  {
    assert Third(b1, b2) % 4 == b2 / 64;
  }

  lemma BytesHoldDigits(v0: nat, v1: nat, v2: nat, v3: nat)
    requires v0 < 64 && v1 < 64 && v2 < 64 && v3 < 64
    ensures First(Byte0(v0, v1)) == v0
    ensures Second(Byte0(v0, v1), Byte1(v1, v2)) == v1 && (v1 % 16 == 0 ==> Second(Byte0(v0, v1), 0) == v1)
    ensures Third(Byte1(v1, v2), Byte2(v2, v3)) == v2 && (v2 % 4 == 0 ==> Third(Byte1(v1, v2), 0) == v2)
    ensures Fourth(Byte2(v2, v3)) == v3
  {
  }

  function Encode(b: Bytes): string {
    if |b| == 0 then ""
    else if |b| == 1 then [Digit(First(b[0])), Digit(Second(b[0], 0))]
    else if |b| == 2 then [Digit(First(b[0])), Digit(Second(b[0], b[1])), Digit(Third(b[1], 0))]
    else
      [Digit(First(b[0])), Digit(Second(b[0], b[1])), Digit(Third(b[1], b[2])), Digit(Fourth(b[2]))] + Encode(b[3..])
  }

  function Decode(s: string): Option<Bytes> {
    if |s| == 0 then Some([])
    else if |s| == 1 then None
    else
      var v0, v1 := DigitValue(s[0]), DigitValue(s[1]);
      if v0.None? || v1.None? then None
      else if |s| == 2 then
        if v1.value % 16 != 0 then None else Some([Byte0(v0.value, v1.value)])
      else
        var v2 := DigitValue(s[2]);
        if v2.None? then None
        else if |s| == 3 then
          if v2.value % 4 != 0 then None else Some([Byte0(v0.value, v1.value), Byte1(v1.value, v2.value)])
        else
          var v3, rest := DigitValue(s[3]), Decode(s[4..]);
          if v3.None? || rest.None? then None
          else Some([Byte0(v0.value, v1.value), Byte1(v1.value, v2.value), Byte2(v2.value, v3.value)] + rest.value)
  }

  lemma DigitsRoundTrip(v: nat, c: char)
    requires v < 64
    ensures DigitValue(Digit(v)) == Some(v)
    ensures DigitValue(c).Some? ==> Digit(DigitValue(c).value) == c
  {
  }

  lemma ZeroDigit()
    ensures DigitValue('A') == Some(0)
  {
  }

  /** Decoding undoes encoding, for all bytes. */
  lemma {:induction false} DecodeUndoesEncode(b: Bytes)
    ensures Decode(Encode(b)) == Some(b)
  {
    hide Digit, DigitValue, First, Second, Third, Fourth, Byte0, Byte1, Byte2;
    if b != [] {
      var b0 := b[0];
      var b1, b2 := if |b| > 1 then b[1] else 0, if |b| > 2 then b[2] else 0;
      DigitsHoldByte0(b0, b1);
      DigitsHoldByte1(b0, b1, b2);
      DigitsHoldByte2(b1, b2);
      DigitsRoundTrip(First(b0), 'A');
      DigitsRoundTrip(Second(b0, b1), 'A');
      DigitsRoundTrip(Third(b1, b2), 'A');
      DigitsRoundTrip(Fourth(b2), 'A');
      if |b| >= 3 {
        DecodeUndoesEncode(b[3..]);
        assert Encode(b)[4..] == Encode(b[3..]);
        assert b == [b0, b1, b2] + b[3..];
      } else {
        assert b == if |b| == 1 then [b0] else [b0, b1];
      }
    }
  }

  /** What decodes is canonical: encoding gives the text back. */
  lemma {:induction false} EncodeUndoesDecode(s: string)
    requires Decode(s).Some?
    ensures Encode(Decode(s).value) == s
  {
    hide Digit, DigitValue, First, Second, Third, Fourth, Byte0, Byte1, Byte2;
    if s != "" {
      var c2, c3 := if |s| > 2 then s[2] else 'A', if |s| > 3 then s[3] else 'A';
      DigitsRoundTrip(0, s[0]);
      DigitsRoundTrip(0, s[1]);
      DigitsRoundTrip(0, c2);
      DigitsRoundTrip(0, c3);
      ZeroDigit();
      BytesHoldDigits(DigitValue(s[0]).value, DigitValue(s[1]).value, DigitValue(c2).value, DigitValue(c3).value);
      if |s| >= 4 {
        EncodeUndoesDecode(s[4..]);
        var b := Decode(s).value;
        assert b[3..] == Decode(s[4..]).value;
        assert s == [s[0], s[1], s[2], s[3]] + s[4..];
      }
    }
  }

  // ---- The text itself

  const UPPER := "ABCDEFGHIJKLMNOPQRSTUVWXYZ"
  const LOWER := "abcdefghijklmnopqrstuvwxyz"
  const OTHERS := "0123456789-_"
  const ALPHABET := UPPER + LOWER + OTHERS

  lemma UpperIsListed(v: nat)
    requires v < 26
    ensures |UPPER| == 26 && Digit(v) == UPPER[v]
  {
  }

  lemma LowerIsListed(v: nat)
    requires v < 26
    ensures |LOWER| == 26 && Digit(v + 26) == LOWER[v]
  {
  }

  lemma OtherIsListed(v: nat)
    requires v < 12
    ensures |OTHERS| == 12 && Digit(v + 52) == OTHERS[v]
  {
  }

  lemma DigitIsListed(v: nat)
    requires v < 64
    ensures |ALPHABET| == 64 && Digit(v) == ALPHABET[v]
  {
    hide UPPER, LOWER, OTHERS, Digit;
    UpperIsListed(0);
    LowerIsListed(0);
    OtherIsListed(0);
    if v < 26 {
      UpperIsListed(v);
    } else if v < 52 {
      LowerIsListed(v - 26);
    } else {
      OtherIsListed(v - 52);
    }
  }

  /** The digits of a text, as positions in the alphabet. */
  ghost predicate Spells(text: string, digits: seq<nat>) {
    && |text| == |digits| && |ALPHABET| == 64
    && forall i :: 0 <= i < |text| ==> digits[i] < 64 && text[i] == ALPHABET[digits[i]]
  }

  /** Two digits and a byte filled up with zero bits; three digits and two bytes; four digits and three bytes. */
  ghost predicate SpellsOne(text: string, b: Bytes)
    requires |b| == 1
  {
    exists x: nat, y: nat :: Spells(text, [x, y]) && b[0] as int * 16 == x * 64 + y
  }

  ghost predicate SpellsTwo(text: string, b: Bytes)
    requires |b| == 2
  {
    exists x: nat, y: nat, z: nat ::
      Spells(text, [x, y, z]) && (b[0] as int * 256 + b[1] as int) * 4 == x * 4096 + y * 64 + z
  }

  ghost predicate SpellsThree(text: string, b: Bytes)
    requires |b| == 3
  {
    exists w: nat, x: nat, y: nat, z: nat ::
      && Spells(text, [w, x, y, z])
      && b[0] as int * 65536 + b[1] as int * 256 + b[2] as int == w * 262144 + x * 4096 + y * 64 + z
  }

  lemma OneSpelled(b: Bytes)
    requires |b| == 1
    ensures SpellsOne(Encode(b), b)
  {
    hide Digit, First, Second, Third, Fourth, ALPHABET;
    var x, y := First(b[0]), Second(b[0], 0);
    DigitIsListed(x);
    DigitIsListed(y);
    DigitsAddUp(b[0], 0, 0);
    assert Spells(Encode(b), [x, y]);
  }

  lemma TwoSpelled(b: Bytes)
    requires |b| == 2
    ensures SpellsTwo(Encode(b), b)
  {
    hide Digit, First, Second, Third, Fourth, ALPHABET;
    var x, y, z := First(b[0]), Second(b[0], b[1]), Third(b[1], 0);
    DigitIsListed(x);
    DigitIsListed(y);
    DigitIsListed(z);
    DigitsAddUp(b[0], b[1], 0);
    assert Spells(Encode(b), [x, y, z]);
  }

  lemma ThreeSpelled(b: Bytes)
    requires |b| >= 3
    ensures |Encode(b)| >= 4 && SpellsThree(Encode(b)[..4], b[..3]) && Encode(b)[4..] == Encode(b[3..])
  {
    hide Digit, First, Second, Third, Fourth, ALPHABET;
    var w, x, y, z := First(b[0]), Second(b[0], b[1]), Third(b[1], b[2]), Fourth(b[2]);
    DigitIsListed(w);
    DigitIsListed(x);
    DigitIsListed(y);
    DigitIsListed(z);
    DigitsAddUp(b[0], b[1], b[2]);
    assert Spells(Encode(b)[..4], [w, x, y, z]);
  }

  /** How text is made from bytes: three bytes, read as one number of 24 bits, are four digits in base 64, and one or
      two bytes at the end, filled up with zero bits, are two or three digits. */
  lemma TextOfBytes(b: Bytes)
    ensures b == [] ==> Encode(b) == ""
    ensures |b| == 1 ==> SpellsOne(Encode(b), b)
    ensures |b| == 2 ==> SpellsTwo(Encode(b), b)
    ensures |b| >= 3 ==> |Encode(b)| >= 4 && SpellsThree(Encode(b)[..4], b[..3]) && Encode(b)[4..] == Encode(b[3..])
  {
    hide SpellsOne, SpellsTwo, SpellsThree;
    if |b| == 1 { OneSpelled(b); } else if |b| == 2 { TwoSpelled(b); } else if |b| >= 3 { ThreeSpelled(b); }
  }

  lemma DigitsAddUp(b0: byte, b1: byte, b2: byte)
    ensures b0 as int * 65536 + b1 as int * 256 + b2 as int
      == First(b0) * 262144 + Second(b0, b1) * 4096 + Third(b1, b2) * 64 + Fourth(b2)
    ensures (b0 as int * 256 + b1 as int) * 4 == First(b0) * 4096 + Second(b0, b1) * 64 + Third(b1, 0)
    ensures b0 as int * 16 == First(b0) * 64 + Second(b0, 0)
  {
  }
}
