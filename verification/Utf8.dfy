/** UTF-8: which byte sequences are well formed, and the bytes of a string. */
module Utf8 {
  import opened Prelude
  import opened Text

  predicate Continues(b: byte) {
    0x80 <= b <= 0xBF
  }

  /** The length of the well-formed sequence b starts with, or 0 (section 4 of RFC 3629). */
  function SequenceLength(b: Bytes): (n: nat)
    ensures n <= |b|
  {
    if b == [] then 0
    else if b[0] <= 0x7F then 1
    else if |b| >= 2 && 0xC2 <= b[0] <= 0xDF && Continues(b[1]) then 2
    else if |b| >= 3 && 0xE0 <= b[0] <= 0xEF && Continues(b[1]) && Continues(b[2])
            && (b[0] == 0xE0 ==> b[1] >= 0xA0) && (b[0] == 0xED ==> b[1] <= 0x9F) then 3
    else if |b| >= 4 && 0xF0 <= b[0] <= 0xF4 && Continues(b[1]) && Continues(b[2]) && Continues(b[3])
            && (b[0] == 0xF0 ==> b[1] >= 0x90) && (b[0] == 0xF4 ==> b[1] <= 0x8F) then 4
    else 0
  }

  predicate ValidUtf8(b: Bytes) {
    b == [] || (SequenceLength(b) > 0 && ValidUtf8(b[SequenceLength(b)..]))
  }

  /** The bytes of one character (section 3 of RFC 3629). */
  function CharBytes(c: char): Bytes {
    var n := c as int;
    if n < 0x80 then [n]
    else if n < 0x800 then [0xC0 + n / 0x40, 0x80 + n % 0x40]
    else if n < 0x1_0000 then [0xE0 + n / 0x1000, 0x80 + n / 0x40 % 0x40, 0x80 + n % 0x40]
    else [0xF0 + n / 0x4_0000, 0x80 + n / 0x1000 % 0x40, 0x80 + n / 0x40 % 0x40, 0x80 + n % 0x40]
  }

  function StringBytes(s: string): Bytes {
    if s == "" then [] else CharBytes(s[0]) + StringBytes(s[1..])
  }

  lemma CharIsOneSequence(c: char, rest: Bytes)
    ensures SequenceLength(CharBytes(c) + rest) == |CharBytes(c)| > 0
  {
    CharIsWellFormed(c);
    LongerStartsAlike(CharBytes(c), rest);
  }

  lemma CharIsWellFormed(c: char)
    ensures SequenceLength(CharBytes(c)) == |CharBytes(c)| > 0
  {
  }

  lemma LongerStartsAlike(b: Bytes, rest: Bytes)
    requires SequenceLength(b) > 0
    ensures SequenceLength(b + rest) == SequenceLength(b)
  {
  }

  /** The bytes of any string are well formed. */
  lemma {:induction false} StringsAreValid(s: string)
    ensures ValidUtf8(StringBytes(s))
  {
    hide SequenceLength, CharBytes;
    if s != "" {
      CharIsOneSequence(s[0], StringBytes(s[1..]));
      StringsAreValid(s[1..]);
      assert StringBytes(s)[|CharBytes(s[0])|..] == StringBytes(s[1..]);
    }
  }

  // ---- Every well-formed sequence is a character

  lemma LastDigit(n: nat, m: nat, z: nat)
    requires n == m * 0x40 + z && z < 0x40
    ensures n / 0x40 == m && n % 0x40 == z
  {
  }

  lemma DigitsOf(n: nat)
    ensures n / 0x1000 == n / 0x40 / 0x40 && n / 0x4_0000 == n / 0x1000 / 0x40
  {
  }

  lemma CharOfTwo(b: Bytes) returns (c: char)
    requires |b| >= 2 && SequenceLength(b) == 2
    ensures CharBytes(c) == b[..2]
  {
    var x: int, y: int := b[0] - 0xC0, b[1] - 0x80;
    var n := x * 0x40 + y;
    LastDigit(n, x, y);
    c := n as char;
  }

  lemma CharOfThree(b: Bytes) returns (c: char)
    requires |b| >= 3 && SequenceLength(b) == 3
    ensures CharBytes(c) == b[..3]
  {
    var x: int, y: int, z: int := b[0] - 0xE0, b[1] - 0x80, b[2] - 0x80;
    var m := x * 0x40 + y;
    var n := m * 0x40 + z;
    LastDigit(m, x, y);
    LastDigit(n, m, z);
    DigitsOf(n);
    c := n as char;
  }

  lemma CharOfFour(b: Bytes) returns (c: char)
    requires |b| >= 4 && SequenceLength(b) == 4
    ensures CharBytes(c) == b[..4]
  {
    var w: int, x: int, y: int, z: int := b[0] - 0xF0, b[1] - 0x80, b[2] - 0x80, b[3] - 0x80;
    var l := w * 0x40 + x;
    var m := l * 0x40 + y;
    var n := m * 0x40 + z;
    LastDigit(l, w, x);
    LastDigit(m, l, y);
    LastDigit(n, m, z);
    DigitsOf(n);
    c := n as char;
  }

  /** A well-formed sequence is the bytes of a character. */
  lemma FirstChar(b: Bytes) returns (c: char)
    requires SequenceLength(b) > 0
    ensures CharBytes(c) == b[..SequenceLength(b)]
  {
    hide CharBytes;
    var n := SequenceLength(b);
    if n == 1 {
      OneByte(b[0]);
      c := b[0] as char;
      assert b[..1] == [b[0]];
    } else if n == 2 {
      c := CharOfTwo(b);
    } else if n == 3 {
      c := CharOfThree(b);
    } else {
      c := CharOfFour(b);
    }
  }

  lemma OneByte(b: byte)
    requires b < 0x80
    ensures CharBytes(b as char) == [b]
  {
  }

  ghost predicate AreOfAString(b: Bytes) {
    exists s :: StringBytes(s) == b
  }

  /** Well-formed bytes are exactly those of strings. */
  lemma ValidExactlyForStrings(b: Bytes)
    ensures ValidUtf8(b) <==> AreOfAString(b)
  {
    if ValidUtf8(b) { var s := StringOf(b); }
    if s :| StringBytes(s) == b { StringsAreValid(s); }
  }

  lemma {:induction false} StringOf(b: Bytes) returns (s: string)
    requires ValidUtf8(b)
    ensures StringBytes(s) == b
    decreases |b|
  {
    hide CharBytes, SequenceLength;
    s := "";
    if b != [] {
      var n := SequenceLength(b);
      var c := FirstChar(b);
      var rest := StringOf(b[n..]);
      s := [c] + rest;
      assert s[1..] == rest && b == b[..n] + b[n..];
    }
  }

  // ---- Byte order is code point order

  /** At position n, where a and b agree before, a has ended or has the smaller byte. */
  ghost predicate BytesPartAt(a: Bytes, b: Bytes, n: nat) {
    n <= |a| && n < |b| && a[..n] == b[..n] && (n == |a| || a[n] < b[n])
  }

  ghost predicate BytesComeBefore(a: Bytes, b: Bytes) {
    exists n :: BytesPartAt(a, b, n)
  }

  /** Of two characters the smaller has the smaller byte where their bytes first differ. */
  lemma CharsInOrder(c: char, d: char) returns (n: nat)
    requires (c as int) < d as int
    ensures n < |CharBytes(c)| && n < |CharBytes(d)| && CharBytes(c)[..n] == CharBytes(d)[..n]
    ensures CharBytes(c)[n] < CharBytes(d)[n]
  {
    var a, b := CharBytes(c), CharBytes(d);
    FirstByteGrows(c, d);
    if |a| < |b| || a[0] != b[0] {
      n := 0;
    } else {
      n := SameLengthInOrder(c, d);
    }
  }

  lemma FirstByteGrows(c: char, d: char)
    requires (c as int) < d as int
    ensures |CharBytes(c)| <= |CharBytes(d)| && CharBytes(c)[0] <= CharBytes(d)[0]
    ensures |CharBytes(c)| < |CharBytes(d)| ==> CharBytes(c)[0] < CharBytes(d)[0]
  {
  }

  /** Numbers of two digits in base 64 compare by the first digit in which they differ. */
  lemma LaterDigit(x: nat, y: nat)
    requires x < y && x / 0x40 == y / 0x40
    ensures x % 0x40 < y % 0x40
  {
  }

  lemma EarlierDigits(x: nat, y: nat)
    requires x <= y
    ensures x / 0x40 <= y / 0x40
  {
  }

  lemma SameLengthInOrder(c: char, d: char) returns (n: nat)
    requires (c as int) < d as int && |CharBytes(c)| == |CharBytes(d)| && CharBytes(c)[0] == CharBytes(d)[0]
    ensures n < |CharBytes(c)| && n < |CharBytes(d)| && CharBytes(c)[..n] == CharBytes(d)[..n]
    ensures CharBytes(c)[n] < CharBytes(d)[n]
  {
    var x, y := c as int, d as int;
    var a, b := CharBytes(c), CharBytes(d);
    DigitsOf(x);
    DigitsOf(y);
    EarlierDigits(x, y);
    EarlierDigits(x / 0x40, y / 0x40);
    n := |a| - 1;
    if x / 0x40 == y / 0x40 {
      LaterDigit(x, y);
    } else if x / 0x1000 == y / 0x1000 {
      LaterDigit(x / 0x40, y / 0x40);
      n := n - 1;
    } else {
      LaterDigit(x / 0x1000, y / 0x1000);
      n := n - 2;
    }
    SameDigits(c, d, n);
  }

  lemma SameDigits(c: char, d: char, n: nat)
    requires |CharBytes(c)| == |CharBytes(d)| && CharBytes(c)[0] == CharBytes(d)[0] && 0 < n < |CharBytes(c)|
    requires n == |CharBytes(c)| - 1 ==> (c as int) / 0x40 == (d as int) / 0x40
    requires n == |CharBytes(c)| - 2 ==> (c as int) / 0x1000 == (d as int) / 0x1000
    ensures CharBytes(c)[..n] == CharBytes(d)[..n]
  {
    DigitsOf(c as int);
    DigitsOf(d as int);
  }

  /** Comparing strings by code points and their bytes byte by byte is the same. */
  lemma BytesKeepOrder(a: string, b: string)
    ensures ComesBefore(a, b) <==> BytesComeBefore(StringBytes(a), StringBytes(b))
  {
    AtMostIsLexicographic(a, b);
    AtMostIsLexicographic(b, a);
    AtMostIsTotal(a, b);
    if n: nat :| PartsAt(a, b, n) { SmallerBytes(a, b, n); }
    if n: nat :| PartsAt(b, a, n) {
      SmallerBytes(b, a, n);
      BytesAreAsymmetric(StringBytes(a), StringBytes(b));
    }
    if a == b { BytesAreAsymmetric(StringBytes(a), StringBytes(b)); }
  }

  lemma BytesAreAsymmetric(a: Bytes, b: Bytes)
    ensures !(BytesComeBefore(a, b) && BytesComeBefore(b, a))
  {
    forall n: nat, m: nat | BytesPartAt(a, b, n) ensures !BytesPartAt(b, a, m) {
      assert n < |b| && (n < m <= |b| ==> b[..m][n] == b[n]);
      assert n < m <= |a| ==> a[..m][n] == a[n];
      assert m < n && m < |a| ==> a[..n][m] == a[m] && b[..n][m] == b[m];
    }
  }

  lemma {:induction false} SmallerBytes(a: string, b: string, n: nat)
    requires PartsAt(a, b, n)
    ensures BytesComeBefore(StringBytes(a), StringBytes(b))
    decreases n
  {
    hide CharBytes;
    var x, y := StringBytes(a), StringBytes(b);
    if n == 0 {
      CharIsWellFormed(b[0]);
      if a == "" {
        assert BytesPartAt(x, y, 0);
      } else {
        var m := CharsInOrder(a[0], b[0]);
        assert x[..m] == CharBytes(a[0])[..m] && y[..m] == CharBytes(b[0])[..m];
        assert BytesPartAt(x, y, m);
      }
    } else {
      assert a[0] == a[..n][0] == b[..n][0] == b[0];
      assert a[1..][..n - 1] == a[..n][1..] && b[1..][..n - 1] == b[..n][1..];
      SmallerBytes(a[1..], b[1..], n - 1);
      var m: nat :| BytesPartAt(StringBytes(a[1..]), StringBytes(b[1..]), m);
      var k := |CharBytes(a[0])| + m;
      assert x[..k] == CharBytes(a[0]) + StringBytes(a[1..])[..m];
      assert y[..k] == CharBytes(b[0]) + StringBytes(b[1..])[..m];
      assert BytesPartAt(x, y, k);
    }
  }
}
