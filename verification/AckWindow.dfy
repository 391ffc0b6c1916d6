/** The acknowledgement window: the highest sequence received plus a mask over the 32 below it. */
module AckWindow {
  import opened Prelude

  const WINDOW := 32

  function Pow2(n: nat): (r: nat)
    ensures r > 0
  {
    if n == 0 then 1 else 2 * Pow2(n - 1)
  }

  /** Bit b of m, counted from the least significant. */
  predicate Bit(m: nat, b: nat) {
    if b == 0 then m % 2 == 1 else Bit(m / 2, b - 1)
  }

  /** m | 1 << b */
  function SetBit(m: nat, b: nat): nat {
    if Bit(m, b) then m else m + Pow2(b)
  }

  lemma {:induction false} LowNumberHasNoHighBit(m: nat, b: nat)
    requires m < Pow2(b)
    ensures !Bit(m, b)
  {
    if b > 0 { LowNumberHasNoHighBit(m / 2, b - 1); }
  }

  /** Setting a bit changes that bit and no other. */
  lemma {:induction false} SetBitSetsOnlyThatBit(m: nat, b: nat, i: nat)
    ensures Bit(SetBit(m, b), i) <==> (i == b || Bit(m, i))
  {
    if !Bit(m, b) {
      if b > 0 {
        assert (m + Pow2(b)) / 2 == m / 2 + Pow2(b - 1);
        if i > 0 { SetBitSetsOnlyThatBit(m / 2, b - 1, i - 1); }
      } else {
        assert (m + 1) / 2 == m / 2;
      }
    }
  }

  /** The mask over the n numbers below ack: bit b says whether ack - b - 1 was received. */
  function AckMask(received: set<u32>, ack: u32, n: nat): (mask: nat)
    ensures mask < Pow2(n)
  {
    if n == 0 then 0
    else
      var rest := AckMask(received, ack, n - 1);
      if ack > n - 1 && ack - n in received then
        LowNumberHasNoHighBit(rest, n - 1);
        SetBit(rest, n - 1)
      else rest
  }

  lemma Pow2Is32()
    ensures Pow2(32) == U32_MAX + 1
  {
    assert Pow2(8) == 256;
    assert Pow2(16) == 65536;
    assert Pow2(24) == 16777216;
  }

  /** What a packet created now acknowledges; (0, 0) before anything is received. */
  function AckState(highest: Option<u32>, received: set<u32>): (r: (u32, u32)) {
    var ack := if highest.Some? then highest.value else 0;
    Pow2Is32();
    (ack, AckMask(received, ack, WINDOW))
  }

  /** Does a packet carrying (ack, mask) acknowledge s? */
  predicate Covers(ack: u32, mask: u32, s: u32) {
    s == ack || (s < ack && ack - s <= WINDOW && Bit(mask, ack - s - 1))
  }

  /** The sequences a packet carrying (ack, mask) acknowledges. */
  function Acknowledged(ack: u32, mask: u32): set<u32> {
    set s: u32 | 0 <= s <= ack && Covers(ack, mask, s)
  }

  lemma {:induction false} AckMaskBits(received: set<u32>, ack: u32, n: nat, b: nat)
    ensures Bit(AckMask(received, ack, n), b) <==> b < n && ack > b && ack - b - 1 in received
  {
    var mask := AckMask(received, ack, n);
    if n == 0 {
      LowNumberHasNoHighBit(0, 0);
      ZeroHasNoBits(b);
    } else {
      AckMaskBits(received, ack, n - 1, b);
      SetBitSetsOnlyThatBit(AckMask(received, ack, n - 1), n - 1, b);
    }
  }

  lemma {:induction false} ZeroHasNoBits(b: nat)
    ensures !Bit(0, b)
  {
    if b > 0 { ZeroHasNoBits(b - 1); }
  }

  ghost predicate HighestOf(highest: Option<u32>, received: set<u32>) {
    match highest
    case None => received == {}
    case Some(h) => h in received && forall s :: s in received ==> s <= h
  }

  /** The window is exact: an acknowledgement clears precisely the received numbers within 32 of the highest. */
  lemma WindowIsExact(highest: Option<u32>, received: set<u32>)
    requires HighestOf(highest, received)
    requires highest.Some?
    ensures var (ack, mask) := AckState(highest, received);
      Acknowledged(ack, mask) == set s | s in received && s + 32 >= highest.value
  {
    var (ack, mask) := AckState(highest, received);
    forall s: u32
      ensures s in Acknowledged(ack, mask) <==> s in received && s + 32 >= highest.value
    {
      if s < ack { AckMaskBits(received, ack, WINDOW, ack - s - 1); }
    }
  }

  /** What an acknowledgement says, bit by bit: the highest number received, and for each of the 32 numbers below it
      whether it was received. */
  lemma AckStateBits(highest: Option<u32>, received: set<u32>, b: nat)
    ensures AckState(highest, received).0 == if highest.Some? then highest.value else 0
    ensures var (ack, mask) := AckState(highest, received);
      Bit(mask, b) <==> b < 32 && ack > b && ack - b - 1 in received
  {
    AckMaskBits(received, AckState(highest, received).0, WINDOW, b);
  }

  /** Bit b is the binary digit of weight 2 to the b. */
  lemma {:induction false} BitIsDigit(m: nat, b: nat)
    ensures Bit(m, b) <==> m / Pow2(b) % 2 == 1
  {
    if b > 0 {
      BitIsDigit(m / 2, b - 1);
      DivideTwice(m, Pow2(b - 1));
    }
  }

  lemma DivideTwice(m: nat, n: nat)
    requires n > 0
    ensures m / 2 / n == m / (2 * n)
  {
    var q, r := m / 2 / n, m / 2 % n;
    assert m / 2 == q * n + r;
    assert m == 2 * (m / 2) + m % 2;
    assert 2 * (q * n) == q * (2 * n);
    assert m == q * (2 * n) + (2 * r + m % 2) && 2 * r + m % 2 < 2 * n;
    QuotientOf(m, 2 * n, q, 2 * r + m % 2);
  }

  lemma SmallMultiple(k: int, n: nat)
    requires k * n < n && -k * n < n
    ensures k == 0
  {
    if k > 0 { Product(k - 1, n); } else if k < 0 { Product(-k - 1, n); }
  }

  lemma Product(a: nat, n: nat)
    ensures a * n >= 0 && (a + 1) * n == a * n + n && (-(a + 1)) * n == -(a * n) - n
  {
  }

  lemma QuotientOf(m: nat, n: nat, q: nat, r: nat)
    requires 0 <= r < n && m == q * n + r
    ensures m / n == q
  {
    var k := m / n;
    assert m == k * n + m % n;
    assert (q - k) * n == q * n - k * n;
    SmallMultiple(q - k, n);
  }

  /** What any acknowledgement clears, whoever sent it: its own number, and for each of the 32 digits of its mask that
      is 1 the number so far below, where there is one. */
  lemma ClearsExactly(ack: u32, mask: u32, s: u32)
    ensures s in Acknowledged(ack, mask) <==>
      s == ack || exists b: nat :: b < 32 && mask / Pow2(b) % 2 == 1 && s + b + 1 == ack
  {
    if s < ack { BitIsDigit(mask, ack - s - 1); }
    if b: nat :| b < 32 && mask / Pow2(b) % 2 == 1 && s + b + 1 == ack { assert b == ack - s - 1; }
  }

  /** An acknowledgement names only received numbers exactly when something has been received:
      before that it names sequence 0. */
  lemma AckIsSoundOnceSomethingArrived(highest: Option<u32>, received: set<u32>)
    requires HighestOf(highest, received)
    ensures var (ack, mask) := AckState(highest, received);
      && (Acknowledged(ack, mask) <= received <==> highest.Some?)
      && (highest.None? ==> Acknowledged(ack, mask) == {0})
      && Acknowledged(ack, mask) <= received + {0}
  {
    var (ack, mask) := AckState(highest, received);
    if highest.Some? {
      WindowIsExact(highest, received);
    } else {
      assert 0 in Acknowledged(ack, mask);
    }
  }
}
