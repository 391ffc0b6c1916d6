/** Big-endian integers, as every length and number on the wire is written. */
module BigEndian {
  import opened Prelude

  function U16Bytes(x: u16): (b: Bytes)
    ensures |b| == 2
  {
    [x / 0x100, x % 0x100]
  }

  function U16Of(b: Bytes): u16
    requires |b| == 2
  {
    b[0] as int * 0x100 + b[1]
  }

  function U32Bytes(x: u32): (b: Bytes)
    ensures |b| == 4
  {
    U16Bytes(x / 0x1_0000) + U16Bytes(x % 0x1_0000)
  }

  function U32Of(b: Bytes): u32
    requires |b| == 4
  {
    U16Of(b[..2]) * 0x1_0000 + U16Of(b[2..])
  }

  lemma U16RoundTrips(x: u16, b: Bytes)
    ensures U16Of(U16Bytes(x)) == x
    ensures |b| == 2 ==> U16Bytes(U16Of(b)) == b
  {
  }

  lemma U32RoundTrips(x: u32, b: Bytes)
    ensures U32Of(U32Bytes(x)) == x
    ensures |b| == 4 ==> U32Bytes(U32Of(b)) == b
  {
    U16RoundTrips(x / 0x1_0000, []);
    U16RoundTrips(x % 0x1_0000, []);
    assert U32Bytes(x)[..2] == U16Bytes(x / 0x1_0000) && U32Bytes(x)[2..] == U16Bytes(x % 0x1_0000);
    if |b| == 4 {
      U16RoundTrips(0, b[..2]);
      U16RoundTrips(0, b[2..]);
      hide U16Bytes, U16Of;
      assert b == b[..2] + b[2..];
    }
  }
}
