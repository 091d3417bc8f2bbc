/** The C integer widths the driver computes in, on its 32-bit target.
    Unsigned arithmetic wraps modulo 2^width; each wrap is written out
    explicitly so that a proof has to show when it does not happen. */
module FixedWidth {

  const TWO_32: int := 0x1_0000_0000
  const TWO_64: int := 0x1_0000_0000_0000_0000

  /** uint32_t, unsigned int and unsigned long on the target */
  type u32 = x: int | 0 <= x < 0x1_0000_0000

  /** uint64_t */
  type u64 = x: int | 0 <= x < 0x1_0000_0000_0000_0000

  /** int */
  type i32 = x: int | -0x8000_0000 <= x < 0x8000_0000

  /** The value an unsigned 32-bit operation or conversion yields for the
      mathematical result x. Every 32-bit expression of the driver lies
      within one period of the representable range, so one correction by
      2^32 is the whole of the wrap. */
  function Wrap32(x: int): (r: u32)
    requires -TWO_32 <= x < 2 * TWO_32
    ensures 0 <= x < TWO_32 ==> r == x
    ensures x < 0 ==> r == x + TWO_32
    ensures x >= TWO_32 ==> r == x - TWO_32
    ensures r == x % TWO_32
  {
    if x < 0 then x + TWO_32 else if x >= TWO_32 then x - TWO_32 else x
  }

  /** The value an unsigned 64-bit operation or conversion yields for the
      mathematical result x, under the same one-period bound. */
  function Wrap64(x: int): (r: u64)
    requires -TWO_64 <= x < 2 * TWO_64
    ensures 0 <= x < TWO_64 ==> r == x
    ensures x < 0 ==> r == x + TWO_64
    ensures x >= TWO_64 ==> r == x - TWO_64
    ensures r == x % TWO_64
  {
    if x < 0 then x + TWO_64 else if x >= TWO_64 then x - TWO_64 else x
  }

  /** The C cast (uint32_t)x into a 32-bit register word. */
  function Cast32(x: int): (r: bv32)
    requires -TWO_32 <= x < 2 * TWO_32
    ensures 0 <= x <= 0xff ==> r <= 0xff
  {
    Wrap32(x) as bv32
  }

  /** A value above 0xff that fits in 32 bits keeps a bit above the low
      byte when cast. */
  lemma CastAboveByte(x: int)
    requires 0xff < x < TWO_32
    ensures Cast32(x) > 0xff
  {
    assert Wrap32(x) == x;
  }

  /** (uint32_t)(-1) is the all-ones word. */
  lemma CastMinusOne()
    ensures Cast32(-1) == 0xFFFF_FFFF
  {
    assert Wrap32(-1) == 0xFFFF_FFFF;
  }

  /** (uint32_t)0xFFFFFFFF, the reload count, is the all-ones word. */
  lemma CastAllOnes()
    ensures Cast32(0xFFFF_FFFF) == 0xFFFF_FFFF
  {
    assert Wrap32(0xFFFF_FFFF) == 0xFFFF_FFFF;
  }
}
