/** Rust's fixed-width unsigned integers and the wrapping `as u8` cast. */
module MachineInts {
  type U8 = x: int | 0 <= x < 256

  /** `x as u8`: keep the low eight bits. */
  function AsU8(x: nat): (r: U8)
    ensures x < 256 ==> r == x
  {
    x % 256
  }
}
