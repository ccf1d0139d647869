/** Fixed-width unsigned integers of the C sources, and their wrap-around. */
module Words {
  type Byte = x: int | 0 <= x < 0x100
  type U32 = x: int | 0 <= x < 0x1_0000_0000
  type U64 = x: int | 0 <= x < 0x1_0000_0000_0000_0000

  function Wrap32(x: int): U32 {
    x % 0x1_0000_0000
  }

  function Wrap64(x: int): U64 {
    x % 0x1_0000_0000_0000_0000
  }

  /** x >> 32 */
  function High32(x: nat): nat {
    x / 0x1_0000_0000
  }
}
