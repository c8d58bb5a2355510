module Octets {
  type Byte = n: int | 0 <= n < 256

  const ESC_BYTE: Byte := 0x1B
}
