/** Bytes, and the machine words made of them, low half first. */
module Bytes {
  newtype byte = x: int | 0 <= x < 0x100

  type uint16 = x: int | 0 <= x < 0x1_0000

  type uint32 = x: int | 0 <= x < 0x1_0000_0000

  datatype Word16 = Word16(lo: byte, hi: byte) {
    function Value(): nat {
      lo as nat + 0x100 * (hi as nat)
    }
  }

  datatype Word32 = Word32(lo: Word16, hi: Word16) {
    function Value(): nat {
      lo.Value() + 0x1_0000 * hi.Value()
    }
  }

  datatype Word64 = Word64(lo: Word32, hi: Word32) {
    function Value(): nat {
      lo.Value() + 0x1_0000_0000 * hi.Value()
    }
  }
}
