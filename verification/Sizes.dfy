/** Sizes of the disc layout and of the container's tables, and alignment. */
module Sizes {
  const BLOCK_HEADER_SIZE: nat := 0x400
  const BLOCK_DATA_SIZE: nat := 0x7c00
  const BLOCK_TOTAL_SIZE: nat := 0x8000
  const BLOCKS_PER_GROUP: nat := 64
  const H0_ARRAY_SIZE: nat := 620
  const GROUP_TOTAL_SIZE: nat := 0x20_0000
  const CHUNK_SIZE: nat := 0x2_0000
  const DISC_HEADER_SIZE: nat := 0x80
  const WII_MAGIC: nat := 0x5d1c_9ea3
  const RAW_ENTRY_SIZE: nat := 0x18
  const GROUP_ENTRY_SIZE: nat := 0x0c
  const PART_ENTRY_SIZE: nat := 0x30
  const PART_DATA_ENTRY_SIZE: nat := 0x10
  const HEADER_1_SIZE: nat := 0x48
  const HEADER_2_SIZE: nat := 0xdc
  const HEADER_AREA_SIZE: nat := 0x124
  const FLAG: nat := 0x8000_0000
  const U32: nat := 0x1_0000_0000
  const U64: nat := 0x1_0000_0000_0000_0000

  function Min(a: nat, b: nat): nat {
    if a < b then a else b
  }

  function AlignDown(value: nat, alignment: nat): (r: nat)
    requires alignment > 0
    ensures r <= value < r + alignment
  {
    value - value % alignment
  }

  function AlignUp(value: nat, alignment: nat): (r: nat)
    requires alignment > 0
    ensures value <= r < value + alignment
  {
    AlignDown(value + alignment - 1, alignment)
  }

  function DivCeil(a: nat, b: nat): nat
    requires b > 0
  {
    (a + b - 1) / b
  }

  function Align4(value: nat): nat {
    (value + 3) / 4 * 4
  }

  function Max(a: nat, b: nat): nat {
    if a < b then b else a
  }
}
