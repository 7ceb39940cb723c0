/**
 * The stream type ids the writers filter on, as the 16 bytes
 * Guid.ToByteArray gives: the first three groups little-endian, the last
 * eight bytes in order.
 */
module StreamTypeIds {
  import opened Bytes

  /** {0a3914d6-3b16-11e1-aac3-001e4fd58c0f} */
  const Depth: Guid := [0xd6, 0x14, 0x39, 0x0a, 0x16, 0x3b, 0xe1, 0x11, 0xaa, 0xc3, 0x00, 0x1e, 0x4f, 0xd5, 0x8c, 0x0f]

  /** {2ba0d67d-be11-4534-9444-3fb21ae0f08b} */
  const UncompressedColor: Guid := [0x7d, 0xd6, 0xa0, 0x2b, 0x11, 0xbe, 0x34, 0x45, 0x94, 0x44, 0x3f, 0xb2, 0x1a, 0xe0, 0xf0, 0x8b]
}
