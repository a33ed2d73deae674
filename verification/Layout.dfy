/** The layout of the shared memory: the sizes that the drivers and the hardware have in common. */
module Layout {
  /** Receive buffers, one for each port; the transmit buffer comes after them. */
  const PORTS := 1024

  /** Slots of a buffer. */
  const SLOTS := 32

  /** Bytes of a slot, of which the first forty are the packet's header. */
  const SLOT := 2048
  const HEADER_BYTES := 40
  const MAX_PAYLOAD := 2008

  /** Bytes of a buffer, and of all of them. */
  const BUFFER := 65536
  const TOTAL := 1025 * 65536
}
