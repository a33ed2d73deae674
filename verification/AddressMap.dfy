/** Ports, buffers and slots: the numbers that driver and hardware compute separately. */
module AddressMap {
  import opened Layout

  const WORD := 0x1_0000_0000

  // ---------------------------------------------------------------------------------------------
  // Ports to buffers
  // ---------------------------------------------------------------------------------------------

  type Port = p: int | 0 <= p < 0x1_0000

  /** The driver's check: 16-bit operands are promoted to int, so the difference may be negative. */
  predicate Accepts(min: Port, max: Port) { !(max - min >= PORTS) }

  /** The driver's buffer index, in uint32 arithmetic. */
  function DriverBuffer(min: Port, port: Port): int { (port - min) % WORD }

  /** The hardware's: a 16-bit difference cut to ten bits. */
  function HardwareBuffer(min: Port, port: Port): int { ((port - min) % 0x1_0000) % PORTS }

  /** The hardware's range test. */
  predicate InRange(min: Port, max: Port, port: Port) { min <= port && port <= max }

  /** Within an accepted range both compute the same index, and it is one of the buffers. */
  lemma BuffersAgree(min: Port, max: Port, port: Port)
    requires Accepts(min, max) && InRange(min, max, port)
    ensures DriverBuffer(min, port) == HardwareBuffer(min, port) == port - min < PORTS
  {
  }

  /** The range check is exact: it passes precisely the ranges whose ports get buffers of their own. */
  lemma PortsHaveOwnBuffersIff(min: Port, max: Port)
    requires min <= max
    ensures Accepts(min, max) <==>
            forall p: Port, q: Port :: InRange(min, max, p) && InRange(min, max, q) && p != q ==>
              HardwareBuffer(min, p) != HardwareBuffer(min, q)
  {
    if Accepts(min, max) {
      forall p: Port, q: Port | InRange(min, max, p) && InRange(min, max, q) && p != q
        ensures HardwareBuffer(min, p) != HardwareBuffer(min, q)
      {
        BuffersAgree(min, max, p);
        BuffersAgree(min, max, q);
      }
    } else {
      var p: Port, q: Port := min, min + PORTS;
      assert HardwareBuffer(min, p) == HardwareBuffer(min, q);
    }
  }

  /** An inverted range passes the check, but then no port at all is in range. */
  lemma InvertedRangeIsDeaf(min: Port, max: Port)
    ensures max < min <==> Accepts(min, max) && forall p: Port :: !InRange(min, max, p)
  {
    if min <= max {
      assert InRange(min, max, min);
    }
  }

  // ---------------------------------------------------------------------------------------------
  // Slots to addresses
  // ---------------------------------------------------------------------------------------------

  datatype Slot = Rx(buffer: nat, index: nat) | Tx(index: nat) {
    predicate Valid() { index < SLOTS && (Rx? ==> buffer < PORTS) }
  }

  /** The offset in shared memory as the drivers compute it, in 32-bit arithmetic. */
  function DriverOffset(s: Slot): int {
    match s
    case Rx(buffer, index) => (buffer * BUFFER + index * SLOT) % WORD
    case Tx(index) => (PORTS * BUFFER + index * SLOT) % WORD
  }

  /** The address registers of the controller, 32 bits wide; the base address is cut when it is written. */
  function HardwareAddress(base: nat, s: Slot): int {
    match s
    case Rx(buffer, index) => ((base + buffer * BUFFER) % WORD + index * SLOT) % WORD
    case Tx(index) => ((base + BUFFER * PORTS) % WORD + index * SLOT) % WORD
  }

  lemma OffsetIsSmall(s: Slot)
    requires s.Valid()
    ensures DriverOffset(s) == (if s.Rx? then s.buffer else PORTS) * BUFFER + s.index * SLOT
    ensures 0 <= DriverOffset(s) <= TOTAL - SLOT && DriverOffset(s) % SLOT == 0
  {
  }

  /** Driver and hardware mean the same place exactly when it is addressable with 32 bits. */
  lemma AddressesAgreeIff(base: nat, s: Slot)
    requires base < WORD && s.Valid()
    ensures HardwareAddress(base, s) == base + DriverOffset(s) <==> base + DriverOffset(s) < WORD
  {
    OffsetIsSmall(s);
  }

  /** So all slots agree exactly when the whole region is; the driver checks only where it starts. */
  lemma RegionAgreesIff(base: nat)
    requires base < WORD && base % SLOT == 0
    ensures base + TOTAL <= WORD <==>
            forall s: Slot :: s.Valid() ==> HardwareAddress(base, s) == base + DriverOffset(s)
  {
    if base + TOTAL <= WORD {
      forall s: Slot | s.Valid() ensures HardwareAddress(base, s) == base + DriverOffset(s) {
        AddressesAgreeIff(base, s);
        OffsetIsSmall(s);
      }
    } else {
      var last := Tx(SLOTS - 1);
      assert last.Valid();
      AddressesAgreeIff(base, last);
    }
  }

  /** A page-aligned base address the driver's check lets through, with slots that wrap to the bottom of memory. */
  lemma LateRegionWraps()
    ensures 0xffff_f000 <= 0xffff_ffff && 0xffff_f000 % 4096 == 0
    ensures HardwareAddress(0xffff_f000, Rx(0, 2)) == 0 != 0xffff_f000 + DriverOffset(Rx(0, 2))
  {
  }

  /** Different slots do not share a byte. */
  lemma SlotsAreDisjoint(s: Slot, t: Slot)
    requires s.Valid() && t.Valid() && s != t
    ensures DriverOffset(s) + SLOT <= DriverOffset(t) || DriverOffset(t) + SLOT <= DriverOffset(s)
  {
    OffsetIsSmall(s);
    OffsetIsSmall(t);
  }

  ghost predicate InSlot(x: nat, s: Slot) {
    s.Valid() && DriverOffset(s) <= x < DriverOffset(s) + SLOT
  }

  /** The slots tile the region: every byte of it is in one of them, and in one only. */
  lemma SlotsTile(x: nat)
    ensures x < TOTAL <==> exists s :: InSlot(x, s)
    ensures forall s, t :: InSlot(x, s) && InSlot(x, t) ==> s == t
  {
    if x < TOTAL {
      var buffer, index := x / BUFFER, x % BUFFER / SLOT;
      var s := if buffer < PORTS then Rx(buffer, index) else Tx(index);
      OffsetIsSmall(s);
      assert InSlot(x, s);
    }
    forall s | InSlot(x, s) ensures x < TOTAL {
      OffsetIsSmall(s);
    }
    forall s, t | InSlot(x, s) && InSlot(x, t) ensures s == t {
      if s != t {
        SlotsAreDisjoint(s, t);
      }
    }
  }
}
