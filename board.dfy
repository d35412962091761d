/** Board constants of the WIZwiki-W7500ECO: the four expansion pins and the device name. */
module Board {

  /** Number of user I/O pins (A to D). */
  const UserIoCount: nat := 4

  /** One bit per user I/O pin, as a 16-bit mask. */
  const UserIoA: bv16 := 1 << 0
  const UserIoB: bv16 := 1 << 1
  const UserIoC: bv16 := 1 << 2
  const UserIoD: bv16 := 1 << 3
  const AllUserIo: bv16 := UserIoA | UserIoB | UserIoC | UserIoD

  /** The pin selectors (`uint8_t USER_IO_SEL[]`), the resource ids and the pin labels, in pin order. */
  const UserIoSel: seq<bv8> := [UserIoA as bv8, UserIoB as bv8, UserIoC as bv8, UserIoD as bv8]
  const UserIoStr: seq<string> := ["a", "b", "c", "d"]
  const UserIoPinStr: seq<string> := ["p30", "p29", "p28", "p27"]

  /** The default module name of a W7500 (not W7500P) board. */
  const DeviceIdDefault: string := "W7500_Device"

  /** `i` names a user I/O pin. */
  predicate IsPin(i: int) {
    0 <= i < UserIoCount
  }
}
