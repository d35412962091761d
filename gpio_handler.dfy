/**
  The user I/O pin configuration: enable, type and direction bits in the three
  16-bit masks of the device configuration, their tests, the pin value guards
  and the bit-order lookup.  Pin hardware (ADC, GPIO registers) is represented
  by the readings it would return and the writes it would receive.
 */
module GpioHandler {
  import opened CTypes
  import opened ConfigData
  import Board

  const IoInput: uint8 := 0
  const IoOutput: uint8 := 1
  const IoDigital: uint8 := 0
  const IoAnalogIn: uint8 := 1
  const IoLow: uint8 := 0
  const IoHigh: uint8 := 1
  const IoDisable: uint8 := 0
  const IoEnable: uint8 := 1

  /** `mask |= sel`: the `sel` bits become set, every other bit keeps its value. */
  function SetBits(mask: bv16, sel: bv16): (r: bv16)
    ensures r & sel == sel
    ensures r & !sel == mask & !sel
  {
    mask | sel
  }

  /** `mask &= ~sel`: the `sel` bits become clear, every other bit keeps its value. */
  function ClearBits(mask: bv16, sel: bv16): (r: bv16)
    ensures r & sel == 0
    ensures r & !sel == mask & !sel
  {
    mask & !sel
  }

  /**
    The `uint8_t io_sel` of the setters and getters widened to the 16-bit mask,
    as C's integer promotion does: `~io_sel` then leaves the high byte set, so
    `mask &= ~io_sel` clears only bits of the low byte.
   */
  function Wide(sel: bv8): bv16 {
    sel as bv16
  }

  /** Disjoint 8-bit selectors stay disjoint when widened. */
  lemma WideDisjoint(sel: bv8, other: bv8)
    requires sel & other == 0
    ensures Wide(sel) & Wide(other) == 0
  {
  }

  /** The masks after `set_user_io_enable(sel, enable)`. */
  function WithEnable(info: UserIoInfo, sel: bv8, enable: uint8): (r: UserIoInfo)
    ensures r.ioType == info.ioType && r.direction == info.direction
    ensures enable != IoEnable && enable != IoDisable ==> r == info
  {
    if enable == IoEnable then info.(enable := SetBits(info.enable, Wide(sel)))
    else if enable == IoDisable then info.(enable := ClearBits(info.enable, Wide(sel)))
    else info
  }

  /** The masks after `set_user_io_direction(sel, dir)`. */
  function WithDirection(info: UserIoInfo, sel: bv8, dir: uint8): (r: UserIoInfo)
    ensures r.enable == info.enable && r.ioType == info.ioType
    ensures dir != IoOutput && dir != IoInput ==> r == info
  {
    if dir == IoOutput then info.(direction := SetBits(info.direction, Wide(sel)))
    else if dir == IoInput then info.(direction := ClearBits(info.direction, Wide(sel)))
    else info
  }

  /** The masks after `set_user_io_type(sel, t)`: an analog input is always an input. */
  function WithType(info: UserIoInfo, sel: bv8, t: uint8): (r: UserIoInfo)
    ensures r.enable == info.enable
    ensures t == IoDigital ==> r.direction == info.direction
    ensures t != IoAnalogIn && t != IoDigital ==> r == info
  {
    if t == IoAnalogIn then
      var input := WithDirection(info, sel, IoInput);
      input.(ioType := SetBits(input.ioType, Wide(sel)))
    else if t == IoDigital then info.(ioType := ClearBits(info.ioType, Wide(sel)))
    else info
  }

  /** A setter accepts exactly the two values of its enum. */
  function SetterStatus(arg: uint8): (ret: uint8)
    ensures ret == 1 <==> arg == 0 || arg == 1
    ensures ret == 0 || ret == 1
  {
    if arg == 0 || arg == 1 then 1 else 0
  }

  method SetUserIoEnable(cfg: DevConfig, ioSel: bv8, enable: uint8) returns (ret: uint8)
    modifies cfg`userIo
    ensures cfg.userIo == WithEnable(old(cfg.userIo), ioSel, enable)
    ensures ret == SetterStatus(enable)
  {
    ret := 1;
    if enable == IoEnable {
      cfg.userIo := cfg.userIo.(enable := SetBits(cfg.userIo.enable, Wide(ioSel)));
    } else if enable == IoDisable {
      cfg.userIo := cfg.userIo.(enable := ClearBits(cfg.userIo.enable, Wide(ioSel)));
    } else {
      ret := 0;
    }
  }

  method SetUserIoDirection(cfg: DevConfig, ioSel: bv8, dir: uint8) returns (ret: uint8)
    modifies cfg`userIo
    ensures cfg.userIo == WithDirection(old(cfg.userIo), ioSel, dir)
    ensures ret == SetterStatus(dir)
  {
    ret := 1;
    if dir == IoOutput {
      cfg.userIo := cfg.userIo.(direction := SetBits(cfg.userIo.direction, Wide(ioSel)));
    } else if dir == IoInput {
      cfg.userIo := cfg.userIo.(direction := ClearBits(cfg.userIo.direction, Wide(ioSel)));
    } else {
      ret := 0;
    }
  }

  method SetUserIoType(cfg: DevConfig, ioSel: bv8, t: uint8) returns (ret: uint8)
    modifies cfg`userIo
    ensures cfg.userIo == WithType(old(cfg.userIo), ioSel, t)
    ensures ret == SetterStatus(t)
  {
    ret := 1;
    if t == IoAnalogIn {
      var _ := SetUserIoDirection(cfg, ioSel, IoInput);
      cfg.userIo := cfg.userIo.(ioType := SetBits(cfg.userIo.ioType, Wide(ioSel)));
    } else if t == IoDigital {
      cfg.userIo := cfg.userIo.(ioType := ClearBits(cfg.userIo.ioType, Wide(ioSel)));
    } else {
      ret := 0;
    }
  }

  /** `(mask & sel) == sel`: every bit of `sel` is set in `mask`. */
  predicate AllSet(mask: bv16, sel: bv16) {
    mask & sel == sel
  }

  function GetUserIoEnabled(info: UserIoInfo, ioSel: bv8): (r: uint8)
    ensures r == IoEnable || r == IoDisable
    ensures r == IoEnable <==> info.enable & Wide(ioSel) == Wide(ioSel)
  {
    if AllSet(info.enable, Wide(ioSel)) then IoEnable else IoDisable
  }

  function GetUserIoType(info: UserIoInfo, ioSel: bv8): (r: uint8)
    ensures r == IoAnalogIn || r == IoDigital
    ensures r == IoAnalogIn <==> info.ioType & Wide(ioSel) == Wide(ioSel)
  {
    if AllSet(info.ioType, Wide(ioSel)) then IoAnalogIn else IoDigital
  }

  function GetUserIoDirection(info: UserIoInfo, ioSel: bv8): (r: uint8)
    ensures r == IoOutput || r == IoInput
    ensures r == IoOutput <==> info.direction & Wide(ioSel) == Wide(ioSel)
  {
    if AllSet(info.direction, Wide(ioSel)) then IoOutput else IoInput
  }

  /** Setting the `sel` bits leaves the test of a disjoint selector as it was. */
  lemma SetBitsKeepsOthers(mask: bv16, sel: bv16, other: bv16)
    requires sel & other == 0
    ensures AllSet(SetBits(mask, sel), other) == AllSet(mask, other)
  {
  }

  /** Clearing the `sel` bits leaves the test of a disjoint selector as it was. */
  lemma ClearBitsKeepsOthers(mask: bv16, sel: bv16, other: bv16)
    requires sel & other == 0
    ensures AllSet(ClearBits(mask, sel), other) == AllSet(mask, other)
  {
  }

  /** Distinct pins have disjoint, non-zero masks. */
  lemma DistinctPinsDisjoint(i: nat, j: nat)
    requires Board.IsPin(i) && Board.IsPin(j)
    ensures Board.UserIoSel[i] != 0
    ensures i != j ==> Board.UserIoSel[i] & Board.UserIoSel[j] == 0
  {
  }

  /** After enabling `sel` it reads as enabled; after disabling a non-empty `sel`, as disabled. */
  lemma EnableQuerySelf(info: UserIoInfo, sel: bv8, enable: uint8)
    ensures enable == IoEnable ==> GetUserIoEnabled(WithEnable(info, sel, enable), sel) == IoEnable
    ensures enable == IoDisable && sel != 0 ==> GetUserIoEnabled(WithEnable(info, sel, enable), sel) == IoDisable
  {
  }

  /** Enabling or disabling `sel` is not observed by any selector disjoint from it. */
  lemma EnableQueryOther(info: UserIoInfo, sel: bv8, other: bv8, enable: uint8)
    requires sel & other == 0
    ensures GetUserIoEnabled(WithEnable(info, sel, enable), other) == GetUserIoEnabled(info, other)
  {
    //WD
    if enable == IoEnable {
      SetBitsKeepsOthers(info.enable, Wide(sel), Wide(other));
    } else if enable == IoDisable {
      ClearBitsKeepsOthers(info.enable, Wide(sel), Wide(other));
    }
  }

  /** Analog input makes `sel` analog and an input; digital makes it digital. */
  lemma TypeQuerySelf(info: UserIoInfo, sel: bv8, t: uint8)
    ensures t == IoAnalogIn ==> GetUserIoType(WithType(info, sel, t), sel) == IoAnalogIn
    ensures t == IoAnalogIn && sel != 0 ==> GetUserIoDirection(WithType(info, sel, t), sel) == IoInput
    ensures t == IoDigital && sel != 0 ==> GetUserIoType(WithType(info, sel, t), sel) == IoDigital
  {
  }

  /** Changing the type of `sel` is observed neither in the type nor in the direction of a disjoint selector. */
  lemma TypeQueryOther(info: UserIoInfo, sel: bv8, other: bv8, t: uint8)
    requires sel & other == 0
    ensures GetUserIoType(WithType(info, sel, t), other) == GetUserIoType(info, other)
    ensures GetUserIoDirection(WithType(info, sel, t), other) == GetUserIoDirection(info, other)
  {
    TypeKeepsOtherType(info, sel, other, t);
    TypeKeepsOtherDirection(info, sel, other, t);
  }

  /** A disjoint selector keeps its type when the type of `sel` changes. */
  lemma TypeKeepsOtherType(info: UserIoInfo, sel: bv8, other: bv8, t: uint8)
    requires sel & other == 0
    ensures GetUserIoType(WithType(info, sel, t), other) == GetUserIoType(info, other)
  {
    WideDisjoint(sel, other);
    TypeMasksOther(info.ioType, info.direction, Wide(sel), Wide(other), t);
    WithTypeMasks(info, sel, t);
  }

  /** A disjoint selector keeps its direction when the type of `sel` changes. */
  lemma TypeKeepsOtherDirection(info: UserIoInfo, sel: bv8, other: bv8, t: uint8)
    requires sel & other == 0
    ensures GetUserIoDirection(WithType(info, sel, t), other) == GetUserIoDirection(info, other)
  {
    WideDisjoint(sel, other);
    TypeMasksOther(info.ioType, info.direction, Wide(sel), Wide(other), t);
    WithTypeMasks(info, sel, t);
  }

  /** The three masks `set_user_io_type` leaves, case by case. */
  lemma WithTypeMasks(info: UserIoInfo, sel: bv8, t: uint8)
    ensures t == IoAnalogIn ==>
      WithType(info, sel, t) == UserIoInfo(info.enable, SetBits(info.ioType, Wide(sel)), ClearBits(info.direction, Wide(sel)))
    ensures t == IoDigital ==> WithType(info, sel, t) == info.(ioType := ClearBits(info.ioType, Wide(sel)))
    ensures t != IoAnalogIn && t != IoDigital ==> WithType(info, sel, t) == info
  {
  }

  /** The mask-level step of `TypeQueryOther`, on the widened selectors. */
  lemma TypeMasksOther(a: bv16, b: bv16, ws: bv16, wo: bv16, t: uint8)
    requires ws & wo == 0
    ensures t == IoAnalogIn ==>
      AllSet(SetBits(a, ws), wo) == AllSet(a, wo)
      && AllSet(ClearBits(b, ws), wo) == AllSet(b, wo)
    ensures t == IoDigital ==> AllSet(ClearBits(a, ws), wo) == AllSet(a, wo)
  {
    if t == IoAnalogIn {
      SetBitsKeepsOthers(a, ws, wo);
      ClearBitsKeepsOthers(b, ws, wo);
    } else if t == IoDigital {
      ClearBitsKeepsOthers(a, ws, wo);
    }
  }

  /** Output makes `sel` an output; input makes a non-empty `sel` an input. */
  lemma DirectionQuerySelf(info: UserIoInfo, sel: bv8, dir: uint8)
    ensures dir == IoOutput ==> GetUserIoDirection(WithDirection(info, sel, dir), sel) == IoOutput
    ensures dir == IoInput && sel != 0 ==> GetUserIoDirection(WithDirection(info, sel, dir), sel) == IoInput
  {
  }

  /** Changing the direction of `sel` is not observed by a disjoint selector. */
  lemma DirectionQueryOther(info: UserIoInfo, sel: bv8, other: bv8, dir: uint8)
    requires sel & other == 0
    ensures GetUserIoDirection(WithDirection(info, sel, dir), other) == GetUserIoDirection(info, other)
  {
    //WD
    if dir == IoOutput {
      SetBitsKeepsOthers(info.direction, Wide(sel), Wide(other));
    } else if dir == IoInput {
      ClearBitsKeepsOthers(info.direction, Wide(sel), Wide(other));
    }
  }

  /** What the pin hardware would answer: the ADC sample and the output and input latches. */
  datatype PinReading = PinReading(adc: uint16, outputBit: uint8, inputBit: uint8)

  /**
    `get_user_io_val`: a disabled pin reads as failure with value 0; an enabled
    analog pin gives its ADC sample, an enabled digital pin its output latch when
    it is an output and its input latch otherwise.
   */
  function GetUserIoVal(info: UserIoInfo, ioSel: bv16, hw: PinReading): (r: (uint8, uint16))
    ensures r.0 == 1 <==> AllSet(info.enable, ioSel)
    ensures r.0 == 0 ==> r.1 == 0
    ensures r.0 == 1 && AllSet(info.ioType, ioSel) ==> r.1 == hw.adc
    ensures r.0 == 1 && !AllSet(info.ioType, ioSel) ==>
              r.1 == if AllSet(info.direction, ioSel) then hw.outputBit else hw.inputBit
  {
    if !AllSet(info.enable, ioSel) then (0, 0)
    else if AllSet(info.ioType, ioSel) then (1, hw.adc)
    else if AllSet(info.direction, ioSel) then (1, hw.outputBit)
    else (1, hw.inputBit)
  }

  /** The pin write `set_user_io_val` performs: reset for 0, set for 1, nothing otherwise. */
  datatype PinWrite = NoWrite | ResetPin | SetPin

  /**
    `set_user_io_val` succeeds only on an enabled pin none of whose type bits is
    set (digital) and whose direction bits are all set (output).
   */
  function SetUserIoVal(info: UserIoInfo, ioSel: bv16, val: uint16): (r: (uint8, PinWrite))
    ensures r.0 == 1 <==> AllSet(info.enable, ioSel) && info.ioType & ioSel == 0 && AllSet(info.direction, ioSel)
    ensures r.0 == 0 ==> r.1 == NoWrite
    ensures r.0 == 1 ==> r.1 == if val == 0 then ResetPin else if val == 1 then SetPin else NoWrite
  {
    if AllSet(info.enable, ioSel) && info.ioType & ioSel == 0 && AllSet(info.direction, ioSel) then
      (1, if val == 0 then ResetPin else if val == 1 then SetPin else NoWrite)
    else (0, NoWrite)
  }

  /** After selecting analog input, writing the pin's value is refused. */
  lemma AnalogRefusesWrite(info: UserIoInfo, sel: bv8, val: uint16)
    requires sel != 0
    ensures SetUserIoVal(WithType(info, sel, IoAnalogIn), Wide(sel), val).0 == 0
  {
  }

  /**
    The position of the bit `get_user_io_bitorder` reports: the highest set bit
    of a selector below 16, and 0 for 0 or a selector with a bit above pin D.
   */
  function BitOrder(sel: bv16): (r: nat)
    ensures r < Board.UserIoCount
  {
    if sel == 1 then 0
    else if 2 <= sel < 4 then 1
    else if 4 <= sel < 8 then 2
    else if 8 <= sel < 16 then 3
    else 0
  }

  /** `sel >> i == 1` holds exactly when bit `i` is the highest set bit of `sel`. */
  lemma ShiftIsOne(sel: bv16, i: nat)
    requires i < Board.UserIoCount
    ensures (sel >> i == 1) <==> (sel != 0 && BitOrder(sel) == i && sel < 16)
  {
    if i == 0 {
    } else if i == 1 {
    } else if i == 2 {
    } else {
    }
  }

  method GetUserIoBitorder(ioSel: bv16) returns (ret: uint8)
    ensures ret == BitOrder(ioSel)
  {
    ret := 0;
    var i: nat := 0;
    while i < Board.UserIoCount
      invariant i <= Board.UserIoCount
      invariant !(ioSel != 0 && ioSel < 16 && BitOrder(ioSel) < i)
    {
      ShiftIsOne(ioSel, i);
      if ioSel >> i == 1 {
        ret := i;
        return;
      }
      i := i + 1;
    }
  }

  /** Each pin's own mask reports that pin's position. */
  lemma PinBitOrder(i: nat)
    requires Board.IsPin(i)
    ensures BitOrder(Wide(Board.UserIoSel[i])) == i
  {
  }
}
