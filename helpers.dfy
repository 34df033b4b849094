/** Helpers shared by the firmware: the button-press duration over the
    wrapping millisecond clock, and zero-filling the EEPROM. */
module Helpers {
  import opened CStrings
  import EepromStore
  import opened Avr

  /** millis() wraps modulo 2^32. */
  const ClockModulus: int := ULongMax + 1

  /** get_button_press_duration with millis() read once as `now`. Without a
      wrap it is the plain difference; after a wrap it is one tick short of
      the true elapsed time modulo 2^32, and never overflows. */
  function ButtonPressDuration(now: ULong, buttonPressStart: ULong): (d: ULong)
    ensures now >= buttonPressStart ==> d == now - buttonPressStart
    ensures now < buttonPressStart ==>
      d + 1 == (now - buttonPressStart) % ClockModulus && d <= ULongMax - 1
  {
    if now >= buttonPressStart then now - buttonPressStart
    else (ULongMax - buttonPressStart) + now
  }

  /** The elapsed time the computation is meant to give: the number of
      ticks d that takes the clock from start to now, with wrap-around. */
  function ElapsedTicks(now: ULong, start: ULong): (d: ULong)
    ensures (start + d) % ClockModulus == now
  {
    (now - start) % ClockModulus
  }

  /** ElapsedTicks is the only tick count in clock range with that property. */
  lemma ElapsedTicksUnique(now: ULong, start: ULong, d: ULong)
    requires (start + d) % ClockModulus == now
    ensures d == ElapsedTicks(now, start)
  {
    if start + d >= ClockModulus {
      assert start + d - ClockModulus == now;
    } else {
      assert start + d == now;
    }
  }

  /** The two agree until the clock wraps; after a wrap the source's result
      is one tick short. */
  lemma DurationAgainstElapsed(now: ULong, start: ULong)
    ensures now >= start ==> ButtonPressDuration(now, start) == ElapsedTicks(now, start)
    ensures now < start ==> ButtonPressDuration(now, start) == ElapsedTicks(now, start) - 1
  {
  }

  /** A press that starts on the last clock value and ends one tick later,
      after the wrap, is measured as 0 ms instead of 1 ms. */
  lemma DurationOffByOneAtWrap()
    ensures ElapsedTicks(0, ULongMax) == 1
    ensures ButtonPressDuration(0, ULongMax) == 0
  {
  }

  /** ClearEEPROM: every cell becomes 0. */
  method ClearEeprom(eeprom: array<char>)
    modifies eeprom
    ensures forall a :: 0 <= a < eeprom.Length ==> eeprom[a] == NUL
  {
    for i := 0 to eeprom.Length
      invariant forall a :: 0 <= a < i ==> eeprom[a] == NUL
    {
      eeprom[i] := NUL;
    }
  }

  /** After ClearEEPROM a read of the stored string copies one NUL: the
      empty string. */
  lemma ClearedStoreReadsEmpty(store: seq<char>, bufLen: int)
    requires forall a :: 0 <= a < |store| ==> store[a] == NUL
    requires 1 <= bufLen <= |store|
    ensures EepromStore.ReadCount(store, bufLen) == 1
  {
    CStrUnique(store[..bufLen], []);
  }
}
