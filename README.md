# Buzzer pager firmware: verified model of its sequential core

The firmware drives a battery-powered restaurant pager built on an Arduino with a
cellular modem. This project models its sequential core in Dafny and proves
properties of that model:

- **Finite-state-machine engine** (`BuzzerFsm`). The engine keeps a table of
  states. Each state holds a success successor, a failure successor and a work
  function. `ProcessState` runs the current work function once and picks the
  next state from the code it returns. The engine is a class over an array.
  Work functions are abstract `int -> int` values. The engine lemmas take the
  code returned on each tick as an input sequence, so they hold whatever the
  work functions return.
- **Modem line reader** (`FonaShield`). `ReadLine` copies at most
  `buffer_len - 1` bytes from the serial link into a buffer and adds a NUL.
  `Init` reads one line and compares it with the reply `AT\r\r\nOK\r\n`. The
  serial link is modelled as the sequence of bytes it holds.
- **EEPROM string store** (`EepromStore`). These are the bounded copy loops
  between a caller's buffer and the EEPROM, with the write-then-read round trip.
  The header and the `.cpp` file hold identical bodies. Both are modelled by the
  same two methods, and the rows below cite both files.
- **Helpers** (`Helpers`): the button-press duration over the wrapping 32-bit
  millisecond clock, and `ClearEEPROM`.
- **Low-pass filter** (`Lpf`): the shift-by-8 integer filter over the static
  `filter`, modelled as a class with one field.
- **State work functions** (`BuzzerCallbacks`):
  - the return codes each work function chooses;
  - the device globals they update, which are the fields of one `Device` object;
  - the hour/minute split of the wait time;
  - the sizing of the JSON POST body.

  The modem calls and the fields of parsed JSON replies are parameters.
- Shared pieces: `CStrings` models the C-string view of a buffer (what
  `strlen`, `strcmp` and `%s` see) and `strncpy`. `Avr` holds the target's
  integer widths: `int` is 16 bits, `long` and `unsigned long` are 32 bits.

Some facts about this version of the firmware shape the model:

- The engine has no timeout successor, no iteration counter and no forced
  transition.
- The elapsed-time argument is a field that nothing writes, so every work
  function receives 0.
- `ReadLine` has no inter-byte timeout.
- The JSON keys are long names such as `status`, `is_active`, `buzz`,
  `wait_time`, `party_avail`, `party_id` and `party_name`.

The code is also inconsistent with itself:

- `BuzzerFSM.h` and `Globals.h` both define `enum ret_vals`, and `Globals.h`
  includes `BuzzerFSM.h`. The engine's module keeps the codes SUCCESS = 0,
  FAILURE = 1, REPEAT = 2. The work functions' module keeps SUCCESS = 0,
  ERROR = 1, REPEAT = 2, TIMEOUT = 3.
- `BuzzerCallbacks.CodesAsTheEngineReadsThem` states how the engine reads
  the work functions' codes. ERROR is the engine's FAILURE. TIMEOUT keeps the
  state, as REPEAT does.
- The table's function pointer is `int(*)(int)`, but the work functions take
  `(unsigned long, int)`.

Chars stand for bytes throughout: serial bytes, EEPROM cells and buffer cells.

## Model

| member | source | states |
|---|---|---|
| `BuzzerFsm.Fsm.constructor` | buzzer/BuzzerFSM.cpp:3-5 | the current id is the initial id and that slot holds the initial state; the other slots are zeroed (null function); the elapsed time is 0 |
| `BuzzerFsm.Fsm.DoState` | buzzer/BuzzerFSM.cpp:7-9 | returns what the current state's work function gives for 0, because the elapsed time is never written; changes nothing |
| `BuzzerFsm.NextStateId` | buzzer/BuzzerFSM.cpp:12-14 | the engine moves only along the state's own success or failure edge, only on SUCCESS or FAILURE, and SUCCESS wins |
| `BuzzerFsm.Fsm.TransitionToNextState` | buzzer/BuzzerFSM.cpp:11-15 | SUCCESS moves to the success successor, and the later else-branch does not undo it; FAILURE moves to the failure successor; any other code (REPEAT, or 3) keeps the id |
| `BuzzerFsm.Fsm.AddState` | buzzer/BuzzerFSM.cpp:17-19 | overwrites exactly slot `state_id`; every other slot, the current id and the elapsed time are unchanged |
| `BuzzerFsm.Fsm.ProcessState` | buzzer/BuzzerFSM.cpp:21-24 | runs the current work function once, with argument 0, and moves to the successor its code selects; the table and the elapsed time are unchanged; in a closed table the new state can be run again |
| `BuzzerFsm.Step` | buzzer/BuzzerFSM.cpp:7-14 | one tick as a function of the table and of the code the work function returned; in a closed table it never leads to an unregistered (null) slot, whatever the code |
| `BuzzerFsm.Run` | buzzer/BuzzerFSM.cpp:21-24 | one tick per code, for any sequence of codes: in a closed table the engine always ends in a registered slot, so no null work function is ever called |
| `BuzzerFsm.NoMoveStaysPut` | buzzer/BuzzerFSM.cpp:13-14 | a state whose work function returns neither SUCCESS nor FAILURE on every tick is never left, however many ticks run |
| `BuzzerFsm.RunSplit` | buzzer/BuzzerFSM.cpp:21-24 | the ticks of code sequence a followed by those of b are the ticks of a + b |
| `BuzzerFsm.DeclaredTableHasNoSlot` | buzzer/BuzzerFSM.h:10-17 | the table as declared, `states[SETUP]` with SETUP = 0, has no slot that any id could use |
| `CStrings.CStr` | buzzer/FonaShield.cpp:17 | the C string of a buffer: the longest prefix without a NUL, followed by a NUL or by the end of the buffer |
| `CStrings.StrncpyPrefix` | buzzer/BuzzerFSMCallbacks.cpp:206 | the first n cells `strncpy` leaves: the source's characters up to its NUL, then NUL padding |
| `CStrings.StrncpyCStr` | buzzer/BuzzerFSMCallbacks.cpp:206 | after `strncpy` of n cells, the C string is the source cut to n characters; when the source has n or more characters, no NUL is written |
| `CStrings.Strncpy` | buzzer/BuzzerFSMCallbacks.cpp:206 | on a buffer: the first n cells become the `strncpy` prefix and the rest is untouched |
| `FonaShield.LineLength` | buzzer/FonaShield.cpp:28-32 | the number of bytes `ReadLine` takes: all available bytes, or `buffer_len - 1`, whichever is smaller |
| `FonaShield.Shield.constructor` | buzzer/FonaShield.cpp:4-5 | the shield reads from a serial link that holds `received` |
| `FonaShield.Shield.ReadLine` | buzzer/FonaShield.cpp:25-35 | for `buffer_len >= 2`: `buffer[0..n)` holds the first n bytes of the link in order and `buffer[n]` is NUL, with n = LineLength; later cells are untouched; exactly n bytes are consumed and the rest stay unread; an empty link leaves `buffer[0]` = NUL |
| `FonaShield.InitAccepts` | buzzer/FonaShield.cpp:15-17 | the acceptance test of `Init`: the line's C string equals the reply; it implies that the link starts with the nine reply bytes |
| `FonaShield.Shield.Init` | buzzer/FonaShield.cpp:7-18 | reads one line of at most 255 bytes, with no retry, and returns whether its C string equals the expected reply |
| `FonaShield.InitAcceptsIff` | buzzer/FonaShield.cpp:15-17 | `Init` succeeds if and only if the link holds exactly `A T \r \r \n O K \r \n`, or starts with those nine bytes and a NUL |
| `Avr.AsUInt16` | buzzer/EEPROMReadWrite.h:9 | the conversion of a 16-bit `int` to `unsigned int` in a mixed comparison: the value modulo 2^16, unchanged when non-negative |
| `EepromStore.AcceptedOnSmallStore` | buzzer/EEPROMReadWrite.h:9 | on a store of fewer than 2^15 cells, the unsigned guard `buf_len > EEPROM.length()` accepts exactly `0 <= buf_len <= length`, so a negative `buf_len` is refused |
| `EepromStore.Accepted` | buzzer/EEPROMReadWrite.h:9 | the guard `!(buf_len > EEPROM.length())` of lines 9 and 19, at unsigned width: it accepts every `0 <= buf_len <= length` and never a `buf_len` above `length` |
| `EepromStore.Written` | buzzer/EEPROMReadWrite.cpp:9-15 | the store after a write: unchanged when the unsigned guard refuses `buf_len`; otherwise addresses `0..buf_len-1` hold `buf` and the rest are as before |
| `EepromStore.ReadCount` | buzzer/EEPROMReadWrite.cpp:20-26 | the number of cells a read copies: up to and including the first NUL among the first `buf_len` stored cells, otherwise `buf_len` |
| `EepromStore.EepromWrite` | buzzer/EEPROMReadWrite.h:8-16 | returns false and leaves the store unchanged when `buf_len`, converted to `unsigned int`, exceeds `length`; otherwise writes `buf[0..buf_len)` to addresses `0..buf_len-1`, leaves the rest unchanged, and returns true |
| `EepromStore.EepromRead` | buzzer/EEPROMReadWrite.h:18-27 | returns false and leaves the buffer unchanged when `buf_len`, converted to `unsigned int`, exceeds `length`; otherwise copies `ReadCount` cells from address 0 and leaves later buffer cells untouched; it never changes the store |
| `EepromStore.WriteThenRead` | buzzer/EEPROMReadWrite.h:8-27 | writing NUL-terminated `s` with `buf_len = \|s\|+1`, then reading with any accepted `buf_len >= \|s\|+1`, copies exactly `s` and its NUL |
| `EepromStore.ReadUnterminated` | buzzer/EEPROMReadWrite.h:21-25 | when none of the first `buf_len` stored cells is NUL, all `buf_len` cells are copied, so the buffer is not NUL-terminated |
| `EepromStore.StoreAndLoad` | buzzer/EEPROMReadWrite.cpp:8-27 | the write method followed by the read method: both succeed and the buffer starts with the string and its NUL |
| `Helpers.ButtonPressDuration` | buzzer/Helpers.h:37-42 | `now - start` when `now >= start`; otherwise one less than `(now - start) mod 2^32`, at most `ULONG_MAX - 1`, so it never overflows |
| `Helpers.ElapsedTicks` | buzzer/Helpers.h:38-41 | the wrap-safe elapsed time: the tick count d in clock range with `start + d = now (mod 2^32)` |
| `Helpers.ElapsedTicksUnique` | buzzer/Helpers.h:38-41 | exactly one tick count in clock range has that property |
| `Helpers.DurationAgainstElapsed` | buzzer/Helpers.h:40-41 | the duration equals the elapsed time until the clock wraps, and is one tick short after a wrap |
| `Helpers.DurationOffByOneAtWrap` | buzzer/Helpers.h:41 | a press from `ULONG_MAX` to 0 lasts 1 tick but is measured as 0 |
| `Helpers.ClearEeprom` | buzzer/Helpers.h:31-35 | every address `0..length-1` holds 0 afterwards |
| `Helpers.ClearedStoreReadsEmpty` | buzzer/Helpers.h:31-35 | after clearing, a read copies a single NUL, that is the empty string |
| `Lpf.Shr8` | buzzer/LPF.h:22 | a right shift by 8 of a signed value is `floor(x / 256)` |
| `Lpf.SeedThenRead` | buzzer/LPF.h:13-23 | after the corrected `SeedLpf(s)` sets the filter to `s * 256`, `GetCurrLpfVal` returns s, for every 16-bit s |
| `Lpf.SeedAsWritten` | buzzer/LPF.h:14 | `seed_val << 8` at 16-bit `int` width: `seed * 256` wrapped modulo 2^16 |
| `Lpf.SeedAsWrittenReadsBackIff` | buzzer/LPF.h:13-23 | as written, a seed reads back as itself if and only if it lies in -128 .. 127 |
| `Lpf.SeedOverflowAt200` | buzzer/LPF.h:14 | as written, a seed of 200 is stored as -14336 and reads back as -56 |
| `Lpf.Filtered` | buzzer/LPF.h:18 | the filter after one sample: 255/256 of the old filter, rounded up, plus the sample |
| `Lpf.FixedPoint` | buzzer/LPF.h:17-19 | when `filter == v*256`, adding v leaves the filter and the output unchanged |
| `Lpf.Monotone` | buzzer/LPF.h:17-19 | a sample at least the output never lowers the filter; a sample at most the output never raises it |
| `Lpf.KeepIsMonotone` | buzzer/LPF.h:18 | `f - floor(f/256)` does not decrease as f grows |
| `Lpf.StaysInRange` | buzzer/LPF.h:11-19 | with 16-bit samples the filter stays within 256 times the 16-bit range, so the 32-bit `long` never overflows |
| `Lpf.TowardTarget` | buzzer/LPF.h:17-19 | adding the same v repeatedly moves the filter toward `v*256`, never past it and never away from it |
| `Lpf.LowPassFilter.constructor` | buzzer/LPF.h:11 | the filter starts at 0 |
| `Lpf.LowPassFilter.SeedLpf` | buzzer/LPF.h:13-15 | the filter becomes `seed * 256` for every 16-bit seed, with the shift done at `long` width (corrected, see Findings) |
| `Lpf.LowPassFilter.AddValToLpf` | buzzer/LPF.h:17-19 | the filter becomes `filter - floor(filter/256) + v` and stays in range |
| `Lpf.LowPassFilter.GetCurrLpfVal` | buzzer/LPF.h:21-23 | returns `floor(filter / 256)` and changes nothing |
| `BuzzerCallbacks.Device.constructor` | buzzer/Globals.h:16-17 | the 30-cell buzzer name is an empty C string; `party_id`, `wait_time` and the setup flag start at 0, which assumes zero-initialised static storage, because their definitions are not part of this model |
| `BuzzerCallbacks.InitFunc` | buzzer/BuzzerFSMCallbacks.cpp:7-15 | always SUCCESS |
| `BuzzerCallbacks.InitFonaShieldFunc` | buzzer/BuzzerFSMCallbacks.cpp:17-34 | ERROR once the state has repeated MAX_RETRIES (5) times, whatever the modem would say; before that, SUCCESS if the modem initialises and REPEAT if it does not |
| `BuzzerCallbacks.InitGprsFunc` | buzzer/BuzzerFSMCallbacks.cpp:36-54 | the same rule for the GPRS attach |
| `BuzzerCallbacks.RetryFrom` | buzzer/BuzzerFSMCallbacks.cpp:17-34 | the callback's retry policy, under an engine that hands it a rising count of repeats: it ends within MAX_RETRIES + 1 calls, with SUCCESS or ERROR, and with SUCCESS exactly when some attempt before the limit finds the modem ready; in this firmware the engine calls the work function through `int(*)(int)` with the elapsed time, always 0, so `num_iterations_in_state` is never passed at all |
| `BuzzerCallbacks.NameCopyAsWritten` | buzzer/BuzzerFSMCallbacks.cpp:68 | the name copy as written fills all 30 cells of `buzzer_name_global` |
| `BuzzerCallbacks.LongNameLeftUnterminated` | buzzer/BuzzerFSMCallbacks.cpp:68 | as written, a name of 30 or more characters leaves `buzzer_name_global` with no NUL |
| `BuzzerCallbacks.CopyTerminated` | buzzer/BuzzerFSMCallbacks.cpp:206-207 | `strncpy` of `size - 1` characters and then a NUL in the last cell: the buffer holds the source cut to `size - 1` characters, and the last cell is NUL |
| `BuzzerCallbacks.GetBuzzerNameFunc` | buzzer/BuzzerFSMCallbacks.cpp:56-70 | returns SUCCESS; stores the name and its NUL in the EEPROM (silently skipped when too long); `buzzer_name_global` then holds the name cut to 29 characters and stays NUL-terminated (corrected, see Findings) |
| `BuzzerCallbacks.IdleFunc` | buzzer/BuzzerFSMCallbacks.cpp:83-93 | sets `has_system_been_initialized` to true and returns REPEAT; it is the only work function allowed to write that flag |
| `BuzzerCallbacks.ShutdownFunc` | buzzer/BuzzerFSMCallbacks.cpp:95-101 | always SUCCESS |
| `BuzzerCallbacks.ChargeFunc` | buzzer/BuzzerFSMCallbacks.cpp:103-110 | always REPEAT |
| `BuzzerCallbacks.WakeupFunc` | buzzer/BuzzerFSMCallbacks.cpp:112-119 | SUCCESS if and only if the device was set up before, otherwise ERROR |
| `BuzzerCallbacks.SleepFunc` | buzzer/BuzzerFSMCallbacks.cpp:121-127 | always REPEAT |
| `BuzzerCallbacks.FormatPostBody` | buzzer/BuzzerFSMCallbacks.cpp:143 | the body is the fixed text before the name, the name itself, then the `is_buzzing` digit and the closing brace |
| `BuzzerCallbacks.Snprintf` | buzzer/BuzzerFSMCallbacks.cpp:143 | `snprintf` into `size` cells: a prefix of the output and a NUL, at most `size` cells; the whole output when it has fewer than `size` characters |
| `BuzzerCallbacks.PostBodyFits` | buzzer/BuzzerFSMCallbacks.cpp:140-143 | for either `is_buzzing` value the formatted body is exactly `skeleton_len + \|name\|` long, so `snprintf` into `skeleton_len + \|name\| + 1` cells does not truncate it |
| `BuzzerCallbacks.ApiPostBuzzerNameData` | buzzer/BuzzerFSMCallbacks.cpp:139-145 | `post_data` holds the whole body with the current buzzer name, and then a NUL |
| `BuzzerCallbacks.CDiv60` | buzzer/BuzzerFSMCallbacks.cpp:153 | C's `/ 60`, truncating toward zero: `q*60` is within 60 of x and on zero's side of it |
| `BuzzerCallbacks.SplitWaitTime` | buzzer/BuzzerFSMCallbacks.cpp:153-154 | `hrs*60 + min == wait_time` under C's truncating division; `0 <= min < 60` when `wait_time >= 0`, and `-60 < min <= 0` otherwise |
| `BuzzerCallbacks.HeartbeatCode` | buzzer/BuzzerFSMCallbacks.cpp:171-177 | SUCCESS if and only if the status is "success", the party is active and the reply says buzz; TIMEOUT if and only if the status is "success" and the party is inactive; REPEAT in every other case; never ERROR |
| `BuzzerCallbacks.HeartbeatFunc` | buzzer/BuzzerFSMCallbacks.cpp:147-178 | returns that code; `wait_time` takes the reply's value only on the last REPEAT path and is unchanged otherwise |
| `BuzzerCallbacks.AcceptAvailPartyFunc` | buzzer/BuzzerFSMCallbacks.cpp:180-191 | SUCCESS if and only if the status is "success", otherwise ERROR |
| `BuzzerCallbacks.GetAvailPartyFunc` | buzzer/BuzzerFSMCallbacks.cpp:193-214 | when a party is available: copies `wait_time` and `party_id`, copies `party_name` cut to `sizeof - 1` with a NUL in the last slot, and returns SUCCESS; otherwise leaves all three unchanged and returns ERROR |
| `BuzzerCallbacks.CheckBuzzerRegFunc` | buzzer/BuzzerFSMCallbacks.cpp:216-227 | SUCCESS if and only if the buzzer is registered, otherwise ERROR |
| `BuzzerCallbacks.WaitBuzzerRegFunc` | buzzer/BuzzerFSMCallbacks.cpp:229-241 | REPEAT until the buzzer is registered, then SUCCESS |
| `BuzzerCallbacks.BuzzFunc` | buzzer/BuzzerFSMCallbacks.cpp:243-257 | SUCCESS if and only if the party is no longer active, otherwise REPEAT |
| `BuzzerCallbacks.CodesAsTheEngineReadsThem` | buzzer/Globals.h:14 | the engine takes ERROR as FAILURE, and keeps the state for both REPEAT and TIMEOUT |
| `BuzzerCallbacks.InactivePartyKeepsHeartbeat` | buzzer/BuzzerFSMCallbacks.cpp:173 | a heartbeat state told on every tick that its party is inactive returns TIMEOUT each time, which the engine ignores, so the device stays on the heartbeat for as long as such replies come |

## Left out

- `BuzzerCallbacks.Device.constructor`: the definitions of `party_id`,
  `wait_time`, `party_name` and `has_system_been_initialized` are not part of
  this model. Their zero start is an assumption; `NO_PARTY` (-1) suggests
  `party_id` may start elsewhere.
- A JSON field missing from a reply reaches `strlen`, `strncpy` or `strcmp` as
  a NULL pointer (BuzzerFSMCallbacks.cpp lines 67-68, 171, 189, 206). The reply
  fields are `seq<char>` parameters, which cannot be NULL, so this case is not
  modelled.
- `BuzzerCallbacks.GetBuzzerNameFunc` takes a name shorter than 256
  characters, since the name comes out of a reply held in a 256-byte buffer.
  The conversion of `strlen(buzzer_name)+1` to `int` is therefore not modelled.
- `EepromStore.EepromWrite` and `EepromStore.EepromRead` take a store of at
  most 65535 cells, because `EEPROM.length()` returns a `uint16_t`.
- Display, timing and debug output are side effects only, and none is modelled:
  - OLED output (`oled.*`, the `OLED_PRINT*` macros, `UpdateBatteryPercentage`);
  - `delay`, `Serial` prints and `PrintFreeRAM`;
  - `analogWrite` on the buzzer pin;
  - the contrast timeout in `IdleFunc`.
- `readVcc` reads processor registers.
- Modem I/O is not modelled: `begin`, `println`, `SendATCommand` and the
  `ResetShield` pin pulses. The serial link is modelled only by the bytes it
  holds when `ReadLine` runs. `available()` is read as "the link still holds
  bytes", with no timing.
- The modem driver calls `initShield`, `enableGPRS`, `HTTPGETOneLine` and
  `HTTPPOSTOneLine` are not among the modelled files. Their outcomes are
  parameters, and the reply buffers they fill are not modelled.
- ArduinoJson parsing is a library the model cannot see. Each work function
  takes the fields it reads as parameters. `IsBuzzerRegistered` is only the
  value it extracts, so it becomes the parameter of `CheckBuzzerRegFunc` and
  `WaitBuzzerRegFunc`.
- The sizing of the `AcceptAvailPartyFunc` body and of the `%02d` wait-time
  text uses floating-point digit counts (`NUM_DIGITS`, `log10`). Neither is
  modelled. With `party_id = 0` the count takes `log10(0)`.
- `millis()` is read twice in `get_button_press_duration`. The model takes it
  once, as `now`.
- `BuzzerFSM()`, the engine constructor without arguments, is declared but has
  no body. `BuzzerOnFunc` and `BuzzerOffFunc` have no bodies either.
- The engine class holds work functions as fixed `int -> int` values, and
  `ProcessState` is stated through the value at 0. The real work functions
  read the modem, the backend's replies and the globals, so their code
  changes from tick to tick. The engine lemmas (`Step`, `Run`,
  `NoMoveStaysPut`, `RunSplit`) therefore take the code of each tick as an
  input and assume nothing about it. A work function's effect on the globals
  is not visible to the engine. The work functions' `(unsigned long, int)`
  signature does not match the table's function pointer.
- `BuzzerCallbacks.InitFonaShieldFunc`: the modem's result is a parameter. The
  model therefore does not show that the modem is not called once the retry
  limit is reached.
- `FonaShield.Shield.ReadLine` requires `buffer_len >= 2`. With 1 the stop test
  `i == buffer_len - 1` cannot hold after the increment, so a non-empty link
  writes past the buffer.

## Findings

| source | as written | input that shows it | evidently intended | confidence | as-written member | corrected member |
|---|---|---|---|---|---|---|
| buzzer/BuzzerFSM.h:17 | the table is `State states[SETUP]` with `SETUP = 0`, which has no slots | the constructor with `initial_state_id = SETUP` writes `states[0]` of an empty array | one slot per state id | high; not executed | `BuzzerFsm.DeclaredTableHasNoSlot` | `BuzzerFsm.Fsm.constructor` |
| buzzer/Helpers.h:41 | after a wrap the result is `(ULONG_MAX - start) + now` | start = 4294967295 and now = 0: this is 1 ms, measured as 0 | the elapsed ticks `(now - start) mod 2^32` | high; not executed | `Helpers.DurationOffByOneAtWrap` | `Helpers.ElapsedTicks` |
| buzzer/BuzzerFSMCallbacks.cpp:68 | `strncpy(buzzer_name_global, buzzer_name, sizeof(buzzer_name_global))` | a name of 30 characters: no NUL is stored, and the next `strlen` reads past the array | copy at most 29 characters and a NUL, as `party_name` is copied at line 206-207 | medium; not executed | `BuzzerCallbacks.LongNameLeftUnterminated` | `BuzzerCallbacks.GetBuzzerNameFunc` |
| buzzer/LPF.h:14 | `filter = seed_val << LPF_FILTER_SHIFT`, with the shift done at 16-bit `int` width | seed 200: 51200 wraps to -14336 and `get_curr_lpf_val` returns -56; any battery voltage in millivolts overflows the same way | shift at the width of `filter`, `(signed long)seed_val << 8`, so that any seed reads back | medium; not executed | `Lpf.SeedOverflowAt200` | `Lpf.LowPassFilter.SeedLpf` |
