# SparkFun A111 board layer — a Dafny model

This project models the board layer of the SparkFun A111 pulsed-radar breakout on a
Raspberry Pi (`acc_board_rpi_sparkfun.c`). The radar processing library calls into this
layer to power sensors on and off, wait for the sensor's data-ready interrupt and
exchange bytes with a sensor over SPI. The model covers the following parts of it:

- the per-sensor power state (`UNKNOWN`, `READY`, `BUSY`) and the two `init_done` flags;
- the shared reset (`RSTn`) and enable (`ENABLE`) lines, which are pulsed only when no
  sensor is busy and dropped again when the last busy sensor stops;
- the interrupt semaphores, as a pending-signal count per sensor, and the drain of stale
  signals just before a sensor becomes busy;
- chip select over the two chip-enable lines, and the SPI bus lock around a transfer.

The file's statics become the fields of one `Board` object (module `SparkfunBoard`,
file `board.dfy`). The board has `SENSOR_COUNT = 1`; the model keeps the count `n` as a
parameter (at least 1), because the state machine is written for many sensors that
share one reset line.

The model records every call into a GPIO, OS or SPI driver in a log, in call order. The
environment is a fixed fault set: the call at log position k fails iff k is in it. The
level of each pin is always the level of its last successful write in the log
(`DrivenLevels`, an invariant of `Board.Consistent`). A failed write leaves the pin where
it was. The log functions and the lemmas about them are in module `BoardEvents`
(`board_events.dfy`). Callers that chain several operations are in module
`BoardScenarios` (`board_scenarios.dfy`).

A few places in the file do not compile, and the model follows what the code evidently
means:

- Line 159 has a stray `)`. The condition is modelled as the intended `||` chain:
  configure the interrupt pin as input, then drive `RSTn` low, then `ENABLE` low,
  stopping at the first call that fails.
- `acc_board_stop_sensor` is defined twice. `Board.StopSensor` is the `bool` variant
  (line 289): it reports a sensor that is not busy as an error. `Board.StopSensorQuietly`
  is the `void` variant (line 305): it ignores such a sensor.
- `CE_A_PIN` and `CE_B_PIN` are never defined. They are the abstract pins `CeA` and `CeB`.

Three choices follow the code as written:

- The sensor id is not range-checked. The code indexes `sensor - 1` directly, so
  `1 <= sensor <= n` is a precondition and there is no rejection path.
- `acc_board_init` ignores the result of opening the SPI device. Only a failure of
  semaphore creation or of handler registration makes it fail.
- A redundant power-on returns silently. A redundant power-off is an error in one variant
  and silent in the other, as written.

## Model

| member | source | states |
|---|---|---|
| `SparkfunBoard.Board.constructor` | sparkx-a111-source/source/acc_board_rpi_sparkfun.c:75-88 | Before any call, every sensor is `UNKNOWN`, every semaphore handle is NULL, no pin has been driven, the bus is unlocked and both `init_done` flags are false. |
| `SparkfunBoard.Board.AllSensorsInactive` | sparkx-a111-source/source/acc_board_rpi_sparkfun.c:132-140 | Returns true iff no sensor is `BUSY`; `READY` and `UNKNOWN` both count as inactive. |
| `SparkfunBoard.Board.GpioInit` | sparkx-a111-source/source/acc_board_rpi_sparkfun.c:143-171 | Once it has succeeded, it returns true and makes no call. Otherwise it makes the interrupt pin an input, then drives `RSTn` low, then `ENABLE` low, stopping at the first failure. It succeeds iff all three calls succeed, sets its flag only then, and on success leaves both lines low. |
| `SparkfunBoard.Board.Init` | sparkx-a111-source/source/acc_board_rpi_sparkfun.c:174-211 | Once it has succeeded, it returns true and changes nothing. Otherwise it succeeds iff every semaphore create and the handler registration succeed. On success every sensor is `UNKNOWN`, every semaphore is live with no pending signal, and the flag is set. On failure it returns false, leaves the sensor states alone and keeps the flag false. Its cleanup calls the corrected `Deinit`, not `DeinitAsWritten`. The cleanup therefore destroys exactly the semaphores this call created and leaves every handle NULL, so a later call retries from all-NULL handles. With the deinit as written and n >= 2, a later failed init destroys a handle again (see Findings). |
| `SparkfunBoard.Board.SetupIsr` | sparkx-a111-source/source/acc_board_rpi_sparkfun.c:96-113 | Creates semaphores in index order and stops at the first failed create, whose handle becomes NULL. When all were created, it registers the handler on the interrupt pin. It succeeds iff all n creates and the registration succeed. |
| `SparkfunBoard.Board.Deinit` | sparkx-a111-source/source/acc_board_rpi_sparkfun.c:116-125 | Corrected deinit: it destroys exactly the live semaphores, each once, and leaves every handle NULL. |
| `SparkfunBoard.Board.DeinitAsWritten` | sparkx-a111-source/source/acc_board_rpi_sparkfun.c:116-125 | Deinit as written: it destroys every non-NULL handle, including ones destroyed before, and leaves them non-NULL. |
| `SparkfunBoard.Board.IsrSensor1` | sparkx-a111-source/source/acc_board_rpi_sparkfun.c:90-94 | The interrupt handler adds one pending signal to the first sensor's semaphore and to no other. |
| `SparkfunBoard.Board.WaitForSensorInterrupt` | sparkx-a111-source/source/acc_board_rpi_sparkfun.c:345-348 | A pending signal is consumed and the call returns true. The 32-bit timeout is narrowed to the 16-bit timeout of the OS semaphore wait, so only `timeoutMs % 65536` takes effect. With no signal pending, an effective timeout of zero returns false (a timeout of 65536 polls once). A non-zero effective timeout returns true iff the handler fires before it expires, and that is possible only for sensor 1. The count of no other sensor changes. |
| `SparkfunBoard.Board.DrainInterrupts` | sparkx-a111-source/source/acc_board_rpi_sparkfun.c:282-283 | Zero-timeout polling until a poll fails leaves the sensor with no pending signal and leaves every other sensor's count unchanged. |
| `SparkfunBoard.Board.SetAllStates` | sparkx-a111-source/source/acc_board_rpi_sparkfun.c:270-273 | The sensor-state loop of board init and of power-up puts every sensor in the same given state. |
| `SparkfunBoard.Board.ResetSensor` | sparkx-a111-source/source/acc_board_rpi_sparkfun.c:222-237 | Drives `RSTn` low, then `ENABLE` low. It stops at the first failed write and returns true iff both succeed, in which case both lines are low. |
| `SparkfunBoard.Board.PowerUpAllSensors` | sparkx-a111-source/source/acc_board_rpi_sparkfun.c:247-274 | Writes `RSTn` low, `ENABLE` high, `RSTn` high, in that order. If all three succeed, both lines are high and every sensor is `READY`. If one fails, the reset sequence runs right after it and no sensor state changes. |
| `SparkfunBoard.Board.StartSensor` | sparkx-a111-source/source/acc_board_rpi_sparkfun.c:240-286 | A `BUSY` target: nothing changes. No sensor busy: the power-up sequence runs; on success only the target is `BUSY`, the others are `READY` and the target's pending signals are drained to zero; on a failed write no state changes. Another sensor busy: there is no GPIO call; a `READY` target is drained and becomes `BUSY`, any other target is left alone. Start and stop preserve the invariant that a busy sensor has both shared lines high; other operations, such as a later GPIO init, can lower the lines under a busy sensor. |
| `SparkfunBoard.Board.StopSensor` | sparkx-a111-source/source/acc_board_rpi_sparkfun.c:289-303 | A sensor that is not `BUSY`: returns false and changes nothing. A `BUSY` sensor becomes `UNKNOWN` and no other sensor changes. If no sensor is busy afterwards, the reset sequence runs and its result is returned; otherwise there is no GPIO call and the result is true. |
| `SparkfunBoard.Board.StopSensorQuietly` | sparkx-a111-source/source/acc_board_rpi_sparkfun.c:305-318 | Makes the same transitions and the same GPIO calls as `StopSensor`. A sensor that is not busy is ignored silently and the reset result is dropped. |
| `SparkfunBoard.Board.ChipSelect` | sparkx-a111-source/source/acc_board_rpi_sparkfun.c:320-337 | When asserting, it drives CE_A, then CE_B, to the sensor's address and returns false iff a write fails; CE_B is not written after a failed CE_A. When deasserting, it makes no call and returns true. |
| `SparkfunBoard.Board.SensorTransfer` | sparkx-a111-source/source/acc_board_rpi_sparkfun.c:362-383 | The bus lock is free on return. The call sequence is the one `TransferLog` gives: lock, chip select, the exchange only if chip select succeeded, then unlock. |
| `BoardEvents.LeadingOk` | sparkx-a111-source/source/acc_board_rpi_sparkfun.c:98-106 | Gives how many creates succeed before the first failure: every call before that point succeeds, and the call at that point fails unless all m succeeded. |
| `BoardEvents.LeadingOkIs` | sparkx-a111-source/source/acc_board_rpi_sparkfun.c:98-106 | That count is determined uniquely by those two facts. |
| `BoardEvents.ResetLowersLines` | sparkx-a111-source/source/acc_board_rpi_sparkfun.c:222-237 | A reset sequence whose writes succeed writes `RSTn` low, then `ENABLE` low, and leaves both lines low. |
| `BoardEvents.PowerUpRaisesLines` | sparkx-a111-source/source/acc_board_rpi_sparkfun.c:249-268 | A power-up whose writes succeed writes exactly `RSTn` low, `ENABLE` high, `RSTn` high, and leaves both lines high. |
| `BoardEvents.FailedPowerUpLowersLines` | sparkx-a111-source/source/acc_board_rpi_sparkfun.c:249-268 | Whichever power-up write fails, the fallback reset leaves both lines low, provided its own two writes succeed. |
| `BoardEvents.ResetForgetsLineWrites` | sparkx-a111-source/source/acc_board_rpi_sparkfun.c:249-268 | Once both shared lines are driven low, earlier writes to those lines leave no trace in the pin levels. |
| `BoardEvents.GpioInitLowersLines` | sparkx-a111-source/source/acc_board_rpi_sparkfun.c:158-162 | A successful GPIO init configures the interrupt input, then drives `RSTn` low and `ENABLE` low. That is the same line state the power-off sequence restores. |
| `BoardEvents.ChipSelectDecodes` | sparkx-a111-source/source/acc_board_rpi_sparkfun.c:325-326 | The CE_A/CE_B pair is a two-bit address: sensors 1 to 4 get four distinct positions, and any other id addresses the fourth. |
| `BoardEvents.TransferReleasesLock` | sparkx-a111-source/source/acc_board_rpi_sparkfun.c:362-383 | A transfer takes the lock first and releases it last, with no lock or unlock in between, on every path. The exchange happens iff both chip-enable writes succeeded. |
| `BoardEvents.DestroyEventsExact` | sparkx-a111-source/source/acc_board_rpi_sparkfun.c:118-124 | Deinit destroys semaphore i iff its handle is not NULL. |
| `BoardEvents.DestroyEventsLive` | sparkx-a111-source/source/acc_board_rpi_sparkfun.c:116-125 | When no handle is stale, deinit destroys semaphore i iff semaphore i is live. |
| `BoardEvents.DestroyLivePrefix` | sparkx-a111-source/source/acc_board_rpi_sparkfun.c:198-201 | After a failed setup that started from all-NULL handles, deinit destroys exactly the semaphores that were created. |
| `BoardScenarios.StartThenStopSingleSensor` | sparkx-a111-source/source/acc_board_rpi_sparkfun.c:240-318 | With one sensor, start then stop pulses the lines once and leaves `RSTn` and `ENABLE` low, as after GPIO init. The sensor ends `UNKNOWN`. |
| `BoardScenarios.TwoSensorsShareResetLine` | sparkx-a111-source/source/acc_board_rpi_sparkfun.c:247-300 | With two sensors, only the first start pulses the shared lines, and only the second stop drops them. |
| `BoardScenarios.StartTwoSensors` | sparkx-a111-source/source/acc_board_rpi_sparkfun.c:247-285 | Starting two sensors one after the other pulses the shared lines once, and both end `BUSY`. |
| `BoardScenarios.StopTwoSensors` | sparkx-a111-source/source/acc_board_rpi_sparkfun.c:289-300 | Stopping two busy sensors one after the other drops the shared lines once, at the second stop, and both end `UNKNOWN`. |
| `BoardScenarios.StaleInterruptIsDrained` | sparkx-a111-source/source/acc_board_rpi_sparkfun.c:282-285 | An interrupt that fires while all sensors are off is not seen by a zero-timeout wait after the start. |
| `BoardScenarios.StaleHandleDestroyedTwice` | sparkx-a111-source/source/acc_board_rpi_sparkfun.c:198-201 | With the deinit as written and two sensors, two rounds of setup_isr followed by deinit (the failure path of board init, without its SPI open) destroy semaphore 2 a second time. |
| `BoardScenarios.RetryDestroysStaleHandle` | sparkx-a111-source/source/acc_board_rpi_sparkfun.c:116-125 | From two destroyed handles left in place, a setup whose first create fails is followed by a destroy of semaphore 2, which was never re-created. |
| `BoardScenarios.RetriedInitRecovers` | sparkx-a111-source/source/acc_board_rpi_sparkfun.c:174-211 | With the corrected deinit and the same failures, each semaphore is destroyed once and a third init succeeds. |
| `BoardScenarios.RetryInit` | sparkx-a111-source/source/acc_board_rpi_sparkfun.c:174-211 | After a failed init that forgot its handles, the next init fails at the first create and destroys nothing, and the one after it succeeds. |

## Left out

- `acc_board_get_sensor_count`, `acc_board_get_ref_freq`, `acc_board_set_ref_freq`: they return a constant or always fail, and have no logic. The sensor count is the field `n`.
- Driver registration, `acc_os_init`, `acc_device_gpio_init` and `acc_device_gpio_set_initial_pull`: foreign calls whose results the code does not use. Pull configuration has no effect on the levels modelled.
- The SPI bus lookup (`acc_device_spi_get_bus`, which only reads the bus number of the SPI handle) and the SPI byte exchange: the buffer contents and the SPI handle's value are not modelled. The exchange appears only as a call that succeeds or fails.
- Timing: how long a wait blocks, and the interrupt firing asynchronously during another operation. The handler is a separate step (`IsrSensor1`) that a caller interleaves, and a wait with a non-zero timeout takes whether the handler fires in time as a parameter. The power-up writes `ENABLE` high and `RSTn` high back to back, with no delay between them, so there is no settle time to model.
- Concurrency: two threads in `acc_board_sensor_transfer` at once. Holding the lock is the `spiLocked` flag, and a transfer requires that the caller does not already hold it.
- Logging and the `fprintf` diagnostics, including the format mismatch on line 164.
- The wait, the handler and `StartSensor`, whose drain waits on the semaphore, require a completed board init. Before that the semaphore handles are NULL, and the code would pass a NULL handle to the OS.

## Findings

| source | as written | input that shows it | evidently intended | confidence | as-written member | corrected member |
|---|---|---|---|---|---|---|
| sparkx-a111-source/source/acc_board_rpi_sparkfun.c:116-125 | `deinit` destroys each non-NULL semaphore but does not reset `isr_semaphores[i]` to NULL. | Take `SENSOR_COUNT = 2`. The first `acc_board_init` creates both semaphores, then handler registration fails, so both are destroyed. The retry fails to create semaphore 1, and its `deinit` destroys semaphore 2 a second time. | Set the handle to NULL after destroying it, so that a later `deinit` skips it. | not executed; medium — it needs `SENSOR_COUNT` of 2 or more, and the file has 1, where index 0 is always overwritten before `deinit` runs | `BoardScenarios.StaleHandleDestroyedTwice` | `SparkfunBoard.Board.Deinit` |
