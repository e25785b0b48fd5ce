/** Calls the board layer makes into its GPIO, OS and SPI drivers, recorded in call
    order, together with the oracle that decides which of those calls fail.

    The board layer never sees the hardware directly: every effect it has goes
    through a driver call. The model records each such call as an `Event` in a log;
    the call at log position k fails iff k is in the fault set. Pin levels are then a
    function of the log: the last successful write to each pin. */
module BoardEvents {

  /** Host GPIO lines of the board: the sensor interrupt input (BCM 25), the shared
      reset line (BCM 6), the shared enable line (BCM 27) and the two chip-enable lines
      of the chip-select multiplexer. */
  datatype Pin = Gpio0 | RSTn | Enable | CeA | CeB

  datatype Level = Low | High

  /** The state of one interrupt semaphore handle: never created (or NULL after a
      failed create), usable, or handed to the OS for destruction. */
  datatype Handle = Null | Live | Destroyed

  /** One driver call made by the board layer. */
  datatype Event =
    | GpioInput(pin: Pin)              // configure a pin as input; may fail
    | GpioWrite(pin: Pin, level: Level) // drive a pin; may fail
    | SpiCreate                        // open the SPI device; its result is ignored
    | SemCreate(index: nat)            // create isr semaphore `index`; may fail
    | SemDestroy(index: nat)           // destroy isr semaphore `index`
    | IsrRegister(pin: Pin)            // register the rising-edge handler; may fail
    | SpiLock                          // take the SPI bus lock
    | SpiTransfer(sensor: nat)         // full-duplex exchange with a sensor; may fail
    | SpiUnlock                        // release the SPI bus lock

  /** None of the m calls at log positions k .. k+m-1 fails. */
  predicate NoFaultIn(faults: set<nat>, k: nat, m: nat)
  {
    forall j :: k <= j < k + m ==> j !in faults
  }

  /** The number of leading calls, out of m starting at position k, that succeed. */
  function LeadingOk(faults: set<nat>, k: nat, m: nat): (c: nat)
    ensures c <= m
    ensures NoFaultIn(faults, k, c)
    ensures c < m ==> k + c in faults
    decreases m
  {
    if m == 0 || k in faults then 0 else 1 + LeadingOk(faults, k + 1, m - 1)
  }

  /** LeadingOk is pinned down by its two defining facts. */
  lemma LeadingOkIs(faults: set<nat>, k: nat, m: nat, c: nat)
    requires c <= m && NoFaultIn(faults, k, c)
    requires c < m ==> k + c in faults
    ensures LeadingOk(faults, k, m) == c
  {
  }

  /** The level each pin was last successfully driven to; a pin absent from the map
      has never been driven by the board layer. */
  function DrivenLevels(log: seq<Event>, faults: set<nat>): map<Pin, Level>
  {
    LevelsUpTo(log, faults, |log|)
  }

  /** The driven levels after the first m calls of the log. */
  function LevelsUpTo(log: seq<Event>, faults: set<nat>, m: nat): map<Pin, Level>
    requires m <= |log|
  {
    if m == 0 then map[]
    else
      var before := LevelsUpTo(log, faults, m - 1);
      var e := log[m - 1];
      if e.GpioWrite? && m - 1 !in faults then before[e.pin := e.level] else before
  }

  /** Calls appended to the log do not change the levels after its first m calls. */
  lemma {:induction false} LevelsUpToPrefix(log: seq<Event>, ext: seq<Event>, faults: set<nat>, m: nat)
    requires m <= |log|
    ensures LevelsUpTo(log + ext, faults, m) == LevelsUpTo(log, faults, m)
  {
    if m > 0 {
      LevelsUpToPrefix(log, ext, faults, m - 1);
      assert (log + ext)[m - 1] == log[m - 1];
    }
  }

  /** Appending one call changes the driven levels only through a successful write. */
  lemma DrivenAppend(log: seq<Event>, e: Event, faults: set<nat>)
    ensures DrivenLevels(log + [e], faults) ==
              if e.GpioWrite? && |log| !in faults then DrivenLevels(log, faults)[e.pin := e.level]
              else DrivenLevels(log, faults)
  {
    LevelsUpToPrefix(log, [e], faults, |log|);
    assert (log + [e])[|log|] == e;
  }

  // ---------------------------------------------------------------------------
  // The call sequences of the board operations, as functions of the position k at
  // which the operation starts.

  /** acc_board_reset_sensor: RSTn <- 0, then (if that succeeded) ENABLE <- 0. */
  function ResetLog(faults: set<nat>, k: nat): seq<Event>
  {
    [GpioWrite(RSTn, Low)] + (if k in faults then [] else [GpioWrite(Enable, Low)])
  }

  /** The reset block of acc_board_start_sensor: RSTn <- 0, ENABLE <- 1, RSTn <- 1,
      stopping at the first failing write and then running the reset sequence. */
  function PowerUpLog(faults: set<nat>, k: nat): seq<Event>
  {
    if k in faults then
      [GpioWrite(RSTn, Low)] + ResetLog(faults, k + 1)
    else if k + 1 in faults then
      [GpioWrite(RSTn, Low), GpioWrite(Enable, High)] + ResetLog(faults, k + 2)
    else if k + 2 in faults then
      [GpioWrite(RSTn, Low), GpioWrite(Enable, High), GpioWrite(RSTn, High)] + ResetLog(faults, k + 3)
    else
      [GpioWrite(RSTn, Low), GpioWrite(Enable, High), GpioWrite(RSTn, High)]
  }

  /** acc_board_gpio_init: interrupt pin to input, RSTn <- 0, ENABLE <- 0, with the
      short-circuit of the `||` chain. */
  function GpioInitLog(faults: set<nat>, k: nat): seq<Event>
  {
    [GpioInput(Gpio0)] +
    if k in faults then []
    else [GpioWrite(RSTn, Low)] + if k + 1 in faults then [] else [GpioWrite(Enable, Low)]
  }

  /** The chip-enable levels that select a sensor: CE_A is low for sensors 1 and 2,
      CE_B is low for sensors 1 and 3. */
  function CeALevel(sensor: nat): Level
  {
    if sensor == 1 || sensor == 2 then Low else High
  }

  function CeBLevel(sensor: nat): Level
  {
    if sensor == 1 || sensor == 3 then Low else High
  }

  /** Which of the four multiplexed chip-select positions a pair of CE levels
      addresses (CE_A is the high bit). */
  function SelectedSlot(a: Level, b: Level): nat
  {
    1 + (if a == High then 2 else 0) + (if b == High then 1 else 0)
  }

  /** acc_board_chip_select: nothing when deasserting; otherwise CE_A, then (if that
      succeeded) CE_B. */
  function ChipSelectLog(faults: set<nat>, k: nat, sensor: nat, csAssert: bool): seq<Event>
  {
    if !csAssert then []
    else [GpioWrite(CeA, CeALevel(sensor))] + if k in faults then [] else [GpioWrite(CeB, CeBLevel(sensor))]
  }

  /** acc_board_sensor_transfer: lock, assert chip select, exchange (only if chip
      select succeeded), deassert chip select (no calls), unlock. */
  function TransferLog(faults: set<nat>, k: nat, sensor: nat): seq<Event>
  {
    [SpiLock] + ChipSelectLog(faults, k + 1, sensor, true) +
    (if NoFaultIn(faults, k + 1, 2) then [SpiTransfer(sensor)] else []) +
    [SpiUnlock]
  }

  /** Creation calls for semaphores 0 .. m-1, in order. */
  function Creates(m: nat): (r: seq<Event>)
    ensures |r| == m
  {
    if m == 0 then [] else Creates(m - 1) + [SemCreate(m - 1)]
  }

  /** Destruction calls for semaphores 0 .. m-1, in order. */
  function Destroys(m: nat): (r: seq<Event>)
    ensures |r| == m
  {
    if m == 0 then [] else Destroys(m - 1) + [SemDestroy(m - 1)]
  }

  /** setup_isr: create the semaphores in order, stopping at the first failure; when
      all were created, register the interrupt handler on the interrupt pin. */
  function SetupIsrLog(faults: set<nat>, k: nat, n: nat): seq<Event>
  {
    var c := LeadingOk(faults, k, n);
    if c < n then Creates(c + 1) else Creates(n) + [IsrRegister(Gpio0)]
  }

  /** deinit over the first m handles: one destroy call for every handle that is not
      NULL, in index order. */
  function DestroyEvents(h: seq<Handle>, m: nat): seq<Event>
    requires m <= |h|
  {
    if m == 0 then []
    else DestroyEvents(h, m - 1) + (if h[m - 1] != Null then [SemDestroy(m - 1)] else [])
  }

  // ---------------------------------------------------------------------------
  // What the call sequences do to the shared lines and the semaphores.

  /** A successful reset sequence leaves the board held in reset with the enable line off. */
  lemma {:induction false} ResetLowersLines(log: seq<Event>, faults: set<nat>)
    requires NoFaultIn(faults, |log|, 2)
    ensures ResetLog(faults, |log|) == [GpioWrite(RSTn, Low), GpioWrite(Enable, Low)]
    ensures DrivenLevels(log + ResetLog(faults, |log|), faults)
              == DrivenLevels(log, faults)[RSTn := Low][Enable := Low]
  {
    var a, b := GpioWrite(RSTn, Low), GpioWrite(Enable, Low);
    assert |log| + 1 !in faults;
    DrivenAppend(log, a, faults);
    DrivenAppend(log + [a], b, faults);
    assert log + [a] + [b] == log + [a, b];
  }

  /** A power-up whose three writes succeed writes exactly RSTn <- 0, ENABLE <- 1,
      RSTn <- 1, and leaves both shared lines high. */
  lemma {:induction false} PowerUpRaisesLines(log: seq<Event>, faults: set<nat>)
    requires NoFaultIn(faults, |log|, 3)
    ensures PowerUpLog(faults, |log|) == [GpioWrite(RSTn, Low), GpioWrite(Enable, High), GpioWrite(RSTn, High)]
    ensures DrivenLevels(log + PowerUpLog(faults, |log|), faults)
              == DrivenLevels(log, faults)[RSTn := High][Enable := High]
  {
    var a, b, c := GpioWrite(RSTn, Low), GpioWrite(Enable, High), GpioWrite(RSTn, High);
    assert |log| !in faults && |log| + 1 !in faults && |log| + 2 !in faults;
    DrivenAppend(log, a, faults);
    DrivenAppend(log + [a], b, faults);
    DrivenAppend(log + [a] + [b], c, faults);
    assert log + [a] + [b] + [c] == log + [a, b, c];
    var d := DrivenLevels(log, faults);
    assert d[RSTn := Low][Enable := High][RSTn := High] == d[RSTn := High][Enable := High];
  }

  /** Writes to the shared lines leave no trace once both lines are driven low. */
  lemma {:induction false} ResetForgetsLineWrites(log: seq<Event>, pre: seq<Event>, faults: set<nat>)
    requires forall i :: 0 <= i < |pre| ==> pre[i].GpioWrite? && (pre[i].pin == RSTn || pre[i].pin == Enable)
    ensures DrivenLevels(log + pre, faults)[RSTn := Low][Enable := Low]
              == DrivenLevels(log, faults)[RSTn := Low][Enable := Low]
    decreases |pre|
  {
    if pre != [] {
      var last := |pre| - 1;
      ResetForgetsLineWrites(log, pre[..last], faults);
      assert log + pre == (log + pre[..last]) + [pre[last]];
      DrivenAppend(log + pre[..last], pre[last], faults);
      var m := DrivenLevels(log + pre[..last], faults);
      var v := pre[last].level;
      assert m[RSTn := v][RSTn := Low][Enable := Low] == m[RSTn := Low][Enable := Low];
      assert m[Enable := v][RSTn := Low][Enable := Low] == m[RSTn := Low][Enable := Low];
    } else {
      assert log + pre == log;
    }
  }

  /** Whichever write of the power-up fails, the fallback reset leaves the board held in
      reset with the enable line off, provided the fallback's own two writes succeed. */
  lemma FailedPowerUpLowersLines(log: seq<Event>, faults: set<nat>)
    requires !NoFaultIn(faults, |log|, 3)
    requires NoFaultIn(faults, |log| + |PowerUpLog(faults, |log|)| - 2, 2)
    ensures DrivenLevels(log + PowerUpLog(faults, |log|), faults)
              == DrivenLevels(log, faults)[RSTn := Low][Enable := Low]
  {
    var k := |log|;
    var r0, e1, r1 := GpioWrite(RSTn, Low), GpioWrite(Enable, High), GpioWrite(RSTn, High);
    var pre := if k in faults then [r0] else if k + 1 in faults then [r0, e1] else [r0, e1, r1];
    assert PowerUpLog(faults, k) == pre + ResetLog(faults, k + |pre|);
    assert NoFaultIn(faults, |log + pre|, 2);
    ResetLowersLines(log + pre, faults);
    assert log + PowerUpLog(faults, k) == (log + pre) + ResetLog(faults, k + |pre|);
    ResetForgetsLineWrites(log, pre, faults);
  }

  /** A successful gpio_init drives both shared lines low, the state the power-down
      sequence also returns the board to. */
  lemma {:induction false} GpioInitLowersLines(log: seq<Event>, faults: set<nat>)
    requires NoFaultIn(faults, |log|, 3)
    ensures GpioInitLog(faults, |log|) == [GpioInput(Gpio0), GpioWrite(RSTn, Low), GpioWrite(Enable, Low)]
    ensures DrivenLevels(log + GpioInitLog(faults, |log|), faults)
              == DrivenLevels(log, faults)[RSTn := Low][Enable := Low]
  {
    var i := GpioInput(Gpio0);
    assert |log| !in faults && |log| + 1 !in faults && |log| + 2 !in faults;
    DrivenAppend(log, i, faults);
    assert GpioInitLog(faults, |log|) == [i] + ResetLog(faults, |log| + 1);
    assert log + GpioInitLog(faults, |log|) == (log + [i]) + ResetLog(faults, |log| + 1);
    ResetLowersLines(log + [i], faults);
  }

  /** The chip-enable pair is a two-bit address: sensors 1 to 4 each get their own
      position, and every other id addresses the fourth. */
  lemma ChipSelectDecodes(sensor: nat)
    ensures 1 <= sensor <= 4 ==> SelectedSlot(CeALevel(sensor), CeBLevel(sensor)) == sensor
    ensures sensor == 0 || sensor > 4 ==> SelectedSlot(CeALevel(sensor), CeBLevel(sensor)) == 4
  {
  }

  /** A transfer takes the bus lock first, releases it last, and takes or releases it
      nowhere in between; the exchange happens iff chip select succeeded. */
  lemma TransferReleasesLock(faults: set<nat>, k: nat, sensor: nat)
    ensures var t := TransferLog(faults, k, sensor);
      |t| >= 2 && t[0] == SpiLock && t[|t| - 1] == SpiUnlock &&
      (forall i :: 0 < i < |t| - 1 ==> t[i] != SpiLock && t[i] != SpiUnlock) &&
      (SpiTransfer(sensor) in t <==> NoFaultIn(faults, k + 1, 2))
  {
  }

  /** deinit destroys exactly the semaphores whose handle is not NULL. */
  lemma {:induction false} DestroyEventsExact(h: seq<Handle>, m: nat, i: nat)
    requires m <= |h|
    ensures SemDestroy(i) in DestroyEvents(h, m) <==> i < m && h[i] != Null
  {
    if m > 0 {
      DestroyEventsExact(h, m - 1, i);
    }
  }

  /** With no stale handle, deinit destroys exactly the live semaphores. */
  lemma DestroyEventsLive(h: seq<Handle>)
    requires forall i :: 0 <= i < |h| ==> h[i] != Destroyed
    ensures forall i :: 0 <= i < |h| ==> (SemDestroy(i) in DestroyEvents(h, |h|) <==> h[i] == Live)
  {
    forall i | 0 <= i < |h|
      ensures SemDestroy(i) in DestroyEvents(h, |h|) <==> h[i] == Live
    {
      DestroyEventsExact(h, |h|, i);
    }
  }

  /** Destroying the handles left by a failed setup_isr that started from all-NULL
      handles (the first c live, the rest NULL) destroys the first c semaphores. */
  lemma {:induction false} DestroyLivePrefix(h: seq<Handle>, c: nat, m: nat)
    requires m <= |h|
    requires forall i :: 0 <= i < |h| ==> h[i] == (if i < c then Live else Null)
    ensures DestroyEvents(h, m) == Destroys(if m < c then m else c)
  {
    if m > 0 {
      DestroyLivePrefix(h, c, m - 1);
    }
  }
}
