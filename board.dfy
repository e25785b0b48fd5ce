/** The board layer of the SparkFun A111 Raspberry Pi board: per-sensor power state,
    the shared reset and enable lines, the interrupt semaphores and SPI bus access.

    The C file keeps this state in file-level statics (`sensor_state`,
    `isr_semaphores`, two `init_done` flags); here they are the fields of one `Board`
    object. The board has SENSOR_COUNT = 1 sensor; the model allows any n >= 1. */
module SparkfunBoard {
  import opened BoardEvents

  /** acc_board_sensor_state_t */
  datatype State = Unknown | Ready | Busy

  /** No sensor is busy; ready and unknown sensors both count as inactive. */
  predicate AllInactive(s: seq<State>)
  {
    forall i :: 0 <= i < |s| ==> s[i] != Busy
  }

  /** Both shared lines are driven high: the sensors are out of reset and enabled. */
  predicate LinesUp(level: map<Pin, Level>)
  {
    RSTn in level && level[RSTn] == High && Enable in level && level[Enable] == High
  }

  /** The states after a successful power-up of `target`: every sensor ready, the
      target busy. */
  function OnlyBusy(n: nat, target: nat): (s: seq<State>)
    ensures |s| == n
  {
    seq(n, i => if i == target then Busy else Ready)
  }

  class Board {
    /** SENSOR_COUNT */
    const n: nat
    /** The environment: the driver call at log position k fails iff k is in `faults`. */
    const faults: set<nat>

    /** sensor_state */
    const sensorState: array<State>
    /** The count of each interrupt semaphore (signals not yet consumed). */
    const pending: array<nat>
    /** isr_semaphores */
    const handle: array<Handle>

    /** Every driver call made so far, in order. */
    var log: seq<Event>
    /** The level each pin was last successfully driven to. */
    var level: map<Pin, Level>
    /** Whether the SPI bus lock is held. */
    var spiLocked: bool
    /** The `init_done` flag of acc_board_gpio_init. */
    var gpioInitDone: bool
    /** The `init_done` flag of acc_board_init. */
    var boardInitDone: bool

    /** The shape of the state and the tie between pin levels and the call log. */
    ghost predicate Consistent()
      reads this
    {
      n >= 1 &&
      sensorState.Length == n && pending.Length == n && handle.Length == n &&
      level == DrivenLevels(log, faults)
    }

    /** Consistent, and no stale semaphore handle: before a successful board init every
        handle is NULL, after it every handle is live. */
    ghost predicate Valid()
      reads this, handle
    {
      Consistent() &&
      forall i :: 0 <= i < n ==> handle[i] == (if boardInitDone then Live else Null)
    }

    /** A busy sensor has its shared lines up. */
    ghost predicate Powered()
      reads this, sensorState
    {
      !AllInactive(sensorState[..]) ==> LinesUp(level)
    }

    /** The zero-initialised statics of the C file. */
    constructor (sensorCount: nat, faults: set<nat>)
      requires sensorCount >= 1
      ensures Valid() && Powered()
      ensures n == sensorCount && this.faults == faults
      ensures fresh(sensorState) && fresh(pending) && fresh(handle)
      ensures log == [] && level == map[] && !spiLocked && !gpioInitDone && !boardInitDone
      ensures forall i :: 0 <= i < n ==> sensorState[i] == Unknown && pending[i] == 0 && handle[i] == Null
    {
      n := sensorCount;
      this.faults := faults;
      sensorState := new State[sensorCount](_ => Unknown);
      pending := new nat[sensorCount](_ => 0);
      handle := new Handle[sensorCount](_ => Null);
      log := [];
      level := map[];
      spiLocked := false;
      gpioInitDone := false;
      boardInitDone := false;
    }

    // -------------------------------------------------------------------------
    // Driver calls. Each appends its event to the log; the oracle decides success.

    method WriteGpio(pin: Pin, v: Level) returns (ok: bool)
      requires Valid()
      modifies this`log, this`level
      ensures Valid()
      ensures log == old(log) + [GpioWrite(pin, v)]
      ensures ok == (|old(log)| !in faults)
      ensures level == if ok then old(level)[pin := v] else old(level)
    {
      ok := |log| !in faults;
      DrivenAppend(log, GpioWrite(pin, v), faults);
      log := log + [GpioWrite(pin, v)];
      if ok {
        level := level[pin := v];
      }
    }

    method MakeInput(pin: Pin) returns (ok: bool)
      requires Valid()
      modifies this`log
      ensures Valid()
      ensures log == old(log) + [GpioInput(pin)]
      ensures ok == (|old(log)| !in faults)
    {
      ok := |log| !in faults;
      DrivenAppend(log, GpioInput(pin), faults);
      log := log + [GpioInput(pin)];
    }

    method CreateSpiDevice()
      requires Consistent()
      modifies this`log
      ensures Consistent()
      ensures log == old(log) + [SpiCreate]
    {
      DrivenAppend(log, SpiCreate, faults);
      log := log + [SpiCreate];
    }

    method CreateSemaphore(i: nat) returns (created: bool)
      requires Consistent() && i < n
      modifies this`log, handle, pending
      ensures Consistent()
      ensures log == old(log) + [SemCreate(i)]
      ensures created == (|old(log)| !in faults)
      ensures handle[i] == (if created then Live else Null)
      ensures pending[i] == (if created then 0 else old(pending[i]))
      ensures forall j :: 0 <= j < n && j != i ==> handle[j] == old(handle[j]) && pending[j] == old(pending[j])
    {
      created := |log| !in faults;
      DrivenAppend(log, SemCreate(i), faults);
      log := log + [SemCreate(i)];
      handle[i] := if created then Live else Null;
      if created {
        pending[i] := 0;
      }
    }

    method DestroySemaphore(i: nat)
      requires Consistent() && i < n
      modifies this`log, handle
      ensures Consistent()
      ensures log == old(log) + [SemDestroy(i)]
      ensures handle[i] == Destroyed
      ensures forall j :: 0 <= j < n && j != i ==> handle[j] == old(handle[j])
    {
      DrivenAppend(log, SemDestroy(i), faults);
      log := log + [SemDestroy(i)];
      handle[i] := Destroyed;
    }

    method RegisterIsr(pin: Pin) returns (ok: bool)
      requires Consistent()
      modifies this`log
      ensures Consistent()
      ensures log == old(log) + [IsrRegister(pin)]
      ensures ok == (|old(log)| !in faults)
    {
      ok := |log| !in faults;
      DrivenAppend(log, IsrRegister(pin), faults);
      log := log + [IsrRegister(pin)];
    }

    method LockSpi()
      requires Valid() && !spiLocked
      modifies this`log, this`spiLocked
      ensures Valid() && spiLocked
      ensures log == old(log) + [SpiLock]
    {
      DrivenAppend(log, SpiLock, faults);
      log := log + [SpiLock];
      spiLocked := true;
    }

    method UnlockSpi()
      requires Valid() && spiLocked
      modifies this`log, this`spiLocked
      ensures Valid() && !spiLocked
      ensures log == old(log) + [SpiUnlock]
    {
      DrivenAppend(log, SpiUnlock, faults);
      log := log + [SpiUnlock];
      spiLocked := false;
    }

    method ExchangeSpi(sensor: nat) returns (ok: bool)
      requires Valid() && spiLocked
      modifies this`log
      ensures Valid()
      ensures log == old(log) + [SpiTransfer(sensor)]
      ensures ok == (|old(log)| !in faults)
    {
      ok := |log| !in faults;
      DrivenAppend(log, SpiTransfer(sensor), faults);
      log := log + [SpiTransfer(sensor)];
    }

    // -------------------------------------------------------------------------
    // Interrupt semaphores.

    /** isr_sensor1: the rising-edge handler signals the first sensor's semaphore. It
        exists only once board init has registered it. */
    method IsrSensor1()
      requires Valid() && boardInitDone
      modifies pending
      ensures pending[..] == old(pending[..])[0 := old(pending[0]) + 1]
    {
      pending[0] := pending[0] + 1;
    }

    /** acc_board_wait_for_sensor_interrupt. The 32-bit timeout is passed to the OS
        semaphore wait, whose timeout parameter is 16 bits wide, so only its low 16 bits
        take effect. A pending signal is consumed at once. With none pending, an
        effective timeout of zero returns false at once; a non-zero one returns true iff
        the handler fires before it expires (`fires`), which only the first sensor's
        handler can do, and that signal is consumed by this wait. */
    method WaitForSensorInterrupt(sensor: nat, timeoutMs: nat, fires: bool) returns (signalled: bool)
      requires Valid() && boardInitDone && 1 <= sensor <= n && timeoutMs < 0x1_0000_0000
      modifies pending
      ensures signalled == (old(pending[sensor - 1]) > 0 || (timeoutMs % 0x1_0000 > 0 && fires && sensor == 1))
      ensures pending[..] == old(pending[..])[sensor - 1 := if old(pending[sensor - 1]) > 0 then old(pending[sensor - 1]) - 1 else 0]
    {
      var s := sensor - 1;
      if pending[s] > 0 {
        pending[s] := pending[s] - 1;
        signalled := true;
      } else {
        var effectiveMs := timeoutMs % 0x1_0000;
        signalled := effectiveMs > 0 && fires && sensor == 1;
      }
    }

    /** The drain in acc_board_start_sensor: poll the sensor's semaphore with a zero
        timeout until it reports nothing pending. */
    method DrainInterrupts(sensor: nat)
      requires Valid() && boardInitDone && 1 <= sensor <= n
      modifies pending
      ensures pending[..] == old(pending[..])[sensor - 1 := 0]
    {
      var s := sensor - 1;
      var signalled := WaitForSensorInterrupt(sensor, 0, false);
      while signalled
        invariant pending[..] == old(pending[..])[s := pending[s]]
        invariant !signalled ==> pending[s] == 0
        decreases pending[s] + (if signalled then 1 else 0)
      {
        signalled := WaitForSensorInterrupt(sensor, 0, false);
      }
    }

    /** setup_isr: create one semaphore per sensor, giving up at the first failed
        create, then register the interrupt handler. */
    method SetupIsr() returns (ok: bool)
      requires Consistent()
      modifies this`log, handle, pending
      ensures Consistent()
      ensures log == old(log) + SetupIsrLog(faults, |old(log)|, n)
      ensures ok == NoFaultIn(faults, |old(log)|, n + 1)
      ensures var c := LeadingOk(faults, |old(log)|, n);
        forall i :: 0 <= i < n ==>
          handle[i] == (if i < c then Live else if i == c then Null else old(handle[i])) &&
          pending[i] == (if i < c then 0 else old(pending[i]))
    {
      ghost var k := |log|;
      for i := 0 to n
        invariant Consistent()
        invariant log == old(log) + Creates(i) && |log| == k + i
        invariant NoFaultIn(faults, k, i)
        invariant forall j :: 0 <= j < n ==>
          handle[j] == (if j < i then Live else old(handle[j])) &&
          pending[j] == (if j < i then 0 else old(pending[j]))
      {
        var created := CreateSemaphore(i);
        if !created {
          LeadingOkIs(faults, k, n, i);
          return false;
        }
      }
      LeadingOkIs(faults, k, n, n);
      ok := RegisterIsr(Gpio0);
    }

    /** deinit, corrected: destroy every semaphore whose handle is not NULL, and forget
        the handle, so that a later deinit cannot destroy it again. */
    method Deinit()
      requires Consistent()
      requires forall i :: 0 <= i < n ==> handle[i] != Destroyed
      modifies this`log, handle
      ensures Consistent()
      ensures log == old(log) + DestroyEvents(old(handle[..]), n)
      ensures forall i :: 0 <= i < n ==> (SemDestroy(i) in DestroyEvents(old(handle[..]), n) <==> old(handle[i]) == Live)
      ensures forall i :: 0 <= i < n ==> handle[i] == Null
    {
      ghost var h := handle[..];
      for i := 0 to n
        invariant Consistent()
        invariant log == old(log) + DestroyEvents(h, i)
        invariant forall j :: 0 <= j < i ==> handle[j] == Null
        invariant forall j :: i <= j < n ==> handle[j] == h[j]
      {
        ghost var prev := log;
        if handle[i] != Null {
          DestroySemaphore(i);
          handle[i] := Null;
        }
        assert log == prev + (if h[i] != Null then [SemDestroy(i)] else []);
      }
      DestroyEventsLive(h);
    }

    /** deinit as written: destroys every handle that is not NULL but leaves the handle
        in place, so a handle destroyed once is destroyed again by the next deinit. */
    method DeinitAsWritten()
      requires Consistent()
      modifies this`log, handle
      ensures Consistent()
      ensures log == old(log) + DestroyEvents(old(handle[..]), n)
      ensures forall i :: 0 <= i < n ==> handle[i] == (if old(handle[i]) == Null then Null else Destroyed)
    {
      ghost var h := handle[..];
      for i := 0 to n
        invariant Consistent()
        invariant log == old(log) + DestroyEvents(h, i)
        invariant forall j :: 0 <= j < i ==> handle[j] == (if h[j] == Null then Null else Destroyed)
        invariant forall j :: i <= j < n ==> handle[j] == h[j]
      {
        ghost var prev := log;
        if handle[i] != Null {
          DestroySemaphore(i);
        }
        assert log == prev + (if h[i] != Null then [SemDestroy(i)] else []);
      }
    }

    // -------------------------------------------------------------------------
    // Initialisation.

    /** acc_board_all_sensors_inactive */
    method AllSensorsInactive() returns (inactive: bool)
      requires Consistent()
      ensures inactive <==> AllInactive(sensorState[..])
    {
      for i := 0 to n
        invariant forall j :: 0 <= j < i ==> sensorState[j] != Busy
      {
        if sensorState[i] == Busy {
          return false;
        }
      }
      return true;
    }

    /** The loops of acc_board_init and acc_board_start_sensor that put every sensor in
        one state. */
    method SetAllStates(st: State)
      requires sensorState.Length == n
      modifies sensorState
      ensures forall i :: 0 <= i < n ==> sensorState[i] == st
    {
      for i := 0 to n
        invariant forall j :: 0 <= j < i ==> sensorState[j] == st
      {
        sensorState[i] := st;
      }
    }

    /** acc_board_gpio_init: once it has succeeded, later calls return true at once.
        Otherwise the interrupt pin is made an input and both shared lines are driven
        low, stopping at the first failing call. */
    method GpioInit() returns (ok: bool)
      requires Valid()
      modifies this`log, this`level, this`gpioInitDone
      ensures Valid()
      ensures old(gpioInitDone) ==> ok && gpioInitDone && log == old(log) && level == old(level)
      ensures !old(gpioInitDone) ==>
        log == old(log) + GpioInitLog(faults, |old(log)|) &&
        ok == NoFaultIn(faults, |old(log)|, 3) &&
        gpioInitDone == ok &&
        (ok ==> level == old(level)[RSTn := Low][Enable := Low])
    {
      if gpioInitDone {
        return true;
      }
      ghost var k := |log|;
      ghost var before := log;
      var inputOk := MakeInput(Gpio0);
      ok := inputOk;
      if ok {
        ok := WriteGpio(RSTn, Low);
        if ok {
          ok := WriteGpio(Enable, Low);
        }
      }
      if !ok {
        return false;
      }
      GpioInitLowersLines(before, faults);
      gpioInitDone := true;
    }

    /** acc_board_init: once it has succeeded, later calls return true and change
        nothing. Otherwise it opens the SPI device (whose result it ignores) and sets up
        the interrupt semaphores; if that fails, it destroys what it created and returns
        false without setting its flag, so a later call retries; if it succeeds, every
        sensor is set to unknown. */
    method Init() returns (ok: bool)
      requires Valid()
      modifies this`log, this`boardInitDone, sensorState, pending, handle
      ensures Valid()
      ensures old(boardInitDone) ==>
        ok && boardInitDone && log == old(log) &&
        sensorState[..] == old(sensorState[..]) && pending[..] == old(pending[..])
      ensures !old(boardInitDone) ==>
        var k := |old(log)| + 1;
        var c := LeadingOk(faults, k, n);
        ok == NoFaultIn(faults, k, n + 1) && boardInitDone == ok &&
        (ok ==>
          log == old(log) + [SpiCreate] + Creates(n) + [IsrRegister(Gpio0)] &&
          forall i :: 0 <= i < n ==> sensorState[i] == Unknown && pending[i] == 0) &&
        (!ok ==>
          log == old(log) + [SpiCreate] + SetupIsrLog(faults, k, n) + Destroys(c) &&
          sensorState[..] == old(sensorState[..]) &&
          forall i :: 0 <= i < n ==> pending[i] == (if i < c then 0 else old(pending[i])))
    {
      if boardInitDone {
        return true;
      }
      CreateSpiDevice();
      ghost var k := |log|;
      ghost var c := LeadingOk(faults, k, n);
      var isrOk := SetupIsr();
      if !isrOk {
        DestroyLivePrefix(handle[..], c, n);
        Deinit();
        return false;
      }
      SetAllStates(Unknown);
      boardInitDone := true;
      return true;
    }

    // -------------------------------------------------------------------------
    // Sensor power.

    /** acc_board_reset_sensor: hold the sensors in reset, then disable them; false at
        the first failing write. */
    method ResetSensor() returns (ok: bool)
      requires Valid()
      modifies this`log, this`level
      ensures Valid()
      ensures log == old(log) + ResetLog(faults, |old(log)|)
      ensures ok == NoFaultIn(faults, |old(log)|, 2)
      ensures ok ==> level == old(level)[RSTn := Low][Enable := Low]
    {
      ghost var before := log;
      ok := WriteGpio(RSTn, Low);
      if !ok {
        return false;
      }
      ok := WriteGpio(Enable, Low);
      if ok {
        ResetLowersLines(before, faults);
      }
    }

    /** The reset block of acc_board_start_sensor, run when no sensor is busy: RSTn low,
        ENABLE high, RSTn high, then every sensor ready. A failing write runs the reset
        sequence instead and leaves the sensor states alone. */
    method PowerUpAllSensors() returns (ok: bool)
      requires Valid()
      modifies this`log, this`level, sensorState
      ensures Valid()
      ensures log == old(log) + PowerUpLog(faults, |old(log)|)
      ensures ok == NoFaultIn(faults, |old(log)|, 3)
      ensures ok ==> level == old(level)[RSTn := High][Enable := High] && forall i :: 0 <= i < n ==> sensorState[i] == Ready
      ensures !ok ==> sensorState[..] == old(sensorState[..])
    {
      ghost var before, k := log, |log|;
      ok := WriteGpio(RSTn, Low);
      if !ok {
        var reset := ResetSensor();
        assert log == before + ([GpioWrite(RSTn, Low)] + ResetLog(faults, k + 1));
        return;
      }
      ok := WriteGpio(Enable, High);
      if !ok {
        var reset := ResetSensor();
        assert log == before + ([GpioWrite(RSTn, Low), GpioWrite(Enable, High)] + ResetLog(faults, k + 2));
        return;
      }
      ok := WriteGpio(RSTn, High);
      if !ok {
        var reset := ResetSensor();
        assert log == before + ([GpioWrite(RSTn, Low), GpioWrite(Enable, High), GpioWrite(RSTn, High)] + ResetLog(faults, k + 3));
        return;
      }
      assert NoFaultIn(faults, k, 3);
      PowerUpRaisesLines(before, faults);
      SetAllStates(Ready);
    }

    /** acc_board_start_sensor. A busy target is left alone. When no sensor is busy the
        shared lines are pulsed (RSTn low, ENABLE high, RSTn high) and every sensor
        becomes ready; a failing write runs the reset sequence and returns with no
        state changed. Then a ready target has its stale interrupts drained and becomes
        busy; a target that is not ready is left alone. */
    method StartSensor(sensor: nat)
      requires Valid() && boardInitDone && 1 <= sensor <= n
      modifies this`log, this`level, sensorState, pending
      ensures Valid()
      ensures old(Powered()) ==> Powered()
      ensures old(sensorState[sensor - 1]) == Busy ==>
        log == old(log) && sensorState[..] == old(sensorState[..]) && pending[..] == old(pending[..])
      ensures old(sensorState[sensor - 1]) != Busy && AllInactive(old(sensorState[..])) ==>
        log == old(log) + PowerUpLog(faults, |old(log)|) &&
        if NoFaultIn(faults, |old(log)|, 3) then
          level == old(level)[RSTn := High][Enable := High] &&
          sensorState[..] == OnlyBusy(n, sensor - 1) &&
          pending[..] == old(pending[..])[sensor - 1 := 0]
        else
          sensorState[..] == old(sensorState[..]) && pending[..] == old(pending[..])
      ensures old(sensorState[sensor - 1]) != Busy && !AllInactive(old(sensorState[..])) ==>
        log == old(log) &&
        if old(sensorState[sensor - 1]) == Ready then
          sensorState[..] == old(sensorState[..])[sensor - 1 := Busy] &&
          pending[..] == old(pending[..])[sensor - 1 := 0]
        else
          sensorState[..] == old(sensorState[..]) && pending[..] == old(pending[..])
    {
      var s := sensor - 1;
      if sensorState[s] == Busy {
        return;
      }
      var inactive := AllSensorsInactive();
      if inactive {
        var ok := PowerUpAllSensors();
        if !ok {
          return;
        }
      }
      if sensorState[s] != Ready {
        return;
      }
      DrainInterrupts(sensor);
      sensorState[s] := Busy;
      assert inactive ==> sensorState[..] == OnlyBusy(n, s);
    }

    /** acc_board_stop_sensor, the variant returning bool: false for a sensor that is
        not busy, with nothing changed. Otherwise the sensor becomes unknown and, if no
        sensor is busy any more, the reset sequence runs and its result is returned. */
    method StopSensor(sensor: nat) returns (ok: bool)
      requires Valid() && 1 <= sensor <= n
      modifies this`log, this`level, sensorState
      ensures Valid()
      ensures old(Powered()) ==> Powered()
      ensures old(sensorState[sensor - 1]) != Busy ==>
        !ok && log == old(log) && sensorState[..] == old(sensorState[..])
      ensures old(sensorState[sensor - 1]) == Busy ==>
        sensorState[..] == old(sensorState[..])[sensor - 1 := Unknown] &&
        if AllInactive(sensorState[..]) then
          log == old(log) + ResetLog(faults, |old(log)|) &&
          ok == NoFaultIn(faults, |old(log)|, 2) &&
          (ok ==> level == old(level)[RSTn := Low][Enable := Low])
        else
          ok && log == old(log)
    {
      if sensorState[sensor - 1] != Busy {
        return false;
      }
      sensorState[sensor - 1] := Unknown;
      var inactive := AllSensorsInactive();
      if inactive {
        ok := ResetSensor();
        return;
      }
      return true;
    }

    /** acc_board_stop_sensor, the void variant: the same transitions as StopSensor,
        with a sensor that is not busy ignored silently and the reset result dropped. */
    method StopSensorQuietly(sensor: nat)
      requires Valid() && 1 <= sensor <= n
      modifies this`log, this`level, sensorState
      ensures Valid()
      ensures old(Powered()) ==> Powered()
      ensures old(sensorState[sensor - 1]) != Busy ==>
        log == old(log) && sensorState[..] == old(sensorState[..])
      ensures old(sensorState[sensor - 1]) == Busy ==>
        sensorState[..] == old(sensorState[..])[sensor - 1 := Unknown] &&
        if AllInactive(sensorState[..]) then
          log == old(log) + ResetLog(faults, |old(log)|) &&
          (NoFaultIn(faults, |old(log)|, 2) ==> level == old(level)[RSTn := Low][Enable := Low])
        else
          log == old(log)
    {
      if sensorState[sensor - 1] != Busy {
        return;
      }
      sensorState[sensor - 1] := Unknown;
      var inactive := AllSensorsInactive();
      if inactive {
        var reset := ResetSensor();
      }
    }

    // -------------------------------------------------------------------------
    // SPI access.

    /** acc_board_chip_select: when asserting, drive CE_A then CE_B to the sensor's
        address, false at the first failing write; when deasserting, nothing. */
    method ChipSelect(sensor: nat, csAssert: bool) returns (ok: bool)
      requires Valid()
      modifies this`log, this`level
      ensures Valid()
      ensures log == old(log) + ChipSelectLog(faults, |old(log)|, sensor, csAssert)
      ensures ok == (!csAssert || NoFaultIn(faults, |old(log)|, 2))
      ensures !csAssert ==> level == old(level)
      ensures csAssert && ok ==> level == old(level)[CeA := CeALevel(sensor)][CeB := CeBLevel(sensor)]
    {
      if csAssert {
        var ceA := if sensor == 1 || sensor == 2 then Low else High;
        var ceB := if sensor == 1 || sensor == 3 then Low else High;
        ok := WriteGpio(CeA, ceA);
        if ok {
          ok := WriteGpio(CeB, ceB);
        }
        if !ok {
          return false;
        }
      }
      return true;
    }

    /** acc_board_sensor_transfer: the bus lock is taken once and released once on each
        of the three paths (chip select fails, exchange fails, success); on success the
        chip select is deasserted before the release. */
    method SensorTransfer(sensor: nat)
      requires Valid() && !spiLocked
      modifies this`log, this`level, this`spiLocked
      ensures Valid() && !spiLocked
      ensures log == old(log) + TransferLog(faults, |old(log)|, sensor)
    {
      ghost var before, k := log, |log|;
      LockSpi();
      var selected := ChipSelect(sensor, true);
      ghost var cs := ChipSelectLog(faults, k + 1, sensor, true);
      if !selected {
        UnlockSpi();
        assert log == before + ([SpiLock] + cs + [] + [SpiUnlock]);
        return;
      }
      var transferred := ExchangeSpi(sensor);
      if !transferred {
        UnlockSpi();
        assert log == before + ([SpiLock] + cs + [SpiTransfer(sensor)] + [SpiUnlock]);
        return;
      }
      var deselected := ChipSelect(sensor, false);
      UnlockSpi();
      assert log == before + ([SpiLock] + cs + [SpiTransfer(sensor)] + [SpiUnlock]);
    }
  }
}
