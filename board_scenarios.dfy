/** Callers of the board layer, each driving a sequence of operations through the
    contracts of `Board` alone: what the processing library sees across several calls. */
module BoardScenarios {
  import opened BoardEvents
  import opened SparkfunBoard

  /** On the one-sensor board, power-on followed by power-off pulses the shared lines
      once and leaves them where gpio_init put them: RSTn low, ENABLE low. */
  method StartThenStopSingleSensor(b: Board) returns (ok: bool)
    requires b.Valid() && b.boardInitDone && b.n == 1 && b.sensorState[0] == Unknown
    requires NoFaultIn(b.faults, |b.log|, 5)
    modifies b`log, b`level, b.sensorState, b.pending
    ensures ok && b.Valid() && b.sensorState[0] == Unknown && b.pending[0] == 0
    ensures b.log == old(b.log) + [GpioWrite(RSTn, Low), GpioWrite(Enable, High), GpioWrite(RSTn, High),
                                   GpioWrite(RSTn, Low), GpioWrite(Enable, Low)]
    ensures b.level == old(b.level)[RSTn := Low][Enable := Low]
  {
    ghost var k, l0 := |b.log|, b.level;
    assert AllInactive(b.sensorState[..]);
    assert NoFaultIn(b.faults, k, 3);
    PowerUpRaisesLines(b.log, b.faults);
    b.StartSensor(1);
    assert b.sensorState[..] == [Busy];
    assert |b.log| == k + 3;
    assert NoFaultIn(b.faults, k + 3, 2);
    ResetLowersLines(b.log, b.faults);
    ok := b.StopSensor(1);
    assert b.sensorState[..] == [Unknown];
    assert l0[RSTn := High][Enable := High][RSTn := Low][Enable := Low] == l0[RSTn := Low][Enable := Low];
  }

  /** Two sensors sharing the reset line: the first power-on pulses it, the second does
      not; the first power-off leaves it alone, the second returns the board to reset. */
  method TwoSensorsShareResetLine(b: Board) returns (ok1: bool, ok2: bool)
    requires b.Valid() && b.boardInitDone && b.n == 2
    requires b.sensorState[0] == Unknown && b.sensorState[1] == Unknown
    requires NoFaultIn(b.faults, |b.log|, 5)
    modifies b`log, b`level, b.sensorState, b.pending
    ensures ok1 && ok2 && b.Valid()
    ensures b.sensorState[0] == Unknown && b.sensorState[1] == Unknown
    ensures b.log == old(b.log) + [GpioWrite(RSTn, Low), GpioWrite(Enable, High), GpioWrite(RSTn, High),
                                   GpioWrite(RSTn, Low), GpioWrite(Enable, Low)]
  {
    StartTwoSensors(b);
    ok1, ok2 := StopTwoSensors(b);
  }

  /** The power-on half of TwoSensorsShareResetLine: only the first start pulses the lines. */
  method StartTwoSensors(b: Board)
    requires b.Valid() && b.boardInitDone && b.n == 2
    requires b.sensorState[0] == Unknown && b.sensorState[1] == Unknown
    requires NoFaultIn(b.faults, |b.log|, 3)
    modifies b`log, b`level, b.sensorState, b.pending
    ensures b.Valid() && b.sensorState[0] == Busy && b.sensorState[1] == Busy
    ensures b.log == old(b.log) + [GpioWrite(RSTn, Low), GpioWrite(Enable, High), GpioWrite(RSTn, High)]
  {
    assert AllInactive(b.sensorState[..]);
    PowerUpRaisesLines(b.log, b.faults);
    b.StartSensor(1);
    assert b.sensorState[..] == [Busy, Ready];
    ghost var afterPulse := b.log;
    assert !AllInactive(b.sensorState[..]) by { assert b.sensorState[..][0] == Busy; }
    b.StartSensor(2);
    assert b.log == afterPulse;
  }

  /** The power-off half of TwoSensorsShareResetLine: only the last stop resets the lines. */
  method StopTwoSensors(b: Board) returns (ok1: bool, ok2: bool)
    requires b.Valid() && b.n == 2
    requires b.sensorState[0] == Busy && b.sensorState[1] == Busy
    requires NoFaultIn(b.faults, |b.log|, 2)
    modifies b`log, b`level, b.sensorState
    ensures ok1 && ok2 && b.Valid()
    ensures b.sensorState[0] == Unknown && b.sensorState[1] == Unknown
    ensures b.log == old(b.log) + [GpioWrite(RSTn, Low), GpioWrite(Enable, Low)]
  {
    ok1 := b.StopSensor(1);
    assert !AllInactive(b.sensorState[..]) by { assert b.sensorState[..][1] == Busy; }
    assert b.log == old(b.log);
    ResetLowersLines(b.log, b.faults);
    ok2 := b.StopSensor(2);
    assert b.sensorState[..] == [Unknown, Unknown];
  }

  /** An interrupt that fires while the sensor is off is drained by power-on: a
      zero-timeout wait right after it reports nothing. */
  method StaleInterruptIsDrained(b: Board) returns (signalled: bool)
    requires b.Valid() && b.boardInitDone && AllInactive(b.sensorState[..])
    requires NoFaultIn(b.faults, |b.log|, 3)
    modifies b`log, b`level, b.sensorState, b.pending
    ensures !signalled && b.sensorState[0] == Busy
  {
    b.IsrSensor1();
    b.StartSensor(1);
    signalled := b.WaitForSensorInterrupt(1, 0, false);
  }

  /** deinit as written, generalised to two sensors, on the failure path of board init:
      setup_isr followed by deinit, twice (the SPI open before each is left out). The
      first setup_isr creates both semaphores and fails to register the handler, so
      both are destroyed; the second fails to create the first semaphore, and its
      deinit destroys the second again (positions 4 and 6 of the log, with its only
      creation at position 1). */
  method StaleHandleDestroyedTwice() returns (b: Board)
    ensures b.log == [SemCreate(0), SemCreate(1), IsrRegister(Gpio0), SemDestroy(0), SemDestroy(1),
                      SemCreate(0), SemDestroy(1)]
  {
    b := new Board(2, {2, 5});
    LeadingOkIs(b.faults, 0, 2, 2);
    var ok := b.SetupIsr();
    assert b.log == [SemCreate(0), SemCreate(1), IsrRegister(Gpio0)];
    assert b.handle[..] == [Live, Live];
    assert DestroyEvents([Live, Live], 2) == [SemDestroy(0), SemDestroy(1)];
    b.DeinitAsWritten();
    RetryDestroysStaleHandle(b);
  }

  /** The second setup_isr and deinit of StaleHandleDestroyedTwice, starting from two
      destroyed handles that deinit left in place. */
  method RetryDestroysStaleHandle(b: Board)
    requires b.Consistent() && b.n == 2 && b.faults == {2, 5} && |b.log| == 5
    requires b.handle[0] == Destroyed && b.handle[1] == Destroyed
    modifies b`log, b.handle, b.pending
    ensures b.log == old(b.log) + [SemCreate(0), SemDestroy(1)]
  {
    LeadingOkIs(b.faults, 5, 2, 0);
    var ok := b.SetupIsr();
    assert b.log == old(b.log) + [SemCreate(0)];
    assert b.handle[..] == [Null, Destroyed];
    assert DestroyEvents([Null, Destroyed], 2) == [SemDestroy(1)];
    b.DeinitAsWritten();
  }

  /** The same faults with the corrected deinit: each semaphore is destroyed once, and
      a third board init succeeds. */
  method RetriedInitRecovers() returns (b: Board, ok1: bool, ok2: bool, ok3: bool)
    ensures !ok1 && !ok2 && ok3 && b.boardInitDone
    ensures b.log == [SpiCreate, SemCreate(0), SemCreate(1), IsrRegister(Gpio0), SemDestroy(0), SemDestroy(1),
                      SpiCreate, SemCreate(0),
                      SpiCreate, SemCreate(0), SemCreate(1), IsrRegister(Gpio0)]
  {
    b := new Board(2, {3, 7});
    assert Creates(2) == [SemCreate(0), SemCreate(1)];
    LeadingOkIs(b.faults, 1, 2, 2);
    assert 3 in b.faults;
    ok1 := b.Init();
    assert Destroys(2) == [SemDestroy(0), SemDestroy(1)];
    assert b.log == [SpiCreate, SemCreate(0), SemCreate(1), IsrRegister(Gpio0), SemDestroy(0), SemDestroy(1)];
    ok2, ok3 := RetryInit(b);
  }

  /** The second and third board init of RetriedInitRecovers, after the first has
      destroyed both semaphores and forgotten their handles. */
  method RetryInit(b: Board) returns (ok2: bool, ok3: bool)
    requires b.Valid() && !b.boardInitDone && b.n == 2 && b.faults == {3, 7}
    requires |b.log| == 6
    modifies b`log, b`boardInitDone, b.sensorState, b.pending, b.handle
    ensures !ok2 && ok3 && b.boardInitDone
    ensures b.log == old(b.log) + [SpiCreate, SemCreate(0), SpiCreate, SemCreate(0), SemCreate(1), IsrRegister(Gpio0)]
  {
    LeadingOkIs(b.faults, 7, 2, 0);
    ok2 := b.Init();
    assert b.log == old(b.log) + [SpiCreate, SemCreate(0)];
    ghost var second := b.log;
    LeadingOkIs(b.faults, 9, 2, 2);
    assert NoFaultIn(b.faults, 9, 3);
    assert Creates(2) == [SemCreate(0), SemCreate(1)];
    ok3 := b.Init();
    assert b.log == second + [SpiCreate, SemCreate(0), SemCreate(1), IsrRegister(Gpio0)];
  }
}
