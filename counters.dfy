/**
 * The persistent health counters of the uploader (kept in the DataStore singleton) and the
 * repeated-error warnings sendStatusWarnings derives from them.
 */
module HealthCounters {
  import opened JavaArith

  const ErrorCommsAt := 4
  const ErrorConnectAt := 8
  const ErrorSignalAt := 8
  const ErrorPumpLostSensorAt := 8
  const ErrorPumpClockAt := 8
  /** A pump clock further than this from the uploader's clock counts as a clock error. */
  const PumpClockTolerance := 10 * 60 * 1000

  /** The DataStore counters; a decrement never goes below zero. */
  datatype Counters = Counters(
    commsError: nat,
    commsConnectError: nat,
    commsSignalError: nat,
    commsSuccess: nat,
    commsSgvSuccess: nat,
    pumpCgmNA: nat,
    pumpLostSensorError: nat,
    pumpClockError: nat)

  const NoCounts := Counters(0, 0, 0, 0, 0, 0, 0, 0)

  function Dec(n: nat): (r: nat)
    ensures n > 0 ==> r + 1 == n
    ensures n == 0 ==> r == 0
  {
    if n > 0 then n - 1 else 0
  }

  /** The warnings in the order sendStatusWarnings reports them. */
  datatype Warning = PumpClockWarning | CommsWarning | LostSensorWarning | ConnectWarning | SignalWarning

  /** The connect-error threshold doubles when polling is reduced while the pump is away. */
  function ConnectErrorAt(reducePollOnPumpAway: bool): nat
  {
    ErrorConnectAt * (if reducePollOnPumpAway then 2 else 1)
  }

  predicate ClockOff(pumpOffset: int)
  {
    Abs(pumpOffset) > PumpClockTolerance
  }

  /** The clock-error count once this poll's offset has been counted. */
  function ClockErrors(c: Counters, pumpOffset: int): nat
  {
    c.pumpClockError + if ClockOff(pumpOffset) then 1 else 0
  }

  /** A counter at or past its threshold is cleared once its warning has been shown. */
  function ClearAt(n: nat, threshold: nat): nat
  {
    if n >= threshold then 0 else n
  }

  /** The warnings one sendStatusWarnings shows. */
  function WarningsDue(c: Counters, pumpOffset: int, reducePollOnPumpAway: bool): (w: seq<Warning>)
    ensures PumpClockWarning in w <==> ClockErrors(c, pumpOffset) >= 8
    ensures CommsWarning in w <==> c.commsError >= 4
    ensures LostSensorWarning in w <==> c.pumpLostSensorError >= 8
    ensures ConnectWarning in w <==> c.commsConnectError >= (if reducePollOnPumpAway then 16 else 8)
    ensures SignalWarning in w <==> c.commsSignalError >= 8
    ensures forall i, j :: 0 <= i < j < |w| ==> w[i] != w[j]
  {
    (if ClockErrors(c, pumpOffset) >= ErrorPumpClockAt then [PumpClockWarning] else [])
    + (if c.commsError >= ErrorCommsAt then [CommsWarning] else [])
    + (if c.pumpLostSensorError >= ErrorPumpLostSensorAt then [LostSensorWarning] else [])
    + (if c.commsConnectError >= ConnectErrorAt(reducePollOnPumpAway) then [ConnectWarning] else [])
    + (if c.commsSignalError >= ErrorSignalAt then [SignalWarning] else [])
  }

  /**
   * The counters after one sendStatusWarnings: every counter whose warning was shown is
   * cleared except commsError, which only a successful read clears, so afterwards the
   * cleared counters are all below their thresholds.
   */
  function AfterWarnings(c: Counters, pumpOffset: int, reducePollOnPumpAway: bool): (r: Counters)
    ensures r.pumpClockError < 8 && r.pumpLostSensorError < 8 && r.commsSignalError < 8
    ensures r.commsConnectError < (if reducePollOnPumpAway then 16 else 8)
    ensures r.commsError == c.commsError && r.commsSuccess == c.commsSuccess
            && r.commsSgvSuccess == c.commsSgvSuccess && r.pumpCgmNA == c.pumpCgmNA
    ensures r.pumpLostSensorError <= c.pumpLostSensorError && r.commsConnectError <= c.commsConnectError
            && r.commsSignalError <= c.commsSignalError && r.pumpClockError <= ClockErrors(c, pumpOffset)
  {
    c.(pumpClockError := ClearAt(ClockErrors(c, pumpOffset), ErrorPumpClockAt),
       pumpLostSensorError := ClearAt(c.pumpLostSensorError, ErrorPumpLostSensorAt),
       commsConnectError := ClearAt(c.commsConnectError, ConnectErrorAt(reducePollOnPumpAway)),
       commsSignalError := ClearAt(c.commsSignalError, ErrorSignalAt))
  }

  /** A shown warning clears its counter (commsError excepted); one not shown leaves it as it was. */
  lemma WarningClearsItsCounter(c: Counters, pumpOffset: int, reducePollOnPumpAway: bool)
    ensures var w := WarningsDue(c, pumpOffset, reducePollOnPumpAway);
      var r := AfterWarnings(c, pumpOffset, reducePollOnPumpAway);
      (PumpClockWarning in w <==> r.pumpClockError == 0 && ClockErrors(c, pumpOffset) > 0)
      && (PumpClockWarning !in w ==> r.pumpClockError == ClockErrors(c, pumpOffset))
      && (LostSensorWarning in w ==> r.pumpLostSensorError == 0)
      && (LostSensorWarning !in w ==> r.pumpLostSensorError == c.pumpLostSensorError)
      && (ConnectWarning in w ==> r.commsConnectError == 0)
      && (ConnectWarning !in w ==> r.commsConnectError == c.commsConnectError)
      && (SignalWarning in w ==> r.commsSignalError == 0)
      && (SignalWarning !in w ==> r.commsSignalError == c.commsSignalError)
  {
  }

  /** The comms warning is not self-clearing: with no poll in between it is shown again. */
  lemma CommsWarningRepeats(c: Counters, pumpOffset: int, pumpOffset2: int, reducePollOnPumpAway: bool)
    requires CommsWarning in WarningsDue(c, pumpOffset, reducePollOnPumpAway)
    ensures CommsWarning in WarningsDue(AfterWarnings(c, pumpOffset, reducePollOnPumpAway), pumpOffset2, reducePollOnPumpAway)
  {
  }

  /** n polls in a row, each with the same pump offset and no other counter change. */
  function Repeat(c: Counters, pumpOffset: int, reducePollOnPumpAway: bool, n: nat): Counters
  {
    if n == 0 then c else AfterWarnings(Repeat(c, pumpOffset, reducePollOnPumpAway, n - 1), pumpOffset, reducePollOnPumpAway)
  }

  /**
   * With the pump clock persistently off, the clock error count runs 1, 2, ..., 7, 0: the
   * clock warning is shown on every eighth poll and on no other.
   */
  lemma {:induction false} ClockWarningEveryEighthPoll(c: Counters, pumpOffset: int, reducePollOnPumpAway: bool, n: nat)
    requires c.pumpClockError == 0 && ClockOff(pumpOffset)
    ensures Repeat(c, pumpOffset, reducePollOnPumpAway, n).pumpClockError == n % 8
    ensures PumpClockWarning in WarningsDue(Repeat(c, pumpOffset, reducePollOnPumpAway, n), pumpOffset, reducePollOnPumpAway)
            <==> n % 8 == 7
  {
    if n > 0 {
      ClockWarningEveryEighthPoll(c, pumpOffset, reducePollOnPumpAway, n - 1);
    }
  }

  /** With the pump clock within tolerance the clock counter never moves. */
  lemma {:induction false} ClockInToleranceNeverWarns(c: Counters, pumpOffset: int, reducePollOnPumpAway: bool, n: nat)
    requires c.pumpClockError < 8 && !ClockOff(pumpOffset)
    ensures Repeat(c, pumpOffset, reducePollOnPumpAway, n).pumpClockError == c.pumpClockError
    ensures PumpClockWarning !in WarningsDue(Repeat(c, pumpOffset, reducePollOnPumpAway, n), pumpOffset, reducePollOnPumpAway)
  {
    if n > 0 {
      ClockInToleranceNeverWarns(c, pumpOffset, reducePollOnPumpAway, n - 1);
    }
  }
}
