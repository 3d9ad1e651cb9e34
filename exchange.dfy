/**
 * One poll's exchange with the Contour Next Link and the pump, and what it leaves behind:
 * the health counters, the committed history, the pump clock offset, the poll interval
 * for the next alarm, and whether the service crashes. The device is modelled as a script
 * saying where (if anywhere) a call throws and what the reads return; the exception
 * handlers of onHandleIntent are modelled exactly, including an exception thrown by the
 * close-down in the inner finally, which replaces one already escaping.
 */
module PollCycle {
  import opened Wrappers
  import opened JavaArith
  import opened Records
  import PollScheduler
  import opened TelemetryValidator
  import opened HealthCounters

  /** The checked exceptions of the reader. */
  datatype CommsError = IOError | ChecksumError | EncryptionError | TimeoutError | UnexpectedMessage

  /** An exception thrown inside the inner try (NoSuchAlgorithmException is Hashing). */
  datatype InnerFailure = Comms(error: CommsError) | Hashing

  /** The pump time read and the status read. */
  datatype StatusRead =
    | PumpTimeFails(failure: InnerFailure)
    | StatusFails(pumpTime: int, failure: InnerFailure)
    | ReadOk(pumpTime: int, reading: Status)

  /** Pass-through, connection, link key and channel negotiation, then the reads. */
  datatype Session =
    | SessionFails(failure: InnerFailure)     // a call before the channel is known throws
    | NoChannel                               // negotiateChannel returned 0
    | Connected(rssi: int, read: StatusRead)  // the reads are made only when rssi >= 5

  /** Device info and control mode, then the session and what closing it throws. */
  datatype Exchange =
    | SetupFails(error: CommsError)
    | Opened(session: Session, close: Option<CommsError>)

  /** An exception escaping the inner try: a checked one, or the validator's runtime exception. */
  datatype Escape = Checked(error: CommsError) | Runtime(failure: ValidateError)

  /** The user settings the service reads (ConfigurationStore). */
  datatype Config = Config(pollInterval: int, lowBatteryPollInterval: int, reducePollOnPumpAway: bool)

  /** The state an exchange changes. */
  datatype Cycle = Cycle(store: Counters, history: seq<Entry>, pumpOffset: int, pollInterval: int, crashed: bool)

  /** A cycle part-way through, with the exception (if any) on its way out of the inner try. */
  datatype Step = Step(cycle: Cycle, escape: Option<Escape>)

  const HistoryLookback := 6 * 60 * 60 * 1000
  const RetentionPeriod := 48 * 60 * 60 * 1000
  const UnexpectedRetry := 60000
  const TimeoutRetry := 90000
  const LowPumpBatteryAt := 25
  const WeakSignalBelow := 5
  const PoorSignalBelow := 20

  function Halving(reducePollOnPumpAway: bool): int
  {
    if reducePollOnPumpAway then 2 else 1
  }

  /** The interval while the pump is away: the configured one, halved if the user asked. */
  function AwayInterval(cfg: Config): (r: int)
    ensures !cfg.reducePollOnPumpAway ==> r == cfg.pollInterval
    ensures cfg.reducePollOnPumpAway ==> r == JavaDiv(cfg.pollInterval, 2)
    ensures cfg.reducePollOnPumpAway && cfg.pollInterval >= 0 ==> 2 * r <= cfg.pollInterval < 2 * r + 2
  {
    JavaDiv(cfg.pollInterval, Halving(cfg.reducePollOnPumpAway))
  }

  /** The interval after an old SGV: one pump period, halved if the user asked. */
  function OldSgvInterval(cfg: Config): (r: int)
    ensures r == if cfg.reducePollOnPumpAway then 150000 else 300000
  {
    JavaDiv(PollScheduler.PollPeriod, Halving(cfg.reducePollOnPumpAway))
  }

  // ---------------------------------------------------------------- base interval

  /** Records of the last 6 hours (the low-battery lookup, newest first). */
  function LowBatteryQuery(started: int): Query
  {
    CapturedAfter(started - HistoryLookback)
  }

  predicate LowPumpBattery(e: Entry)
  {
    0 < e.snap.status.batteryPercentage <= LowPumpBatteryAt
  }

  /** The poll interval before the exchange: the low-battery one when the newest recent record shows a low pump battery. */
  function BaseInterval(cfg: Config, h: seq<Entry>, started: int): (r: int)
    ensures r == cfg.pollInterval || r == cfg.lowBatteryPollInterval
  {
    var rs := Descending(h, LowBatteryQuery(started));
    if |rs| > 0 && LowPumpBattery(rs[0]) then cfg.lowBatteryPollInterval else cfg.pollInterval
  }

  /** The last record decides when it is recent; with no recent record the configured interval holds. */
  lemma BaseIntervalRule(cfg: Config, h: seq<Entry>, started: int)
    ensures |h| > 0 && h[|h| - 1].snap.eventDate > started - 21600000 ==>
      BaseInterval(cfg, h, started) == if LowPumpBattery(h[|h| - 1]) then cfg.lowBatteryPollInterval else cfg.pollInterval
    ensures (forall e :: e in h ==> e.snap.eventDate <= started - 21600000) ==>
      BaseInterval(cfg, h, started) == cfg.pollInterval
  {
    if |h| > 0 && h[|h| - 1].snap.eventDate > started - HistoryLookback {
      var i := DescendingFirst(h, LowBatteryQuery(started));
      assert i == |h| - 1;
    } else {
      DescendingMembers(h, LowBatteryQuery(started));
    }
  }

  // ---------------------------------------------------------------- the exchange

  function CountCommsError(c: Counters): Counters
  {
    c.(commsError := c.commsError + 1)
  }

  /** The inner catch clauses: two retry intervals, the hashing error ignored, the rest escape. */
  function InnerCatch(st: Cycle, f: InnerFailure): (r: Step)
    ensures r.cycle.history == st.history && r.cycle.pumpOffset == st.pumpOffset && r.cycle.crashed == st.crashed
    ensures f == Comms(UnexpectedMessage) ==>
      r.escape.None? && r.cycle.pollInterval == 60000 && r.cycle.store == st.store.(commsError := st.store.commsError + 1)
    ensures f == Comms(TimeoutError) ==>
      r.escape.None? && r.cycle.pollInterval == 90000 && r.cycle.store == st.store.(commsError := st.store.commsError + 1)
    ensures f == Hashing ==> r == Step(st, None)
    ensures f.Comms? && f.error != UnexpectedMessage && f.error != TimeoutError ==> r == Step(st, Some(Checked(f.error)))
  {
    match f
    case Hashing => Step(st, None)
    case Comms(e) =>
      if e == UnexpectedMessage then Step(st.(store := CountCommsError(st.store), pollInterval := UnexpectedRetry), None)
      else if e == TimeoutError then Step(st.(store := CountCommsError(st.store), pollInterval := TimeoutRetry), None)
      else Step(st, Some(Checked(e)))
  }

  /** The record a successful read creates: captured now, stamped with the pump clock. */
  function NewSnapshot(now: int, pumpTime: int, reading: Status): (s: Snapshot)
    ensures s.eventDate == now && s.pumpDate == pumpTime && s.pumpDate == s.eventDate + s.pumpTimeOffset
  {
    Snapshot(now, pumpTime, pumpTime - now, reading)
  }

  /** A reading the service counts as a delivered SGV: active, warmed-up, calibrated sensor and a value. */
  predicate SgvReading(st: Status)
  {
    st.cgmActive && !st.cgmWarmUp && st.calibrationDueMinutes != 0 && st.sgv != 0
  }

  /** After the commit: success counted, comms errors cleared, the CGM counters updated. */
  function AfterCommit(cfg: Config, st: Cycle, s: Snapshot, m: Marks): (r: Cycle)
    ensures r.history == st.history + [Entry(s, m)]
    ensures r.store.commsSuccess == st.store.commsSuccess + 1 && r.store.commsError == 0
    ensures r.pumpOffset == st.pumpOffset && r.crashed == st.crashed
  {
    var c := st.store.(commsSuccess := st.store.commsSuccess + 1, commsError := 0);
    var h := st.history + [Entry(s, m)];
    if s.status.cgmActive then
      var c1 := c.(pumpCgmNA := 0, pumpLostSensorError := 0);
      if !s.status.cgmWarmUp && s.status.calibrationDueMinutes != 0 && s.status.sgv != 0 then
        st.(store := c1.(commsSgvSuccess := c1.commsSgvSuccess + 1), history := h,
            pollInterval := if m.oldSgvWhenNewExpected then OldSgvInterval(cfg) else st.pollInterval)
      else st.(store := c1, history := h)
    else
      st.(store := c.(pumpCgmNA := c.pumpCgmNA + 1,
                      pumpLostSensorError := c.pumpLostSensorError + if c.commsSgvSuccess > 0 then 1 else 0),
          history := h)
  }

  /**
   * The pump time read, the status read, validation and commit; `verdict` is what
   * validatePumpRecord returns for the new record (Validation of its snapshot).
   */
  function ReadStep(cfg: Config, st: Cycle, now: int, read: StatusRead, verdict: Result<Marks, ValidateError>): (r: Step)
    ensures r.cycle.crashed == st.crashed
    ensures r.cycle.pumpOffset == if read.PumpTimeFails? then st.pumpOffset else read.pumpTime - now
    ensures r.cycle.history == (if read.ReadOk? && verdict.Ok?
                                then st.history + [Entry(NewSnapshot(now, read.pumpTime, read.reading), verdict.value)]
                                else st.history)
    ensures r.escape.Some? && r.escape.value.Runtime? <==> read.ReadOk? && verdict.Err?
  {
    match read
    case PumpTimeFails(f) => InnerCatch(st, f)
    case StatusFails(pumpTime, f) => InnerCatch(st.(pumpOffset := pumpTime - now), f)
    case ReadOk(pumpTime, reading) =>
      var s := NewSnapshot(now, pumpTime, reading);
      var st1 := st.(pumpOffset := pumpTime - now);
      match verdict
      case Err(e) => Step(st1, Some(Runtime(e)))
      case Ok(m) => Step(AfterCommit(cfg, st1, s, m), None)
  }

  /** The inner try: no channel and a too weak signal are counted; otherwise the reads follow. */
  function SessionStep(cfg: Config, st: Cycle, now: int, session: Session, verdict: Result<Marks, ValidateError>): (r: Step)
    ensures r.cycle.crashed == st.crashed
    ensures r.cycle.history == st.history
            || (session.Connected? && session.rssi >= 5 && session.read.ReadOk? && verdict.Ok?
                && r.cycle.history == st.history + [Entry(NewSnapshot(now, session.read.pumpTime, session.read.reading), verdict.value)])
    ensures r.escape.Some? && r.escape.value.Runtime? ==>
      session.Connected? && session.rssi >= 5 && session.read.ReadOk? && verdict.Err?
    ensures session.NoChannel? || (session.Connected? && session.rssi < 5) ==>
      r.escape.None? && r.cycle.history == st.history && r.cycle.pollInterval == AwayInterval(cfg)
  {
    match session
    case SessionFails(f) => InnerCatch(st, f)
    case NoChannel =>
      Step(st.(store := st.store.(commsConnectError := st.store.commsConnectError + 1),
               pollInterval := AwayInterval(cfg)), None)
    case Connected(rssi, read) =>
      if rssi < WeakSignalBelow then
        Step(st.(store := st.store.(commsConnectError := st.store.commsConnectError + 1,
                                    commsSignalError := st.store.commsSignalError + 1),
                 pollInterval := AwayInterval(cfg)), None)
      else
        var c := st.store.(commsConnectError := Dec(st.store.commsConnectError),
                           commsSignalError := if rssi < PoorSignalBelow then st.store.commsSignalError + 1
                                               else Dec(st.store.commsSignalError));
        ReadStep(cfg, st.(store := c), now, read, verdict)
  }

  /** The whole exchange, up to the outer finally. */
  function AfterExchange(cfg: Config, st: Cycle, now: int, x: Exchange, verdict: Result<Marks, ValidateError>): (r: Cycle)
    ensures st.crashed ==> r.crashed
    ensures r.crashed && !st.crashed ==> verdict.Err?
    ensures r.pumpOffset != st.pumpOffset ==> x.Opened? && x.session.Connected?
    ensures x.SetupFails? ==> r == st.(store := st.store.(commsError := st.store.commsError + 1))
  {
    match x
    case SetupFails(_) => st.(store := CountCommsError(st.store))
    case Opened(session, close) =>
      var step := SessionStep(cfg, st, now, session, verdict);
      var escape: Option<Escape> := if close.Some? then Some(Checked(close.value)) else step.escape;
      match escape
      case None => step.cycle
      case Some(Checked(_)) => step.cycle.(store := CountCommsError(step.cycle.store))
      case Some(Runtime(_)) => step.cycle.(crashed := true)
  }

  // ---------------------------------------------------------------- properties of an exchange

  /** The exchange reached a successful status read with a usable signal. */
  predicate ReadSucceeded(x: Exchange)
  {
    x.Opened? && x.session.Connected? && x.session.rssi >= WeakSignalBelow && x.session.read.ReadOk?
  }

  /** The snapshot a successful read produces. */
  function ReadSnapshot(x: Exchange, now: int): Snapshot
    requires ReadSucceeded(x)
  {
    NewSnapshot(now, x.session.read.pumpTime, x.session.read.reading)
  }

  /** The exception thrown inside the inner try, if any: before the channel is known, or by one of the reads. */
  function InnerFailureOf(x: Exchange): Option<InnerFailure>
  {
    if !x.Opened? then None
    else match x.session
      case SessionFails(f) => Some(f)
      case NoChannel => None
      case Connected(rssi, read) =>
        if rssi < WeakSignalBelow then None
        else match read
          case PumpTimeFails(f) => Some(f)
          case StatusFails(_, f) => Some(f)
          case ReadOk(_, _) => None
  }

  /** What validatePumpRecord returns for the record of a successful read (unused otherwise). */
  function VerdictFor(x: Exchange, h: seq<Entry>, now: int): Result<Marks, ValidateError>
  {
    if ReadSucceeded(x) then Validation(ReadSnapshot(x, now), h, now) else Ok(Unmarked)
  }

  /**
   * The transaction is all or nothing: the history gains exactly the validated record of a
   * successful read, or stays as it was; a committed record means the reads succeeded,
   * comms errors were cleared (a failing close-down counts one again) and success was counted.
   */
  lemma ExchangeIsAtomic(cfg: Config, st: Cycle, now: int, x: Exchange, verdict: Result<Marks, ValidateError>)
    ensures var r := AfterExchange(cfg, st, now, x, verdict);
      r.history == st.history
      || (ReadSucceeded(x) && verdict.Ok?
          && r.history == st.history + [Entry(ReadSnapshot(x, now), verdict.value)])
    ensures var r := AfterExchange(cfg, st, now, x, verdict);
      r.history != st.history ==>
        r.crashed == st.crashed && r.store.commsSuccess == st.store.commsSuccess + 1
        && r.store.commsError == (if x.close.Some? then 1 else 0)
    ensures var r := AfterExchange(cfg, st, now, x, verdict);
      r.history == st.history ==>
        r.store.commsSuccess == st.store.commsSuccess && r.store.commsError >= st.store.commsError
    ensures ReadSucceeded(x) && verdict.Ok? ==>
      AfterExchange(cfg, st, now, x, verdict).history == st.history + [Entry(ReadSnapshot(x, now), verdict.value)]
  {
    if x.Opened? {
      SessionIsAtomic(cfg, st, now, x, verdict);
    }
  }

  /** The inner try commits the validated record and escapes nothing, or leaves the history alone. */
  lemma SessionIsAtomic(cfg: Config, st: Cycle, now: int, x: Exchange, verdict: Result<Marks, ValidateError>)
    requires x.Opened?
    ensures var step := SessionStep(cfg, st, now, x.session, verdict);
      step.cycle.crashed == st.crashed
      && (step.cycle.history == st.history
          || (ReadSucceeded(x) && verdict.Ok? && step.escape.None?
              && step.cycle.history == st.history + [Entry(ReadSnapshot(x, now), verdict.value)]
              && step.cycle.store.commsSuccess == st.store.commsSuccess + 1 && step.cycle.store.commsError == 0))
    ensures var step := SessionStep(cfg, st, now, x.session, verdict);
      step.cycle.history == st.history ==>
        step.cycle.store.commsSuccess == st.store.commsSuccess && step.cycle.store.commsError >= st.store.commsError
    ensures ReadSucceeded(x) && verdict.Ok? ==>
      var step := SessionStep(cfg, st, now, x.session, verdict);
      step.escape.None? && step.cycle.history == st.history + [Entry(ReadSnapshot(x, now), verdict.value)]
  {
  }

  /**
   * The outer catch clauses touch only the comms error count and the crash flag: a checked
   * exception escaping the inner try, or a failing close-down, counts exactly one comms error,
   * and a runtime exception that the close-down does not replace crashes the service.
   */
  lemma OuterCatchKeeps(cfg: Config, st: Cycle, now: int, x: Exchange, verdict: Result<Marks, ValidateError>)
    requires x.Opened?
    ensures var r := AfterExchange(cfg, st, now, x, verdict);
      var c := SessionStep(cfg, st, now, x.session, verdict).cycle;
      r.history == c.history && r.pollInterval == c.pollInterval && r.pumpOffset == c.pumpOffset
      && r.store == c.store.(commsError := r.store.commsError)
    ensures var r := AfterExchange(cfg, st, now, x, verdict);
      var step := SessionStep(cfg, st, now, x.session, verdict);
      r.store.commsError
        == step.cycle.store.commsError + (if x.close.Some? || (step.escape.Some? && step.escape.value.Checked?) then 1 else 0)
      && r.crashed == (step.cycle.crashed || (x.close.None? && step.escape.Some? && step.escape.value.Runtime?))
  {
  }

  /** The service crashes exactly when validation throws and the close-down does not throw over it. */
  lemma CrashOnlyOnValidatorError(cfg: Config, st: Cycle, now: int, x: Exchange, verdict: Result<Marks, ValidateError>)
    requires !st.crashed
    ensures AfterExchange(cfg, st, now, x, verdict).crashed <==>
      ReadSucceeded(x) && x.close.None? && verdict.Err?
  {
  }

  /**
   * The poll-clash counter: cleared by a committed CGM reading, raised by a committed reading
   * without CGM, unchanged by anything else.
   */
  lemma PumpCgmNACounts(cfg: Config, st: Cycle, now: int, x: Exchange, verdict: Result<Marks, ValidateError>)
    ensures var r := AfterExchange(cfg, st, now, x, verdict);
      r.store.pumpCgmNA ==
        if r.history == st.history then st.store.pumpCgmNA
        else if ReadSnapshot(x, now).status.cgmActive then 0
        else st.store.pumpCgmNA + 1
  {
  }

  /**
   * The next interval: 60 s after an unexpected message and 90 s after a timeout anywhere in
   * the inner try, the pump-away one with no channel or a too weak signal, the old-SGV one
   * after a committed SGV reading flagged old, and otherwise the one given.
   */
  lemma PollIntervalChoices(cfg: Config, st: Cycle, now: int, x: Exchange, verdict: Result<Marks, ValidateError>)
    ensures AfterExchange(cfg, st, now, x, verdict).pollInterval in
      {st.pollInterval, UnexpectedRetry, TimeoutRetry, AwayInterval(cfg), OldSgvInterval(cfg)}
    ensures AfterExchange(cfg, st, now, x, verdict).pollInterval ==
      if InnerFailureOf(x) == Some(Comms(UnexpectedMessage)) then 60000
      else if InnerFailureOf(x) == Some(Comms(TimeoutError)) then 90000
      else if x.Opened? && (x.session.NoChannel? || (x.session.Connected? && x.session.rssi < 5)) then AwayInterval(cfg)
      else if ReadSucceeded(x) && verdict.Ok? && SgvReading(ReadSnapshot(x, now).status)
              && verdict.value.oldSgvWhenNewExpected then OldSgvInterval(cfg)
      else st.pollInterval
  {
    if x.Opened? {
      OuterCatchKeeps(cfg, st, now, x, verdict);
      match x.session {
        case SessionFails(f) =>
        case NoChannel =>
        case Connected(rssi, read) =>
          if rssi >= WeakSignalBelow {
            match read {
              case PumpTimeFails(f) =>
              case StatusFails(_, f) =>
              case ReadOk(_, _) =>
            }
          }
      }
    }
  }

  /**
   * The link counters: no channel counts a connect error, a too weak signal a connect and a
   * signal error; a usable signal lowers the connect count and raises the signal count below
   * 20 %, lowering it otherwise. An exchange that fails before the channel leaves both.
   */
  lemma LinkCountersPerOutcome(cfg: Config, st: Cycle, now: int, x: Exchange, verdict: Result<Marks, ValidateError>)
    ensures var r := AfterExchange(cfg, st, now, x, verdict);
      var c := st.store;
      (r.store.commsConnectError, r.store.commsSignalError) ==
        if x.SetupFails? || x.session.SessionFails? then (c.commsConnectError, c.commsSignalError)
        else if x.session.NoChannel? then (c.commsConnectError + 1, c.commsSignalError)
        else if x.session.rssi < 5 then (c.commsConnectError + 1, c.commsSignalError + 1)
        else (Dec(c.commsConnectError), if x.session.rssi < 20 then c.commsSignalError + 1 else Dec(c.commsSignalError))
  {
    if x.Opened? {
      OuterCatchKeeps(cfg, st, now, x, verdict);
      match x.session {
        case SessionFails(f) =>
        case NoChannel =>
        case Connected(rssi, read) =>
          if rssi >= WeakSignalBelow {
            match read {
              case PumpTimeFails(f) =>
              case StatusFails(_, f) =>
              case ReadOk(_, _) =>
            }
          }
      }
    }
  }

  /**
   * The sensor counters: a committed SGV reading counts an SGV success; a committed CGM
   * reading clears the lost-sensor count, and one without CGM raises it once an SGV has
   * ever been delivered. Nothing else touches them.
   */
  lemma SensorCountersPerOutcome(cfg: Config, st: Cycle, now: int, x: Exchange, verdict: Result<Marks, ValidateError>)
    ensures var r := AfterExchange(cfg, st, now, x, verdict);
      r.store.commsSgvSuccess ==
        if ReadSucceeded(x) && verdict.Ok? && SgvReading(ReadSnapshot(x, now).status)
        then st.store.commsSgvSuccess + 1 else st.store.commsSgvSuccess
    ensures var r := AfterExchange(cfg, st, now, x, verdict);
      r.store.pumpLostSensorError ==
        if !(ReadSucceeded(x) && verdict.Ok?) then st.store.pumpLostSensorError
        else if ReadSnapshot(x, now).status.cgmActive then 0
        else st.store.pumpLostSensorError + if st.store.commsSgvSuccess > 0 then 1 else 0
  {
    if x.Opened? {
      OuterCatchKeeps(cfg, st, now, x, verdict);
      match x.session {
        case SessionFails(f) =>
        case NoChannel =>
        case Connected(rssi, read) =>
          if rssi >= WeakSignalBelow {
            match read {
              case PumpTimeFails(f) =>
              case StatusFails(_, f) =>
              case ReadOk(_, _) =>
            }
          }
      }
    }
  }

  /** The pump clock offset is updated once the pump time has been read, and only then. */
  lemma PumpOffsetFollowsPumpClock(cfg: Config, st: Cycle, now: int, x: Exchange, verdict: Result<Marks, ValidateError>)
    ensures AfterExchange(cfg, st, now, x, verdict).pumpOffset ==
      if x.Opened? && x.session.Connected? && x.session.rssi >= 5 && !x.session.read.PumpTimeFails?
      then x.session.read.pumpTime - now
      else st.pumpOffset
  {
  }

  /** Uploader time moves forward past every stored record. */
  ghost predicate AllBefore(h: seq<Entry>, now: int)
  {
    forall i :: 0 <= i < |h| ==> h[i].snap.eventDate < now
  }

  /** A committed record is captured after everything stored, so the history stays chronological. */
  lemma ExchangeKeepsChronological(cfg: Config, st: Cycle, now: int, x: Exchange, verdict: Result<Marks, ValidateError>)
    requires Chronological(st.history) && AllBefore(st.history, now)
    ensures Chronological(AfterExchange(cfg, st, now, x, verdict).history)
  {
    ExchangeIsAtomic(cfg, st, now, x, verdict);
  }

  // ---------------------------------------------------------------- retention

  /** Records of the last 48 hours are kept (RemoveOutdatedRecords deletes the older ones). */
  function RetainQuery(now: int): Query
  {
    CapturedSince(now - RetentionPeriod)
  }

  /** Records older than 48 hours. */
  function OutdatedQuery(now: int): Query
  {
    CapturedBefore(now - RetentionPeriod)
  }

  /** The purge keeps exactly the records of the last 48 hours, in order, and chronology. */
  lemma PurgeKeepsRecent(h: seq<Entry>, now: int)
    requires Chronological(h)
    ensures var p := Where(h, RetainQuery(now));
      Chronological(p) && forall e :: e in p <==> e in h && e.snap.eventDate >= now - 172800000
  {
    WhereKeepsChronological(h, RetainQuery(now));
  }

  // ---------------------------------------------------------------- one poll

  /** Everything one onHandleIntent leaves behind: the stored state, the alarm it arms, the warnings shown. */
  datatype Outcome = Outcome(store: Counters, history: seq<Entry>, pumpOffset: int,
                             alarm: Option<int>, warnings: seq<Warning>, crashed: bool)

  /** The busy-window check of a poll started at `started`. */
  function BusyUntil(history: seq<Entry>, started: int): int
  {
    PollScheduler.CheckPollTime(started, PollScheduler.CgmAnchor(history, started))
  }

  /** What the exchange of a poll that gets past the busy check and opens the device leaves behind. */
  function ExchangeOf(cfg: Config, store: Counters, history: seq<Entry>, pumpOffset: int,
                      started: int, now: int, x: Exchange): Cycle
  {
    AfterExchange(cfg, Cycle(store, history, pumpOffset, BaseInterval(cfg, history, started), false),
                  now, x, VerdictFor(x, history, now))
  }

  /**
   * onHandleIntent: a busy sensor radio re-arms the alarm at the end of the busy window; a
   * device that does not open ends the poll with no alarm; otherwise the exchange, the purge,
   * the next alarm and the warnings follow, in that order.
   */
  function HandleIntent(cfg: Config, store: Counters, history: seq<Entry>, pumpOffset: int,
                        started: int, now: int, usbOpen: bool, x: Exchange): (o: Outcome)
    ensures o.crashed ==> usbOpen && ReadSucceeded(x) && x.close.None? && VerdictFor(x, history, now).Err?
    ensures !usbOpen ==> o.store == store && o.history == history && o.pumpOffset == pumpOffset
                         && o.warnings == [] && !o.crashed
  {
    var due := BusyUntil(history, started);
    if due > 0 then Outcome(store, history, pumpOffset, Some(due), [], false)
    else if !usbOpen then Outcome(store, history, pumpOffset, None, [], false)
    else
      var r := ExchangeOf(cfg, store, history, pumpOffset, started, now, x);
      var kept := Where(r.history, RetainQuery(now));
      var next := PollScheduler.RequestPollTime(started, r.pollInterval, now, r.store.pumpCgmNA,
                                                PollScheduler.TimeLastCgm(kept, now));
      Outcome(AfterWarnings(r.store, r.pumpOffset, cfg.reducePollOnPumpAway), kept, r.pumpOffset, Some(next),
              WarningsDue(r.store, r.pumpOffset, cfg.reducePollOnPumpAway), r.crashed)
  }

  /**
   * A poll arms an alarm unless the device does not open; a busy sensor radio re-arms it
   * between 5 s and 75 s after the poll started and changes nothing else.
   */
  lemma AlarmArmedUnlessDeviceFails(cfg: Config, store: Counters, history: seq<Entry>, pumpOffset: int,
                                    started: int, now: int, usbOpen: bool, x: Exchange)
    ensures var o := HandleIntent(cfg, store, history, pumpOffset, started, now, usbOpen, x);
      o.alarm.None? <==> BusyUntil(history, started) <= 0 && !usbOpen
    ensures var o := HandleIntent(cfg, store, history, pumpOffset, started, now, usbOpen, x);
      BusyUntil(history, started) > 0 ==>
        && started + 5000 < o.alarm.value < started + 75000
        && o.store == store && o.history == history && o.pumpOffset == pumpOffset
        && o.warnings == [] && !o.crashed
  {
  }

  /**
   * After a poll that reached the device, the next alarm keeps out of the sensor's busy
   * window before the next expected reading, and it is in the future once a CGM reading
   * anchors the schedule.
   */
  lemma NextAlarmAvoidsSensorWindow(cfg: Config, store: Counters, history: seq<Entry>, pumpOffset: int,
                                    started: int, now: int, x: Exchange)
    requires BusyUntil(history, started) <= 0
    ensures var o := HandleIntent(cfg, store, history, pumpOffset, started, now, true, x);
      var anchor := PollScheduler.TimeLastCgm(o.history, now);
      && o.alarm.Some?
      && !PollScheduler.TooCloseToActualPoll(o.alarm.value, PollScheduler.NextActualPollTime(started, now, anchor))
      && (anchor > 0 ==> o.alarm.value > now)
  {
  }

  /**
   * After a poll that reached the device, every cleared counter is below its warning
   * threshold, and a shown warning is exactly a counter that reached its threshold.
   */
  lemma CountersBelowThresholdsAfterPoll(cfg: Config, store: Counters, history: seq<Entry>, pumpOffset: int,
                                         started: int, now: int, x: Exchange)
    requires BusyUntil(history, started) <= 0
    ensures var o := HandleIntent(cfg, store, history, pumpOffset, started, now, true, x);
      && o.store.pumpClockError < 8 && o.store.pumpLostSensorError < 8 && o.store.commsSignalError < 8
      && o.store.commsConnectError < (if cfg.reducePollOnPumpAway then 16 else 8)
    ensures var o := HandleIntent(cfg, store, history, pumpOffset, started, now, true, x);
      var r := ExchangeOf(cfg, store, history, pumpOffset, started, now, x);
      CommsWarning in o.warnings <==> r.store.commsError >= 4
  {
  }

  /**
   * A poll keeps the stored records in capture order; one that reached the device leaves
   * only records of the last 48 hours, each stored before or committed by this poll.
   */
  lemma PollKeepsHistory(cfg: Config, store: Counters, history: seq<Entry>, pumpOffset: int,
                         started: int, now: int, usbOpen: bool, x: Exchange)
    requires Chronological(history) && AllBefore(history, now)
    ensures Chronological(HandleIntent(cfg, store, history, pumpOffset, started, now, usbOpen, x).history)
    ensures var o := HandleIntent(cfg, store, history, pumpOffset, started, now, usbOpen, x);
      forall e :: e in o.history ==>
        e in history || (ReadSucceeded(x) && VerdictFor(x, history, now).Ok? && e == Entry(ReadSnapshot(x, now), VerdictFor(x, history, now).value))
    ensures var o := HandleIntent(cfg, store, history, pumpOffset, started, now, usbOpen, x);
      BusyUntil(history, started) <= 0 && usbOpen ==>
        forall e :: e in o.history ==> e.snap.eventDate >= now - 172800000
  {
    if BusyUntil(history, started) <= 0 && usbOpen {
      var st := Cycle(store, history, pumpOffset, BaseInterval(cfg, history, started), false);
      var r := AfterExchange(cfg, st, now, x, VerdictFor(x, history, now));
      assert HandleIntent(cfg, store, history, pumpOffset, started, now, usbOpen, x).history == Where(r.history, RetainQuery(now));
      ExchangeKeepsChronological(cfg, st, now, x, VerdictFor(x, history, now));
      ExchangeIsAtomic(cfg, st, now, x, VerdictFor(x, history, now));
      PurgeKeepsRecent(r.history, now);
    }
  }
}
