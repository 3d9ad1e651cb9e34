/**
 * MedtronicCnlIntentService: one poll of the pump per alarm. The service keeps the health
 * counters (DataStore), the stored records (the Realm history) and the last pump clock
 * offset across polls; the device, the clock and the user settings are parameters.
 */
module IntentService {
  import opened Wrappers
  import opened JavaArith
  import opened Records
  import opened PollScheduler
  import opened TelemetryValidator
  import opened HealthCounters
  import opened PumpStatusEvents
  import opened PollCycle

  class MedtronicCnlIntentService {
    var store: Counters
    var history: seq<Entry>
    var pumpOffset: int

    /**
     * A new service instance. The counters (the DataStore singleton) and the records (the
     * Realm store) outlive any instance and are handed over as they are; only the
     * instance's own pump clock offset starts at zero.
     */
    constructor (dataStore: Counters, records: seq<Entry>)
      ensures store == dataStore && history == records && pumpOffset == 0
    {
      store := dataStore;
      history := records;
      pumpOffset := 0;
    }

    /**
     * The exchange of onHandleIntent, from the device-info request to the outer catch
     * clauses: the counters, the history and the pump clock offset change as they go, the
     * record is committed only when validation succeeds, and `crashed` reports the
     * validator's runtime exception escaping the poll.
     */
    static method RunExchange(cfg: Config, now: int, x: Exchange, st: Cycle) returns (r: Cycle)
      ensures r == AfterExchange(cfg, st, now, x, VerdictFor(x, st.history, now))
    {
      var c, h, offset, interval, crashed := st.store, st.history, st.pumpOffset, st.pollInterval, st.crashed;
      match x {
        case SetupFails(_) =>
          c := CountCommsError(c);
        case Opened(_, close) =>
          var escape;
          escape, c, h, offset, interval := InnerTry(cfg, now, x, c, h, offset, interval, crashed);
          if close.Some? {
            escape := Some(Checked(close.value));
          }
          match escape {
            case None =>
            case Some(Checked(_)) => c := CountCommsError(c);
            case Some(Runtime(_)) => crashed := true;
          }
      }
      r := Cycle(c, h, offset, interval, crashed);
    }

    /** The inner try of the exchange: channel negotiation and the signal check, then the reads. */
    static method InnerTry(cfg: Config, now: int, x: Exchange, c: Counters, h: seq<Entry>, offset: int, interval: int,
                           crashed: bool)
      returns (escape: Option<Escape>, c': Counters, h': seq<Entry>, offset': int, interval': int)
      requires x.Opened?
      ensures Step(Cycle(c', h', offset', interval', crashed), escape)
              == SessionStep(cfg, Cycle(c, h, offset, interval, crashed), now, x.session, VerdictFor(x, h, now))
    {
      escape, c', h', offset', interval' := None, c, h, offset, interval;
      match x.session {
        case SessionFails(f) =>
          escape, c', interval' := CatchInner(f, c, interval);
        case NoChannel =>
          c' := c.(commsConnectError := c.commsConnectError + 1);
          interval' := AwayInterval(cfg);
        case Connected(rssi, _) =>
          if rssi < WeakSignalBelow {
            c' := c.(commsConnectError := c.commsConnectError + 1, commsSignalError := c.commsSignalError + 1);
            interval' := AwayInterval(cfg);
          } else {
            c' := c'.(commsConnectError := Dec(c.commsConnectError));
            if rssi < PoorSignalBelow {
              c' := c'.(commsSignalError := c.commsSignalError + 1);
            } else {
              c' := c'.(commsSignalError := Dec(c.commsSignalError));
            }
            escape, c', h', offset', interval' := ReadPump(cfg, now, x, c', h, offset, interval, crashed);
          }
      }
    }

    /** Reads the pump time and the pump status into the new record, then validates and commits it. */
    static method ReadPump(cfg: Config, now: int, x: Exchange, c: Counters, h: seq<Entry>, offset: int, interval: int,
                           crashed: bool)
      returns (escape: Option<Escape>, c': Counters, h': seq<Entry>, offset': int, interval': int)
      requires x.Opened? && x.session.Connected? && x.session.rssi >= WeakSignalBelow
      ensures Step(Cycle(c', h', offset', interval', crashed), escape)
              == ReadStep(cfg, Cycle(c, h, offset, interval, crashed), now, x.session.read, VerdictFor(x, h, now))
    {
      escape, c', h', offset', interval' := None, c, h, offset, interval;
      match x.session.read {
        case PumpTimeFails(f) =>
          escape, c', interval' := CatchInner(f, c, interval);
        case StatusFails(pumpTime, f) =>
          offset' := pumpTime - now;
          escape, c', interval' := CatchInner(f, c, interval);
        case ReadOk(pumpTime, reading) =>
          offset' := pumpTime - now;
          escape, c', h', interval' := RecordPoll(cfg, now, pumpTime, reading, c, h, interval, crashed);
      }
    }

    /**
     * The pump record of a successful read: captured now, stamped with the pump clock,
     * validated against the stored records and committed unless validation throws.
     */
    static method RecordPoll(cfg: Config, now: int, pumpTime: int, reading: Status, c: Counters, h: seq<Entry>,
                             interval: int, crashed: bool)
      returns (escape: Option<Escape>, c': Counters, h': seq<Entry>, interval': int)
      ensures var s := NewSnapshot(now, pumpTime, reading);
        forall offset :: Step(Cycle(c', h', offset, interval', crashed), escape)
          == match Validation(s, h, now)
             case Err(e) => Step(Cycle(c, h, offset, interval, crashed), Some(Runtime(e)))
             case Ok(m) => Step(AfterCommit(cfg, Cycle(c, h, offset, interval, crashed), s, m), None)
    {
      escape, c', h', interval' := None, c, h, interval;
      var rec := new PumpStatusEvent(now);
      rec.pumpTimeOffset, rec.pumpDate, rec.status := pumpTime - now, pumpTime, reading;
      assert rec.Snap() == NewSnapshot(now, pumpTime, reading);
      var failure := ValidatePumpRecord(rec, h, now);
      if failure.Some? {
        escape := Some(Runtime(failure.value));
      } else {
        c', h', interval' := Commit(cfg, c, h, interval, crashed, rec.AsEntry());
      }
    }

    /** The commit and what follows it: success counted, comms errors cleared, the CGM counters updated. */
    static method Commit(cfg: Config, c: Counters, h: seq<Entry>, interval: int, crashed: bool, e: Entry)
      returns (c': Counters, h': seq<Entry>, interval': int)
      ensures forall offset :: AfterCommit(cfg, Cycle(c, h, offset, interval, crashed), e.snap, e.marks)
                               == Cycle(c', h', offset, interval', crashed)
    {
      h' := h + [e];
      interval' := interval;
      c' := c.(commsSuccess := c.commsSuccess + 1, commsError := 0);
      var st := e.snap.status;
      if st.cgmActive {
        c' := c'.(pumpCgmNA := 0, pumpLostSensorError := 0);
        if !st.cgmWarmUp && st.calibrationDueMinutes != 0 && st.sgv != 0 {
          c' := c'.(commsSgvSuccess := c'.commsSgvSuccess + 1);
          if e.marks.oldSgvWhenNewExpected {
            interval' := OldSgvInterval(cfg);
          }
        }
      } else {
        c' := c'.(pumpCgmNA := c'.pumpCgmNA + 1);
        if c'.commsSgvSuccess > 0 {
          c' := c'.(pumpLostSensorError := c'.pumpLostSensorError + 1);
        }
      }
    }

    /** The inner catch clauses, on the counters and the poll interval. */
    static method CatchInner(f: InnerFailure, c: Counters, interval: int)
      returns (escape: Option<Escape>, c': Counters, interval': int)
      ensures forall h, offset, crashed :: InnerCatch(Cycle(c, h, offset, interval, crashed), f)
                                           == Step(Cycle(c', h, offset, interval', crashed), escape)
    {
      escape, c', interval' := None, c, interval;
      match f {
        case Hashing =>
        case Comms(e) =>
          if e == UnexpectedMessage {
            c' := CountCommsError(c);
            interval' := UnexpectedRetry;
          } else if e == TimeoutError {
            c' := CountCommsError(c);
            interval' := TimeoutRetry;
          } else {
            escape := Some(Checked(e));
          }
      }
      forall h, offset, crashed
        ensures InnerCatch(Cycle(c, h, offset, interval, crashed), f) == Step(Cycle(c', h, offset, interval', crashed), escape)
      {
      }
    }

    /** RemoveOutdatedRecords: deletes the records captured more than 48 hours before `now`. */
    static method RemoveOutdatedRecords(h: seq<Entry>, now: int) returns (kept: seq<Entry>)
      ensures kept == Where(h, RetainQuery(now))
    {
      kept := h;
      var outdated := Where(h, OutdatedQuery(now));
      WhereOldest(h, OutdatedQuery(now));
      AnyRule(h, OutdatedQuery(now));
      if |outdated| > 0 {
        kept := Where(h, RetainQuery(now));
      } else {
        WhereAll(h, RetainQuery(now));
      }
    }

    /**
     * sendStatusWarnings on the DataStore counters `c0`: counts a pump clock error, then
     * shows the warnings whose counters reached their thresholds, clearing each such counter
     * but the comms error count.
     */
    static method SendStatusWarnings(c0: Counters, pumpOffset: int, reducePollOnPumpAway: bool)
      returns (warnings: seq<Warning>, c: Counters)
      ensures warnings == WarningsDue(c0, pumpOffset, reducePollOnPumpAway)
      ensures c == AfterWarnings(c0, pumpOffset, reducePollOnPumpAway)
    {
      c := c0;
      warnings := [];
      if Abs(pumpOffset) > PumpClockTolerance {
        c := c.(pumpClockError := c.pumpClockError + 1);
      }
      if c.pumpClockError >= ErrorPumpClockAt {
        c := c.(pumpClockError := 0);
        warnings := warnings + [PumpClockWarning];
      }
      ghost var w0 := warnings;
      assert w0 == if ClockErrors(c0, pumpOffset) >= ErrorPumpClockAt then [PumpClockWarning] else [];
      if c.commsError >= ErrorCommsAt {
        warnings := warnings + [CommsWarning];
      }
      ghost var w1 := warnings;
      assert w1 == w0 + if c0.commsError >= ErrorCommsAt then [CommsWarning] else [];
      if c.pumpLostSensorError >= ErrorPumpLostSensorAt {
        c := c.(pumpLostSensorError := 0);
        warnings := warnings + [LostSensorWarning];
      }
      ghost var w2 := warnings;
      assert w2 == w1 + if c0.pumpLostSensorError >= ErrorPumpLostSensorAt then [LostSensorWarning] else [];
      if c.commsConnectError >= ErrorConnectAt * (if reducePollOnPumpAway then 2 else 1) {
        c := c.(commsConnectError := 0);
        warnings := warnings + [ConnectWarning];
      }
      ghost var w3 := warnings;
      assert w3 == w2 + if c0.commsConnectError >= ConnectErrorAt(reducePollOnPumpAway) then [ConnectWarning] else [];
      if c.commsSignalError >= ErrorSignalAt {
        c := c.(commsSignalError := 0);
        warnings := warnings + [SignalWarning];
      }
      assert warnings == w3 + if c0.commsSignalError >= ErrorSignalAt then [SignalWarning] else [];
    }

    /**
     * onHandleIntent for a poll started at `started`: `now` is the uploader clock after the
     * exchange, `usbOpen` whether openUsbDevice succeeded and `x` what the device does.
     * Returns the alarm it arms (if any), the warnings it shows and whether it crashes.
     */
    method OnHandleIntent(cfg: Config, started: int, now: int, usbOpen: bool, x: Exchange)
      returns (alarm: Option<int>, warnings: seq<Warning>, crashed: bool)
      modifies this`store, this`history, this`pumpOffset
      ensures Outcome(store, history, pumpOffset, alarm, warnings, crashed)
              == HandleIntent(cfg, old(store), old(history), old(pumpOffset), started, now, usbOpen, x)
      ensures Chronological(old(history)) && AllBefore(old(history), now) ==> Chronological(history)
    {
      var c, h, p := store, history, pumpOffset;
      var due := CheckPollTime(started, CgmAnchor(h, started));
      if due > 0 {
        return Some(due), [], false;
      }
      var pollInterval := BaseInterval(cfg, h, started);
      if !usbOpen {
        return None, [], false;
      }
      var r := RunExchange(cfg, now, x, Cycle(c, h, p, pollInterval, false));
      var kept := RemoveOutdatedRecords(r.history, now);
      var nextPoll := RequestPollTime(started, r.pollInterval, now, r.store.pumpCgmNA, TimeLastCgm(kept, now));
      alarm := Some(nextPoll);
      var c';
      warnings, c' := SendStatusWarnings(r.store, r.pumpOffset, cfg.reducePollOnPumpAway);
      crashed := r.crashed;
      if Chronological(h) && AllBefore(h, now) {
        ExchangeKeepsChronological(cfg, Cycle(c, h, p, pollInterval, false), now, x, VerdictFor(x, h, now));
        WhereKeepsChronological(r.history, RetainQuery(now));
      }
      store, history, pumpOffset := c', kept, r.pumpOffset;
    }

    /**
     * validatePumpRecord: sets the derived fields of the new record from the pump's
     * history `h`, or stops at the runtime exception it throws part-way through
     * (the record is then rolled back with the transaction, so its fields are left as they were).
     */
    static method ValidatePumpRecord(rec: PumpStatusEvent, h: seq<Entry>, now: int)
      returns (failure: Option<ValidateError>)
      modifies rec`marks
      ensures failure.None? <==> Validation(rec.Snap(), h, now).Ok?
      ensures failure.Some? ==> Validation(rec.Snap(), h, now) == Err(failure.value) && rec.marks == old(rec.marks)
      ensures failure.None? ==> rec.marks == Validation(rec.Snap(), h, now).value
    {
      var r := ValidateSnapshot(rec.Snap(), h, now);
      if r.Err? {
        return Some(r.error);
      }
      rec.marks := r.value;
      failure := None;
    }

    /** The categories in the order validatePumpRecord checks them; the temp basal and SAGE checks may throw. */
    static method ValidateSnapshot(s: Snapshot, h: seq<Entry>, now: int) returns (r: Result<Marks, ValidateError>)
      ensures r == Validation(s, h, now)
    {
      var validCGM, oldSgv, validSGV := ValidateCgm(s, h);
      var validBGL := ValidateBgl(s, h, now);
      var validBolus, dual, square, duration := ValidateBolus(s, h);
      var tempBasal := ValidateTempBasal(s, h, now);
      if tempBasal.Err? {
        return Err(tempBasal.error);
      }
      var sage := ValidateSage(s, h, now);
      if sage.Err? {
        return Err(sage.error);
      }
      var cage := ValidateCage(s, h, now);
      var battery := ValidateBattery(s, h, now);
      r := Ok(Marks(
        validCGM := validCGM, validSGV := validSGV, oldSgvWhenNewExpected := oldSgv, validBGL := validBGL,
        validBolus := validBolus, validBolusDual := dual, validBolusSquare := square, lastBolusDuration := duration,
        validTempBasal := tempBasal.value.Some?, tempBasalAfterDate := tempBasal.value,
        validSAGE := sage.value.Some?, sageAfterDate := AfterDate(sage.value), sageBeforeDate := BeforeDate(sage.value),
        validCAGE := cage.Some?, cageAfterDate := AfterDate(cage), cageBeforeDate := BeforeDate(cage),
        validBattery := battery.Some?, batteryAfterDate := AfterDate(battery), batteryBeforeDate := BeforeDate(battery)));
    }

    /** A new CGM reading, an old SGV when a new one was expected, a new SGV. */
    static method ValidateCgm(s: Snapshot, h: seq<Entry>) returns (validCGM: bool, oldSgv: bool, validSGV: bool)
      ensures validCGM == s.status.cgmActive
      ensures oldSgv == OldSgv(s)
      ensures validSGV == ValidSgv(s, h)
    {
      validCGM, oldSgv, validSGV := false, false, false;
      if s.status.cgmActive {
        validCGM := true;
      }
      if s.status.cgmActive {
        if s.pumpDate - s.status.cgmPumpDate > SgvStaleAfter {
          oldSgv := true;
        } else if !s.status.cgmWarmUp && s.status.sgv > 0 {
          var sgvResults := Where(h, SgvQuery(s));
          WhereOldest(h, SgvQuery(s));
          if |sgvResults| == 0 {
            validSGV := true;
          }
        }
      }
    }

    /** A new finger BG. */
    static method ValidateBgl(s: Snapshot, h: seq<Entry>, now: int) returns (validBGL: bool)
      ensures validBGL == ValidBgl(s, h, now)
    {
      validBGL := false;
      if s.status.recentBGL != 0 {
        var bglResults := Where(h, BglQuery(s, now));
        WhereOldest(h, BglQuery(s, now));
        if |bglResults| == 0 {
          validBGL := true;
        }
      }
    }

    /** A new bolus, the normal part of a dual bolus, a square bolus and its duration in minutes. */
    static method ValidateBolus(s: Snapshot, h: seq<Entry>)
      returns (validBolus: bool, dual: bool, square: bool, duration: int)
      ensures validBolus == ValidBolus(s, h)
      ensures dual == ValidBolusDual(s, h)
      ensures square == ValidBolusSquare(s, h)
      ensures duration == BolusDuration(s, h)
    {
      validBolus, dual, square, duration := false, false, false, 0;
      var st := s.status;
      var lastBolusResults := Where(h, LastBolusQuery(s));
      WhereOldest(h, LastBolusQuery(s));
      if |lastBolusResults| == 0 {
        validBolus := true;
        if st.bolusingReference == st.lastBolusReference && st.bolusingMinutesRemaining > ExtendedBolusMinutes {
          dual := true;
        }
        var bolusingResults := Where(h, BolusingQuery(s));
        WhereOldest(h, BolusingQuery(s));
        if |bolusingResults| > 0 {
          square := true;
          var start := st.lastBolusPumpDate;
          var end := s.pumpDate;
          var first := bolusingResults[0];
          var ms := first.snap.pumpDate - start + first.snap.status.bolusingMinutesRemaining * MinuteMs;
          if start + ms > end {
            ms := end - start;
          }
          assert ms == SquareDurationMs(start, end, first);
          duration := ToShort(JavaDiv(ms, MinuteMs));
        }
      }
    }

    /** tempBasalAfterDate for a new or cancelled temp basal, or the index past the end of the results. */
    static method ValidateTempBasal(s: Snapshot, h: seq<Entry>, now: int) returns (r: Result<Option<int>, ValidateError>)
      ensures r == TempBasalMark(s, h, now)
    {
      var st := s.status;
      var tempBasalResults := TempBasalResults(h, now);
      r := Ok(None);
      if st.tempBasalMinutesRemaining > 0 {
        var index := 0;
        if |tempBasalResults| > 1 {
          index := ScanTempBasal(tempBasalResults, st);
        }
        if |tempBasalResults| > 0 {
          if index == |tempBasalResults| {
            return Err(TempBasalIndexPastEnd);
          }
          var e := tempBasalResults[index];
          if !e.marks.validTempBasal || e.snap.status.tempBasalPercentage != st.tempBasalPercentage
             || e.snap.status.tempBasalRate != st.tempBasalRate {
            r := Ok(Some(e.snap.eventDate));
          }
        }
      } else if |tempBasalResults| > 0 {
        var first := tempBasalResults[0];
        if s.pumpDate - first.snap.pumpDate - first.snap.status.tempBasalMinutesRemaining * 60 * 1000 < -EarlyStopMargin {
          r := Ok(Some(first.snap.eventDate));
        }
      }
    }

    /** The sensor window for a warm-up or a transmitter battery that went up; or first() on no result. */
    static method ValidateSage(s: Snapshot, h: seq<Entry>, now: int) returns (r: Result<Option<Window>, ValidateError>)
      ensures r == SageMark(s, h, now)
    {
      var st := s.status;
      r := Ok(None);
      if st.cgmWarmUp {
        var sageResults := Where(h, SageQuery(now));
        WhereOldest(h, SageQuery(now));
        if |sageResults| == 0 {
          var sageDateResults := Descending(h, RecentQuery(now));
          DescendingNewest(h, RecentQuery(now));
          if |sageDateResults| == 0 {
            return Err(NoRecordInLast12Minutes);
          }
          r := Ok(Some(Window(sageDateResults[0].snap.eventDate, s.eventDate)));
        }
      } else if st.cgmActive && st.transmitterBattery > SageTransmitterBatteryAbove {
        var sageBatteryResults := Descending(h, SageBatteryQuery(s, now));
        DescendingNewest(h, SageBatteryQuery(s, now));
        if |sageBatteryResults| > 0 {
          var sageValidResults := Where(h, SinceQuery(sageBatteryResults[0].snap.eventDate, SageFlag));
          WhereOldest(h, SinceQuery(sageBatteryResults[0].snap.eventDate, SageFlag));
          if |sageValidResults| == 0 {
            r := Ok(Some(Window(sageBatteryResults[0].snap.eventDate, s.eventDate)));
          }
        }
      }
    }

    /** The reservoir change window. */
    static method ValidateCage(s: Snapshot, h: seq<Entry>, now: int) returns (w: Option<Window>)
      ensures w == CageWindow(s, h, now)
    {
      w := None;
      var cageResults := Descending(h, CageQuery(s, now));
      DescendingNewest(h, CageQuery(s, now));
      if |cageResults| > 0 {
        var cageValidResults := Where(h, SinceQuery(cageResults[0].snap.eventDate, CageFlag));
        WhereOldest(h, SinceQuery(cageResults[0].snap.eventDate, CageFlag));
        if |cageValidResults| == 0 {
          w := Some(Window(cageResults[0].snap.eventDate, s.eventDate));
        }
      }
    }

    /** The pump battery change window. */
    static method ValidateBattery(s: Snapshot, h: seq<Entry>, now: int) returns (w: Option<Window>)
      ensures w == BatteryWindow(s, h, now)
    {
      w := None;
      var batteryResults := Descending(h, BatteryQuery(s, now));
      DescendingNewest(h, BatteryQuery(s, now));
      if |batteryResults| > 0 {
        var batteryValidResults := Where(h, SinceQuery(batteryResults[0].snap.eventDate, BatteryFlag));
        WhereOldest(h, SinceQuery(batteryResults[0].snap.eventDate, BatteryFlag));
        if |batteryValidResults| == 0 {
          w := Some(Window(batteryResults[0].snap.eventDate, s.eventDate));
        }
      }
    }
  }
}
