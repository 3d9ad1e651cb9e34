/**
 * The snapshot validator (validatePumpRecord) as specification functions: for a new
 * snapshot and the pump's history (which does not yet contain it), which valid* flags,
 * boundary dates and bolus duration the record receives. "Valid" means this poll is the
 * first to observe the event. Each category is a function; `Validation` assembles them.
 */
module TelemetryValidator {
  import opened Wrappers
  import opened JavaArith
  import opened Records
  import PollScheduler

  /** An SGV whose pump-side reading time is further back than this is an old one. */
  const SgvStaleAfter := PollScheduler.PollPeriod + PollScheduler.PollGracePeriod / 2
  const BglWindow := 20 * 60 * 1000
  const TempBasalWindow := 24 * 60 * 60 * 1000
  const SageWarmUpWindow := 130 * 60 * 1000
  const RecentWindow := 12 * 60 * 1000
  const ChangeLookback := 12 * 60 * 60 * 1000
  const ExtendedBolusMinutes := 10
  const EarlyStopMargin := 60 * 1000
  const MinuteMs := 60000
  const SageTransmitterBatteryAbove := 70

  /** The two runtime exceptions validatePumpRecord can raise. */
  datatype ValidateError =
    | TempBasalIndexPastEnd    // the temp-basal scan ran off the end and get(index) fails
    | NoRecordInLast12Minutes  // first() on an empty result for the warm-up SAGE window

  /** A boundary window [after, before] for a SAGE / CAGE / BATTERY change. */
  datatype Window = Window(after: int, before: int)

  function AfterDate(w: Option<Window>): Option<int>
  {
    match w
    case Some(x) => Some(x.after)
    case None => None
  }

  function BeforeDate(w: Option<Window>): Option<int>
  {
    match w
    case Some(x) => Some(x.before)
    case None => None
  }

  // ---------------------------------------------------------------- CGM and SGV

  predicate SgvIsOld(s: Snapshot)
  {
    s.pumpDate - s.status.cgmPumpDate > SgvStaleAfter
  }

  /** History entries already validSGV for the same sensor reading time. */
  function SgvQuery(s: Snapshot): Query
  {
    SameSgv(s.status.cgmPumpDate)
  }

  function OldSgv(s: Snapshot): (r: bool)
    ensures r <==> s.status.cgmActive && s.pumpDate - s.status.cgmPumpDate > 315000
  {
    s.status.cgmActive && SgvIsOld(s)
  }

  function ValidSgv(s: Snapshot, h: seq<Entry>): (r: bool)
    ensures r ==> s.status.cgmActive && !s.status.cgmWarmUp && s.status.sgv > 0 && !OldSgv(s)
    ensures r ==> forall e :: e in h ==> !(e.snap.status.cgmPumpDate == s.status.cgmPumpDate && e.marks.validSGV)
  {
    AnyRule(h, SgvQuery(s));
    s.status.cgmActive && !SgvIsOld(s) && !s.status.cgmWarmUp && s.status.sgv > 0
    && !Any(h, SgvQuery(s))
  }

  /**
   * A new SGV needs an active, warmed-up sensor, a positive value, a reading no older than
   * 315 s by the pump clock and no stored record that already reported that reading; an
   * older reading is flagged as old instead, never both.
   */
  lemma SgvRule(s: Snapshot, h: seq<Entry>)
    ensures ValidSgv(s, h) <==>
              && s.status.cgmActive && !s.status.cgmWarmUp && s.status.sgv > 0
              && s.pumpDate - s.status.cgmPumpDate <= 315000
              && forall e :: e in h ==> !(e.snap.status.cgmPumpDate == s.status.cgmPumpDate && e.marks.validSGV)
    ensures !(ValidSgv(s, h) && OldSgv(s))
    ensures OldSgv(s) <==> s.status.cgmActive && s.pumpDate - s.status.cgmPumpDate > 315000
  {
    AnyRule(h, SgvQuery(s));
  }

  // ---------------------------------------------------------------- finger BGL

  /** History entries of the last 20 minutes that carry the same finger BG value. */
  function BglQuery(s: Snapshot, now: int): Query
  {
    SameBgl(now - BglWindow, s.status.recentBGL)
  }

  function ValidBgl(s: Snapshot, h: seq<Entry>, now: int): (r: bool)
    ensures r ==> s.status.recentBGL != 0
    ensures s.status.recentBGL != 0 && (forall e :: e in h ==> e.snap.eventDate <= now - 1200000) ==> r
  {
    AnyRule(h, BglQuery(s, now));
    s.status.recentBGL != 0 && !Any(h, BglQuery(s, now))
  }

  /** A finger BG is new unless it is zero or a record of the last 20 minutes carries the same value. */
  lemma BglRule(s: Snapshot, h: seq<Entry>, now: int)
    ensures ValidBgl(s, h, now) <==>
              && s.status.recentBGL != 0
              && forall e :: e in h ==> !(e.snap.eventDate > now - 1200000 && e.snap.status.recentBGL == s.status.recentBGL)
  {
    AnyRule(h, BglQuery(s, now));
  }

  // ---------------------------------------------------------------- bolus

  /** History entries already validBolus for the same (last bolus date, reference). */
  function LastBolusQuery(s: Snapshot): Query
  {
    SameBolus(s.status.lastBolusPumpDate, s.status.lastBolusReference)
  }

  /** History entries that were delivering the last bolus with more than 10 minutes to go. */
  function BolusingQuery(s: Snapshot): Query
  {
    Bolusing(s.status.lastBolusReference, ExtendedBolusMinutes)
  }

  function ValidBolus(s: Snapshot, h: seq<Entry>): (r: bool)
    ensures r ==> forall e :: e in h && e.marks.validBolus ==>
      e.snap.status.lastBolusPumpDate != s.status.lastBolusPumpDate
      || e.snap.status.lastBolusReference != s.status.lastBolusReference
    ensures (forall e :: e in h ==> !e.marks.validBolus) ==> r
  {
    AnyRule(h, LastBolusQuery(s));
    !Any(h, LastBolusQuery(s))
  }

  /** The normal part of a dual bolus: the same bolus is still delivering its extended part. */
  function ValidBolusDual(s: Snapshot, h: seq<Entry>): (r: bool)
    ensures r ==> ValidBolus(s, h) && s.status.bolusingMinutesRemaining > 10
    ensures r ==> s.status.bolusingReference == s.status.lastBolusReference
  {
    ValidBolus(s, h) && s.status.bolusingReference == s.status.lastBolusReference
    && s.status.bolusingMinutesRemaining > ExtendedBolusMinutes
  }

  /** A square bolus: some earlier poll saw this bolus delivering with more than 10 minutes left. */
  function ValidBolusSquare(s: Snapshot, h: seq<Entry>): (r: bool)
    ensures r ==> ValidBolus(s, h)
    ensures r ==> exists e :: e in h && e.snap.status.bolusingReference == s.status.lastBolusReference
                              && e.snap.status.bolusingMinutesRemaining > 10
  {
    AnyRule(h, BolusingQuery(s));
    ValidBolus(s, h) && Any(h, BolusingQuery(s))
  }

  /**
   * A bolus is new unless a stored record already reported the same start time and
   * reference; dual and square are refinements of a new bolus, decided independently.
   */
  lemma BolusRule(s: Snapshot, h: seq<Entry>)
    ensures ValidBolus(s, h) <==> forall e :: e in h ==>
      !(e.snap.status.lastBolusPumpDate == s.status.lastBolusPumpDate
        && e.snap.status.lastBolusReference == s.status.lastBolusReference && e.marks.validBolus)
    ensures ValidBolusDual(s, h) <==>
              && ValidBolus(s, h)
              && s.status.bolusingReference == s.status.lastBolusReference
              && s.status.bolusingMinutesRemaining > 10
    ensures ValidBolusSquare(s, h) <==>
              && ValidBolus(s, h)
              && exists e :: e in h && e.snap.status.bolusingReference == s.status.lastBolusReference
                                   && e.snap.status.bolusingMinutesRemaining > 10
  {
    AnyRule(h, LastBolusQuery(s));
    AnyRule(h, BolusingQuery(s));
  }

  /**
   * The square bolus duration in ms: from its start to the first delivering entry plus that
   * entry's remaining minutes, cut back so the bolus does not end after pump time `end`.
   */
  function SquareDurationMs(start: int, end: int, first: Entry): (d: int)
    ensures start + d <= end
    ensures var raw := first.snap.pumpDate - start + first.snap.status.bolusingMinutesRemaining * MinuteMs;
      (start + raw <= end ==> d == raw) && (start + raw > end ==> d == end - start)
  {
    var raw := first.snap.pumpDate - start + first.snap.status.bolusingMinutesRemaining * MinuteMs;
    if start + raw > end then end - start else raw
  }

  /** lastBolusDuration: whole minutes of the square duration, cast to a Java short. */
  function BolusDuration(s: Snapshot, h: seq<Entry>): (minutes: int)
    ensures -32768 <= minutes < 32768
    ensures !ValidBolusSquare(s, h) ==> minutes == 0
  {
    if ValidBolusSquare(s, h) then
      var first := h[Oldest(h, BolusingQuery(s)).value];
      ToShort(JavaDiv(SquareDurationMs(s.status.lastBolusPumpDate, s.pumpDate, first), MinuteMs))
    else 0
  }

  /** A duration that fits a short is stored without wrapping and never runs past pump time. */
  lemma BolusDurationFits(s: Snapshot, h: seq<Entry>)
    requires ValidBolusSquare(s, h)
    requires var d := SquareDurationMs(s.status.lastBolusPumpDate, s.pumpDate, h[Oldest(h, BolusingQuery(s)).value]);
      0 <= d < 32768 * MinuteMs
    ensures 0 <= BolusDuration(s, h)
    ensures s.status.lastBolusPumpDate + BolusDuration(s, h) * MinuteMs <= s.pumpDate
  {
  }

  /** The short cast at 32768 minutes (about 22.7 days) wraps to a negative duration. */
  lemma BolusDurationWraps(s: Snapshot, h: seq<Entry>)
    requires ValidBolusSquare(s, h)
    requires SquareDurationMs(s.status.lastBolusPumpDate, s.pumpDate, h[Oldest(h, BolusingQuery(s)).value]) == 32768 * MinuteMs
    ensures BolusDuration(s, h) == -32768
  {
    var d := SquareDurationMs(s.status.lastBolusPumpDate, s.pumpDate, h[Oldest(h, BolusingQuery(s)).value]);
    assert d == 1966080000;
    assert JavaDiv(d, MinuteMs) == 32768;
    assert ToShort(32768) == -32768;
  }

  /** The square duration is measured from the OLDEST history entry delivering this bolus. */
  lemma SquareDurationFromOldest(s: Snapshot, h: seq<Entry>) returns (i: nat)
    requires ValidBolusSquare(s, h)
    ensures i < |h| && h[i].snap.status.bolusingReference == s.status.lastBolusReference
            && h[i].snap.status.bolusingMinutesRemaining > 10
    ensures forall j :: 0 <= j < i ==> !(h[j].snap.status.bolusingReference == s.status.lastBolusReference
                                        && h[j].snap.status.bolusingMinutesRemaining > 10)
    ensures BolusDuration(s, h) == ToShort(JavaDiv(SquareDurationMs(s.status.lastBolusPumpDate, s.pumpDate, h[i]), MinuteMs))
  {
    OldestFromIsFirst(h, BolusingQuery(s), 0);
    i := Oldest(h, BolusingQuery(s)).value;
  }

  // ---------------------------------------------------------------- temp basal

  /** All history entries of the last 24 hours (sorted newest first by TempBasalResults). */
  function TempBasalQuery(now: int): Query
  {
    CapturedAfter(now - TempBasalWindow)
  }

  function TempBasalResults(h: seq<Entry>, now: int): seq<Entry>
  {
    Descending(h, TempBasalQuery(now))
  }

  /** The value the scan compares entry k with: the new record's remaining minutes, then the previous entry's. */
  function RunningMinutes(rs: seq<Entry>, s: Status, k: nat): int
    requires k <= |rs|
  {
    if k == 0 then s.tempBasalMinutesRemaining else rs[k - 1].snap.status.tempBasalMinutesRemaining
  }

  /** Entry e ends the chain of polls that all saw the same running temp basal. */
  predicate EndsChain(e: Entry, s: Status, minutes: int)
  {
    || e.snap.status.tempBasalMinutesRemaining < minutes
    || e.snap.status.tempBasalPercentage != s.tempBasalPercentage
    || e.snap.status.tempBasalRate != s.tempBasalRate
    || e.marks.validTempBasal
  }

  /** Where the scan from position k stops: the first entry that ends the chain, or |rs|. */
  function ScanStop(rs: seq<Entry>, s: Status, k: nat): (r: nat)
    requires k <= |rs|
    ensures k <= r <= |rs|
    ensures forall j :: k <= j < r ==> !EndsChain(rs[j], s, RunningMinutes(rs, s, j))
    ensures r < |rs| ==> EndsChain(rs[r], s, RunningMinutes(rs, s, r))
    decreases |rs| - k
  {
    if k == |rs| then k
    else if EndsChain(rs[k], s, RunningMinutes(rs, s, k)) then k
    else ScanStop(rs, s, k + 1)
  }

  /** The scan loop of the temp-basal check: walks the newest-first results until the chain ends. */
  method ScanTempBasal(rs: seq<Entry>, s: Status) returns (index: nat)
    ensures index == ScanStop(rs, s, 0)
  {
    var minutes := s.tempBasalMinutesRemaining;
    index := 0;
    while index < |rs|
      invariant index <= |rs|
      invariant minutes == RunningMinutes(rs, s, index)
      invariant ScanStop(rs, s, index) == ScanStop(rs, s, 0)
      decreases |rs| - index
    {
      if EndsChain(rs[index], s, minutes) {
        break;
      }
      minutes := rs[index].snap.status.tempBasalMinutesRemaining;
      index := index + 1;
    }
  }

  /** Entry e is the same temp basal as s and already reported. */
  predicate SameValidTempBasal(e: Entry, s: Status)
  {
    e.marks.validTempBasal && e.snap.status.tempBasalPercentage == s.tempBasalPercentage
    && e.snap.status.tempBasalRate == s.tempBasalRate
  }

  /** tempBasalAfterDate when the record is validTEMPBASAL, None when it is not. */
  function TempBasalMark(s: Snapshot, h: seq<Entry>, now: int): (r: Result<Option<int>, ValidateError>)
    ensures r.Err? ==> s.status.tempBasalMinutesRemaining > 0 && |TempBasalResults(h, now)| > 1
    ensures |TempBasalResults(h, now)| == 0 ==> r == Ok(None)
    ensures r.Ok? && r.value.Some? ==>
      exists e :: e in h && e.snap.eventDate > now - 86400000 && e.snap.eventDate == r.value.value
  {
    var rs := TempBasalResults(h, now);
    DescendingMembers(h, TempBasalQuery(now));
    if s.status.tempBasalMinutesRemaining > 0 then
      var index := if |rs| > 1 then ScanStop(rs, s.status, 0) else 0;
      if |rs| == 0 then Ok(None)
      else if index == |rs| then Err(TempBasalIndexPastEnd)
      else if !SameValidTempBasal(rs[index], s.status) then
        assert rs[index] in rs; Ok(Some(rs[index].snap.eventDate))
      else Ok(None)
    else if |rs| > 0 && s.pumpDate - rs[0].snap.pumpDate - rs[0].snap.status.tempBasalMinutesRemaining * 60 * 1000 < -EarlyStopMargin
    then assert rs[0] in rs; Ok(Some(rs[0].snap.eventDate))
    else Ok(None)
  }

  /**
   * A running temp basal with more than one entry in the last 24 h: the record is valid,
   * with the chain's end as tempBasalAfterDate, unless that entry is the same temp basal
   * already reported.
   */
  lemma TempBasalChainRule(s: Snapshot, h: seq<Entry>, now: int, i: nat)
    requires s.status.tempBasalMinutesRemaining > 0
    requires |TempBasalResults(h, now)| > 1 && i < |TempBasalResults(h, now)|
    requires var rs := TempBasalResults(h, now);
      forall j :: 0 <= j < i ==> !EndsChain(rs[j], s.status, RunningMinutes(rs, s.status, j))
    requires var rs := TempBasalResults(h, now);
      EndsChain(rs[i], s.status, RunningMinutes(rs, s.status, i))
    ensures var rs := TempBasalResults(h, now);
      TempBasalMark(s, h, now) == if SameValidTempBasal(rs[i], s.status) then Ok(None) else Ok(Some(rs[i].snap.eventDate))
  {
    var rs := TempBasalResults(h, now);
    var r := ScanStop(rs, s.status, 0);
    assert r == i;
  }

  /** The scan runs past the end exactly when no entry of the last 24 h ends the chain. */
  lemma TempBasalPastEnd(s: Snapshot, h: seq<Entry>, now: int)
    ensures var rs := TempBasalResults(h, now);
      TempBasalMark(s, h, now).Err? <==>
        s.status.tempBasalMinutesRemaining > 0 && |rs| > 1
        && forall j :: 0 <= j < |rs| ==> !EndsChain(rs[j], s.status, RunningMinutes(rs, s.status, j))
  {
    var rs := TempBasalResults(h, now);
    if s.status.tempBasalMinutesRemaining > 0 && |rs| > 1 {
      var r := ScanStop(rs, s.status, 0);
      if r < |rs| {
        assert EndsChain(rs[r], s.status, RunningMinutes(rs, s.status, r));
      }
    }
  }

  /** With one entry in the last 24 h the scan is skipped and that entry decides. */
  lemma TempBasalSingleEntry(s: Snapshot, h: seq<Entry>, now: int)
    requires s.status.tempBasalMinutesRemaining > 0
    ensures var rs := TempBasalResults(h, now);
      (|rs| == 0 ==> TempBasalMark(s, h, now) == Ok(None))
      && (|rs| == 1 ==>
            TempBasalMark(s, h, now) ==
              if SameValidTempBasal(rs[0], s.status) then Ok(None) else Ok(Some(rs[0].snap.eventDate)))
  {
  }

  /**
   * A stopped temp basal is reported only when pump time is more than 60 s before the end
   * the newest entry predicted; in particular not after an entry that already had 0 minutes
   * left unless the pump clock went back by more than 60 s.
   */
  lemma TempBasalStopRule(s: Snapshot, h: seq<Entry>, now: int)
    requires s.status.tempBasalMinutesRemaining <= 0
    ensures var rs := TempBasalResults(h, now);
      TempBasalMark(s, h, now).Ok?
      && (TempBasalMark(s, h, now).value.Some? <==>
            |rs| > 0 && s.pumpDate < rs[0].snap.pumpDate + rs[0].snap.status.tempBasalMinutesRemaining * 60000 - 60000)
      && (TempBasalMark(s, h, now).value.Some? ==> TempBasalMark(s, h, now).value.value == rs[0].snap.eventDate)
    ensures var rs := TempBasalResults(h, now);
      |rs| > 0 && rs[0].snap.status.tempBasalMinutesRemaining == 0 && s.pumpDate >= rs[0].snap.pumpDate - 60000
      ==> TempBasalMark(s, h, now) == Ok(None)
  {
  }

  // ---------------------------------------------------------------- SAGE, CAGE, BATTERY

  /** Entries captured at or after `date` that carry `flag`. */
  function SinceQuery(date: int, flag: Flag): Query
  {
    FlaggedSince(date, flag)
  }

  /**
   * The shared change rule: take the newest entry matching `lower` (an entry of the last
   * 12 h whose reading is below the new one); the change is new unless an entry captured
   * at or after it is already flagged. The window runs from that entry to the new record.
   */
  function ChangeWindow(h: seq<Entry>, eventDate: int, lower: Query, flag: Flag): (w: Option<Window>)
    ensures w.Some? ==> w.value.before == eventDate
    ensures w.Some? ==> exists e :: e in h && Matches(lower, e) && e.snap.eventDate == w.value.after
    ensures w.Some? ==> forall e :: e in h && HasFlag(e, flag) ==> e.snap.eventDate < w.value.after
    ensures (forall e :: e in h ==> !Matches(lower, e)) ==> w.None?
  {
    var newest := Newest(h, lower);
    NewestBeforeIsLast(h, lower, |h|);
    if newest.Some? && !Any(h, SinceQuery(h[newest.value].snap.eventDate, flag)) then
      AnyRule(h, SinceQuery(h[newest.value].snap.eventDate, flag));
      assert h[newest.value] in h;
      Some(Window(h[newest.value].snap.eventDate, eventDate))
    else None
  }

  /** The change rule in terms of the newest lower entry h[i]. */
  lemma ChangeWindowRule(h: seq<Entry>, eventDate: int, lower: Query, flag: Flag, i: nat)
    requires i < |h| && Matches(lower, h[i])
    requires forall j :: i < j < |h| ==> !Matches(lower, h[j])
    ensures ChangeWindow(h, eventDate, lower, flag) ==
      if exists j :: 0 <= j < |h| && h[j].snap.eventDate >= h[i].snap.eventDate && HasFlag(h[j], flag) then None
      else Some(Window(h[i].snap.eventDate, eventDate))
  {
    NewestBeforeIsLast(h, lower, |h|);
    assert Newest(h, lower) == Some(i);
    var since := SinceQuery(h[i].snap.eventDate, flag);
    AnyRule(h, since);
  }


  /** CAGE: entries of the last 12 h with less insulin in the reservoir (a refill happened since). */
  function CageQuery(s: Snapshot, now: int): Query
  {
    LowerReservoir(now - ChangeLookback, s.status.reservoirAmount)
  }

  /** BATTERY: entries of the last 12 h with a lower pump battery (a battery swap happened since). */
  function BatteryQuery(s: Snapshot, now: int): Query
  {
    LowerPumpBattery(now - ChangeLookback, s.status.batteryPercentage)
  }

  /** SAGE by transmitter battery: CGM entries of the last 12 h with a lower transmitter battery. */
  function SageBatteryQuery(s: Snapshot, now: int): Query
  {
    LowerTransmitterBattery(now - ChangeLookback, s.status.transmitterBattery)
  }

  /** validSAGE entries of the last 130 minutes. */
  function SageQuery(now: int): Query
  {
    FlaggedAfter(now - SageWarmUpWindow, SageFlag)
  }

  /** Entries of the last 12 minutes. */
  function RecentQuery(now: int): Query
  {
    CapturedAfter(now - RecentWindow)
  }

  function CageWindow(s: Snapshot, h: seq<Entry>, now: int): (w: Option<Window>)
    ensures w.Some? ==> w.value.before == s.eventDate
    ensures w.Some? ==> exists e :: e in h && e.snap.eventDate > now - 43200000 && e.snap.eventDate == w.value.after
                                    && e.snap.status.reservoirAmount < s.status.reservoirAmount
    ensures w.Some? ==> forall e :: e in h && e.marks.validCAGE ==> e.snap.eventDate < w.value.after
  {
    ChangeWindow(h, s.eventDate, CageQuery(s, now), CageFlag)
  }

  function BatteryWindow(s: Snapshot, h: seq<Entry>, now: int): (w: Option<Window>)
    ensures w.Some? ==> w.value.before == s.eventDate
    ensures w.Some? ==> exists e :: e in h && e.snap.eventDate > now - 43200000 && e.snap.eventDate == w.value.after
                                    && e.snap.status.batteryPercentage < s.status.batteryPercentage
    ensures w.Some? ==> forall e :: e in h && e.marks.validBattery ==> e.snap.eventDate < w.value.after
  {
    ChangeWindow(h, s.eventDate, BatteryQuery(s, now), BatteryFlag)
  }

  /** The SAGE window: a new sensor in warm-up, or a transmitter battery that went up. */
  function SageMark(s: Snapshot, h: seq<Entry>, now: int): (r: Result<Option<Window>, ValidateError>)
    ensures r.Err? ==> s.status.cgmWarmUp
    ensures !s.status.cgmWarmUp && !s.status.cgmActive ==> r == Ok(None)
    ensures r.Ok? && r.value.Some? ==>
      r.value.value.before == s.eventDate && exists e :: e in h && e.snap.eventDate == r.value.value.after
  {
    if s.status.cgmWarmUp then
      if !Any(h, SageQuery(now)) then
        var recent := Newest(h, RecentQuery(now));
        if recent.None? then Err(NoRecordInLast12Minutes)
        else Ok(Some(Window(h[recent.value].snap.eventDate, s.eventDate)))
      else Ok(None)
    else if s.status.cgmActive && s.status.transmitterBattery > SageTransmitterBatteryAbove then
      Ok(ChangeWindow(h, s.eventDate, SageBatteryQuery(s, now), SageFlag))
    else Ok(None)
  }

  /**
   * In warm-up SAGE fires iff no validSAGE entry exists in the last 130 minutes; its window
   * starts at the newest entry of the last 12 minutes, and with no such entry
   * validatePumpRecord throws on first().
   */
  lemma SageWarmUpRule(s: Snapshot, h: seq<Entry>, now: int)
    requires s.status.cgmWarmUp
    ensures (SageMark(s, h, now) == Ok(None)) <==>
              exists e :: e in h && e.snap.eventDate > now - 7800000 && e.marks.validSAGE
    ensures SageMark(s, h, now).Err? <==>
              (forall e :: e in h ==> !(e.snap.eventDate > now - 7800000 && e.marks.validSAGE))
              && (forall e :: e in h ==> e.snap.eventDate <= now - 720000)
    ensures SageMark(s, h, now).Ok? && SageMark(s, h, now).value.Some? ==>
              exists i :: 0 <= i < |h| && h[i].snap.eventDate > now - 720000
                          && SageMark(s, h, now).value.value == Window(h[i].snap.eventDate, s.eventDate)
                          && forall j :: i < j < |h| ==> h[j].snap.eventDate <= now - 720000
  {
    AnyRule(h, SageQuery(now));
    AnyRule(h, RecentQuery(now));
    NewestBeforeIsLast(h, RecentQuery(now), |h|);
  }


  // ---------------------------------------------------------------- the whole record

  /**
   * validatePumpRecord: every derived field of the new record, or the exception it raises.
   * Only the temp-basal scan and the warm-up SAGE lookup can throw. Each valid* flag is its
   * category's rule, every boundary date is set exactly when its flag is, a change window
   * ends at the new record, a dual or square bolus is a new bolus, a new SGV needs an active
   * sensor and is never also an old one, and only a square bolus has a duration.
   */
  function Validation(s: Snapshot, h: seq<Entry>, now: int): (r: Result<Marks, ValidateError>)
    ensures r.Err? <==> TempBasalMark(s, h, now).Err? || SageMark(s, h, now).Err?
    ensures r.Ok? ==> r.value.validTempBasal == TempBasalMark(s, h, now).value.Some?
                      && r.value.validSAGE == SageMark(s, h, now).value.Some?
                      && r.value.validCAGE == CageWindow(s, h, now).Some?
                      && r.value.validBattery == BatteryWindow(s, h, now).Some?
    ensures r.Ok? ==> r.value.validSGV == ValidSgv(s, h) && r.value.validBGL == ValidBgl(s, h, now)
                      && r.value.validBolus == ValidBolus(s, h)
    ensures r.Ok? ==> r.value.validCGM == s.status.cgmActive && r.value.oldSgvWhenNewExpected == OldSgv(s)
                      && r.value.validBolusDual == ValidBolusDual(s, h)
                      && r.value.validBolusSquare == ValidBolusSquare(s, h)
                      && r.value.lastBolusDuration == BolusDuration(s, h)
    ensures r.Ok? ==> var m := r.value;
      && m.tempBasalAfterDate.Some? == m.validTempBasal
      && m.sageAfterDate.Some? == m.validSAGE && m.sageBeforeDate == (if m.validSAGE then Some(s.eventDate) else None)
      && m.cageAfterDate.Some? == m.validCAGE && m.cageBeforeDate == (if m.validCAGE then Some(s.eventDate) else None)
      && m.batteryAfterDate.Some? == m.validBattery
      && m.batteryBeforeDate == (if m.validBattery then Some(s.eventDate) else None)
    ensures r.Ok? ==> var m := r.value;
      && (m.validBolusDual || m.validBolusSquare ==> m.validBolus)
      && (m.validSGV ==> m.validCGM && !m.oldSgvWhenNewExpected)
      && (m.lastBolusDuration != 0 ==> m.validBolusSquare)
  {
    match TempBasalMark(s, h, now)
    case Err(e) => Err(e)
    case Ok(tempBasal) =>
      match SageMark(s, h, now)
      case Err(e) => Err(e)
      case Ok(sage) =>
        var cage := CageWindow(s, h, now);
        var battery := BatteryWindow(s, h, now);
        Ok(Marks(
          validCGM := s.status.cgmActive,
          validSGV := ValidSgv(s, h),
          oldSgvWhenNewExpected := OldSgv(s),
          validBGL := ValidBgl(s, h, now),
          validBolus := ValidBolus(s, h),
          validBolusDual := ValidBolusDual(s, h),
          validBolusSquare := ValidBolusSquare(s, h),
          lastBolusDuration := BolusDuration(s, h),
          validTempBasal := tempBasal.Some?,
          tempBasalAfterDate := tempBasal,
          validSAGE := sage.Some?,
          sageAfterDate := AfterDate(sage),
          sageBeforeDate := BeforeDate(sage),
          validCAGE := cage.Some?,
          cageAfterDate := AfterDate(cage),
          cageBeforeDate := BeforeDate(cage),
          validBattery := battery.Some?,
          batteryAfterDate := AfterDate(battery),
          batteryBeforeDate := BeforeDate(battery)))
  }

  // ---------------------------------------------------------------- properties across polls

  /** No two history entries report the same SGV reading. */
  ghost predicate SgvOncePerReading(h: seq<Entry>)
  {
    forall i, j :: 0 <= i < j < |h| && h[i].marks.validSGV && h[j].marks.validSGV
      ==> h[i].snap.status.cgmPumpDate != h[j].snap.status.cgmPumpDate
  }

  /** No two history entries report the same bolus (same start time and reference). */
  ghost predicate BolusOncePerDelivery(h: seq<Entry>)
  {
    forall i, j :: 0 <= i < j < |h| && h[i].marks.validBolus && h[j].marks.validBolus
      ==> h[i].snap.status.lastBolusPumpDate != h[j].snap.status.lastBolusPumpDate
          || h[i].snap.status.lastBolusReference != h[j].snap.status.lastBolusReference
  }

  /** Appending an entry whose SGV and bolus are new to `h` keeps both reported at most once. */
  lemma AppendKeepsReportsUnique(h: seq<Entry>, e: Entry)
    requires SgvOncePerReading(h) && BolusOncePerDelivery(h)
    requires e.marks.validSGV ==> !Any(h, SameSgv(e.snap.status.cgmPumpDate))
    requires e.marks.validBolus ==> !Any(h, SameBolus(e.snap.status.lastBolusPumpDate, e.snap.status.lastBolusReference))
    ensures SgvOncePerReading(h + [e]) && BolusOncePerDelivery(h + [e])
  {
    var h' := h + [e];
    forall i, j | 0 <= i < j < |h'| && h'[i].marks.validSGV && h'[j].marks.validSGV
      ensures h'[i].snap.status.cgmPumpDate != h'[j].snap.status.cgmPumpDate
    {
      assert h'[i] == h[i];
      if j == |h| {
        AnyRule(h, SameSgv(e.snap.status.cgmPumpDate));
        assert !Matches(SameSgv(e.snap.status.cgmPumpDate), h[i]);
      } else {
        assert h'[j] == h[j];
      }
    }
    forall i, j | 0 <= i < j < |h'| && h'[i].marks.validBolus && h'[j].marks.validBolus
      ensures h'[i].snap.status.lastBolusPumpDate != h'[j].snap.status.lastBolusPumpDate
              || h'[i].snap.status.lastBolusReference != h'[j].snap.status.lastBolusReference
    {
      assert h'[i] == h[i];
      if j == |h| {
        AnyRule(h, SameBolus(e.snap.status.lastBolusPumpDate, e.snap.status.lastBolusReference));
        assert !Matches(SameBolus(e.snap.status.lastBolusPumpDate, e.snap.status.lastBolusReference), h[i]);
      } else {
        assert h'[j] == h[j];
      }
    }
  }

  /** Appending a validated record keeps every SGV and every bolus reported at most once. */
  lemma ValidationKeepsReportsUnique(s: Snapshot, h: seq<Entry>, now: int)
    requires SgvOncePerReading(h) && BolusOncePerDelivery(h)
    requires Validation(s, h, now).Ok?
    ensures var h' := h + [Entry(s, Validation(s, h, now).value)];
      SgvOncePerReading(h') && BolusOncePerDelivery(h')
  {
    AppendKeepsReportsUnique(h, Entry(s, Validation(s, h, now).value));
  }

  /**
   * Polling the same pump status again does not report its SGV or its bolus a second time,
   * nor, within 20 minutes, its finger BG.
   */
  lemma RepeatedStatusNotReportedAgain(s: Snapshot, h: seq<Entry>, now: int, s2: Snapshot, now2: int)
    requires Validation(s, h, now).Ok?
    requires s2.status == s.status && s2.pumpDate >= s.pumpDate
    requires Validation(s2, h + [Entry(s, Validation(s, h, now).value)], now2).Ok?
    ensures var m2 := Validation(s2, h + [Entry(s, Validation(s, h, now).value)], now2).value;
      !m2.validSGV && !m2.validBolus
    ensures var m := Validation(s, h, now).value;
      var m2 := Validation(s2, h + [Entry(s, m)], now2).value;
      m.validBGL && s.eventDate > now2 - 1200000 ==> !m2.validBGL
  {
    var m := Validation(s, h, now).value;
    var h' := h + [Entry(s, m)];
    RepeatedFlags(s, h, now, m, s2, now2);
  }

  /** The flag-level step of RepeatedStatusNotReportedAgain. */
  lemma RepeatedFlags(s: Snapshot, h: seq<Entry>, now: int, m: Marks, s2: Snapshot, now2: int)
    requires m.validSGV == ValidSgv(s, h) && m.validBGL == ValidBgl(s, h, now) && m.validBolus == ValidBolus(s, h)
    requires s2.status == s.status && s2.pumpDate >= s.pumpDate
    ensures !ValidSgv(s2, h + [Entry(s, m)]) && !ValidBolus(s2, h + [Entry(s, m)])
    ensures m.validBGL && s.eventDate > now2 - 1200000 ==> !ValidBgl(s2, h + [Entry(s, m)], now2)
  {
    var h' := h + [Entry(s, m)];
    var n := |h|;
    assert h'[n] == Entry(s, m);
    AnyRule(h, SgvQuery(s));
    AnyRule(h', SgvQuery(s2));
    AnyRule(h, LastBolusQuery(s));
    AnyRule(h', LastBolusQuery(s2));
    AnyRule(h', BglQuery(s2, now2));
    forall i | 0 <= i < |h| ensures h'[i] == h[i] {
    }
  }

  /**
   * A change window is not opened twice for the same reading: if the record e that follows
   * `h` was flagged whenever its own window opened, a later record whose lower entries are
   * among e's lower entries and whose reading e does not undercut finds the change reported.
   */
  lemma ChangeNotReportedAgain(h: seq<Entry>, d1: int, d2: int, lower1: Query, lower2: Query, flag: Flag, e: Entry)
    requires Chronological(h)
    requires forall i :: 0 <= i < |h| ==> h[i].snap.eventDate <= e.snap.eventDate
    requires forall i :: 0 <= i < |h| && Matches(lower2, h[i]) ==> Matches(lower1, h[i])
    requires !Matches(lower2, e)
    requires ChangeWindow(h, d1, lower1, flag).Some? ==> HasFlag(e, flag)
    ensures ChangeWindow(h + [e], d2, lower2, flag).None?
  {
    var h' := h + [e];
    assert h'[|h|] == e;
    NewestBeforeIsLast(h', lower2, |h'|);
    var j := Newest(h', lower2);
    if j.Some? {
      var jj := j.value;
      assert jj < |h|;
      assert h'[jj] == h[jj];
      NewestBeforeIsLast(h, lower1, |h|);
      assert Matches(lower1, h[jj]);
      var ii := Newest(h, lower1).value;
      assert h[jj].snap.eventDate <= h[ii].snap.eventDate;
      ChangeWindowRule(h, d1, lower1, flag, ii);
      ChangeWindowRule(h', d2, lower2, flag, jj);
      if exists k :: 0 <= k < |h| && h[k].snap.eventDate >= h[ii].snap.eventDate && HasFlag(h[k], flag) {
        var k :| 0 <= k < |h| && h[k].snap.eventDate >= h[ii].snap.eventDate && HasFlag(h[k], flag);
        assert h'[k] == h[k];
      }
    }
  }

  /**
   * Polling the same pump status again, later and after a history in capture order, reports
   * no second reservoir change, no second pump battery change and, outside sensor warm-up,
   * no second transmitter battery change.
   */
  lemma RepeatedChangesNotReported(s: Snapshot, h: seq<Entry>, now: int, s2: Snapshot, now2: int)
    requires Chronological(h) && forall i :: 0 <= i < |h| ==> h[i].snap.eventDate <= s.eventDate
    requires now <= now2 && s2.status == s.status
    requires Validation(s, h, now).Ok?
    requires Validation(s2, h + [Entry(s, Validation(s, h, now).value)], now2).Ok?
    ensures var m2 := Validation(s2, h + [Entry(s, Validation(s, h, now).value)], now2).value;
      !m2.validCAGE && !m2.validBattery && (!s.status.cgmWarmUp ==> !m2.validSAGE)
  {
    var m := Validation(s, h, now).value;
    RepeatedWindows(s, h, now, m, s2, now2);
  }

  /** The window-level step of RepeatedChangesNotReported. */
  lemma RepeatedWindows(s: Snapshot, h: seq<Entry>, now: int, m: Marks, s2: Snapshot, now2: int)
    requires Chronological(h) && forall i :: 0 <= i < |h| ==> h[i].snap.eventDate <= s.eventDate
    requires now <= now2 && s2.status == s.status
    requires m.validCAGE == CageWindow(s, h, now).Some? && m.validBattery == BatteryWindow(s, h, now).Some?
    requires !s.status.cgmWarmUp ==> SageMark(s, h, now).Ok? && m.validSAGE == SageMark(s, h, now).value.Some?
    ensures CageWindow(s2, h + [Entry(s, m)], now2).None? && BatteryWindow(s2, h + [Entry(s, m)], now2).None?
    ensures !s.status.cgmWarmUp ==> SageMark(s2, h + [Entry(s, m)], now2) == Ok(None)
  {
    var e := Entry(s, m);
    ChangeNotReportedAgain(h, s.eventDate, s2.eventDate, CageQuery(s, now), CageQuery(s2, now2), CageFlag, e);
    ChangeNotReportedAgain(h, s.eventDate, s2.eventDate, BatteryQuery(s, now), BatteryQuery(s2, now2), BatteryFlag, e);
    if !s.status.cgmWarmUp && s.status.cgmActive && s.status.transmitterBattery > SageTransmitterBatteryAbove {
      ChangeNotReportedAgain(h, s.eventDate, s2.eventDate, SageBatteryQuery(s, now), SageBatteryQuery(s2, now2), SageFlag, e);
    }
  }

  // ---------------------------------------------------------------- witnesses

  /** Dual and square are not exclusive: one record can carry both flags. */
  lemma DualAndSquareTogether() returns (s: Snapshot, h: seq<Entry>)
    ensures ValidBolusDual(s, h) && ValidBolusSquare(s, h)
  {
    var st := NoReading.(lastBolusReference := 7, bolusingReference := 7, bolusingMinutesRemaining := 20);
    s := Snapshot(300000, 300000, 0, st);
    h := [Entry(Snapshot(0, 0, 0, st), Unmarked)];
    assert h[0] in h;
  }

  /** Every entry carries what validation derived for it from the entries before it, at its capture time. */
  ghost predicate ValidatedHistory(h: seq<Entry>)
  {
    h == [] || (ValidatedHistory(h[..|h| - 1]) && ValidatedEntry(h[|h| - 1], h[..|h| - 1]))
  }

  /** The marks of record e are Validation of its snapshot against the records before it. */
  ghost predicate ValidatedEntry(e: Entry, before: seq<Entry>)
  {
    Validation(e.snap, before, e.snap.eventDate) == Ok(e.marks)
  }

  /** A pump status for NoReading with the given temp basal running: percentage, minutes left. */
  function TempBasalStatus(percentage: int, minutes: int): Status
  {
    NoReading.(tempBasalPercentage := percentage, tempBasalMinutesRemaining := minutes)
  }

  /**
   * The temp basal is the one category a repeated status reports again: the first poll of a
   * running temp basal on an empty 24 h history is not valid, and the same status polled
   * five minutes later is.
   */
  lemma TempBasalReportedOnRepeat() returns (s: Snapshot, s2: Snapshot)
    ensures s2.status == s.status && s2.pumpDate > s.pumpDate
    ensures Validation(s, [], s.eventDate).Ok? && !Validation(s, [], s.eventDate).value.validTempBasal
    ensures var h := [Entry(s, Validation(s, [], s.eventDate).value)];
      Validation(s2, h, s2.eventDate).Ok? && Validation(s2, h, s2.eventDate).value.validTempBasal
  {
    s := TempBasalPoll(0, 30);
    s2 := TempBasalPoll(300000, 30);
    var e := Entry(s, Validation(s, [], s.eventDate).value);
    DescendingSnoc([], e, TempBasalQuery(s2.eventDate));
    assert TempBasalResults([e], s2.eventDate) == [e];
  }

  /** A poll at pump time `t` (no clock offset) of a 50% temp basal with `minutes` left. */
  function TempBasalPoll(t: int, minutes: int): Snapshot
  {
    Snapshot(t, t, 0, TempBasalStatus(50, minutes))
  }

  /** Start of TempBasalPastEndReachable: with no temp basal and no history nothing is reported. */
  lemma PastEndIdle() returns (m: Marks)
    ensures Validation(TempBasalPoll(0, 0), [], 0) == Ok(m) && !m.validTempBasal
  {
    assert TempBasalResults([], 0) == [];
    m := Validation(TempBasalPoll(0, 0), [], 0).value;
  }

  /** First step of TempBasalPastEndReachable: a 30-minute temp basal after one idle poll is reported. */
  lemma PastEndReported(eA: Entry) returns (m: Marks)
    requires eA.snap == TempBasalPoll(0, 0) && !eA.marks.validTempBasal
    ensures Validation(TempBasalPoll(300000, 30), [eA], 300000) == Ok(m) && m.validTempBasal
  {
    DescendingSnoc([], eA, TempBasalQuery(300000));
    assert TempBasalResults([eA], 300000) == [eA];
    m := Validation(TempBasalPoll(300000, 30), [eA], 300000).value;
  }

  /** Second step: a new 24 h temp basal at the same percentage stops the scan at the reported one. */
  lemma PastEndRestarted(eA: Entry, eV: Entry) returns (m: Marks)
    requires eA.snap == TempBasalPoll(0, 0) && !eA.marks.validTempBasal
    requires eV.snap == TempBasalPoll(300000, 30) && eV.marks.validTempBasal
    ensures Validation(TempBasalPoll(600000, 1440), [eA, eV], 600000) == Ok(m) && !m.validTempBasal
  {
    DescendingSnoc([], eA, TempBasalQuery(600000));
    DescendingSnoc([eA], eV, TempBasalQuery(600000));
    assert [eA] + [eV] == [eA, eV];
    var rs := TempBasalResults([eA, eV], 600000);
    assert rs == [eV, eA];
    assert ScanStop(rs, TempBasalStatus(50, 1440), 0) == 0;
    m := Validation(TempBasalPoll(600000, 1440), [eA, eV], 600000).value;
  }

  /** Third step: the next poll of that temp basal walks past it to the reported one. */
  lemma PastEndContinued(eA: Entry, eV: Entry, eU1: Entry) returns (m: Marks)
    requires eA.snap == TempBasalPoll(0, 0) && !eA.marks.validTempBasal
    requires eV.snap == TempBasalPoll(300000, 30) && eV.marks.validTempBasal
    requires eU1.snap == TempBasalPoll(600000, 1440) && !eU1.marks.validTempBasal
    ensures Validation(TempBasalPoll(900000, 1435), [eA, eV, eU1], 900000) == Ok(m) && !m.validTempBasal
  {
    DescendingSnoc([], eA, TempBasalQuery(900000));
    DescendingSnoc([eA], eV, TempBasalQuery(900000));
    DescendingSnoc([eA, eV], eU1, TempBasalQuery(900000));
    assert [eA] + [eV] == [eA, eV] && [eA, eV] + [eU1] == [eA, eV, eU1];
    var rs := TempBasalResults([eA, eV, eU1], 900000);
    assert rs == [eU1, eV, eA];
    assert ScanStop(rs, TempBasalStatus(50, 1435), 1) == 1;
    m := Validation(TempBasalPoll(900000, 1435), [eA, eV, eU1], 900000).value;
  }

  /** Last step: a day later only the two unreported polls are within 24 h, and the scan runs off the end. */
  lemma PastEndFails(eA: Entry, eV: Entry, eU1: Entry, eU2: Entry)
    requires eA.snap == TempBasalPoll(0, 0) && eV.snap == TempBasalPoll(300000, 30)
    requires eU1.snap == TempBasalPoll(600000, 1440) && !eU1.marks.validTempBasal
    requires eU2.snap == TempBasalPoll(900000, 1435) && !eU2.marks.validTempBasal
    ensures Validation(TempBasalPoll(86820000, 3), [eA, eV, eU1, eU2], 86820000) == Err(TempBasalIndexPastEnd)
  {
    var q := TempBasalQuery(86820000);
    DescendingSnoc([], eA, q);
    DescendingSnoc([eA], eV, q);
    DescendingSnoc([eA, eV], eU1, q);
    DescendingSnoc([eA, eV, eU1], eU2, q);
    assert [eA] + [eV] == [eA, eV] && [eA, eV] + [eU1] == [eA, eV, eU1] && [eA, eV, eU1] + [eU2] == [eA, eV, eU1, eU2];
    var rs := TempBasalResults([eA, eV, eU1, eU2], 86820000);
    assert rs == [eU2, eU1];
    assert ScanStop(rs, TempBasalStatus(50, 3), 1) == 2;
  }

  /** Four entries with increasing capture times are in capture order. */
  lemma InOrderFour(a: Entry, b: Entry, c: Entry, d: Entry)
    requires a.snap.eventDate < b.snap.eventDate < c.snap.eventDate < d.snap.eventDate
    ensures Chronological([a, b, c, d])
  {
    var h := [a, b, c, d];
    forall i, j | 0 <= i < j < |h| ensures h[i].snap.eventDate < h[j].snap.eventDate {
      assert i < 3;
    }
  }

  /** Four entries, each validated against the ones before it, form a validated history. */
  lemma ValidatedFour(a: Entry, b: Entry, c: Entry, d: Entry)
    requires ValidatedEntry(a, []) && ValidatedEntry(b, [a]) && ValidatedEntry(c, [a, b])
    requires ValidatedEntry(d, [a, b, c])
    ensures ValidatedHistory([a, b, c, d])
  {
    assert [a][..0] == [];
    assert ValidatedHistory([a]);
    assert [a, b][..1] == [a];
    assert ValidatedHistory([a, b]);
    assert [a, b, c][..2] == [a, b];
    assert ValidatedHistory([a, b, c]);
    assert [a, b, c, d][..3] == [a, b, c];
  }

  /**
   * A history the validator built itself can make the temp-basal scan run off the end: a
   * reported 30-minute temp basal, then two unreported polls of a new 24 h temp basal at the
   * same percentage (the scan stops at the reported one), and a day later the reported
   * record has left the 24 h window while the two unreported ones have not.
   */
  lemma TempBasalPastEndReachable() returns (h: seq<Entry>, s: Snapshot)
    ensures ValidatedHistory(h) && Chronological(h) && |h| == 4
    ensures h[1].marks.validTempBasal && !h[2].marks.validTempBasal && !h[3].marks.validTempBasal
    ensures h[2].snap.status.tempBasalMinutesRemaining > h[1].snap.status.tempBasalMinutesRemaining
    ensures Validation(s, h, s.eventDate) == Err(TempBasalIndexPastEnd)
  {
    var mA := PastEndIdle();
    var eA := Entry(TempBasalPoll(0, 0), mA);
    var mV := PastEndReported(eA);
    var eV := Entry(TempBasalPoll(300000, 30), mV);
    var mU1 := PastEndRestarted(eA, eV);
    var eU1 := Entry(TempBasalPoll(600000, 1440), mU1);
    var mU2 := PastEndContinued(eA, eV, eU1);
    var eU2 := Entry(TempBasalPoll(900000, 1435), mU2);
    PastEndFails(eA, eV, eU1, eU2);
    h := [eA, eV, eU1, eU2];
    s := TempBasalPoll(86820000, 3);
    ValidatedFour(eA, eV, eU1, eU2);
    InOrderFour(eA, eV, eU1, eU2);
  }

  /** CAGE fires when the reservoir reads higher than a recent entry (a refill), not when it drops. */
  lemma CageFiresOnRefill() returns (s: Snapshot, h: seq<Entry>, now: int)
    ensures CageWindow(s, h, now) == Some(Window(0, now))
    ensures CageWindow(s.(status := s.status.(reservoirAmount := 50)), h, now) == None
  {
    now := 300000;
    s := Snapshot(now, now, 0, NoReading.(reservoirAmount := 150));
    h := [Entry(Snapshot(0, 0, 0, NoReading.(reservoirAmount := 80)), Unmarked)];
    ChangeWindowRule(h, now, CageQuery(s, now), CageFlag, 0);
  }
}
