/**
 * Poll scheduling: the next alarm time (requestPollTime) and the sensor-radio busy check
 * (checkPollTime). The pump talks to its glucose sensor every PollPeriod; the uploader
 * tries to poll PollGracePeriod after each sensor reading and never inside the window
 * that starts PollPreGracePeriod before the expected reading and ends PollGracePeriod after it.
 * All times are milliseconds; divisions are Java's (truncating).
 */
module PollScheduler {
  import opened Wrappers
  import opened JavaArith
  import opened Records

  const PollPeriod := 300000
  const LowBatteryPollPeriod := 900000
  const PollGracePeriod := 30000
  const PollPreGracePeriod := 45000
  /** How far back the scheduler looks for a CGM reading to anchor to (24 minutes). */
  const CgmLookback := 24 * 60 * 1000
  /** A requested poll less than this far ahead of now is stale. */
  const StaleRequest := 10 * 1000
  /** Pushed onto the request when there is no CGM anchor to sync with. */
  const NoAnchorOffset := 15 * 1000
  /** Step of the miss-count ladder. */
  const MissStep := 30 * 1000
  /** checkPollTime ignores a busy window that ends less than this far ahead. */
  const BusyMargin := 5000

  /** The query of both scheduler routines: validCGM records captured in the last 24 minutes. */
  function CgmQuery(now: int): Query
  {
    FlaggedAfter(now - CgmLookback, CgmFlag)
  }

  /** The largest cgmDate among `rs`: the first result of a query sorted by cgmDate descending. */
  function NewestCgmDate(rs: seq<Entry>): (t: Option<int>)
    ensures t.None? <==> rs == []
    ensures t.Some? ==> exists e :: e in rs && e.snap.status.cgmDate == t.value
    ensures t.Some? ==> forall e :: e in rs ==> e.snap.status.cgmDate <= t.value
  {
    if rs == [] then None
    else
      assert rs == [rs[0]] + rs[1..];
      var rest := NewestCgmDate(rs[1..]);
      if rest.Some? && rest.value > rs[0].snap.status.cgmDate then rest
      else Some(rs[0].snap.status.cgmDate)
  }

  /** The CGM anchor: newest cgmDate of a validCGM record captured in the last 24 minutes. */
  function CgmAnchor(h: seq<Entry>, now: int): (t: Option<int>)
    ensures t.None? <==> forall e :: e in h ==> !(e.snap.eventDate > now - CgmLookback && e.marks.validCGM)
    ensures t.Some? ==> exists e :: e in h && e.snap.eventDate > now - CgmLookback && e.marks.validCGM
                                     && e.snap.status.cgmDate == t.value
    ensures t.Some? ==> forall e :: e in h && e.snap.eventDate > now - CgmLookback && e.marks.validCGM
                                    ==> e.snap.status.cgmDate <= t.value
  {
    var rs := Where(h, CgmQuery(now));
    WhereMembers(h, CgmQuery(now));
    assert forall e :: e in rs <==> e in h && e.snap.eventDate > now - CgmLookback && e.marks.validCGM;
    NewestCgmDate(rs)
  }

  /** `timeLastCGM` of requestPollTime: the anchor, or 0 when there is none. */
  function TimeLastCgm(h: seq<Entry>, now: int): (r: int)
    ensures r != 0 ==> exists e :: e in h && e.snap.eventDate > now - CgmLookback && e.marks.validCGM
                                   && e.snap.status.cgmDate == r
    ensures (forall e :: e in h ==> !(e.snap.eventDate > now - CgmLookback && e.marks.validCGM)) ==> r == 0
  {
    match CgmAnchor(h, now)
    case Some(t) => t
    case None => 0
  }

  /**
   * When the last sensor-synchronised poll should have happened. With an anchor it lies
   * on the anchor's grid (anchor + grace + a multiple of the period) and may be up to
   * 60 s after now: the numerator adds the grace period before dividing.
   */
  function LastActualPollTime(lastPoll: int, now: int, timeLastCgm: int): (r: int)
    ensures timeLastCgm > 0 ==> now + 2 * PollGracePeriod - PollPeriod < r < now + 2 * PollGracePeriod + PollPeriod
    ensures timeLastCgm > 0 && now - timeLastCgm + PollGracePeriod >= 0 ==> r <= now + 2 * PollGracePeriod
    ensures timeLastCgm > 0 ==> (r - timeLastCgm - PollGracePeriod) % PollPeriod == 0
    ensures timeLastCgm <= 0 ==> r == lastPoll
  {
    if timeLastCgm > 0 then
      var q := JavaDiv(now - timeLastCgm + PollGracePeriod, PollPeriod);
      assert (PollPeriod * q) % PollPeriod == 0;
      timeLastCgm + PollGracePeriod + PollPeriod * q
    else lastPoll
  }

  /** One period after the last actual poll: with an anchor, more than 60 s ahead and on the anchor's grid. */
  function NextActualPollTime(lastPoll: int, now: int, timeLastCgm: int): (r: int)
    ensures timeLastCgm > 0 ==> now + 2 * PollGracePeriod < r < now + 2 * PollGracePeriod + 2 * PollPeriod
    ensures timeLastCgm > 0 ==> (r - timeLastCgm - PollGracePeriod) % PollPeriod == 0
    ensures timeLastCgm <= 0 ==> r == lastPoll + PollPeriod
  {
    LastActualPollTime(lastPoll, now, timeLastCgm) + PollPeriod
  }

  /** The requested poll after the stale check: a request less than 10 s ahead snaps to the next actual poll. */
  function SnappedRequest(lastPoll: int, pollInterval: int, now: int, timeLastCgm: int): (r: int)
    ensures r - now >= StaleRequest || r == NextActualPollTime(lastPoll, now, timeLastCgm)
    ensures r == NextActualPollTime(lastPoll, now, timeLastCgm) || r == LastActualPollTime(lastPoll, now, timeLastCgm) + pollInterval
    ensures timeLastCgm > 0 ==> r - now >= StaleRequest
  {
    var requested := LastActualPollTime(lastPoll, now, timeLastCgm) + pollInterval;
    if requested - now < StaleRequest then NextActualPollTime(lastPoll, now, timeLastCgm) else requested
  }

  /** The clash-avoidance offset: 15 s without an anchor, else the miss-count ladder. */
  function MissOffset(timeLastCgm: int, pumpCgmNA: int): (r: int)
    ensures r >= 0
  {
    if timeLastCgm == 0 then NoAnchorOffset
    else if pumpCgmNA > 2 then JavaRem(pumpCgmNA - 2, 3) * MissStep
    else 0
  }

  /** Inside the unsafe window just before the next actual poll. */
  predicate TooCloseToActualPoll(t: int, nextActual: int)
  {
    t > nextActual - PollGracePeriod - PollPreGracePeriod && t < nextActual
  }

  /** requestPollTime: the absolute time to arm the next alarm at. */
  function RequestPollTime(lastPoll: int, pollInterval: int, now: int, pumpCgmNA: int, timeLastCgm: int): (r: int)
    ensures timeLastCgm > 0 ==> r > now
    ensures lastPoll + PollPeriod > now ==> r > now
    ensures !TooCloseToActualPoll(r, NextActualPollTime(lastPoll, now, timeLastCgm))
    ensures var raw := SnappedRequest(lastPoll, pollInterval, now, timeLastCgm) + MissOffset(timeLastCgm, pumpCgmNA);
      r >= raw && (r == raw || r == NextActualPollTime(lastPoll, now, timeLastCgm))
  {
    var nextActual := NextActualPollTime(lastPoll, now, timeLastCgm);
    var requested := SnappedRequest(lastPoll, pollInterval, now, timeLastCgm) + MissOffset(timeLastCgm, pumpCgmNA);
    if TooCloseToActualPoll(requested, nextActual) then nextActual else requested
  }

  /** The miss-count ladder: +30 s, +60 s, +0 s, repeating from the third consecutive miss. */
  lemma MissOffsetLadder(timeLastCgm: int, n: int)
    requires timeLastCgm != 0 && n > 2
    ensures n % 3 == 0 ==> MissOffset(timeLastCgm, n) == 30000
    ensures n % 3 == 1 ==> MissOffset(timeLastCgm, n) == 60000
    ensures n % 3 == 2 ==> MissOffset(timeLastCgm, n) == 0
    ensures MissOffset(timeLastCgm, n + 3) == MissOffset(timeLastCgm, n)
  {
    assert JavaRem(n - 2, 3) == (n - 2) % 3;
    assert JavaRem(n + 1, 3) == (n + 1) % 3;
  }

  /** Without an anchor exactly 15 s is added; with one and at most two misses nothing is. */
  lemma MissOffsetWithoutLadder(timeLastCgm: int, n: int)
    ensures timeLastCgm == 0 ==> MissOffset(timeLastCgm, n) == 15000
    ensures timeLastCgm != 0 && n <= 2 ==> MissOffset(timeLastCgm, n) == 0
  {
  }

  /**
   * Reading at T, poll finishing at T + 301 s, default interval, no misses: the last
   * actual poll is taken as T + 330 s (after now), so the alarm is set at T + 630 s.
   */
  lemma RequestAfterOnePeriod(t: int)
    requires t > 0
    ensures LastActualPollTime(t, t + 301000, t) == t + 330000
    ensures RequestPollTime(t, PollPeriod, t + 301000, 0, t) == t + 630000
  {
    assert JavaDiv(331000, PollPeriod) == 1;
  }

  /** Without an anchor, a lastPoll more than a period back can put the alarm in the past. */
  lemma NoAnchorStaleLastPoll(now: int)
    ensures RequestPollTime(now - 400000, PollPeriod, now, 0, 0) == now - 85000
  {
  }

  /**
   * checkPollTime: when the anchor's busy window (from 45 s before an expected reading to
   * 30 s after it) is between 5 s and 75 s ahead, the end of that window, else 0.
   */
  function CheckPollTime(now: int, anchor: Option<int>): (due: int)
    ensures anchor.None? ==> due == 0
    ensures due != 0 ==> anchor.Some? && now + BusyMargin < due < now + PollPreGracePeriod + PollGracePeriod
    ensures due != 0 ==> (due - (anchor.value + PollPeriod + PollGracePeriod)) % PollPeriod == 0
  {
    match anchor
    case None => 0
    case Some(t) =>
      var q := JavaDiv(now - 1000 - (t + PollGracePeriod), PollPeriod);
      assert (PollPeriod * q) % PollPeriod == 0;
      var expected := t + PollPeriod + PollGracePeriod + PollPeriod * q;
      if expected - now > BusyMargin && expected - now < PollPreGracePeriod + PollGracePeriod then expected else 0
  }

  /**
   * Within 31 s after the anchor reading (or before it) the truncating division rounds the
   * negative numerator up to 0, so the expected time is a full period away: never busy.
   */
  lemma JustAfterReadingNeverBusy(now: int, t: int)
    requires now - 1000 - (t + PollGracePeriod) < 0
    ensures CheckPollTime(now, Some(t)) == 0
  {
  }

  /** 10 s after a reading: Euclidean division would report busy until t + 30 s; Java's does not. */
  lemma TruncationKeepsPollOpen(t: int)
    ensures CheckPollTime(t + 10000, Some(t)) == 0
    ensures var euclid := t + PollPeriod + PollGracePeriod
                          + PollPeriod * ((t + 10000 - 1000 - (t + PollGracePeriod)) / PollPeriod);
      euclid == t + PollGracePeriod && BusyMargin < euclid - (t + 10000) < PollPreGracePeriod + PollGracePeriod
  {
    JustAfterReadingNeverBusy(t + 10000, t);
    assert (-21000) / PollPeriod == -1;
  }

  /** From 31 s after the reading on, every grid slot inside the busy range is reported. */
  lemma {:induction false} BusySlotReported(now: int, t: int, k: int)
    requires now - 1000 - (t + PollGracePeriod) >= 0
    requires var slot := t + PollPeriod + PollGracePeriod + PollPeriod * k;
      now + BusyMargin < slot < now + PollPreGracePeriod + PollGracePeriod
    ensures CheckPollTime(now, Some(t)) == t + PollPeriod + PollGracePeriod + PollPeriod * k
  {
    var n := now - 1000 - (t + PollGracePeriod);
    var q := JavaDiv(n, PollPeriod);
    assert PollPeriod * q <= n < PollPeriod * q + PollPeriod;
    assert PollPeriod * (q - k) == PollPeriod * q - PollPeriod * k;
    assert -PollPeriod < PollPeriod * (q - k) < PollPeriod;
    assert q == k;
  }

  /** The worked example of one period: at T + 301 s the window ending at T + 330 s is busy. */
  lemma BusyAfterOnePeriod(t: int)
    ensures CheckPollTime(t + 301000, Some(t)) == t + 330000
  {
    assert JavaDiv(270000, PollPeriod) == 0;
  }
}
