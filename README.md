# MedtronicCnlIntentService, modelled in Dafny

The 600 Series Android Uploader talks to a Medtronic 600-series insulin pump through a Contour Next
Link (CNL) USB stick. `MedtronicCnlIntentService` runs one poll each time its alarm fires:

1. It checks that the pump is not about to talk to its glucose sensor (`checkPollTime`).
2. It picks a poll interval. A low pump battery in the last 6 hours gives a longer interval.
3. It opens the USB device and runs the CNL exchange inside a Realm transaction.
4. It validates the new pump status record against the stored history (`validatePumpRecord`)
   and commits it.
5. It updates the health counters in the DataStore.
6. It deletes records older than 48 hours (`RemoveOutdatedRecords`).
7. It arms the next alarm (`requestPollTime`).
8. It shows a warning for each counter that reached its threshold (`sendStatusWarnings`).

The model has one module per concern:

- `java_arith.dfy` (`JavaArith`) gives Java's operators that differ from Dafny's:
  - the truncating `/` and `%`;
  - the `(short)` cast;
  - `Math.abs`.
- `records.dfy` (`Records`) holds the pump status record as a value (`Snapshot`, `Marks`,
  `Entry`). It also gives every Realm query the service builds as a `Query` with a meaning
  (`Matches`), run over the history as a sequence:
  - `Where` models `findAll` or ascending `findAllSorted`;
  - `Descending` models a descending `findAllSorted`.

  Insertion order is capture order (`Chronological`), so these are the sorted results.
- `poll_scheduler.dfy` (`PollScheduler`) holds `requestPollTime` and `checkPollTime` as
  functions of the history, the clock and the counters.
- `validator.dfy` (`TelemetryValidator`) states `validatePumpRecord` as one specification
  function per category (`Validation` assembles them), plus lemmas that give each rule in
  terms of the stored records. The temp-basal scan loop is the method `ScanTempBasal`.
- `counters.dfy` (`HealthCounters`) holds the DataStore counters and the warnings
  `sendStatusWarnings` derives from them.
- `exchange.dfy` (`PollCycle`) describes what one poll leaves behind:
  - the device as a script saying which call throws and what the reads return;
  - the Java exception handlers as the functions `InnerCatch`, `SessionStep` and
    `AfterExchange`;
  - the whole of `onHandleIntent` as `HandleIntent`.
- `pump_status_event.dfy` (`PumpStatusEvents`) is the mutable `PumpStatusEvent` object
  the service creates for a poll.
- `service.dfy` (`IntentService`) is the class `MedtronicCnlIntentService`. Its fields are
  the state kept across polls:
  - the counters, which live in the DataStore singleton and outlive any instance;
  - the history, which lives in the Realm store and outlives any instance;
  - the last pump clock offset, the instance's own field, which starts at 0 in a new instance.

  The constructor therefore takes the counters and the records as they are.

  Its imperative methods mirror the Java method by method. Each is proved against the
  specification function of its part.

Time is given as two values:

- `started` is `timePollStarted`. It is also the clock of `checkPollTime` and of the
  low-battery lookup.
- `now` is the uploader clock after the device exchange. The new record's event date, the
  pump offset, the validator's windows, the purge and `requestPollTime` all use it.

Some behaviour of the code is worth knowing, because a reader of its comments would expect
otherwise. The model follows the code here, and each point is proved:

- A reading at T and a poll finishing at T + 301 s give a last actual poll at T + 330 s, after
  `now`, and the next alarm at T + 630 s (`PollScheduler.RequestAfterOnePeriod`). A poll
  starting at T + 301 s is told to wait until T + 330 s (`PollScheduler.BusyAfterOnePeriod`).
- The next alarm is in the future only with a CGM anchor or a recent `lastPoll`. Without an
  anchor, a stale `lastPoll` can put it in the past (`PollScheduler.NoAnchorStaleLastPoll`).
- CAGE fires when the reservoir reads HIGHER than a record of the last 12 hours, that is after
  a refill (`TelemetryValidator.CageFiresOnRefill`).
- The comms-error warning does not clear its counter. It repeats on every poll until a read
  succeeds (`HealthCounters.CommsWarningRepeats`).
- The dual-bolus and square-bolus flags are decided independently, so one record can carry
  both (`TelemetryValidator.DualAndSquareTogether`).
- The temp-basal scan can run past the end of its results, and `get(index)` then throws.
  This happens on a history the validator built itself
  (`TelemetryValidator.TempBasalPastEndReachable`):
  - a reported 30-minute temp basal;
  - two unreported polls of a new 24-hour temp basal at the same percentage;
  - a day later, the reported record has left the 24-hour window and the two unreported
    ones have not.

  A warm-up with no record in the last 12 minutes makes `first()` throw. Both are modelled as `ValidateError`. In
  `onHandleIntent` such an exception rolls back the transaction, still arms the alarm and
  shows the warnings, and then escapes (`crashed`). The exception is lost only if the
  close-down in the inner `finally` throws a checked exception over it.
- A new temp basal at the same percentage and rate as the one reported just before it is not
  reported. The scan stops at the shorter reported record, which counts as the same temp basal
  (`TelemetryValidator.TempBasalPastEndReachable`, its third record).
- The temp basal is the one category a repeated pump status reports again. On an empty 24-hour
  history the first poll of a running temp basal is not valid. The same status polled five
  minutes later is (`TelemetryValidator.TempBasalReportedOnRepeat`). SGV, bolus, finger BG,
  CAGE, BATTERY and transmitter-battery SAGE are not reported twice
  (`TelemetryValidator.RepeatedStatusNotReportedAgain`, `TelemetryValidator.RepeatedChangesNotReported`).
- `(short)` wraps a square-bolus duration of 32768 minutes or more
  (`TelemetryValidator.BolusDurationWraps`).

## Model

Source paths are relative to the repository root.

| member | source | states |
|---|---|---|
| JavaArith.JavaDiv | app/src/main/java/info/nightscout/android/medtronic/service/MedtronicCnlIntentService.java:682 | Java long division by a positive divisor rounds toward zero: b*q <= a < b*q + b for a >= 0, b*q - b < a <= b*q for a < 0 |
| JavaArith.JavaRem | app/src/main/java/info/nightscout/android/medtronic/service/MedtronicCnlIntentService.java:696 | Java `%`: a == b * (a / b) + r with the truncating quotient, and r takes the sign of a with magnitude below b |
| JavaArith.ToShort | app/src/main/java/info/nightscout/android/medtronic/service/MedtronicCnlIntentService.java:542 | the `(short)` cast: a value in -32768..32767, congruent to the input modulo 65536, identity on that range |
| JavaArith.Abs | app/src/main/java/info/nightscout/android/medtronic/service/MedtronicCnlIntentService.java:425 | `Math.abs`: non-negative and equal to x or -x |
| Records.OldestFromIsFirst | app/src/main/java/info/nightscout/android/medtronic/service/MedtronicCnlIntentService.java:527-539 | no record before the one found passes the query; with none found, no record after the start passes |
| Records.NewestBeforeIsLast | app/src/main/java/info/nightscout/android/medtronic/service/MedtronicCnlIntentService.java:548-551 | no record between the one found and the bound passes the query; with none found, none before the bound does |
| Records.OldestFrom | app/src/main/java/info/nightscout/android/medtronic/service/MedtronicCnlIntentService.java:527-539 | a position found is at or after the start and holds a record that passes the query |
| Records.NewestBefore | app/src/main/java/info/nightscout/android/medtronic/service/MedtronicCnlIntentService.java:548-551 | a position found is before the bound and holds a record that passes the query |
| Records.DescendingSnoc | app/src/main/java/info/nightscout/android/medtronic/service/MedtronicCnlIntentService.java:548-551 | a descending query over a history that gained a record starts with that record when it passes, followed by the earlier results |
| Records.WhereMembers | app/src/main/java/info/nightscout/android/medtronic/service/MedtronicCnlIntentService.java:489-493 | a filter returns exactly the stored records that pass it |
| Records.DescendingMembers | app/src/main/java/info/nightscout/android/medtronic/service/MedtronicCnlIntentService.java:548-551 | a descending query returns exactly the stored records that pass it |
| Records.WhereFirst | app/src/main/java/info/nightscout/android/medtronic/service/MedtronicCnlIntentService.java:527-539 | `first()` of an ascending query is a stored record that passes, and no earlier record passes |
| Records.DescendingFirst | app/src/main/java/info/nightscout/android/medtronic/service/MedtronicCnlIntentService.java:165-170 | `first()` of a descending query is a stored record that passes, and no later record passes |
| Records.PrependNewest | app/src/main/java/info/nightscout/android/medtronic/service/MedtronicCnlIntentService.java:548-551 | a record newer than a newest-first list can go in front of it |
| Records.DescendingIsSorted | app/src/main/java/info/nightscout/android/medtronic/service/MedtronicCnlIntentService.java:548-551 | on a chronological history a descending query is sorted by eventDate, newest first |
| Records.WhereKeepsChronological | app/src/main/java/info/nightscout/android/medtronic/service/MedtronicCnlIntentService.java:454-468 | removing records keeps the rest in capture order |
| Records.WhereAll | app/src/main/java/info/nightscout/android/medtronic/service/MedtronicCnlIntentService.java:460 | a filter that every record passes leaves the history as it is (nothing to delete) |
| Records.WhereOldest | app/src/main/java/info/nightscout/android/medtronic/service/MedtronicCnlIntentService.java:494 | `size() == 0` exactly when no record passes; otherwise the first result is the oldest match |
| Records.DescendingNewest | app/src/main/java/info/nightscout/android/medtronic/service/MedtronicCnlIntentService.java:625-633 | an empty descending result means no match; otherwise its first result is the newest match |
| Records.AnyRule | app/src/main/java/info/nightscout/android/medtronic/service/MedtronicCnlIntentService.java:494 | a query has a result exactly when some stored record passes it |
| PollScheduler.NewestCgmDate | app/src/main/java/info/nightscout/android/medtronic/service/MedtronicCnlIntentService.java:673-677 | `first()` of results sorted by cgmDate descending: the largest cgmDate, and none for no results |
| PollScheduler.CgmAnchor | app/src/main/java/info/nightscout/android/medtronic/service/MedtronicCnlIntentService.java:670-677 | the anchor is the largest cgmDate among validCGM records of the last 24 minutes; there is none exactly when no such record exists |
| PollScheduler.TimeLastCgm | app/src/main/java/info/nightscout/android/medtronic/service/MedtronicCnlIntentService.java:670-677 | a non-zero timeLastCGM is the cgmDate of a validCGM record captured in the last 24 minutes; with no such record it is 0 |
| PollScheduler.LastActualPollTime | app/src/main/java/info/nightscout/android/medtronic/service/MedtronicCnlIntentService.java:680-682 | with an anchor, a time on the anchor + 30 s grid strictly within one period of now + 60 s; at most 60 s after now when the anchor reading is no more than 30 s ahead of now; without an anchor, lastPoll |
| PollScheduler.NextActualPollTime | app/src/main/java/info/nightscout/android/medtronic/service/MedtronicCnlIntentService.java:683 | with an anchor, more than 60 s and less than two periods plus 60 s after now, on the anchor + 30 s grid; without one, a period after lastPoll |
| PollScheduler.SnappedRequest | app/src/main/java/info/nightscout/android/medtronic/service/MedtronicCnlIntentService.java:684-688 | a request less than 10 s ahead becomes the next actual poll; otherwise it is the last actual poll plus the interval; with an anchor the result is always at least 10 s ahead |
| PollScheduler.MissOffset | app/src/main/java/info/nightscout/android/medtronic/service/MedtronicCnlIntentService.java:693-696 | the clash-avoidance offset is never negative |
| PollScheduler.RequestPollTime | app/src/main/java/info/nightscout/android/medtronic/service/MedtronicCnlIntentService.java:666-705 | the next alarm is after now when an anchor exists or lastPoll is less than a period back; it is never inside the 75 s before the next actual poll; it is the offsetting request or is pushed to the next actual poll |
| PollScheduler.MissOffsetLadder | app/src/main/java/info/nightscout/android/medtronic/service/MedtronicCnlIntentService.java:695-696 | from the third miss on the offset steps +30 s, +60 s, +0 s and repeats every three misses |
| PollScheduler.MissOffsetWithoutLadder | app/src/main/java/info/nightscout/android/medtronic/service/MedtronicCnlIntentService.java:693-696 | 15 s without an anchor; nothing with an anchor and at most two misses |
| PollScheduler.RequestAfterOnePeriod | app/src/main/java/info/nightscout/android/medtronic/service/MedtronicCnlIntentService.java:679-704 | reading at T, poll at T + 301 s: the last actual poll is T + 330 s and the alarm T + 630 s |
| PollScheduler.NoAnchorStaleLastPoll | app/src/main/java/info/nightscout/android/medtronic/service/MedtronicCnlIntentService.java:680-704 | without an anchor and with lastPoll 400 s back, the alarm is 85 s in the past |
| PollScheduler.CheckPollTime | app/src/main/java/info/nightscout/android/medtronic/service/MedtronicCnlIntentService.java:707-725 | busy only with an anchor; a busy end is between 5 s and 75 s ahead and on the anchor + 330 s grid |
| PollScheduler.JustAfterReadingNeverBusy | app/src/main/java/info/nightscout/android/medtronic/service/MedtronicCnlIntentService.java:718 | up to 31 s after the reading, truncation rounds the slot up a whole period: never busy |
| PollScheduler.TruncationKeepsPollOpen | app/src/main/java/info/nightscout/android/medtronic/service/MedtronicCnlIntentService.java:718-721 | 10 s after a reading the truncating division leaves the poll open where floor division would report it busy |
| PollScheduler.BusySlotReported | app/src/main/java/info/nightscout/android/medtronic/service/MedtronicCnlIntentService.java:718-721 | from 31 s after the reading on, any grid slot 5 s to 75 s ahead is the one reported |
| PollScheduler.BusyAfterOnePeriod | app/src/main/java/info/nightscout/android/medtronic/service/MedtronicCnlIntentService.java:158-163 | a poll at T + 301 s after a reading at T waits until T + 330 s |
| TelemetryValidator.SgvRule | app/src/main/java/info/nightscout/android/medtronic/service/MedtronicCnlIntentService.java:484-497 | a new SGV needs an active, warmed-up sensor, sgv > 0, a reading at most 315 s old by the pump clock and no stored validSGV record of the same reading; an older reading is flagged old instead, never both |
| TelemetryValidator.OldSgv | app/src/main/java/info/nightscout/android/medtronic/service/MedtronicCnlIntentService.java:485-487 | an SGV is old exactly when the sensor is active and its reading is more than 315 s old by the pump clock |
| TelemetryValidator.ValidSgv | app/src/main/java/info/nightscout/android/medtronic/service/MedtronicCnlIntentService.java:484-497 | a new SGV has an active, warmed-up sensor, a positive value, a reading that is not old, and no stored record that already reported it |
| TelemetryValidator.BglRule | app/src/main/java/info/nightscout/android/medtronic/service/MedtronicCnlIntentService.java:499-509 | a finger BG is new iff non-zero and no record of the last 20 minutes carries the same value |
| TelemetryValidator.ValidBgl | app/src/main/java/info/nightscout/android/medtronic/service/MedtronicCnlIntentService.java:499-509 | a new finger BG is non-zero, and a non-zero value is new when no record of the last 20 minutes is stored |
| TelemetryValidator.BolusRule | app/src/main/java/info/nightscout/android/medtronic/service/MedtronicCnlIntentService.java:511-536 | a bolus is new iff no stored validBolus record has its start time and reference; dual iff new, same reference delivering with > 10 min left; square iff new and some stored record delivered it with > 10 min left |
| TelemetryValidator.ValidBolus | app/src/main/java/info/nightscout/android/medtronic/service/MedtronicCnlIntentService.java:511-520 | a new bolus differs in start time or reference from every stored bolus already reported, and with none reported every bolus is new |
| TelemetryValidator.ValidBolusDual | app/src/main/java/info/nightscout/android/medtronic/service/MedtronicCnlIntentService.java:519-525 | a dual bolus is a new bolus still delivering its own extended part with more than 10 minutes left |
| TelemetryValidator.ValidBolusSquare | app/src/main/java/info/nightscout/android/medtronic/service/MedtronicCnlIntentService.java:527-536 | a square bolus is a new bolus that some stored record saw delivering with more than 10 minutes left |
| TelemetryValidator.SquareDurationMs | app/src/main/java/info/nightscout/android/medtronic/service/MedtronicCnlIntentService.java:537-541 | the square duration never runs past pump time, and is the predicted one when that does not |
| TelemetryValidator.BolusDuration | app/src/main/java/info/nightscout/android/medtronic/service/MedtronicCnlIntentService.java:535-543 | lastBolusDuration fits a short and is 0 when the bolus is not square |
| TelemetryValidator.BolusDurationFits | app/src/main/java/info/nightscout/android/medtronic/service/MedtronicCnlIntentService.java:537-542 | a duration of 0 to 32767 minutes is stored as is, and start + duration is not after pump time |
| TelemetryValidator.BolusDurationWraps | app/src/main/java/info/nightscout/android/medtronic/service/MedtronicCnlIntentService.java:542 | 32768 minutes are stored as -32768 |
| TelemetryValidator.SquareDurationFromOldest | app/src/main/java/info/nightscout/android/medtronic/service/MedtronicCnlIntentService.java:527-542 | the duration is measured from the oldest stored record delivering this bolus |
| TelemetryValidator.ScanStop | app/src/main/java/info/nightscout/android/medtronic/service/MedtronicCnlIntentService.java:556-563 | the scan stops at the first record that ends the chain (shorter remaining time, other percentage or rate, or already reported), or at the end |
| TelemetryValidator.ScanTempBasal | app/src/main/java/info/nightscout/android/medtronic/service/MedtronicCnlIntentService.java:553-564 | the loop's final index is where the chain ends |
| TelemetryValidator.TempBasalChainRule | app/src/main/java/info/nightscout/android/medtronic/service/MedtronicCnlIntentService.java:552-571 | a running temp basal is new, dated at the end of its chain, unless that record is the same temp basal already reported |
| TelemetryValidator.TempBasalPastEnd | app/src/main/java/info/nightscout/android/medtronic/service/MedtronicCnlIntentService.java:554-566 | validation throws exactly when a running temp basal has two or more records of the last 24 h and none ends the chain |
| TelemetryValidator.TempBasalSingleEntry | app/src/main/java/info/nightscout/android/medtronic/service/MedtronicCnlIntentService.java:554-571 | with no record nothing is reported; with one, that record decides without a scan |
| TelemetryValidator.TempBasalStopRule | app/src/main/java/info/nightscout/android/medtronic/service/MedtronicCnlIntentService.java:572-579 | a stopped temp basal is reported, dated at the newest record, iff pump time is more than 60 s before the end that record predicted |
| TelemetryValidator.TempBasalMark | app/src/main/java/info/nightscout/android/medtronic/service/MedtronicCnlIntentService.java:548-579 | the temp-basal check throws only for a running temp basal with two or more records of the last 24 h; with no such record it reports nothing; a reported tempBasalAfterDate is the capture time of a stored record of the last 24 h |
| TelemetryValidator.ChangeWindow | app/src/main/java/info/nightscout/android/medtronic/service/MedtronicCnlIntentService.java:619-636 | a change window runs from a stored lower record to the new record, with no flagged record from its start on; none without a lower record |
| TelemetryValidator.ChangeWindowRule | app/src/main/java/info/nightscout/android/medtronic/service/MedtronicCnlIntentService.java:619-655 | CAGE, BATTERY and battery SAGE: reported iff no record captured at or after the newest lower record is already flagged |
| TelemetryValidator.CageWindow | app/src/main/java/info/nightscout/android/medtronic/service/MedtronicCnlIntentService.java:620-636 | a CAGE window ends at the new record and starts at a record of the last 12 h with less insulin in the reservoir, after every record already flagged validCAGE |
| TelemetryValidator.BatteryWindow | app/src/main/java/info/nightscout/android/medtronic/service/MedtronicCnlIntentService.java:639-655 | a BATTERY window ends at the new record and starts at a record of the last 12 h with a lower pump battery, after every record already flagged validBATTERY |
| TelemetryValidator.SageMark | app/src/main/java/info/nightscout/android/medtronic/service/MedtronicCnlIntentService.java:582-617 | the SAGE check throws only in warm-up; without an active sensor and outside warm-up it reports nothing; a window ends at the new record and starts at a stored record |
| TelemetryValidator.SageWarmUpRule | app/src/main/java/info/nightscout/android/medtronic/service/MedtronicCnlIntentService.java:582-596 | in warm-up SAGE is new iff no validSAGE record of the last 130 min; it starts at the newest record of the last 12 min, and validation throws when there is none |
| TelemetryValidator.Validation | app/src/main/java/info/nightscout/android/medtronic/service/MedtronicCnlIntentService.java:476-657 | validation throws exactly when the temp-basal check or the SAGE check throws; otherwise every flag (validCGM, validSGV, oldSgvWhenNewExpected, validBGL, validBolus, validBolusDual, validBolusSquare, validTempBasal, validSAGE, validCAGE, validBattery) and the bolus duration is its category's rule, each boundary date is set exactly when its flag is, each change window ends at the new record, a dual or square bolus is a new bolus, a new SGV has an active sensor and is not old, and only a square bolus has a duration |
| TelemetryValidator.AppendKeepsReportsUnique | app/src/main/java/info/nightscout/android/medtronic/service/MedtronicCnlIntentService.java:489-517 | a record whose SGV and bolus are new keeps every SGV and bolus reported at most once |
| TelemetryValidator.ValidationKeepsReportsUnique | app/src/main/java/info/nightscout/android/medtronic/service/MedtronicCnlIntentService.java:284-286 | committing a validated record keeps each SGV reading and each bolus reported at most once |
| TelemetryValidator.RepeatedStatusNotReportedAgain | app/src/main/java/info/nightscout/android/medtronic/service/MedtronicCnlIntentService.java:484-520 | the same pump status polled again does not report its SGV or bolus again, nor its finger BG within 20 minutes |
| TelemetryValidator.RepeatedFlags | app/src/main/java/info/nightscout/android/medtronic/service/MedtronicCnlIntentService.java:484-520 | the flag-level step: the repeat's SGV, bolus and finger BG find the earlier record |
| TelemetryValidator.ChangeNotReportedAgain | app/src/main/java/info/nightscout/android/medtronic/service/MedtronicCnlIntentService.java:599-655 | once the record after the history took a change window, a later record with the same reading and a narrower lower query finds the change already reported |
| TelemetryValidator.RepeatedChangesNotReported | app/src/main/java/info/nightscout/android/medtronic/service/MedtronicCnlIntentService.java:597-655 | the same pump status polled again later, on a history in capture order, reports no second CAGE, no second BATTERY and, outside warm-up, no second SAGE |
| TelemetryValidator.RepeatedWindows | app/src/main/java/info/nightscout/android/medtronic/service/MedtronicCnlIntentService.java:597-655 | the window-level step: the repeat finds each change window of the earlier record already flagged |
| TelemetryValidator.DualAndSquareTogether | app/src/main/java/info/nightscout/android/medtronic/service/MedtronicCnlIntentService.java:519-536 | one record can be both dual and square |
| TelemetryValidator.TempBasalPastEndReachable | app/src/main/java/info/nightscout/android/medtronic/service/MedtronicCnlIntentService.java:548-579 | on a four-record history the validator built itself (a reported 30-minute temp basal, then two unreported polls of a new 24 h temp basal at the same percentage), a poll a day later makes validation throw |
| TelemetryValidator.PastEndIdle | app/src/main/java/info/nightscout/android/medtronic/service/MedtronicCnlIntentService.java:572-579 | with no temp basal and no record nothing is reported |
| TelemetryValidator.PastEndReported | app/src/main/java/info/nightscout/android/medtronic/service/MedtronicCnlIntentService.java:564-570 | a running temp basal after one record without one is reported |
| TelemetryValidator.PastEndRestarted | app/src/main/java/info/nightscout/android/medtronic/service/MedtronicCnlIntentService.java:552-570 | a 24 h temp basal at the same percentage right after a reported 30-minute one stops the scan at the reported one and is not reported |
| TelemetryValidator.PastEndContinued | app/src/main/java/info/nightscout/android/medtronic/service/MedtronicCnlIntentService.java:552-570 | the next poll of that temp basal walks past it to the reported one and is not reported |
| TelemetryValidator.PastEndFails | app/src/main/java/info/nightscout/android/medtronic/service/MedtronicCnlIntentService.java:547-566 | a day later only the two unreported polls are in the 24 h window, and validation throws |
| TelemetryValidator.ValidatedFour | app/src/main/java/info/nightscout/android/medtronic/service/MedtronicCnlIntentService.java:284-286 | four records, each validated against the ones before it, form a history this validator built |
| TelemetryValidator.InOrderFour | app/src/main/java/info/nightscout/android/medtronic/service/MedtronicCnlIntentService.java:284-286 | four records committed at increasing times are in capture order |
| TelemetryValidator.TempBasalReportedOnRepeat | app/src/main/java/info/nightscout/android/medtronic/service/MedtronicCnlIntentService.java:547-570 | the first poll of a temp basal on an empty 24 h history is not reported, and the same status polled 5 min later is |
| TelemetryValidator.CageFiresOnRefill | app/src/main/java/info/nightscout/android/medtronic/service/MedtronicCnlIntentService.java:620-635 | CAGE fires when the reservoir reads higher than a recent record, and not when it reads lower |
| HealthCounters.Dec | app/src/main/java/info/nightscout/android/medtronic/service/MedtronicCnlIntentService.java:255-259 | a decrement lowers a positive counter by one and leaves zero at zero |
| HealthCounters.WarningsDue | app/src/main/java/info/nightscout/android/medtronic/service/MedtronicCnlIntentService.java:423-452 | each warning is shown iff its counter reached its threshold (clock: 8 after counting this poll; comms: 4; lost sensor: 8; connect: 8, or 16 when polling is reduced; signal: 8); none twice |
| HealthCounters.AfterWarnings | app/src/main/java/info/nightscout/android/medtronic/service/MedtronicCnlIntentService.java:423-452 | afterwards the clock, lost-sensor, connect and signal counters are below their thresholds; the lost-sensor, connect and signal counters are not above what they were and the clock counter is not above this poll's count (one more than before when the pump clock is out of tolerance); the others are unchanged |
| HealthCounters.WarningClearsItsCounter | app/src/main/java/info/nightscout/android/medtronic/service/MedtronicCnlIntentService.java:427-451 | a shown warning clears its counter, one not shown leaves it (commsError excepted) |
| HealthCounters.CommsWarningRepeats | app/src/main/java/info/nightscout/android/medtronic/service/MedtronicCnlIntentService.java:433-436 | a shown comms warning is shown again on the next call |
| HealthCounters.ClockWarningEveryEighthPoll | app/src/main/java/info/nightscout/android/medtronic/service/MedtronicCnlIntentService.java:425-432 | with the pump clock persistently more than 10 min off, the counter runs n mod 8 and the warning shows on every eighth poll only |
| HealthCounters.ClockInToleranceNeverWarns | app/src/main/java/info/nightscout/android/medtronic/service/MedtronicCnlIntentService.java:425-428 | with the pump clock within 10 min the clock counter never moves and never warns |
| PollCycle.AwayInterval | app/src/main/java/info/nightscout/android/medtronic/service/MedtronicCnlIntentService.java:246 | the pump-away interval is the configured one, or its truncating half when halving is on (so between half of it and half of it plus one) |
| PollCycle.OldSgvInterval | app/src/main/java/info/nightscout/android/medtronic/service/MedtronicCnlIntentService.java:311 | after an old SGV the interval is 300 s, or 150 s with halving |
| PollCycle.BaseInterval | app/src/main/java/info/nightscout/android/medtronic/service/MedtronicCnlIntentService.java:165-178 | the interval before the exchange is the configured or the low-battery one |
| PollCycle.BaseIntervalRule | app/src/main/java/info/nightscout/android/medtronic/service/MedtronicCnlIntentService.java:165-178 | the newest record decides when it is from the last 6 h (battery 1..25 gives the low-battery interval); with no such record the configured interval holds |
| PollCycle.NewSnapshot | app/src/main/java/info/nightscout/android/medtronic/service/MedtronicCnlIntentService.java:276-281 | the new record is captured now, and its pump date is its event date plus the offset |
| PollCycle.InnerCatch | app/src/main/java/info/nightscout/android/medtronic/service/MedtronicCnlIntentService.java:328-340 | the inner catch clauses keep the history and the pump offset; an unexpected message counts a comms error and retries in 60 s, a timeout counts one and retries in 90 s, the hashing error changes nothing, everything else escapes unchanged |
| PollCycle.AfterCommit | app/src/main/java/info/nightscout/android/medtronic/service/MedtronicCnlIntentService.java:285-320 | the commit appends the validated record, counts a success, clears the comms errors and keeps the pump offset |
| PollCycle.ReadStep | app/src/main/java/info/nightscout/android/medtronic/service/MedtronicCnlIntentService.java:254-326 | the reads keep the crash flag; the pump offset is set once the pump time is read; the history gains the validated record only after a successful read that validation accepts; a runtime exception escapes exactly when validation throws |
| PollCycle.SessionStep | app/src/main/java/info/nightscout/android/medtronic/service/MedtronicCnlIntentService.java:207-347 | the inner try keeps the crash flag and adds at most the validated record of a successful read; a runtime exception escapes only from validation; no channel or a too weak signal sets the pump-away interval and commits nothing |
| PollCycle.AfterExchange | app/src/main/java/info/nightscout/android/medtronic/service/MedtronicCnlIntentService.java:186-373 | a crash is never undone, and a new one comes only from a validation error; the pump offset changes only after a channel is found; a failed setup counts one comms error and changes nothing else |
| PollCycle.ExchangeIsAtomic | app/src/main/java/info/nightscout/android/medtronic/service/MedtronicCnlIntentService.java:186-373 | the history gains exactly the validated record of a successful read or nothing, and a successful read that validation accepts always commits; a commit counts a success and clears comms errors (a failing close-down counts one again); no commit leaves commsSuccess alone and commsError not lower |
| PollCycle.SessionIsAtomic | app/src/main/java/info/nightscout/android/medtronic/service/MedtronicCnlIntentService.java:207-347 | the inner try commits the validated record with nothing escaping, or leaves the history, success count and comms errors as they were or higher; a successful read that validation accepts always commits with nothing escaping |
| PollCycle.OuterCatchKeeps | app/src/main/java/info/nightscout/android/medtronic/service/MedtronicCnlIntentService.java:341-374 | the outer catch clauses and the close-down change only the comms error count and the crash flag; commsError goes up by exactly one when a checked exception escapes the inner try or the close-down fails, and the service crashes exactly when a runtime exception escapes and the close-down does not replace it |
| PollCycle.CrashOnlyOnValidatorError | app/src/main/java/info/nightscout/android/medtronic/service/MedtronicCnlIntentService.java:284-368 | the poll crashes iff the read succeeds, validation throws and the close-down does not throw over it |
| PollCycle.PumpCgmNACounts | app/src/main/java/info/nightscout/android/medtronic/service/MedtronicCnlIntentService.java:291-320 | the poll-clash counter is cleared by a committed CGM reading, raised by a committed reading without CGM, otherwise unchanged |
| PollCycle.PollIntervalChoices | app/src/main/java/info/nightscout/android/medtronic/service/MedtronicCnlIntentService.java:241-335 | the next interval is exactly: 60 s after an unexpected message and 90 s after a timeout anywhere in the inner try (the pump time read and the status read included); the pump-away interval with no channel or a signal below 5%; the old-SGV interval after a committed SGV reading flagged old; otherwise the base interval |
| PollCycle.LinkCountersPerOutcome | app/src/main/java/info/nightscout/android/medtronic/service/MedtronicCnlIntentService.java:241-259 | connect and signal counters per outcome: unchanged when setup or the session fails; no channel counts a connect error; a weak signal counts both; otherwise the connect count goes down and the signal count goes up below 20% and down from 20% |
| PollCycle.SensorCountersPerOutcome | app/src/main/java/info/nightscout/android/medtronic/service/MedtronicCnlIntentService.java:291-320 | commsSgvSuccess goes up by one exactly on a committed SGV reading; pumpLostSensorError is unchanged without a commit, cleared by a CGM reading, and otherwise goes up when an SGV was ever delivered |
| PollCycle.PumpOffsetFollowsPumpClock | app/src/main/java/info/nightscout/android/medtronic/service/MedtronicCnlIntentService.java:276-277 | the pump offset changes once the pump time is read, and only then |
| PollCycle.ExchangeKeepsChronological | app/src/main/java/info/nightscout/android/medtronic/service/MedtronicCnlIntentService.java:284-286 | committing a record captured now keeps the history in capture order |
| PollCycle.PurgeKeepsRecent | app/src/main/java/info/nightscout/android/medtronic/service/MedtronicCnlIntentService.java:454-468 | the purge keeps exactly the records of the last 48 hours, in capture order |
| PollCycle.HandleIntent | app/src/main/java/info/nightscout/android/medtronic/service/MedtronicCnlIntentService.java:152-391 | a poll crashes only when the device opened, the read succeeded, validation threw and the close-down did not throw over it; a device that does not open changes nothing and shows no warning |
| PollCycle.AlarmArmedUnlessDeviceFails | app/src/main/java/info/nightscout/android/medtronic/service/MedtronicCnlIntentService.java:158-182 | a poll arms no alarm iff it is not busy and the device does not open; a busy poll re-arms 5 s to 75 s after it started and changes nothing |
| PollCycle.NextAlarmAvoidsSensorWindow | app/src/main/java/info/nightscout/android/medtronic/service/MedtronicCnlIntentService.java:375-378 | after an exchange the alarm is armed outside the 75 s before the next actual poll, and after now when a CGM anchor exists |
| PollCycle.CountersBelowThresholdsAfterPoll | app/src/main/java/info/nightscout/android/medtronic/service/MedtronicCnlIntentService.java:385 | after an exchange every cleared counter is below its threshold, and the comms warning shows iff four or more comms errors are counted |
| PollCycle.PollKeepsHistory | app/src/main/java/info/nightscout/android/medtronic/service/MedtronicCnlIntentService.java:186-375 | a poll keeps the records in capture order, adds only this poll's validated record, and after an exchange keeps only records of the last 48 hours |
| PumpStatusEvents.PumpStatusEvent.constructor | app/src/main/java/info/nightscout/android/medtronic/service/MedtronicCnlIntentService.java:268 | a new record has no reading and no derived field set |
| IntentService.MedtronicCnlIntentService.constructor | app/src/main/java/info/nightscout/android/medtronic/service/MedtronicCnlIntentService.java:84-93 | a new instance takes the DataStore counters and the Realm records as they are, and its own pump offset starts at 0 |
| IntentService.MedtronicCnlIntentService.OnHandleIntent | app/src/main/java/info/nightscout/android/medtronic/service/MedtronicCnlIntentService.java:152-391 | the new counters, history, pump offset, alarm, warnings and crash are those of `HandleIntent`; a chronological history stays chronological |
| IntentService.MedtronicCnlIntentService.RunExchange | app/src/main/java/info/nightscout/android/medtronic/service/MedtronicCnlIntentService.java:186-367 | the exchange and its outer catch clauses leave what `AfterExchange` says |
| IntentService.MedtronicCnlIntentService.InnerTry | app/src/main/java/info/nightscout/android/medtronic/service/MedtronicCnlIntentService.java:207-347 | the inner try and its catch clauses leave what `SessionStep` says |
| IntentService.MedtronicCnlIntentService.ReadPump | app/src/main/java/info/nightscout/android/medtronic/service/MedtronicCnlIntentService.java:254-326 | the reads, validation and commit leave what `ReadStep` says |
| IntentService.MedtronicCnlIntentService.RecordPoll | app/src/main/java/info/nightscout/android/medtronic/service/MedtronicCnlIntentService.java:268-286 | the new record is validated; a throw escapes with nothing committed, otherwise the validated record is committed |
| IntentService.MedtronicCnlIntentService.Commit | app/src/main/java/info/nightscout/android/medtronic/service/MedtronicCnlIntentService.java:285-320 | the commit and the counter updates after it are those of `AfterCommit` |
| IntentService.MedtronicCnlIntentService.CatchInner | app/src/main/java/info/nightscout/android/medtronic/service/MedtronicCnlIntentService.java:328-340 | the inner catch clauses as `InnerCatch`: two retry intervals, the hashing error ignored, everything else escapes |
| IntentService.MedtronicCnlIntentService.RemoveOutdatedRecords | app/src/main/java/info/nightscout/android/medtronic/service/MedtronicCnlIntentService.java:454-470 | the records left are exactly those of the last 48 hours |
| IntentService.MedtronicCnlIntentService.SendStatusWarnings | app/src/main/java/info/nightscout/android/medtronic/service/MedtronicCnlIntentService.java:423-452 | the warnings shown and the counters left are `WarningsDue` and `AfterWarnings` |
| IntentService.MedtronicCnlIntentService.ValidatePumpRecord | app/src/main/java/info/nightscout/android/medtronic/service/MedtronicCnlIntentService.java:476-657 | the record's derived fields become `Validation` of its reading; when validation throws they are left untouched |
| IntentService.MedtronicCnlIntentService.ValidateSnapshot | app/src/main/java/info/nightscout/android/medtronic/service/MedtronicCnlIntentService.java:476-657 | the categories in the order validatePumpRecord checks them give `Validation` or its exception |
| IntentService.MedtronicCnlIntentService.ValidateCgm | app/src/main/java/info/nightscout/android/medtronic/service/MedtronicCnlIntentService.java:480-497 | validCGM, oldSgvWhenNewExpected and validSGV as the SGV rule gives them |
| IntentService.MedtronicCnlIntentService.ValidateBgl | app/src/main/java/info/nightscout/android/medtronic/service/MedtronicCnlIntentService.java:500-509 | validBGL as the finger BG rule gives it |
| IntentService.MedtronicCnlIntentService.ValidateBolus | app/src/main/java/info/nightscout/android/medtronic/service/MedtronicCnlIntentService.java:512-544 | validBolus, dual, square and the duration as the bolus rules give them |
| IntentService.MedtronicCnlIntentService.ValidateTempBasal | app/src/main/java/info/nightscout/android/medtronic/service/MedtronicCnlIntentService.java:548-579 | tempBasalAfterDate as the temp-basal rules give it, or the index past the end |
| IntentService.MedtronicCnlIntentService.ValidateSage | app/src/main/java/info/nightscout/android/medtronic/service/MedtronicCnlIntentService.java:582-617 | the SAGE window as the warm-up and transmitter-battery rules give it, or `first()` on no result |
| IntentService.MedtronicCnlIntentService.ValidateCage | app/src/main/java/info/nightscout/android/medtronic/service/MedtronicCnlIntentService.java:620-636 | the CAGE window as the change rule gives it |
| IntentService.MedtronicCnlIntentService.ValidateBattery | app/src/main/java/info/nightscout/android/medtronic/service/MedtronicCnlIntentService.java:639-655 | the BATTERY window as the change rule gives it |

## Left out

- USB device handling (`openUsbDevice`, `hasUsbHostFeature`, lines 730-759 and 796-798): this is I/O. Whether the device opened is the parameter `usbOpen`. When it does not open, the poll ends without arming an alarm, as the code does.
- The CNL and pump protocol (`MedtronicCnlReader`): its calls are a script (`Exchange`) saying which call throws and what the reads return. The link key, pump info and stick serial bookkeeping (lines 191-239) is left out. It feeds none of the modelled state.
- Realm internals: the history is one in-memory sequence, and each query is a filter on it. The service polls one pump, so the queries over all `PumpStatusEvent`s and over the active pump's history coincide. Sorting by eventDate is insertion order, which the `Chronological` invariant makes exact.
- Status strings, log lines and broadcasts (`sendStatus`, `sendMessage`, `sendStatusTreatments`, lines 95-106 and 393-421): user-facing output only. The warnings are modelled as `Warning` values in the order they are shown.
- The AlarmManager and the upload (`setAlarm`, `uploadPollResults`, lines 761-794): `setAlarm` is modelled as the returned alarm time. The upload is a foreign call.
- DataStore and ConfigurationStore internals: they are not part of this model. The model assumes that a `dec...` call stops at zero and that the settings do not change during a poll.
- `System.currentTimeMillis()`: it is read as two values, `started` and `now`. The validator reads the clock several times, and each of those reads is taken as `now`.
- The new record's eventDate: the `PumpStatusEvent` source is not part of this model. The model takes eventDate as `now`, the time after the exchange.
- `tempBasalRate` is a Java float. It is modelled as an opaque value compared with `!=`.
- Java `long` overflow: no modelled value comes near 2^63 milliseconds, so times are unbounded integers. The one narrowing cast, `(short)` at line 542, is modelled exactly.
- IntentService.MedtronicCnlIntentService.ValidatePumpRecord: validatePumpRecord sets the derived fields one setter at a time. The model sets them in one assignment. When a later check throws, the fields already set are not modelled, because the record is rolled back with the transaction and never read again.
- IntentService.MedtronicCnlIntentService.OnHandleIntent: the exchange runs on local copies of the counters, history and offset, which are written back when the poll ends. No other code reads them mid-poll, so this order is not observable in the model.
- IntentService.MedtronicCnlIntentService.ValidatePumpRecord: it writes every derived field, including the ones validatePumpRecord never sets on a given path (for example `lastBolusDuration := 0`). The model assumes that a new `PumpStatusEvent` starts with those defaults (`Unmarked`) and that `updatePumpStatus` sets no derived field. `PumpStatusEvent` and `updatePumpStatus` are not part of this model, so this is not checked.
- `Records.Where`, `Records.Descending` and `PollScheduler.TooCloseToActualPoll` have no row of their own: they only compute, and their meaning is stated by `Records.WhereMembers`, `Records.DescendingMembers`, `Records.DescendingIsSorted` and the `PollScheduler.RequestPollTime` contract.
- `completeWakefulIntent` and the outer `finally` (lines 388-390): Android wake-lock bookkeeping, left out.
