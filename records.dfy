/**
 * The pump status record (PumpStatusEvent) as a value, and the history queries the
 * service runs against the object store, as filters over an in-memory sequence.
 *
 * A query is data, as a Realm query is: each `Query` constructor is one filter shape the
 * service builds, and `Matches` is its meaning. History is kept in insertion order, which
 * is capture order: `Chronological` states that invariant, and under it `Where` is a query
 * sorted by eventDate ascending and `Descending` one sorted by eventDate descending.
 */
module Records {
  import opened Wrappers

  /** What the pump reports in one status read (filled in by the device reader). */
  datatype Status = Status(
    cgmActive: bool,
    cgmWarmUp: bool,
    cgmPumpDate: int,
    cgmDate: int,
    sgv: int,
    calibrationDueMinutes: int,
    recentBGL: int,
    lastBolusPumpDate: int,
    lastBolusReference: int,
    bolusingReference: int,
    bolusingMinutesRemaining: int,
    tempBasalRate: int,
    tempBasalPercentage: int,
    tempBasalMinutesRemaining: int,
    transmitterBattery: int,
    reservoirAmount: int,
    batteryPercentage: int)

  /** A status with every reading zero and every flag off. */
  const NoReading := Status(false, false, 0, 0, 0, 0, 0, 0, 0, 0, 0, 0, 0, 0, 0, 0, 0)

  /** One poll's reading: capture instant, pump clock, their difference and the status. */
  datatype Snapshot = Snapshot(eventDate: int, pumpDate: int, pumpTimeOffset: int, status: Status)

  /** The fields the validator derives for a new record; a date is None until it is set. */
  datatype Marks = Marks(
    validCGM: bool,
    validSGV: bool,
    oldSgvWhenNewExpected: bool,
    validBGL: bool,
    validBolus: bool,
    validBolusDual: bool,
    validBolusSquare: bool,
    lastBolusDuration: int,
    validTempBasal: bool,
    tempBasalAfterDate: Option<int>,
    validSAGE: bool,
    sageAfterDate: Option<int>,
    sageBeforeDate: Option<int>,
    validCAGE: bool,
    cageAfterDate: Option<int>,
    cageBeforeDate: Option<int>,
    validBattery: bool,
    batteryAfterDate: Option<int>,
    batteryBeforeDate: Option<int>)

  /** The derived fields of a freshly created record. */
  const Unmarked := Marks(false, false, false, false, false, false, false, 0, false, None,
                          false, None, None, false, None, None, false, None, None)

  /** A stored record: the reading and what validation derived from it. */
  datatype Entry = Entry(snap: Snapshot, marks: Marks)

  /** A derived flag a query can ask for. */
  datatype Flag = CgmFlag | SageFlag | CageFlag | BatteryFlag

  predicate HasFlag(e: Entry, f: Flag)
  {
    match f
    case CgmFlag => e.marks.validCGM
    case SageFlag => e.marks.validSAGE
    case CageFlag => e.marks.validCAGE
    case BatteryFlag => e.marks.validBattery
  }

  /** The filters the service runs on stored records; `after` bounds are exclusive, `since` inclusive. */
  datatype Query =
    | CapturedAfter(after: int)
    | CapturedSince(since: int)
    | CapturedBefore(before: int)
    | FlaggedAfter(after: int, flag: Flag)
    | FlaggedSince(since: int, flag: Flag)
    | SameSgv(cgmPumpDate: int)
    | SameBgl(after: int, bgl: int)
    | SameBolus(bolusPumpDate: int, reference: int)
    | Bolusing(reference: int, minutesAbove: int)
    | LowerReservoir(after: int, amount: int)
    | LowerPumpBattery(after: int, percentage: int)
    | LowerTransmitterBattery(after: int, level: int)

  /** Whether stored record `e` passes filter `q`. */
  predicate Matches(q: Query, e: Entry)
  {
    var d := e.snap.eventDate;
    var st := e.snap.status;
    match q
    case CapturedAfter(after) => d > after
    case CapturedSince(since) => d >= since
    case CapturedBefore(before) => d < before
    case FlaggedAfter(after, flag) => d > after && HasFlag(e, flag)
    case FlaggedSince(since, flag) => d >= since && HasFlag(e, flag)
    case SameSgv(cgmPumpDate) => st.cgmPumpDate == cgmPumpDate && e.marks.validSGV
    case SameBgl(after, bgl) => d > after && st.recentBGL == bgl
    case SameBolus(bolusPumpDate, reference) =>
      st.lastBolusPumpDate == bolusPumpDate && st.lastBolusReference == reference && e.marks.validBolus
    case Bolusing(reference, minutesAbove) =>
      st.bolusingReference == reference && st.bolusingMinutesRemaining > minutesAbove
    case LowerReservoir(after, amount) => d > after && st.reservoirAmount < amount
    case LowerPumpBattery(after, percentage) => d > after && st.batteryPercentage < percentage
    case LowerTransmitterBattery(after, level) => d > after && st.cgmActive && st.transmitterBattery < level
  }

  /** Position of the oldest entry at or after position k that passes q. */
  function OldestFrom(h: seq<Entry>, q: Query, k: nat): (r: Option<nat>)
    requires k <= |h|
    ensures r.Some? ==> k <= r.value < |h| && Matches(q, h[r.value])
    decreases |h| - k
  {
    if k == |h| then None
    else if Matches(q, h[k]) then Some(k)
    else OldestFrom(h, q, k + 1)
  }

  /** Position of the newest entry before position k that passes q. */
  function NewestBefore(h: seq<Entry>, q: Query, k: nat): (r: Option<nat>)
    requires k <= |h|
    ensures r.Some? ==> r.value < k && Matches(q, h[r.value])
  {
    if k == 0 then None
    else if Matches(q, h[k - 1]) then Some(k - 1)
    else NewestBefore(h, q, k - 1)
  }

  /** Nothing between k and the oldest match from k passes q; with no match, nothing from k does. */
  lemma {:induction false} OldestFromIsFirst(h: seq<Entry>, q: Query, k: nat)
    requires k <= |h|
    ensures OldestFrom(h, q, k).Some? ==> forall j :: k <= j < OldestFrom(h, q, k).value ==> !Matches(q, h[j])
    ensures OldestFrom(h, q, k).None? ==> forall j :: k <= j < |h| ==> !Matches(q, h[j])
    decreases |h| - k
  {
    if k < |h| && !Matches(q, h[k]) {
      OldestFromIsFirst(h, q, k + 1);
    }
  }

  /** Nothing between the newest match before k and k passes q; with no match, nothing before k does. */
  lemma {:induction false} NewestBeforeIsLast(h: seq<Entry>, q: Query, k: nat)
    requires k <= |h|
    ensures NewestBefore(h, q, k).Some? ==> forall j :: NewestBefore(h, q, k).value < j < k ==> !Matches(q, h[j])
    ensures NewestBefore(h, q, k).None? ==> forall j :: 0 <= j < k ==> !Matches(q, h[j])
  {
    if k > 0 && !Matches(q, h[k - 1]) {
      NewestBeforeIsLast(h, q, k - 1);
    }
  }

  /** The oldest stored record that passes q. */
  function Oldest(h: seq<Entry>, q: Query): Option<nat>
  {
    OldestFrom(h, q, 0)
  }

  /** The newest stored record that passes q. */
  function Newest(h: seq<Entry>, q: Query): Option<nat>
  {
    NewestBefore(h, q, |h|)
  }

  /** Some stored record passes q. */
  predicate Any(h: seq<Entry>, q: Query)
  {
    Oldest(h, q).Some?
  }

  /** Insertion order is strictly increasing capture time. */
  ghost predicate Chronological(h: seq<Entry>)
  {
    forall i, j :: 0 <= i < j < |h| ==> h[i].snap.eventDate < h[j].snap.eventDate
  }

  /** The entries of `h` that satisfy `p`, oldest first. */
  function Where(h: seq<Entry>, p: Query): (r: seq<Entry>)
    ensures |r| <= |h|
  {
    if h == [] then []
    else
      assert h == [h[0]] + h[1..];
      (if Matches(p, h[0]) then [h[0]] else []) + Where(h[1..], p)
  }

  /** The entries of `h` that satisfy `p`, newest first. */
  function Descending(h: seq<Entry>, p: Query): (r: seq<Entry>)
    ensures |r| <= |h|
  {
    if h == [] then []
    else
      var n := |h| - 1;
      assert h == h[..n] + [h[n]];
      (if Matches(p, h[n]) then [h[n]] else []) + Descending(h[..n], p)
  }

  /** An ascending query returns exactly the entries that pass it. */
  lemma {:induction false} WhereMembers(h: seq<Entry>, p: Query)
    ensures forall e :: e in Where(h, p) <==> e in h && Matches(p, e)
  {
    if h != [] {
      WhereMembers(h[1..], p);
      assert h == [h[0]] + h[1..];
    }
  }

  /** A descending query returns exactly the entries that pass it. */
  lemma {:induction false} DescendingMembers(h: seq<Entry>, p: Query)
    ensures forall e :: e in Descending(h, p) <==> e in h && Matches(p, e)
  {
    if h != [] {
      var n := |h| - 1;
      DescendingMembers(h[..n], p);
      assert h == h[..n] + [h[n]];
    }
  }

  /** A descending query over a history that gained one entry: that entry first, if it passes. */
  lemma DescendingSnoc(h: seq<Entry>, e: Entry, p: Query)
    ensures Descending(h + [e], p) == (if Matches(p, e) then [e] else []) + Descending(h, p)
  {
    assert (h + [e])[..|h|] == h;
  }

  /** The first result of an ascending query is the oldest matching entry. */
  lemma {:induction false} WhereFirst(h: seq<Entry>, p: Query) returns (i: nat)
    requires |Where(h, p)| > 0
    ensures i < |h| && Where(h, p)[0] == h[i] && Matches(p, h[i])
    ensures forall j :: 0 <= j < i ==> !Matches(p, h[j])
  {
    if Matches(p, h[0]) {
      i := 0;
    } else {
      var k := WhereFirst(h[1..], p);
      i := k + 1;
    }
  }

  /** The first result of a descending query is the newest matching entry. */
  lemma {:induction false} DescendingFirst(h: seq<Entry>, p: Query) returns (i: nat)
    requires |Descending(h, p)| > 0
    ensures i < |h| && Descending(h, p)[0] == h[i] && Matches(p, h[i])
    ensures forall j :: i < j < |h| ==> !Matches(p, h[j])
  {
    var n := |h| - 1;
    if Matches(p, h[n]) {
      i := n;
    } else {
      i := DescendingFirst(h[..n], p);
    }
  }

  /** Newest first, strictly. */
  ghost predicate NewestFirst(r: seq<Entry>)
  {
    forall a, b :: 0 <= a < b < |r| ==> r[a].snap.eventDate > r[b].snap.eventDate
  }

  /** A newest-first sequence stays newest first under an entry newer than all of it. */
  lemma PrependNewest(e: Entry, rest: seq<Entry>)
    requires NewestFirst(rest)
    requires forall x :: x in rest ==> x.snap.eventDate < e.snap.eventDate
    ensures NewestFirst([e] + rest)
  {
    var r := [e] + rest;
    forall a, b | 0 <= a < b < |r| ensures r[a].snap.eventDate > r[b].snap.eventDate {
      assert r[b] == rest[b - 1] && r[b] in rest;
      if a > 0 {
        assert r[a] == rest[a - 1];
      }
    }
  }

  /** On a chronological history a descending query really is sorted newest first. */
  lemma {:induction false} DescendingIsSorted(h: seq<Entry>, p: Query)
    requires Chronological(h)
    ensures NewestFirst(Descending(h, p))
  {
    if h != [] {
      var n := |h| - 1;
      var front := h[..n];
      assert Chronological(front) by {
        forall i, j | 0 <= i < j < |front| ensures front[i].snap.eventDate < front[j].snap.eventDate {
          assert front[i] == h[i] && front[j] == h[j];
        }
      }
      var rest := Descending(front, p);
      DescendingIsSorted(front, p);
      DescendingMembers(front, p);
      if Matches(p, h[n]) {
        forall e | e in rest ensures e.snap.eventDate < h[n].snap.eventDate {
          var k :| 0 <= k < n && front[k] == e;
          assert front[k] == h[k];
        }
        PrependNewest(h[n], rest);
        assert Descending(h, p) == [h[n]] + rest;
      } else {
        assert Descending(h, p) == [] + rest;
      }
    }
  }

  /** A filtered chronological history is chronological (the purge keeps the invariant). */
  lemma {:induction false} WhereKeepsChronological(h: seq<Entry>, p: Query)
    requires Chronological(h)
    ensures Chronological(Where(h, p))
  {
    if h != [] {
      var rest := Where(h[1..], p);
      WhereKeepsChronological(h[1..], p);
      WhereMembers(h[1..], p);
      forall e | e in rest ensures h[0].snap.eventDate < e.snap.eventDate {
        var k :| 0 <= k < |h[1..]| && h[1..][k] == e;
      }
    }
  }

  /** A query every entry satisfies returns the whole history. */
  lemma {:induction false} WhereAll(h: seq<Entry>, p: Query)
    requires forall i :: 0 <= i < |h| ==> Matches(p, h[i])
    ensures Where(h, p) == h
  {
    if h != [] {
      WhereAll(h[1..], p);
    }
  }

  /** An ascending query is empty exactly when nothing passes, and starts at the oldest match. */
  lemma WhereOldest(h: seq<Entry>, p: Query)
    ensures |Where(h, p)| == 0 <==> !Any(h, p)
    ensures |Where(h, p)| > 0 ==> Oldest(h, p).Some? && Where(h, p)[0] == h[Oldest(h, p).value]
  {
    OldestFromIsFirst(h, p, 0);
    WhereMembers(h, p);
    if |Where(h, p)| > 0 {
      var i := WhereFirst(h, p);
      assert Oldest(h, p).Some?;
    }
  }

  /** A descending query is empty exactly when nothing passes, and starts at the newest match. */
  lemma DescendingNewest(h: seq<Entry>, p: Query)
    ensures |Descending(h, p)| == 0 <==> Newest(h, p).None?
    ensures |Descending(h, p)| > 0 ==> Newest(h, p).Some? && Descending(h, p)[0] == h[Newest(h, p).value]
  {
    NewestBeforeIsLast(h, p, |h|);
    DescendingMembers(h, p);
    if |Descending(h, p)| > 0 {
      var i := DescendingFirst(h, p);
      assert Newest(h, p).Some?;
    }
  }

  /** Any query has a match iff some entry passes it, and then a newest match exists too. */
  lemma AnyRule(h: seq<Entry>, p: Query)
    ensures Any(h, p) <==> exists i :: 0 <= i < |h| && Matches(p, h[i])
    ensures Any(h, p) <==> Newest(h, p).Some?
  {
    OldestFromIsFirst(h, p, 0);
    NewestBeforeIsLast(h, p, |h|);
  }
}
