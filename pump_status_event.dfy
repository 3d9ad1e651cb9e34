/**
 * PumpStatusEvent as the mutable object the service creates for a poll: the reader fills
 * in the reading, the validator stores the derived fields.
 */
module PumpStatusEvents {
  import opened Records

  class PumpStatusEvent {
    var eventDate: int
    var pumpDate: int
    var pumpTimeOffset: int
    var status: Status
    /** The derived fields (validCGM ... batteryBeforeDate), held together. */
    var marks: Marks

    /** The reading part of the record. */
    function Snap(): Snapshot
      reads this`eventDate, this`pumpDate, this`pumpTimeOffset, this`status
    {
      Snapshot(eventDate, pumpDate, pumpTimeOffset, status)
    }

    /** The value stored in the history when the record is committed. */
    function AsEntry(): Entry
      reads this
    {
      Entry(Snap(), marks)
    }

    /** A new record captured at `eventDate`: no reading yet and nothing derived. */
    constructor (eventDate: int)
      ensures Snap() == Snapshot(eventDate, 0, 0, NoReading)
      ensures marks == Unmarked
    {
      this.eventDate := eventDate;
      pumpDate := 0;
      pumpTimeOffset := 0;
      status := NoReading;
      marks := Unmarked;
    }
  }
}
