/**
 * The GPS reader: it reads lines from the serial port, looks only at GGA
 * sentences of NMEA 0183 (marker `$GPGGA`), and keeps the latest
 * coordinate snapshot.  Field 2 holds the latitude as `ddmm.mmmm`,
 * field 4 the longitude as `dddmm.mmmm`.  Opening the port, a failed read and
 * a failed number conversion are all errors: the snapshot becomes the error
 * state and the reader stops.
 */
module Gps {

  import opened Text

  const Marker: string := "$GPGGA"

  /** What one received line does to the snapshot. */
  datatype Reading =
    | Ignored                    // no GGA marker in the line
    | NoFix                      // latitude or longitude field empty
    | Fixed(latDeg: string, latMin: string, lonDeg: string, lonMin: string)
    | Fault                      // too few fields, or a part that is not a number

  /** The coordinate snapshot shown on screen and written to the log. */
  datatype Snapshot =
    | Fix(latDeg: string, latMin: string, lonDeg: string, lonMin: string)
    | NoSatellite
    | GpsError

  /** What the serial port delivers: a decoded line, or a failed read. */
  datatype SerialEvent = Received(line: string) | ReadFailed

  /**
   * The string part of handling one line.  `isNumber(s)` says whether Python's
   * `float(s)` accepts `s`.  The checks follow `data[2] and data[4]` from left
   * to right: an empty field 2 means no fix even when the line has fewer than
   * five fields, and a missing field is an index error.
   */
  function Classify(line: string, isNumber: string -> bool): (r: Reading)
    ensures r.Ignored? <==> !Contains(line, Marker)
    ensures Contains(line, Marker) ==>
              var data := Split(line, ',');
              && (r.NoFix? <==> |data| > 2 && (data[2] == "" || (|data| > 4 && data[4] == "")))
              && (|data| <= 2 ==> r.Fault?)
              && (2 < |data| <= 4 && data[2] != "" ==> r.Fault?)
              && (r.Fixed? ==>
                    && |data| > 4 && data[2] != "" && data[4] != ""
                    && r.latDeg + r.latMin == data[2] && |r.latDeg| == (if |data[2]| < 2 then |data[2]| else 2)
                    && r.lonDeg + r.lonMin == data[4] && |r.lonDeg| == (if |data[4]| < 3 then |data[4]| else 3)
                    && isNumber(r.latDeg) && isNumber(r.latMin) && isNumber(r.lonDeg) && isNumber(r.lonMin))
              && (|data| > 4 && data[2] != "" && data[4] != ""
                  && isNumber(Take(data[2], 2)) && isNumber(Drop(data[2], 2))
                  && isNumber(Take(data[4], 3)) && isNumber(Drop(data[4], 3))
                  ==> r == Fixed(Take(data[2], 2), Drop(data[2], 2), Take(data[4], 3), Drop(data[4], 3)))
  {
    if !Contains(line, Marker) then Ignored
    else
      var data := Split(line, ',');
      if |data| <= 2 then Fault
      else if data[2] == "" then NoFix
      else if |data| <= 4 then Fault
      else if data[4] == "" then NoFix
      else
        var latDeg, latMin := Take(data[2], 2), Drop(data[2], 2);
        var lonDeg, lonMin := Take(data[4], 3), Drop(data[4], 3);
        if isNumber(latDeg) && isNumber(latMin) && isNumber(lonDeg) && isNumber(lonMin)
        then Fixed(latDeg, latMin, lonDeg, lonMin)
        else Fault
  }

  /** The event ends the reader with an error. */
  predicate Fatal(e: SerialEvent, isNumber: string -> bool)
  {
    e.ReadFailed? || Classify(e.line, isNumber).Fault?
  }

  /** The snapshot after a non-fatal reading. */
  function Next(snap: Snapshot, r: Reading): Snapshot
  {
    match r
    case Ignored => snap
    case NoFix => NoSatellite
    case Fixed(latDeg, latMin, lonDeg, lonMin) => Fix(latDeg, latMin, lonDeg, lonMin)
    case Fault => GpsError
  }

  /** The snapshot after the reader has handled `events`, starting from `snap`. */
  function Trace(snap: Snapshot, events: seq<SerialEvent>, isNumber: string -> bool): Snapshot
    decreases |events|
  {
    if events == [] then snap
    else if Fatal(events[0], isNumber) then GpsError
    else Trace(Next(snap, Classify(events[0].line, isNumber)), events[1..], isNumber)
  }

  /** Some event of `events` ends the reader. */
  predicate Terminates(events: seq<SerialEvent>, isNumber: string -> bool)
  {
    exists i | 0 <= i < |events| :: Fatal(events[i], isNumber)
  }

  /** The reader with its shared snapshot (`gps_lat`, `gps_lon`). */
  class GpsReader {
    var snapshot: Snapshot

    constructor ()
      ensures snapshot == NoSatellite
    {
      snapshot := NoSatellite;
    }

    /**
     * `read_gps` over the events the port delivers, after opening the port
     * succeeded or not.  `stopped` says whether the reader ended with an error
     * rather than running out of input.
     */
    method Run(portOpens: bool, events: seq<SerialEvent>, isNumber: string -> bool) returns (stopped: bool)
      modifies this
      ensures snapshot == if portOpens then Trace(old(snapshot), events, isNumber) else GpsError
      ensures stopped == (!portOpens || Terminates(events, isNumber))
    {
      if !portOpens {
        snapshot := GpsError;
        return true;
      }
      var i := 0;
      while i < |events|
        invariant 0 <= i <= |events|
        invariant Trace(old(snapshot), events, isNumber) == Trace(snapshot, events[i..], isNumber)
        invariant forall k :: 0 <= k < i ==> !Fatal(events[k], isNumber)
      {
        match events[i] {
          case ReadFailed =>
            snapshot := GpsError;
            return true;
          case Received(line) =>
            var r := Classify(line, isNumber);
            if r.Fault? {
              snapshot := GpsError;
              return true;
            }
            snapshot := Next(snapshot, r);
        }
        assert events[i..][1..] == events[i + 1..];
        i := i + 1;
      }
      return false;
    }
  }

  /** A fatal event ends the reader: nothing after it changes the final snapshot. */
  lemma {:induction false} ErrorIsFinal(
    snap: Snapshot, before: seq<SerialEvent>, after: seq<SerialEvent>, isNumber: string -> bool)
    requires Terminates(before, isNumber)
    ensures Trace(snap, before + after, isNumber) == GpsError
    decreases |before|
  {
    var all := before + after;
    if !Fatal(before[0], isNumber) {
      assert all[1..] == before[1..] + after;
      var i :| 0 <= i < |before| && Fatal(before[i], isNumber);
      assert before[1..][i - 1] == before[i];
      ErrorIsFinal(Next(snap, Classify(before[0].line, isNumber)), before[1..], after, isNumber);
    }
  }

  /** Handling two batches of events in turn is handling them together, as long as the first does not end the reader. */
  lemma {:induction false} TraceAppend(
    snap: Snapshot, first: seq<SerialEvent>, second: seq<SerialEvent>, isNumber: string -> bool)
    requires !Terminates(first, isNumber)
    ensures Trace(snap, first + second, isNumber) == Trace(Trace(snap, first, isNumber), second, isNumber)
    decreases |first|
  {
    if first != [] {
      assert (first + second)[1..] == first[1..] + second;
      assert !Fatal(first[0], isNumber);
      assert !Terminates(first[1..], isNumber) by {
        forall i | 0 <= i < |first| - 1
          ensures !Fatal(first[1..][i], isNumber)
        {
          assert first[1..][i] == first[i + 1];
        }
      }
      assert (first + second)[0] == first[0];
      TraceAppend(Next(snap, Classify(first[0].line, isNumber)), first[1..], second, isNumber);
    } else {
      assert first + second == second;
    }
  }

  /** Lines without the GGA marker leave the snapshot as it was. */
  lemma {:induction false} IgnoredLinesKeepSnapshot(snap: Snapshot, events: seq<SerialEvent>, isNumber: string -> bool)
    requires forall i :: 0 <= i < |events| ==> events[i].Received? && !Contains(events[i].line, Marker)
    ensures Trace(snap, events, isNumber) == snap
    decreases |events|
  {
    if events != [] {
      IgnoredLinesKeepSnapshot(snap, events[1..], isNumber);
    }
  }

  /**
   * After events that do not end the reader, a GGA line with a fix or with an
   * empty field decides the snapshot, whatever came before.
   */
  lemma LatestSentenceDecides(
    snap: Snapshot, before: seq<SerialEvent>, line: string, isNumber: string -> bool)
    requires !Terminates(before, isNumber)
    requires Classify(line, isNumber).NoFix? || Classify(line, isNumber).Fixed?
    ensures Trace(snap, before + [Received(line)], isNumber) == Next(NoSatellite, Classify(line, isNumber))
  {
    TraceAppend(snap, before, [Received(line)], isNumber);
  }
}

/** Concrete sentences, written as their comma-separated fields. */
module GpsExamples {

  import opened Text
  import opened Gps

  /** A line whose first field is the marker contains the marker. */
  lemma MarkerFirst(fields: seq<string>)
    requires |fields| >= 2 && fields[0] == Marker
    ensures Contains(Join(fields, ','), Marker)
  {
    var line := Join(fields, ',');
    assert line == Marker + [','] + Join(fields[1..], ',');
    assert line[0..|Marker|] == Marker;
    assert OccursAt(line, Marker, 0);
  }

  /** A line built from fields that starts with the marker contains it and splits back into those fields. */
  lemma MarkedSentence(fields: seq<string>)
    requires |fields| >= 2 && fields[0] == Marker
    requires forall i :: 0 <= i < |fields| ==> ',' !in fields[i]
    ensures Split(Join(fields, ','), ',') == fields
    ensures Contains(Join(fields, ','), Marker)
  {
    MarkerFirst(fields);
    SplitJoin(fields, ',');
  }

  lemma LatitudeParts()
    ensures Take("4807.038", 2) == "48" && Drop("4807.038", 2) == "07.038"
  {
    assert "4807.038"[..2] == "48";
    assert "4807.038"[2..] == "07.038";
  }

  lemma LongitudeParts()
    ensures Take("01131.000", 3) == "011" && Drop("01131.000", 3) == "31.000"
  {
    assert "01131.000"[..3] == "011";
    assert "01131.000"[3..] == "31.000";
  }

  /**
   * A GGA sentence with a fix: latitude `4807.038` (48 degrees 07.038 minutes)
   * and longitude `01131.000` (11 degrees 31.000 minutes) are split into their
   * degree and minute parts.
   */
  lemma FixSentence(isNumber: string -> bool)
    requires isNumber("48") && isNumber("07.038") && isNumber("011") && isNumber("31.000")
    ensures Classify(Join(["$GPGGA", "123519", "4807.038", "N", "01131.000", "E", "1"], ','), isNumber)
         == Fixed("48", "07.038", "011", "31.000")
  {
    var fields := ["$GPGGA", "123519", "4807.038", "N", "01131.000", "E", "1"];
    MarkedSentence(fields);
    LatitudeParts();
    LongitudeParts();
  }

  /** A GGA sentence whose position fields are empty means no satellite fix. */
  lemma EmptyFieldsSentence(isNumber: string -> bool)
    ensures Classify(Join(["$GPGGA", "123519", "", "", "", "", "0"], ','), isNumber) == NoFix
  {
    var fields := ["$GPGGA", "123519", "", "", "", "", "0"];
    MarkedSentence(fields);
  }

  /**
   * A sentence with the marker and only two fields is a reader error, and so
   * is one with a non-empty field 2 and only four fields; with an empty
   * field 2, three fields are enough for "no fix".
   */
  lemma ShortSentences(isNumber: string -> bool)
    ensures Classify(Join(["$GPGGA", "1"], ','), isNumber) == Fault
    ensures Classify(Join(["$GPGGA", "1", ""], ','), isNumber) == NoFix
    ensures Classify(Join(["$GPGGA", "1", "4807.038", "N"], ','), isNumber) == Fault
  {
    MarkedSentence(["$GPGGA", "1"]);
    MarkedSentence(["$GPGGA", "1", ""]);
    MarkedSentence(["$GPGGA", "1", "4807.038", "N"]);
  }
}
