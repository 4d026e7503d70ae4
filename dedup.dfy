/**
 * Spatio-temporal deduplication of detections (`is_new_detection` and the
 * module-level list `stored_objects` it keeps).  A detection is a repeat of a
 * stored sighting when it has the same label, lies closer than 80 pixels and
 * comes less than 10 seconds later; the history is a FIFO window of at most
 * 50 sightings.
 */
module Dedup {

  /** One stored sighting `(cx, cy, kind, time)`: `kind` is the class label; `time` is in seconds. */
  datatype Sighting = Sighting(cx: int, cy: int, kind: string, time: real)

  const DistanceThreshold: int := 80
  const TimeThreshold: real := 10.0
  const MaxHistory: nat := 50

  /**
   * Squared Euclidean distance.  `sqrt(d) < 80` holds exactly when `d < 80 * 80`
   * for the non-negative integer `d`, so the model compares squares.
   */
  function SquaredDistance(x1: int, y1: int, x2: int, y2: int): int
  {
    (x1 - x2) * (x1 - x2) + (y1 - y2) * (y1 - y2)
  }

  /** The stored sighting `s` makes a detection of class `kind` at `(cx, cy)` at time `now` a repeat. */
  predicate Suppresses(s: Sighting, cx: int, cy: int, kind: string, now: real)
  {
    && kind == s.kind
    && SquaredDistance(cx, cy, s.cx, s.cy) < DistanceThreshold * DistanceThreshold
    && now - s.time < TimeThreshold
  }

  /** Some stored sighting makes the detection a repeat. */
  predicate IsDuplicate(history: seq<Sighting>, cx: int, cy: int, kind: string, now: real)
  {
    exists i | 0 <= i < |history| :: Suppresses(history[i], cx, cy, kind, now)
  }

  /**
   * The history after recording `s`: `s` is the newest entry, the entries kept
   * before it are the newest of the old history, and one entry is evicted
   * exactly when the old history was already full.
   */
  function Admit(history: seq<Sighting>, s: Sighting): (r: seq<Sighting>)
    ensures |r| == if |history| < MaxHistory then |history| + 1 else |history|
    ensures r[|r| - 1] == s
    ensures r[..|r| - 1] == history[|history| - (|r| - 1)..]
    ensures |history| <= MaxHistory ==> |r| <= MaxHistory
  {
    var appended := history + [s];
    if |appended| > MaxHistory then appended[1..] else appended
  }

  /** The tracker that owns the sighting history. */
  class Tracker {
    var history: seq<Sighting>

    /** The window never holds more than `MaxHistory` sightings. */
    ghost predicate Valid()
      reads this
    {
      |history| <= MaxHistory
    }

    constructor ()
      ensures Valid() && history == []
    {
      history := [];
    }

    /**
     * Decides whether the detection of class `kind` at `(cx, cy)` at time `now` is new.
     * A repeat returns false and leaves the history alone; a new detection is
     * recorded with `Admit` and returns true.
     */
    method IsNewDetection(cx: int, cy: int, kind: string, now: real) returns (isNew: bool)
      modifies this
      ensures isNew == !IsDuplicate(old(history), cx, cy, kind, now)
      ensures history == if isNew then Admit(old(history), Sighting(cx, cy, kind, now)) else old(history)
      ensures old(Valid()) ==> Valid()
    {
      var i := 0;
      while i < |history|
        invariant 0 <= i <= |history|
        invariant history == old(history)
        invariant forall k :: 0 <= k < i ==> !Suppresses(history[k], cx, cy, kind, now)
      {
        var p := history[i];
        if kind == p.kind && SquaredDistance(cx, cy, p.cx, p.cy) < DistanceThreshold * DistanceThreshold {
          if now - p.time < TimeThreshold {
            return false;
          }
        }
        i := i + 1;
      }
      history := history + [Sighting(cx, cy, kind, now)];
      if |history| > MaxHistory {
        history := history[1..];
      }
      return true;
    }
  }

  /**
   * A stored sighting with another label, or one `TimeThreshold` seconds old or
   * older, never makes a detection a repeat, wherever it lies.
   */
  lemma {:induction false} IrrelevantSightingIgnored(
    before: seq<Sighting>, e: Sighting, after: seq<Sighting>,
    cx: int, cy: int, kind: string, now: real)
    requires e.kind != kind || now - e.time >= TimeThreshold
    ensures IsDuplicate(before + [e] + after, cx, cy, kind, now)
        == IsDuplicate(before + after, cx, cy, kind, now)
  {
    var full, without := before + [e] + after, before + after;
    if IsDuplicate(full, cx, cy, kind, now) {
      var i :| 0 <= i < |full| && Suppresses(full[i], cx, cy, kind, now);
      assert i != |before|;
      var k := if i < |before| then i else i - 1;
      assert without[k] == full[i];
    }
    if IsDuplicate(without, cx, cy, kind, now) {
      var k :| 0 <= k < |without| && Suppresses(without[k], cx, cy, kind, now);
      var i := if k < |before| then k else k + 1;
      assert full[i] == without[k];
    }
  }

  /**
   * Once a detection has been recorded, a later detection with the same label
   * closer than the distance threshold and less than `TimeThreshold` seconds
   * after it is a repeat.
   */
  lemma RepeatWithinWindowIsDuplicate(
    history: seq<Sighting>, cx: int, cy: int, kind: string, t: real,
    cx2: int, cy2: int, t2: real)
    requires SquaredDistance(cx2, cy2, cx, cy) < DistanceThreshold * DistanceThreshold
    requires t2 - t < TimeThreshold
    ensures IsDuplicate(Admit(history, Sighting(cx, cy, kind, t)), cx2, cy2, kind, t2)
  {
    var r := Admit(history, Sighting(cx, cy, kind, t));
    assert Suppresses(r[|r| - 1], cx2, cy2, kind, t2);
  }

  /** When every stored sighting is at least `TimeThreshold` seconds old, any detection is new. */
  lemma ExpiredHistoryReArms(history: seq<Sighting>, cx: int, cy: int, kind: string, now: real)
    requires forall i :: 0 <= i < |history| ==> now - history[i].time >= TimeThreshold
    ensures !IsDuplicate(history, cx, cy, kind, now)
  {
  }

  /**
   * Recording into a full window evicts exactly the oldest sighting: the result
   * is the old window without its first entry, followed by the new one.  A
   * detection that only the evicted sighting suppressed is new afterwards.
   */
  lemma {:induction false} FullWindowEvictsOldest(
    history: seq<Sighting>, s: Sighting, cx: int, cy: int, kind: string, now: real)
    requires |history| == MaxHistory
    requires Suppresses(history[0], cx, cy, kind, now)
    requires forall i :: 1 <= i < |history| ==> !Suppresses(history[i], cx, cy, kind, now)
    requires !Suppresses(s, cx, cy, kind, now)
    ensures Admit(history, s) == history[1..] + [s]
    ensures IsDuplicate(history, cx, cy, kind, now)
    ensures !IsDuplicate(Admit(history, s), cx, cy, kind, now)
  {
    var r := Admit(history, s);
    assert r == r[..|r| - 1] + [r[|r| - 1]];
    assert r == history[1..] + [s];
    forall k | 0 <= k < |r|
      ensures !Suppresses(r[k], cx, cy, kind, now)
    {
      if k < |r| - 1 {
        assert r[k] == history[k + 1];
      }
    }
  }
}
