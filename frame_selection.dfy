/**
 * The priority check of the main loop: per frame, the classes are scanned in
 * the fixed order pothole, manhole, crack and, within each class, the
 * detections in list order; the first detection of the current class that the
 * tracker accepts as new is put on the log queue and both loops end, so at
 * most one detection is persisted per frame.
 */
module FrameSelection {

  import opened Options
  import opened Dedup
  import opened Persistence

  /** One detection of the frame: class label and box centre, as the detector loop builds it. */
  datatype Detection = Detection(kind: string, cx: int, cy: int)

  /** The classes in the order they are scanned. */
  const Targets: seq<string> := ["pothole", "manhole", "crack"]

  /** `CLASS_PRIORITY`. */
  const ClassPriority: map<string, string> := map["pothole" := "HIGH", "manhole" := "MEDIUM", "crack" := "LOW"]

  /** The classes scanned are exactly the classes that have a priority. */
  lemma TargetsHavePriorities()
    ensures forall t :: 0 <= t < |Targets| ==> Targets[t] in ClassPriority
    ensures forall k :: k in ClassPriority <==> k in Targets
    ensures ClassPriority["pothole"] == "HIGH" && ClassPriority["manhole"] == "MEDIUM" && ClassPriority["crack"] == "LOW"
  {
  }

  /**
   * `label == target and is_new_detection(cx, cy, label)` against history `h`:
   * the detection is of the class being scanned and is no repeat.
   */
  predicate Accepted(h: seq<Sighting>, d: Detection, target: string, now: real)
  {
    d.kind == target && !IsDuplicate(h, d.cx, d.cy, d.kind, now)
  }

  /** A position in the scan: the class's place in the class order and the detection's index. */
  datatype Choice = Choice(rank: nat, index: nat)

  /** Class `t`, detection `j` is scanned before choice `c`; every position is, when nothing is chosen. */
  predicate ScannedBefore(t: nat, j: nat, c: Option<Choice>)
  {
    c.None? || t < c.value.rank || (t == c.value.rank && j < c.value.index)
  }

  /** The first detection of class `target` that is accepted, in list order. */
  function FirstInClass(h: seq<Sighting>, dets: seq<Detection>, target: string, now: real): (r: Option<nat>)
    ensures r.Some? ==> r.value < |dets| && Accepted(h, dets[r.value], target, now)
    ensures forall j :: 0 <= j < |dets| && (r.None? || j < r.value) ==> !Accepted(h, dets[j], target, now)
    decreases |dets|
  {
    if dets == [] then None
    else if Accepted(h, dets[0], target, now) then Some(0)
    else match FirstInClass(h, dets[1..], target, now)
      case None => None
      case Some(i) => Some(i + 1)
  }

  /**
   * The first accepted position when the classes `targets` are scanned in
   * order and, per class, the detections in list order; every position
   * scanned before it is rejected.
   */
  function Choose(h: seq<Sighting>, dets: seq<Detection>, targets: seq<string>, now: real): (r: Option<Choice>)
    ensures r.Some? ==> r.value.rank < |targets| && r.value.index < |dets|
                        && Accepted(h, dets[r.value.index], targets[r.value.rank], now)
    ensures forall t: nat, j: nat :: t < |targets| && j < |dets| && ScannedBefore(t, j, r)
                        ==> !Accepted(h, dets[j], targets[t], now)
    decreases |targets|
  {
    if targets == [] then None
    else match FirstInClass(h, dets, targets[0], now)
      case Some(i) => Some(Choice(0, i))
      case None =>
        match Choose(h, dets, targets[1..], now)
        case None => None
        case Some(c) => Some(Choice(c.rank + 1, c.index))
  }

  /** An accepted position with every position before it rejected is the one `Choose` picks. */
  lemma {:induction false} ChooseIsFirstAccepted(
    h: seq<Sighting>, dets: seq<Detection>, targets: seq<string>, now: real, t: nat, j: nat)
    requires t < |targets| && j < |dets| && Accepted(h, dets[j], targets[t], now)
    requires forall t': nat, j': nat :: t' < |targets| && j' < |dets| && ScannedBefore(t', j', Some(Choice(t, j)))
               ==> !Accepted(h, dets[j'], targets[t'], now)
    ensures Choose(h, dets, targets, now) == Some(Choice(t, j))
  {
    var r := Choose(h, dets, targets, now);
    assert !ScannedBefore(t, j, r);
    assert r.Some?;
    var c := r.value;
    assert !ScannedBefore(c.rank, c.index, Some(Choice(t, j)));
  }

  /** The detection persisted for a frame against history `h`, if any. */
  function Select(h: seq<Sighting>, dets: seq<Detection>, now: real): (chosen: Option<Detection>)
  {
    match Choose(h, dets, Targets, now)
    case None => None
    case Some(c) => Some(dets[c.index])
  }

  /** The sighting recorded for a detection accepted at time `now`. */
  function SightingOf(d: Detection, now: real): Sighting
  {
    Sighting(d.cx, d.cy, d.kind, now)
  }

  /** The history after a frame: repeats leave it alone, only the chosen detection is recorded. */
  function FrameHistory(h: seq<Sighting>, dets: seq<Detection>, now: real): seq<Sighting>
  {
    match Select(h, dets, now)
    case None => h
    case Some(d) => Admit(h, SightingOf(d, now))
  }

  /**
   * What a frame persists: nothing, or one detection that occurs in the frame,
   * has one of the three classes and is no repeat; a frame with no new
   * detection of those classes persists nothing.
   */
  lemma SelectProperties(h: seq<Sighting>, dets: seq<Detection>, now: real)
    ensures Select(h, dets, now).Some? ==>
              var d := Select(h, dets, now).value;
              d in dets && d.kind in ClassPriority && !IsDuplicate(h, d.cx, d.cy, d.kind, now)
    ensures Select(h, dets, now).None? <==>
              forall j :: 0 <= j < |dets| && dets[j].kind in ClassPriority
                ==> IsDuplicate(h, dets[j].cx, dets[j].cy, dets[j].kind, now)
  {
    var r := Choose(h, dets, Targets, now);
    if r.None? {
      forall j | 0 <= j < |dets| && dets[j].kind in ClassPriority
        ensures IsDuplicate(h, dets[j].cx, dets[j].cy, dets[j].kind, now)
      {
        var t: nat := if dets[j].kind == "pothole" then 0 else if dets[j].kind == "manhole" then 1 else 2;
        assert !Accepted(h, dets[j], Targets[t], now);
      }
    } else {
      assert Targets[r.value.rank] in ClassPriority;
    }
  }

  /**
   * A frame adds at most one sighting to the history and keeps it within
   * `MaxHistory` entries.
   */
  lemma FrameHistoryGrowsByAtMostOne(h: seq<Sighting>, dets: seq<Detection>, now: real)
    ensures |FrameHistory(h, dets, now)| <= |h| + 1
    ensures |h| <= MaxHistory ==> |FrameHistory(h, dets, now)| <= MaxHistory
    ensures Select(h, dets, now).None? ==> FrameHistory(h, dets, now) == h
  {
  }

  /**
   * The positions that reach `is_new_detection` when scanning stops at `(t, j)`
   * (exclusive): every earlier position whose detection is of the class being
   * scanned, in scan order.
   */
  ghost function QueriesBefore(dets: seq<Detection>, targets: seq<string>, t: nat, j: nat): seq<Choice>
    requires t <= |targets| && j <= |dets|
    decreases t, j
  {
    if j > 0 then
      QueriesBefore(dets, targets, t, j - 1)
        + (if t < |targets| && dets[j - 1].kind == targets[t] then [Choice(t, j - 1)] else [])
    else if t > 0 then QueriesBefore(dets, targets, t - 1, |dets|)
    else []
  }

  /** The positions queried in a frame whose scan ends with choice `c`. */
  ghost function Queried(dets: seq<Detection>, targets: seq<string>, c: Option<Choice>): seq<Choice>
    requires c.Some? ==> c.value.rank < |targets| && c.value.index < |dets|
  {
    match c
    case None => QueriesBefore(dets, targets, |targets|, 0)
    case Some(ch) => QueriesBefore(dets, targets, ch.rank, ch.index + 1)
  }

  /**
   * Exactly the detections of the class being scanned, at positions before
   * the stopping point, reach `is_new_detection`; each at most once and in
   * scan order.
   */
  lemma {:induction false} QueriesAreScannedMatches(dets: seq<Detection>, targets: seq<string>, t: nat, j: nat)
    requires t <= |targets| && j <= |dets|
    ensures forall q :: q in QueriesBefore(dets, targets, t, j) ==>
              q.rank < |targets| && q.index < |dets| && dets[q.index].kind == targets[q.rank]
              && ScannedBefore(q.rank, q.index, Some(Choice(t, j)))
    ensures forall a, b :: 0 <= a < b < |QueriesBefore(dets, targets, t, j)| ==>
              ScannedBefore(QueriesBefore(dets, targets, t, j)[a].rank, QueriesBefore(dets, targets, t, j)[a].index,
                            Some(QueriesBefore(dets, targets, t, j)[b]))
    ensures forall q: Choice ::
              (q.rank < |targets| && q.index < |dets| && dets[q.index].kind == targets[q.rank]
               && ScannedBefore(q.rank, q.index, Some(Choice(t, j))))
              ==> q in QueriesBefore(dets, targets, t, j)
    decreases t, j
  {
    var qs := QueriesBefore(dets, targets, t, j);
    if j > 0 {
      QueriesAreScannedMatches(dets, targets, t, j - 1);
    } else if t > 0 {
      QueriesAreScannedMatches(dets, targets, t - 1, |dets|);
    }
  }

  /**
   * The priority check for one frame.  `now` stands for the clock, `timeStamp`
   * for the formatted date and `lat`, `lon` for the GPS snapshot read when the
   * entry is stored.  The chosen detection is recorded in the tracker and put
   * on the queue with its class priority; `queried` lists the positions that
   * reached the tracker.
   */
  method ProcessFrame(
    tracker: Tracker, queue: LogQueue, dets: seq<Detection>,
    now: real, timeStamp: string, lat: string, lon: string)
    returns (chosen: Option<Detection>, ghost queried: seq<Choice>)
    modifies tracker, queue
    ensures chosen == Select(old(tracker.history), dets, now)
    ensures tracker.history == FrameHistory(old(tracker.history), dets, now)
    ensures queue.items == old(queue.items) +
              match chosen
              case None => []
              case Some(d) => [Job(MakeEntry(timeStamp, d.kind, ClassPriority[d.kind], lat, lon))]
    ensures queried == Queried(dets, Targets, Choose(old(tracker.history), dets, Targets, now))
  {
    ghost var h := tracker.history;
    chosen := None;
    queried := [];
    TargetsHavePriorities();
    label scan:
    for t := 0 to |Targets|
      invariant tracker.history == h && queue.items == old(queue.items)
      invariant forall t': nat, j: nat :: t' < t && j < |dets| ==> !Accepted(h, dets[j], Targets[t'], now)
      invariant queried == QueriesBefore(dets, Targets, t, 0)
    {
      var target := Targets[t];
      for j := 0 to |dets|
        invariant tracker.history == h && queue.items == old(queue.items)
        invariant forall j': nat :: j' < j ==> !Accepted(h, dets[j'], target, now)
        invariant queried == QueriesBefore(dets, Targets, t, j)
      {
        var d := dets[j];
        if d.kind == target {
          queried := queried + [Choice(t, j)];
          var isNew := tracker.IsNewDetection(d.cx, d.cy, d.kind, now);
          if isNew {
            var priority := ClassPriority[d.kind];
            StoreData(queue, timeStamp, d.kind, priority, lat, lon);
            chosen := Some(d);
            ChooseIsFirstAccepted(h, dets, Targets, now, t, j);
            break scan;
          }
        }
      }
    }
  }

  /**
   * A frame with a new pothole and a new crack persists only the pothole, the
   * higher-priority class, and records only its sighting.
   */
  lemma PotholeBeforeCrack(now: real)
    ensures Select([], [Detection("pothole", 100, 100), Detection("crack", 400, 400)], now)
         == Some(Detection("pothole", 100, 100))
    ensures FrameHistory([], [Detection("pothole", 100, 100), Detection("crack", 400, 400)], now)
         == [Sighting(100, 100, "pothole", now)]
  {
    var dets := [Detection("pothole", 100, 100), Detection("crack", 400, 400)];
    assert Accepted([], dets[0], Targets[0], now);
    ChooseIsFirstAccepted([], dets, Targets, now, 0, 0);
  }
}
