/**
 * Asynchronous persistence, modelled sequentially: `store_data` puts a log
 * entry on the queue, `log_worker` takes entries off it in order and appends
 * one CSV row per entry, and a `None` on the queue (here `Stop`) ends the
 * worker.  The image buffer that travels with each entry is not modelled.
 */
module Persistence {

  import opened Options

  /** What `store_data` puts on the queue for one accepted detection (without the image). */
  datatype LogEntry = LogEntry(
    filename: string, kind: string, priority: string, timeStamp: string, lat: string, lon: string)

  /** A queue element: an entry to persist, or the `None` sentinel that stops the worker. */
  datatype QueueItem = Job(entry: LogEntry) | Stop

  /** One CSV row: a list of cells. */
  type Row = seq<string>

  /** The first row of a newly created log file. */
  const Header: Row := ["Image", "Label", "Priority", "Timestamp", "Latitude", "Longitude"]

  const CapturePrefix: string := "capture_"
  const CaptureSuffix: string := ".jpg"

  /**
   * The image file name for a time stamp: the prefix, the time stamp and the
   * suffix, so that the time stamp can be read back from the name.
   */
  function CaptureName(timeStamp: string): (name: string)
    ensures |name| == |CapturePrefix| + |timeStamp| + |CaptureSuffix|
    ensures name[..|CapturePrefix|] == CapturePrefix
    ensures name[|CapturePrefix|..|name| - |CaptureSuffix|] == timeStamp
    ensures name[|name| - |CaptureSuffix|..] == CaptureSuffix
  {
    CapturePrefix + timeStamp + CaptureSuffix
  }

  /** Distinct time stamps give distinct image file names. */
  lemma CaptureNameInjective(t1: string, t2: string)
    ensures CaptureName(t1) == CaptureName(t2) ==> t1 == t2
  {
  }

  /** The queue element `store_data` builds. */
  function MakeEntry(timeStamp: string, kind: string, priority: string, lat: string, lon: string): (e: LogEntry)
  {
    LogEntry(CaptureName(timeStamp), kind, priority, timeStamp, lat, lon)
  }

  /** The row the worker writes for an entry: image name, label, priority, time stamp, latitude, longitude. */
  function RowOf(e: LogEntry): (row: Row)
  {
    [e.filename, e.kind, e.priority, e.timeStamp, e.lat, e.lon]
  }

  /** The rows the worker writes when it drains `items`: one per entry before the first `Stop`. */
  function Written(items: seq<QueueItem>): seq<Row>
  {
    if items == [] then []
    else match items[0]
      case Stop => []
      case Job(e) => [RowOf(e)] + Written(items[1..])
  }

  /** What is left on the queue once the worker has drained `items`: everything after the first `Stop`. */
  function Remaining(items: seq<QueueItem>): seq<QueueItem>
  {
    if items == [] then []
    else match items[0]
      case Stop => items[1..]
      case Job(_) => Remaining(items[1..])
  }

  /** Entries put on the queue one after another. */
  function Jobs(es: seq<LogEntry>): (items: seq<QueueItem>)
    ensures |items| == |es|
    ensures forall i :: 0 <= i < |es| ==> items[i] == Job(es[i])
  {
    seq(|es|, i requires 0 <= i < |es| => Job(es[i]))
  }

  /**
   * Putting `es` and then the sentinel on the queue makes the worker write
   * exactly one row per entry, in the order the entries were put, and leave
   * whatever follows the sentinel unwritten on the queue.
   */
  lemma {:induction false} DrainsInOrder(es: seq<LogEntry>, rest: seq<QueueItem>)
    ensures |Written(Jobs(es) + [Stop] + rest)| == |es|
    ensures forall i :: 0 <= i < |es| ==> Written(Jobs(es) + [Stop] + rest)[i] == RowOf(es[i])
    ensures Remaining(Jobs(es) + [Stop] + rest) == rest
    decreases |es|
  {
    var items := Jobs(es) + [Stop] + rest;
    if es == [] {
      assert items == [Stop] + rest;
    } else {
      assert items[1..] == Jobs(es[1..]) + [Stop] + rest;
      DrainsInOrder(es[1..], rest);
    }
  }

  /** Without a sentinel the worker writes a row for every entry and empties the queue. */
  lemma {:induction false} DrainsAllWithoutStop(es: seq<LogEntry>)
    ensures |Written(Jobs(es))| == |es|
    ensures forall i :: 0 <= i < |es| ==> Written(Jobs(es))[i] == RowOf(es[i])
    ensures Remaining(Jobs(es)) == []
    decreases |es|
  {
    if es != [] {
      assert Jobs(es)[1..] == Jobs(es[1..]);
      DrainsAllWithoutStop(es[1..]);
    }
  }

  /** The queue between the main loop and the worker. */
  class LogQueue {
    var items: seq<QueueItem>

    constructor ()
      ensures items == []
    {
      items := [];
    }

    /** `log_queue.put(item)`: appends at the back. */
    method Put(item: QueueItem)
      modifies this
      ensures items == old(items) + [item]
    {
      items := items + [item];
    }

    /** `log_queue.get()` on a non-empty queue: removes and returns the front element. */
    method Get() returns (item: QueueItem)
      requires items != []
      modifies this
      ensures item == old(items)[0] && items == old(items)[1..]
    {
      item := items[0];
      items := items[1..];
    }
  }

  /** `store_data`: puts the entry for an accepted detection on the queue. */
  method StoreData(queue: LogQueue, timeStamp: string, kind: string, priority: string, lat: string, lon: string)
    modifies queue
    ensures queue.items == old(queue.items) + [Job(MakeEntry(timeStamp, kind, priority, lat, lon))]
  {
    var filename := CaptureName(timeStamp);
    queue.Put(Job(LogEntry(filename, kind, priority, timeStamp, lat, lon)));
  }

  /** The CSV log file, as the sequence of its rows. */
  class CsvLog {
    var rows: seq<Row>

    /**
     * Opens the log at start-up: a file that does not exist yet is created with
     * the header row; an existing file is kept as it is.
     */
    constructor Open(existing: Option<seq<Row>>)
      ensures rows == if existing.None? then [Header] else existing.value
    {
      rows := if existing.None? then [Header] else existing.value;
    }

    /** Appends one row at the end of the file. */
    method Append(row: Row)
      modifies this
      ensures rows == old(rows) + [row]
    {
      rows := rows + [row];
    }
  }

  /**
   * `log_worker`: takes elements off the queue in order and appends one row per
   * entry until it takes the sentinel.  When the queue runs empty before a
   * sentinel, the worker would wait for more; the model then returns with
   * `stopped` false.
   */
  method LogWorker(queue: LogQueue, log: CsvLog) returns (stopped: bool)
    modifies queue, log
    ensures log.rows == old(log.rows) + Written(old(queue.items))
    ensures queue.items == Remaining(old(queue.items))
    ensures stopped == (Stop in old(queue.items))
  {
    stopped := false;
    while !stopped && queue.items != []
      invariant !stopped ==> log.rows + Written(queue.items) == old(log.rows) + Written(old(queue.items))
      invariant !stopped ==> Remaining(queue.items) == Remaining(old(queue.items))
      invariant !stopped ==> (Stop in queue.items) == (Stop in old(queue.items))
      invariant stopped ==> log.rows == old(log.rows) + Written(old(queue.items))
      invariant stopped ==> queue.items == Remaining(old(queue.items))
      invariant stopped ==> Stop in old(queue.items)
      decreases !stopped, |queue.items|
    {
      ghost var before := queue.items;
      var item := queue.Get();
      match item {
        case Stop =>
          stopped := true;
        case Job(e) =>
          assert before == [item] + queue.items;
          log.Append(RowOf(e));
      }
    }
  }
}
