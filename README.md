# Road-damage detection rig: deduplication, frame selection, logging and GPS

A Dafny model of the sequential logic inside `ARM.py`, the script that drives a
camera-and-detector rig looking for potholes, manholes and cracks. The model covers
four parts of the script:

- **Deduplication** (`Dedup`). `is_new_detection` keeps a FIFO history of at most
  50 sightings `(cx, cy, label, time)`. A detection is a repeat when a stored
  sighting has the same label, lies less than 80 pixels away and is less than
  10 seconds old. A repeat returns false and leaves the history alone. Otherwise
  the sighting is appended, the oldest entry is evicted once there are more than
  50, and the call returns true. The history is the field of a `Tracker` class;
  `Admit` and `IsDuplicate` are its specification.
- **Per-frame priority selection** (`FrameSelection`). The classes are scanned in
  the order pothole, manhole, crack, and within each class the detections in list
  order. The first detection the tracker accepts is put on the log queue with its
  priority from `CLASS_PRIORITY`, and both loops end. `ProcessFrame` is the nested
  loop with its labelled `break`. `Choose` is the specification: the first
  accepted position in scan order.
- **Logging** (`Persistence`). `store_data` puts an entry with the file name
  `capture_<timestamp>.jpg` on the queue. `log_worker` takes entries off the
  queue in order and appends the row `[filename, label, priority, timestamp,
  lat, lon]` for each, until it takes the `None` sentinel (`Stop`). The queue and
  the CSV file are classes holding sequences; `Written` and `Remaining` are the
  specification of a drain.
- **GPS sentences** (`Gps`). `read_gps` looks only at lines containing `$GPGGA`
  (the GGA sentence of NMEA 0183). It splits the line on commas and takes the
  latitude from field 2 (two degree characters, then minutes) and the longitude
  from field 4 (three degree characters, then minutes). If field 2 or field 4 is
  empty, the snapshot becomes "No Satellite". Any exception makes it "GPS Error"
  and ends the reader. `Classify` is the pure string part. `GpsReader.Run` is the
  loop that updates the shared snapshot.

`Text` holds Python's `str.split`, `s[:n]`, `s[n:]` and `t in s`. It also proves
that `Split` and `Join` undo each other.

Modelling choices:

- The clock is a parameter. `now` (seconds, a `real`) stands for `time.time()`,
  and `timeStamp` stands for the `strftime` result.
- `math.sqrt(d) < 80` is modelled as `d < 80 * 80`. The two agree for the
  non-negative integer `d`, because box centres are integers.
- `float()` is the parameter `isNumber`. It says whether Python's `float`
  accepts a string. A rejected part raises in the source, so it is a fault
  here. The degree and minute parts of a fix stay strings, because the decimal
  conversion is floating point.
- The model follows the code's evaluation order:
  - A GGA line that is too short for field 2 is a reader error that ends the
    reader (an `IndexError` caught by the outer `except`), not a "no fix".
    The same holds for a non-empty field 2 with field 4 missing, and for a part
    that is not a number.
  - `data[2] and data[4]` short-circuits. So a line whose field 2 is empty means
    "no fix" even when it has fewer than five fields.

## Model

| member | source | states |
|---|---|---|
| `Dedup.Admit` | ARM.py:46-49 | the new sighting is the newest entry; the entries before it are the newest of the old history; one entry is evicted exactly when 50 were stored; the window stays within 50 |
| `Dedup.Tracker.constructor` | ARM.py:32 | the history starts empty (and so within the bound) |
| `Dedup.Tracker.IsNewDetection` | ARM.py:36-51 | returns false exactly when some stored sighting has the same label, squared distance below 80², and age below 10 s, and then the history is unchanged; otherwise returns true and the history is `Admit` of the old one; the 50-entry bound is preserved |
| `Dedup.IrrelevantSightingIgnored` | ARM.py:39-44 | inserting or removing a sighting with another label, or one 10 s old or older, anywhere in the history never changes whether a detection is a repeat, whatever its distance |
| `Dedup.RepeatWithinWindowIsDuplicate` | ARM.py:39-46 | after a detection is recorded, a same-label detection closer than 80 and less than 10 s later is a repeat |
| `Dedup.ExpiredHistoryReArms` | ARM.py:43-44 | when every stored sighting is 10 s old or older, every detection is new |
| `Dedup.FullWindowEvictsOldest` | ARM.py:46-49 | recording into a full window gives the old window minus its first entry plus the new one; a detection only the evicted entry suppressed becomes new |
| `FrameSelection.TargetsHavePriorities` | ARM.py:25-29 | the scanned classes are exactly the keys of the priority table, with HIGH, MEDIUM, LOW for pothole, manhole, crack |
| `FrameSelection.FirstInClass` | ARM.py:156-158 | the result, if any, is an accepted detection of the class, and every detection before it (all, if none) is rejected |
| `FrameSelection.Choose` | ARM.py:154-167 | the result, if any, is an accepted (class, detection) position, and every position before it in class-then-list order (all, if none) is rejected |
| `FrameSelection.ChooseIsFirstAccepted` | ARM.py:154-167 | the first accepted position in scan order is the one chosen |
| `FrameSelection.SelectProperties` | ARM.py:154-167 | a persisted detection occurs in the frame, has one of the three classes and is no repeat; nothing is persisted exactly when every detection of those classes is a repeat |
| `FrameSelection.FrameHistoryGrowsByAtMostOne` | ARM.py:156-164 | a frame adds at most one sighting, keeps the 50-entry bound, and leaves the history unchanged when nothing is chosen |
| `FrameSelection.QueriesAreScannedMatches` | ARM.py:156-158 | exactly the detections of the class being scanned at positions before the stopping point reach `is_new_detection`, each once and in scan order |
| `FrameSelection.ProcessFrame` | ARM.py:154-167 | the chosen detection is `Select` of the old history; the history becomes the frame's history; the queue gains exactly one entry (priority from the table, file name from the time stamp) when something is chosen and none otherwise; the positions queried are exactly the matching ones up to the choice |
| `FrameSelection.PotholeBeforeCrack` | ARM.py:154-167 | with a new pothole and a new crack in one frame, only the pothole is persisted |
| `Persistence.CaptureName` | ARM.py:80 | the file name is `capture_`, the time stamp and `.jpg`, so the time stamp can be read back from it |
| `Persistence.CaptureNameInjective` | ARM.py:80 | equal file names come from equal time stamps |
| `Persistence.StoreData` | ARM.py:79-81 | the queue gains exactly the entry built from the time stamp, label, priority and coordinates |
| `Persistence.LogQueue.constructor` | ARM.py:54 | the queue starts empty |
| `Persistence.LogQueue.Put` | ARM.py:81 | an element is appended at the back of the queue |
| `Persistence.LogQueue.Get` | ARM.py:58 | the front element is removed and returned |
| `Persistence.CsvLog.Open` | ARM.py:19-22 | a new log file holds just the header row; an existing one is kept as it is |
| `Persistence.CsvLog.Append` | ARM.py:68-70 | a row is appended at the end of the file |
| `Persistence.LogWorker` | ARM.py:56-75 | the log gains the rows of the entries before the first sentinel, in queue order; the queue keeps only what followed the sentinel; the worker stops exactly when there was a sentinel |
| `Persistence.DrainsInOrder` | ARM.py:57-70 | N entries followed by the sentinel give exactly N rows, row i from entry i, and whatever follows the sentinel is never written |
| `Persistence.DrainsAllWithoutStop` | ARM.py:57-70 | without a sentinel every entry gets its row, in order, and the queue is emptied |
| `Text.Split` | ARM.py:97 | at least one field, no field containing the separator, and joining the fields gives the line back |
| `Text.SplitJoin` | ARM.py:97 | splitting a join of separator-free fields gives those fields back |
| `Text.Take` | ARM.py:100-101 | `s[:n]` is the first `n` characters, or all of a shorter `s` |
| `Text.Drop` | ARM.py:100-101 | `s[:n] + s[n:]` is `s` |
| `Gps.Classify` | ARM.py:96-111 | a line without `$GPGGA` is ignored; otherwise "no fix" exactly when field 2 is empty or field 4 exists and is empty; an error when field 2 is missing, or non-empty with field 4 missing; a fix splits field 2 at 2 and field 4 at 3 characters into number parts, and non-empty fields 2 and 4 whose four parts are numbers always give that fix |
| `Gps.GpsReader.constructor` | ARM.py:84-85 | the snapshot starts as "No Satellite" |
| `Gps.GpsReader.Run` | ARM.py:87-111 | the snapshot is the trace of the events, or the error state when the port does not open; the reader stops exactly on a failed open or on the first fatal event |
| `Gps.ErrorIsFinal` | ARM.py:109-111 | once a fatal event has occurred, nothing after it changes the error state |
| `Gps.TraceAppend` | ARM.py:93-107 | handling two batches in turn is handling them together, as long as the first does not end the reader |
| `Gps.IgnoredLinesKeepSnapshot` | ARM.py:96 | lines without the GGA marker leave the snapshot unchanged |
| `Gps.LatestSentenceDecides` | ARM.py:96-107 | after non-fatal events, a GGA line with a fix or an empty field decides the snapshot, whatever came before |
| `GpsExamples.FixSentence` | ARM.py:96-104 | `$GPGGA,123519,4807.038,N,01131.000,E,1` gives the fix 48° 07.038′, 011° 31.000′ |
| `GpsExamples.EmptyFieldsSentence` | ARM.py:99-107 | a GGA sentence with empty position fields means no satellite fix |
| `GpsExamples.ShortSentences` | ARM.py:97-111 | too short for field 2 is an error; an empty field 2 is "no fix" even on a short line; a non-empty field 2 without field 4 is an error |

## Left out

- Model loading, inference and box extraction (YOLO). Detections are an input sequence of `(label, cx, cy)`.
- Camera capture, drawing, window display, key handling and `cv2.imwrite`. These are device and image I/O; the image buffer and its deep copy travel with no entry here.
- The frame-rate computation and display, which are floating point and display only.
- Threads, daemon start-up, and the blocking of `Queue.get` and `task_done`. The queue is a sequence processed in order, and an empty queue ends a drain.
- Opening the serial port, `readline` and UTF-8 decoding. These are device I/O; the port is a flag plus a sequence of decoded lines or failed reads.
- The decimal conversion `deg + min/60` and its six-decimal formatting, which are floating point. A fix keeps its degree and minute strings.
- The file-system check for an existing log file and the file appends themselves. The log is a row sequence, and the existence check is an input to `CsvLog.Open`.
- `FrameSelection.ProcessFrame` reads the clock once per frame. The source reads it in every `is_new_detection` call of the scan; only the call that records a sighting stores its time.
- The interleaving between the GPS thread and the main loop. The coordinates stored with an entry are parameters of `ProcessFrame`.
- Printing to the console.
