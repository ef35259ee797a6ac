/**
 * The batch: the csv-parse handlers (main.js:118-136) fill the module-level
 * queue `bookIdsToDownload`, then `getAWSBookData` (main.js:81-101) walks it
 * in index order, looks each id up with `getBookDataById` (main.js:103-114)
 * and downloads it, collecting in `failedIds` every id whose download stage
 * threw.
 *
 * The module-level variables become the fields of a `Downloader`; the
 * database and S3 become the functions of a `Services` value, asked with
 * the queue position so that each call may answer differently.
 */
module Downloader {
  import opened Wrappers
  import opened BookIds
  import opened S3Download

  /** What `getBookDataById` gives: `book[0]`, `undefined` (no row), or a rejected query. */
  datatype Lookup = Found(record: BookRecord) | NotFound | QueryError

  /**
   * The outside services: the database lookup and the S3 fetch (None when
   * `getObject` rejects), each asked with the queue position, and whether
   * the `book_downloads` folder exists.
   */
  datatype Services = Services(
    resolve: (nat, Option<string>) -> Lookup,
    fetch: (nat, string, string) -> Option<string>,
    dirExists: bool)

  /** What the csv-parse stream delivers: all rows, or the rows read before the parser reported an error. */
  datatype CsvInput = Parsed(rows: seq<Row>) | Broken(rows: seq<Row>)

  /** One pass of the loop body: it rejects (ends the loop), or it is done, failed or not. */
  datatype Item = Aborted | Processed(failed: bool, events: seq<Event>) {
    /** What the pass did to the outside world: nothing when it rejected. */
    function Effects(): seq<Event> {
      if Processed? then events else []
    }
  }

  /** The loop body at position i: the lookup is outside the `try`, the rest inside it. */
  function ProcessItem(bucket: string, queue: seq<Option<string>>, i: nat, svc: Services): (r: Item)
    requires i < |queue|
    ensures r.Aborted? <==> svc.resolve(i, queue[i]).QueryError?
    ensures svc.resolve(i, queue[i]).NotFound? ==> r == Processed(true, [])
  {
    match svc.resolve(i, queue[i])
    case QueryError => Aborted
    case NotFound => Processed(true, [])    // `bookData.title` of undefined throws
    case Found(rec) =>
      var d := DownloadBook(bucket, rec.title, rec.assetId, rec.kind, i, |queue|, svc.fetch, svc.dirExists);
      Processed(d.threw, d.events)
  }

  predicate ItemFails(bucket: string, queue: seq<Option<string>>, i: nat, svc: Services)
    requires i < |queue|
  {
    var item := ProcessItem(bucket, queue, i, svc);
    item.Processed? && item.failed
  }

  /**
   * Where the loop stops when started at `from`: the first position whose
   * lookup rejects, or the end of the queue.
   */
  function StopIndex(queue: seq<Option<string>>, svc: Services, from: nat): (k: nat)
    requires from <= |queue|
    decreases |queue| - from
    ensures from <= k <= |queue|
    ensures forall j :: from <= j < k ==> !svc.resolve(j, queue[j]).QueryError?
    ensures k < |queue| ==> svc.resolve(k, queue[k]).QueryError?
  {
    if from == |queue| || svc.resolve(from, queue[from]).QueryError? then from
    else StopIndex(queue, svc, from + 1)
  }

  /** The ids added to `failedIds` by the first n positions, in queue order. */
  function FailedIds(bucket: string, queue: seq<Option<string>>, n: nat, svc: Services): seq<Option<string>>
    requires n <= |queue|
  {
    if n == 0 then []
    else FailedIds(bucket, queue, n - 1, svc) +
         (if ItemFails(bucket, queue, n - 1, svc) then [queue[n - 1]] else [])
  }

  /** The events of the first n positions, in queue order. */
  function Trace(bucket: string, queue: seq<Option<string>>, n: nat, svc: Services): seq<Event>
    requires n <= |queue|
  {
    if n == 0 then []
    else Trace(bucket, queue, n - 1, svc) + ProcessItem(bucket, queue, n - 1, svc).Effects()
  }

  /** The end of the run: the completion message, then the failures if there are any. */
  function Summary(failed: seq<Option<string>>): (s: seq<Event>)
    ensures 1 <= |s| <= 2 && s[0] == AllDone
    ensures |s| == 2 <==> failed != []
    ensures |s| == 1 || s[1] == PartialFailure(failed)
  {
    [AllDone] + (if failed == [] then [] else [PartialFailure(failed)])
  }

  /**
   * The positions among the first n whose download stage threw, increasing.
   */
  function FailingPositions(bucket: string, queue: seq<Option<string>>, n: nat, svc: Services): (ps: seq<nat>)
    requires n <= |queue|
    ensures forall k :: 0 <= k < |ps| ==> ps[k] < n
    ensures forall a, b :: 0 <= a < b < |ps| ==> ps[a] < ps[b]
    ensures forall j :: 0 <= j < n ==> (j in ps <==> ItemFails(bucket, queue, j, svc))
  {
    if n == 0 then []
    else FailingPositions(bucket, queue, n - 1, svc) +
         (if ItemFails(bucket, queue, n - 1, svc) then [n - 1] else [])
  }

  /**
   * `failedIds` is the subsequence of the queue at the failing positions:
   * queue order, duplicates kept, and nothing else.
   */
  lemma {:induction false} FailedIdsAtFailingPositions(bucket: string, queue: seq<Option<string>>, n: nat, svc: Services)
    requires n <= |queue|
    ensures var ps := FailingPositions(bucket, queue, n, svc);
            var ids := FailedIds(bucket, queue, n, svc);
            |ids| == |ps| && forall k :: 0 <= k < |ps| ==> ids[k] == queue[ps[k]]
  {
    if n > 0 {
      FailedIdsAtFailingPositions(bucket, queue, n - 1, svc);
    }
  }

  /** An item fails exactly when there is no record, the fetch rejects or the title is NULL. */
  lemma FailsIff(bucket: string, queue: seq<Option<string>>, i: nat, svc: Services)
    requires i < |queue| && !svc.resolve(i, queue[i]).QueryError?
    ensures ItemFails(bucket, queue, i, svc) <==>
      match svc.resolve(i, queue[i])
      case Found(rec) =>
        svc.fetch(i, ObjectBucket(bucket, rec.assetId), ObjectKey(rec.kind)).None? || rec.title.None?
      case _ => true
  {
  }

  /** How many times the events ask S3 for an object. */
  function GetObjectCount(events: seq<Event>): nat {
    if events == [] then 0
    else GetObjectCount(events[..|events| - 1]) + (if events[|events| - 1].GetObject? then 1 else 0)
  }

  /** One position asks S3 once if its lookup found a record, and not at all otherwise. */
  lemma ItemFetches(bucket: string, queue: seq<Option<string>>, i: nat, svc: Services)
    requires i < |queue|
    ensures GetObjectCount(ProcessItem(bucket, queue, i, svc).Effects()) ==
            if svc.resolve(i, queue[i]).Found? then 1 else 0
  {
    match svc.resolve(i, queue[i])
    case Found(rec) =>
      OneGetObject(DownloadBook(bucket, rec.title, rec.assetId, rec.kind, i, |queue|, svc.fetch, svc.dirExists).events);
    case _ =>
  }

  /** A list of events whose only GetObject is its first element holds one GetObject. */
  lemma {:induction false} OneGetObject(d: seq<Event>)
    requires d != [] && d[0].GetObject?
    requires forall k :: 1 <= k < |d| ==> !d[k].GetObject?
    ensures GetObjectCount(d) == 1
    decreases |d|
  {
    if |d| > 1 {
      OneGetObject(d[..|d| - 1]);
    }
  }

  /** One more position: a rejected lookup is where the loop stops, any other answer lets it go on. */
  lemma NextStop(queue: seq<Option<string>>, i: nat, svc: Services)
    requires i < |queue| && i <= StopIndex(queue, svc, 0)
    ensures svc.resolve(i, queue[i]).QueryError? ==> StopIndex(queue, svc, 0) == i
    ensures !svc.resolve(i, queue[i]).QueryError? ==> i + 1 <= StopIndex(queue, svc, 0)
  {
  }

  /** One more position: the failures gathered after `failed0` grow by that position's id if it failed. */
  lemma NextFailed(bucket: string, queue: seq<Option<string>>, i: nat, svc: Services, failed0: seq<Option<string>>)
    requires i < |queue|
    ensures ItemFails(bucket, queue, i, svc) ==>
              failed0 + FailedIds(bucket, queue, i + 1, svc) == failed0 + FailedIds(bucket, queue, i, svc) + [queue[i]]
    ensures !ItemFails(bucket, queue, i, svc) ==>
              failed0 + FailedIds(bucket, queue, i + 1, svc) == failed0 + FailedIds(bucket, queue, i, svc)
  {
    AppendAssoc(failed0, FailedIds(bucket, queue, i, svc), [queue[i]]);
    assert FailedIds(bucket, queue, i, svc) + [] == FailedIds(bucket, queue, i, svc);
  }

  /** One more position: the events gathered after `log0` grow by that position's. */
  lemma NextTrace(bucket: string, queue: seq<Option<string>>, i: nat, svc: Services, log0: seq<Event>)
    requires i < |queue|
    ensures var effects := ProcessItem(bucket, queue, i, svc).Effects();
            log0 + Trace(bucket, queue, i + 1, svc) == log0 + Trace(bucket, queue, i, svc) + effects &&
            (effects == [] ==> log0 + Trace(bucket, queue, i + 1, svc) == log0 + Trace(bucket, queue, i, svc))
  {
    var effects := ProcessItem(bucket, queue, i, svc).Effects();
    AppendAssoc(log0, Trace(bucket, queue, i, svc), effects);
    assert Trace(bucket, queue, i, svc) + [] == Trace(bucket, queue, i, svc);
  }

  lemma AppendAssoc<T>(a: seq<T>, b: seq<T>, c: seq<T>)
    ensures a + (b + c) == (a + b) + c
  {
  }

  class Downloader {
    /** `process.env.AWS_BUCKET`. */
    const bucket: string
    /** `bookIdsToDownload`. */
    var queue: seq<Option<string>>
    /** `failedIds`. */
    var failed: seq<Option<string>>
    /** Everything the run has done to the outside world so far. */
    var log: seq<Event>

    constructor (bucket: string)
      ensures this.bucket == bucket
      ensures queue == [] && failed == [] && log == []
    {
      this.bucket := bucket;
      queue, failed, log := [], [], [];
    }

    /** The csv-parse `data` handler: push the ids of fields 1 and 6 of the row. */
    method OnRow(row: Row)
      modifies this`queue
      ensures queue == old(queue) + RowIds(row)
    {
      if HasPath(row, 1) {
        queue := queue + [FindBookId(row[1])];
      }
      if HasPath(row, 6) {
        queue := queue + [FindBookId(row[6])];
      }
    }

    /** The stream delivers its rows one `data` event at a time, in file order. */
    method ReadRows(rows: seq<Row>)
      modifies this`queue
      ensures queue == old(queue) + QueueOf(rows)
    {
      var i := 0;
      while i < |rows|
        invariant 0 <= i <= |rows|
        invariant queue == old(queue) + QueueOf(rows[..i])
      {
        QueueOfAppend(rows[..i], [rows[i]]);
        assert rows[..i + 1] == rows[..i] + [rows[i]];
        assert QueueOf([rows[i]]) == RowIds(rows[i]) by {
          assert [rows[i]][..0] == [];
        }
        OnRow(rows[i]);
        i := i + 1;
      }
      assert rows[..i] == rows;
    }

    /**
     * `downloadBookFromS3(bookTitle, asset_id, type, index)`: returns whether
     * it threw; its effects are appended to the log.
     */
    method DownloadBookFromS3(title: Option<string>, assetId: string, kind: string, index: nat, svc: Services)
      returns (threw: bool)
      modifies this`log
      ensures var d := DownloadBook(bucket, title, assetId, kind, index, |queue|, svc.fetch, svc.dirExists);
              threw == d.threw && log == old(log) + d.events
    {
      var params := GetObject(ObjectBucket(bucket, assetId), ObjectKey(kind));
      var body := svc.fetch(index, params.bucket, params.key);
      if body.None? || title.None? {
        // `getObject` rejected, or `removeSpaces(null)` threw
        log := log + [params];
        return true;
      }
      var fileName := FileName(title.value, kind);
      var write: Event;
      if kind != "pdf" {
        write := WriteDocx(fileName, HtmlText.Normalize(body.value));
      } else {
        write := WritePdf(fileName, body.value);
      }
      var events := [params, write, Progress(index + 1, |queue|)];
      if kind == "pdf" && !svc.dirExists {
        // the write callback runs after the progress line and only logs the error
        events := events + [FolderMissing];
      }
      log := log + events;
      threw := false;
    }

    /**
     * `getAWSBookData()`: every position in index order up to the first
     * lookup that rejects. A rejected lookup ends the loop and skips the
     * summary; a throwing download only records the id and goes on.
     */
    method GetAWSBookData(svc: Services) returns (completed: bool)
      modifies this`failed, this`log
      ensures var stop := StopIndex(queue, svc, 0);
              completed == (stop == |queue|) &&
              failed == old(failed) + FailedIds(bucket, queue, stop, svc)
      ensures completed ==> log == old(log) + Trace(bucket, queue, |queue|, svc) + Summary(failed)
      ensures !completed ==> log == old(log) + Trace(bucket, queue, StopIndex(queue, svc, 0), svc)
    {
      var i := 0;
      while i < |queue|
        invariant i <= StopIndex(queue, svc, 0)
        invariant failed == old(failed) + FailedIds(bucket, queue, i, svc)
        invariant log == old(log) + Trace(bucket, queue, i, svc)
      {
        var aborted := DownloadAt(i, svc, old(failed), old(log));
        if aborted {
          return false;
        }
        i := i + 1;
      }
      log := log + Summary(failed);
      return true;
    }

    /**
     * One pass of the loop body of `getAWSBookData`, at position i: a
     * rejected lookup stops the loop; otherwise the failures and the log
     * grow by that position's.
     */
    method DownloadAt(i: nat, svc: Services, ghost failed0: seq<Option<string>>, ghost log0: seq<Event>)
      returns (aborted: bool)
      requires i < |queue| && i <= StopIndex(queue, svc, 0)
      requires failed == failed0 + FailedIds(bucket, queue, i, svc)
      requires log == log0 + Trace(bucket, queue, i, svc)
      modifies this`failed, this`log
      ensures aborted ==> StopIndex(queue, svc, 0) == i && failed == old(failed) && log == old(log)
      ensures !aborted ==> i + 1 <= StopIndex(queue, svc, 0) &&
                           failed == failed0 + FailedIds(bucket, queue, i + 1, svc) &&
                           log == log0 + Trace(bucket, queue, i + 1, svc)
    {
      NextStop(queue, i, svc);
      NextFailed(bucket, queue, i, svc, failed0);
      NextTrace(bucket, queue, i, svc, log0);
      var bookId := queue[i];
      var bookData := svc.resolve(i, bookId);
      if bookData.QueryError? {
        return true;
      }
      aborted := false;
      if bookData.NotFound? {
        failed := failed + [queue[i]];
      } else {
        var rec := bookData.record;
        var threw := DownloadBookFromS3(rec.title, rec.assetId, rec.kind, i, svc);
        if threw {
          failed := failed + [queue[i]];
        }
      }
    }

    /**
     * The whole run: the `data` handler for every row, then either the
     * `error` handler or the `end` handler, which starts the downloads.
     */
    method Run(csv: CsvInput, svc: Services) returns (completed: bool)
      modifies this`queue, this`failed, this`log
      ensures queue == old(queue) + QueueOf(csv.rows)
      ensures csv.Broken? ==> !completed && failed == old(failed) && log == old(log) + [CsvReadFailed]
      ensures csv.Parsed? ==>
        var stop := StopIndex(queue, svc, 0);
        completed == (stop == |queue|) &&
        failed == old(failed) + FailedIds(bucket, queue, stop, svc) &&
        (completed ==> log == old(log) + [CsvRead] + Trace(bucket, queue, |queue|, svc) + Summary(failed)) &&
        (!completed ==> log == old(log) + [CsvRead] + Trace(bucket, queue, stop, svc))
    {
      ReadRows(csv.rows);
      if csv.Broken? {
        log := log + [CsvReadFailed];
        return false;
      }
      log := log + [CsvRead];
      completed := GetAWSBookData(svc);
    }
  }
}
