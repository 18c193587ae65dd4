/**
 * URLSessionManager.swift: the download coordinator. It holds one batch of
 * items, starts a transfer per item, retries a failed transfer a bounded
 * number of times, and reports each item that finished or was given up.
 *
 * The transport itself is outside the model: a task is an identifier plus the
 * URL and resume data it was created from, and the transport's callbacks are
 * the methods `DidCompleteWithError` and `DidFinishDownloading`. Reporting an
 * item to the delegate is the last thing those callbacks do, so here they
 * return the item to report and the orchestrator handles it.
 */
module Sessions {
  import opened Wrappers
  import opened Configurations
  import opened FileSystemModel
  import opened DownloadItems

  /** `NSURLErrorCancelled`. */
  const CancelledErrorCode: int := -999

  /** A transport failure: its error code and, when the transfer can be resumed, the resume data. */
  datatype TransportError = TransportError(code: int, resumeData: Option<seq<int>>)

  /** The part of an item that the retry policy changes. */
  datatype TransferState = TransferState(
    status: DownloadStatus,
    retryCount: int,
    catalogError: Option<CatalogError>,
    task: Option<Task>)

  /** The resume data a retry starts from: present iff the failure carried some. */
  function ResumeFrom(error: Option<TransportError>): Option<seq<int>> {
    if error.Some? && error.value.resumeData.Some? then error.value.resumeData else None
  }

  /** The error an item that ran out of retries ends with. */
  function ExhaustedError(fileType: FileType): CatalogError {
    if fileType == Image then ImageSaveError else DownloadError
  }

  /**
   * `retryDownloadTask` on the transfer state: below the budget a new task is
   * started (resuming when possible) and one more retry is counted; at the
   * budget the item fails.
   */
  function RetryOutcome(st: TransferState, fileType: FileType, url: Url, error: Option<TransportError>, newId: nat)
    : TransferState
  {
    if st.retryCount < MaxRetryRequest - 1 then
      st.(retryCount := st.retryCount + 1, task := Some(Task(newId, url, ResumeFrom(error))))
    else
      st.(status := Error, task := None, catalogError := Some(ExhaustedError(fileType)))
  }

  /** One retry: below the budget it counts exactly one more attempt and keeps the status; at the budget it fails the item with the kind-specific error and no task. Either way the count stays within the budget. */
  lemma RetryStep(st: TransferState, fileType: FileType, url: Url, error: Option<TransportError>, newId: nat)
    requires 0 <= st.retryCount <= MaxRetryRequest - 1
    ensures var r := RetryOutcome(st, fileType, url, error, newId);
      && 0 <= r.retryCount <= MaxRetryRequest - 1
      && (st.retryCount < MaxRetryRequest - 1 ==>
            r.retryCount == st.retryCount + 1 && r.status == st.status && r.catalogError == st.catalogError
            && r.task == Some(Task(newId, url, ResumeFrom(error))))
      && (st.retryCount == MaxRetryRequest - 1 ==>
            r.status == Error && r.task == None && r.retryCount == st.retryCount
            && (r.catalogError == Some(ImageSaveError) <==> fileType == Image)
            && (r.catalogError == Some(DownloadError) <==> fileType != Image))
  {
  }

  /** The state after `n` consecutive failed attempts were each handed to the retry policy (task ids counted up from `firstId`). */
  function AfterFailures(st: TransferState, fileType: FileType, url: Url, n: nat, firstId: nat): TransferState
    decreases n
  {
    if n == 0 then st
    else RetryOutcome(AfterFailures(st, fileType, url, n - 1, firstId), fileType, url, None, firstId + n - 1)
  }

  /** The state of a freshly started transfer. */
  predicate Started(st: TransferState) {
    st.status == InProgress && st.retryCount == 0 && st.catalogError == None && st.task.Some?
  }

  /** Before the budget is used up, `n` failures leave the item in flight having counted `n` retries. */
  lemma {:induction false} FailuresBelowBudget(st: TransferState, fileType: FileType, url: Url, n: nat, firstId: nat)
    requires Started(st) && n < MaxRetryRequest
    ensures var r := AfterFailures(st, fileType, url, n, firstId);
      r.status == InProgress && r.retryCount == n && r.catalogError == None && r.task.Some?
  {
    if n > 0 {
      FailuresBelowBudget(st, fileType, url, n - 1, firstId);
    }
  }

  /** An item fails on its `MaxRetryRequest`-th consecutive failure, not before, with the error its kind calls for. */
  lemma FailsOnLastAttempt(st: TransferState, fileType: FileType, url: Url, firstId: nat)
    requires Started(st)
    ensures var r := AfterFailures(st, fileType, url, MaxRetryRequest, firstId);
      r.status == Error && r.task == None && r.catalogError == Some(ExhaustedError(fileType))
    ensures forall n :: 0 <= n < MaxRetryRequest ==> AfterFailures(st, fileType, url, n, firstId).status != Error
  {
    FailuresBelowBudget(st, fileType, url, MaxRetryRequest - 1, firstId);
    forall n | 0 <= n < MaxRetryRequest
      ensures AfterFailures(st, fileType, url, n, firstId).status != Error
    {
      FailuresBelowBudget(st, fileType, url, n, firstId);
    }
  }

  function Transfer(item: DownloadItem): TransferState
    reads item
  {
    TransferState(item.status, item.retryCount, item.catalogError, item.downloadTask)
  }

  /** The index of the first item whose current task is `task`, or -1. */
  function FirstWithTask(items: seq<DownloadItem>, task: Task): (k: int)
    reads items
    ensures -1 <= k < |items|
    ensures k >= 0 ==> items[k].downloadTask == Some(task)
    ensures forall j :: 0 <= j < |items| && (k < 0 || j < k) ==> items[j].downloadTask != Some(task)
  {
    if |items| == 0 then -1
    else if items[0].downloadTask == Some(task) then 0
    else var k := FirstWithTask(items[1..], task); if k < 0 then -1 else k + 1
  }

  /** The index of the first item fetched from `url`, or -1. */
  function FirstWithUrl(items: seq<DownloadItem>, url: Url): (k: int)
    ensures -1 <= k < |items|
    ensures k >= 0 ==> items[k].url == url
    ensures forall j :: 0 <= j < |items| && (k < 0 || j < k) ==> items[j].url != url
  {
    if |items| == 0 then -1
    else if items[0].url == url then 0
    else var k := FirstWithUrl(items[1..], url); if k < 0 then -1 else k + 1
  }

  /** The item a task callback may affect: at most the first in the batch whose task matches. */
  function TaskTarget(items: seq<DownloadItem>, task: Task): set<DownloadItem>
    reads items
  {
    var k := FirstWithTask(items, task);
    if k < 0 then {} else {items[k]}
  }

  /** The item a finished-download callback may affect: at most the first in the batch with that URL. */
  function UrlTarget(items: seq<DownloadItem>, url: Url): set<DownloadItem> {
    var k := FirstWithUrl(items, url);
    if k < 0 then {} else {items[k]}
  }

  /** A callback's error is acted on only when present and not a cancellation. */
  predicate Actionable(error: Option<TransportError>) {
    error.Some? && error.value.code != CancelledErrorCode
  }

  /** An empty batch (as after `Cancel`) offers no item to any callback. */
  lemma NothingMatchesEmptyBatch(task: Task)
    ensures TaskTarget([], task) == {} && UrlTarget([], task.url) == {}
  {
  }

  class URLSessionManager {
    /** The batch being downloaded. */
    var downloadItems: seq<DownloadItem>
    /** The next transport task identifier. */
    var nextTaskId: nat

    constructor ()
      ensures downloadItems == []
    {
      downloadItems := [];
      nextTaskId := 0;
    }

    /** `addDownloadTask`: marks the item in flight and starts a transfer from its URL. */
    method AddDownloadTask(item: DownloadItem, now: int)
      modifies this, item
      ensures downloadItems == old(downloadItems) && nextTaskId == old(nextTaskId) + 1
      ensures item.status == InProgress && item.startTime == Some(now)
      ensures item.downloadTask == Some(Task(old(nextTaskId), item.url, None))
      ensures item.retryCount == old(item.retryCount) && item.catalogError == old(item.catalogError)
      ensures item.fileName == old(item.fileName) && item.location == old(item.location)
      ensures item.endTime == old(item.endTime)
    {
      item.status := InProgress;
      item.startTime := Some(now);
      item.downloadTask := Some(Task(nextTaskId, item.url, None));
      nextTaskId := nextTaskId + 1;
    }

    /** `download`: takes exactly the given batch and puts every item in flight. */
    method Download(items: seq<DownloadItem>, now: int)
      modifies this, set i | i in items
      ensures downloadItems == items
      ensures nextTaskId >= old(nextTaskId)
      ensures forall i :: i in items ==>
        && i.status == InProgress && i.startTime == Some(now)
        && i.downloadTask.Some? && i.downloadTask.value.url == i.url && i.downloadTask.value.resumeFrom == None
        && i.retryCount == old(i.retryCount) && i.catalogError == old(i.catalogError)
        && i.fileName == old(i.fileName) && i.location == old(i.location) && i.endTime == old(i.endTime)
    {
      downloadItems := items;
      var n := 0;
      while n < |items|
        invariant 0 <= n <= |items|
        invariant downloadItems == items && nextTaskId >= old(nextTaskId)
        invariant forall i :: i in items ==>
          && i.retryCount == old(i.retryCount) && i.catalogError == old(i.catalogError)
          && i.fileName == old(i.fileName) && i.location == old(i.location) && i.endTime == old(i.endTime)
        invariant forall j :: 0 <= j < n ==>
          && items[j].status == InProgress && items[j].startTime == Some(now)
          && items[j].downloadTask.Some? && items[j].downloadTask.value.url == items[j].url
          && items[j].downloadTask.value.resumeFrom == None
      {
        AddDownloadTask(items[n], now);
        n := n + 1;
      }
    }

    /** `cancel`: drops the batch; cancelling the transport's tasks is not modelled. */
    method Cancel()
      modifies this
      ensures downloadItems == [] && nextTaskId == old(nextTaskId)
    {
      downloadItems := [];
    }

    /**
     * `retryDownloadTask`: applies the retry policy to the item. `reported`
     * says whether the item was given up and must be reported.
     */
    method RetryDownloadTask(item: DownloadItem, error: Option<TransportError>) returns (reported: bool)
      modifies this, item
      ensures Transfer(item) == RetryOutcome(old(Transfer(item)), item.fileType, item.url, error, old(nextTaskId))
      ensures reported <==> !(old(item.retryCount) < MaxRetryRequest - 1)
      ensures downloadItems == old(downloadItems)
      ensures item.fileName == old(item.fileName) && item.location == old(item.location)
      ensures item.startTime == old(item.startTime) && item.endTime == old(item.endTime)
    {
      if item.retryCount < MaxRetryRequest - 1 {
        if error.Some? {
          if error.value.resumeData.Some? {
            item.downloadTask := Some(Task(nextTaskId, item.url, error.value.resumeData));
          } else {
            item.downloadTask := Some(Task(nextTaskId, item.url, None));
          }
        } else {
          item.downloadTask := Some(Task(nextTaskId, item.url, None));
        }
        nextTaskId := nextTaskId + 1;
        item.retryCount := item.retryCount + 1;
        reported := false;
      } else {
        item.status := Error;
        item.downloadTask := None;
        item.catalogError := Some(if item.fileType == Image then ImageSaveError else DownloadError);
        reported := true;
      }
    }

    /**
     * `urlSession(_:task:didCompleteWithError:)`: an actionable error sends
     * the first item running `task` through the retry policy; it returns that
     * item when it was given up. No other item is touched.
     */
    method DidCompleteWithError(task: Task, error: Option<TransportError>) returns (reported: Option<DownloadItem>)
      modifies this, TaskTarget(downloadItems, task)
      ensures downloadItems == old(downloadItems)
      ensures !Actionable(error) || old(FirstWithTask(downloadItems, task)) < 0 ==>
        reported == None && nextTaskId == old(nextTaskId)
      ensures !Actionable(error) && old(FirstWithTask(downloadItems, task)) >= 0 ==>
        unchanged(downloadItems[old(FirstWithTask(downloadItems, task))])
      ensures Actionable(error) && old(FirstWithTask(downloadItems, task)) >= 0 ==>
        var item := downloadItems[old(FirstWithTask(downloadItems, task))];
        && Transfer(item) == RetryOutcome(old(Transfer(item)), item.fileType, item.url, error, old(nextTaskId))
        && item.fileName == old(item.fileName) && item.location == old(item.location)
        && item.startTime == old(item.startTime) && item.endTime == old(item.endTime)
        && (reported == Some(item) <==> !(old(item.retryCount) < MaxRetryRequest - 1))
        && (reported.Some? ==> reported == Some(item))
    {
      reported := None;
      if error.Some? && error.value.code != CancelledErrorCode {
        var k := FirstWithTask(downloadItems, task);
        if k >= 0 {
          var item := downloadItems[k];
          var exhausted := RetryDownloadTask(item, error);
          if exhausted {
            reported := Some(item);
          }
        }
      }
    }

    /**
     * `urlSession(_:downloadTask:didFinishDownloadingTo:)`: the first item
     * fetched from the download task's URL saves the file; if it is valid the item
     * completes and is returned, otherwise the retry policy runs as for a
     * failure without resume data. `decodes` is the image decoder's verdict.
     */
    method DidFinishDownloading(task: Task, fromLocation: Path, fs: FileSystem, decodes: bool, now: int)
      returns (reported: Option<DownloadItem>)
      modifies this, UrlTarget(downloadItems, task.url), fs
      ensures downloadItems == old(downloadItems)
      ensures fs.locked == old(fs.locked)
      ensures old(FirstWithUrl(downloadItems, task.url)) < 0 ==>
        reported == None && nextTaskId == old(nextTaskId) && fs.nodes == old(fs.nodes)
      ensures old(FirstWithUrl(downloadItems, task.url)) >= 0 ==>
        var item := downloadItems[old(FirstWithUrl(downloadItems, task.url))];
        && item.fileName == old(item.fileName) && item.location == old(item.location)
        && fs.nodes == Received(old(fs.nodes), fs.locked, fromLocation, item.location, item.fileType == Image && !decodes)
        && (item.fileType != Image || decodes ==>
              && item.status == Completed && item.downloadTask == None && item.endTime == Some(now)
              && item.retryCount == old(item.retryCount) && item.catalogError == old(item.catalogError)
              && reported == Some(item))
        && (item.fileType == Image && !decodes ==>
              && Transfer(item) == RetryOutcome(old(Transfer(item)), Image, item.url, None, old(nextTaskId))
              && (reported == Some(item) <==> !(old(item.retryCount) < MaxRetryRequest - 1))
              && (reported.Some? ==> reported == Some(item)))
    {
      reported := None;
      var k := FirstWithUrl(downloadItems, task.url);
      if k >= 0 {
        var item := downloadItems[k];
        item.SaveItem(fs, fromLocation);
        var valid := item.IsValid(fs, decodes);
        if valid {
          item.downloadTask := None;
          item.status := Completed;
          item.endTime := Some(now);
          reported := Some(item);
        } else {
          var exhausted := RetryDownloadTask(item, None);
          if exhausted {
            reported := Some(item);
          }
        }
      }
    }
  }
}
