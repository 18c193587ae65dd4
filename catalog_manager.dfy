/**
 * CatalogManager.swift: the sync orchestrator. A sync of one catalog version
 * first downloads the packaged database and, for a full sync, every image
 * archive; a delta sync then diffs the staged database against the
 * installed one and downloads the new images. When nothing remains the
 * staged files are installed. Any failure except a single image's is fatal.
 *
 * The environment's answers during a call (URL parsing, the databases' rows
 * and open outcomes, the archive library's verdict, the clock and a fresh
 * UUID) are the parameter `env`. Callbacks to the delegate are appended to
 * the log `notifications`, in the order they are issued.
 */
module Catalog {
  import opened Wrappers
  import opened Configurations
  import opened FileSystemModel
  import opened FileManagerUtility
  import opened DownloadItems
  import opened CatalogDatabase
  import opened ProductImages
  import opened Sessions

  /** CatalogItem.swift: the version to sync, its database archive URL and its image archive URLs. */
  datatype CatalogItem = CatalogItem(version: string, dataPathZip: string, imageUrls: seq<string>)

  /** A delegate callback. A failure carries the error's description as domain and its raw value as code. */
  datatype Notification =
    | DownloadStarted
    | DownloadProgress(percentageComplete: real)
    | DownloadFinished
    | DownloadFailed(domain: string, code: int)

  /** The failure callback for an error: its code identifies the error kind and its domain is never empty. */
  function FailureNotice(e: CatalogError): (n: Notification)
    ensures n.DownloadFailed? && FromRawValue(n.code) == Some(e) && |n.domain| > 0
  {
    RawValueRoundTrip(e, RawValue(e));
    DownloadFailed(Description(e), RawValue(e))
  }

  /** What the environment answers during one call. */
  datatype Env = Env(
    parse: string -> Option<Url>,
    tempRows: seq<Row>,
    currentRows: seq<Row>,
    tempOpenOk: bool,
    normalOpenOk: bool,
    sqliteUnzipped: bool,
    extracted: nat,
    now: int,
    uuid: string)

  // ---- Batches ----

  /** What an item is for: its kind and its URL. */
  datatype Planned = Planned(fileType: FileType, url: Url)

  /** The kinds and URLs of a batch, in order. */
  function Plan(items: seq<DownloadItem>): seq<Planned> {
    if |items| == 0 then []
    else Plan(items[..|items| - 1]) + [Planned(items[|items| - 1].fileType, items[|items| - 1].url)]
  }

  lemma {:induction false} PlanConcat(a: seq<DownloadItem>, b: seq<DownloadItem>)
    ensures Plan(a + b) == Plan(a) + Plan(b)
    decreases |b|
  {
    if |b| > 0 {
      var init := b[..|b| - 1];
      assert (a + b)[..|a + b| - 1] == a + init;
      PlanConcat(a, init);
    } else {
      assert a + b == a;
    }
  }

  lemma PlanAppend(items: seq<DownloadItem>, d: DownloadItem)
    ensures Plan(items + [d]) == Plan(items) + [Planned(d.fileType, d.url)]
  {
    assert (items + [d])[..|items|] == items;
  }

  /** The texts that parse as URLs, parsed, in order. */
  function ParsedUrls(texts: seq<string>, parse: string -> Option<Url>): seq<Url> {
    if |texts| == 0 then []
    else ParsedUrls(texts[..|texts| - 1], parse)
         + (if parse(texts[|texts| - 1]).Some? then [parse(texts[|texts| - 1]).value] else [])
  }

  /** A URL is kept iff some text parses to it, and nothing is added. */
  lemma {:induction false} ParsedUrlsExactly(texts: seq<string>, parse: string -> Option<Url>, u: Url)
    ensures u in ParsedUrls(texts, parse) <==> exists t :: t in texts && parse(t) == Some(u)
    ensures |ParsedUrls(texts, parse)| <= |texts|
  {
    if |texts| > 0 {
      var init := texts[..|texts| - 1];
      ParsedUrlsExactly(init, parse, u);
      assert texts == init + [texts[|texts| - 1]];
    }
  }

  /** Every text parses: then all are kept, in order. */
  lemma {:induction false} ParsedUrlsAllParse(texts: seq<string>, parse: string -> Option<Url>)
    requires forall t :: t in texts ==> parse(t).Some?
    ensures |ParsedUrls(texts, parse)| == |texts|
    ensures forall i :: 0 <= i < |texts| ==> ParsedUrls(texts, parse)[i] == parse(texts[i]).value
  {
    if |texts| > 0 {
      ParsedUrlsAllParse(texts[..|texts| - 1], parse);
    }
  }

  /** One image-archive item per URL. */
  function Archives(urls: seq<Url>): seq<Planned> {
    if |urls| == 0 then [] else Archives(urls[..|urls| - 1]) + [Planned(Zip, urls[|urls| - 1])]
  }

  lemma ArchivesAppend(urls: seq<Url>, u: Url)
    ensures Archives(urls + [u]) == Archives(urls) + [Planned(Zip, u)]
  {
    assert (urls + [u])[..|urls|] == urls;
  }

  lemma {:induction false} ArchivesExactly(urls: seq<Url>)
    ensures |Archives(urls)| == |urls|
    ensures forall i :: 0 <= i < |urls| ==> Archives(urls)[i] == Planned(Zip, urls[i])
  {
    if |urls| > 0 {
      ArchivesExactly(urls[..|urls| - 1]);
    }
  }

  /** The database item `start` plans: present iff the archive URL parses and no staged database exists. */
  function DatabaseItem(item: CatalogItem, parse: string -> Option<Url>, databaseStaged: bool): seq<Planned> {
    if parse(item.dataPathZip).Some? && !databaseStaged then [Planned(SQLiteZip, parse(item.dataPathZip).value)] else []
  }

  /** The batch `start` builds: the database item, then for a full sync one archive item per parseable image URL. */
  function InitialBatch(item: CatalogItem, fullSync: bool, parse: string -> Option<Url>, databaseStaged: bool): seq<Planned> {
    DatabaseItem(item, parse, databaseStaged) + (if fullSync then Archives(ParsedUrls(item.imageUrls, parse)) else [])
  }

  /**
   * The first batch holds the database item first exactly when the archive
   * URL parses and no database is staged; a full sync then holds an archive
   * item per parseable image URL in their order; a delta sync holds no image
   * item.
   */
  lemma InitialBatchShape(item: CatalogItem, fullSync: bool, parse: string -> Option<Url>, databaseStaged: bool)
    ensures var batch := InitialBatch(item, fullSync, parse, databaseStaged);
      var withDatabase := parse(item.dataPathZip).Some? && !databaseStaged;
      var offset := if withDatabase then 1 else 0;
      var images := ParsedUrls(item.imageUrls, parse);
      && |batch| == offset + (if fullSync then |images| else 0)
      && (withDatabase <==> |batch| > 0 && batch[0].fileType == SQLiteZip)
      && (withDatabase ==> batch[0].url == parse(item.dataPathZip).value)
      && (fullSync ==> forall i :: 0 <= i < |images| ==> batch[offset + i] == Planned(Zip, images[i]))
      && (!fullSync ==> forall p :: p in batch ==> p.fileType == SQLiteZip)
  {
    ArchivesExactly(ParsedUrls(item.imageUrls, parse));
  }

  /** The delta batch: an image item per parseable URL whose file is not already staged, in order. */
  function DeltaBatch(urls: seq<string>, parse: string -> Option<Url>, nodes: map<Path, Node>, root: Path, version: string)
    : seq<Planned>
  {
    if |urls| == 0 then []
    else
      var u := parse(urls[|urls| - 1]);
      DeltaBatch(urls[..|urls| - 1], parse, nodes, root, version)
      + (if u.Some? && TempImagesPath(root, version) + [LastPathComponent(u.value)] !in nodes
         then [Planned(Image, u.value)] else [])
  }

  /** A delta item exists for exactly the URLs that parse and whose image is not yet staged; all are images. */
  lemma {:induction false} DeltaBatchExactly(urls: seq<string>, parse: string -> Option<Url>, nodes: map<Path, Node>,
                                              root: Path, version: string, p: Planned)
    ensures p in DeltaBatch(urls, parse, nodes, root, version) <==>
      && p.fileType == Image
      && TempImagesPath(root, version) + [LastPathComponent(p.url)] !in nodes
      && exists t :: t in urls && parse(t) == Some(p.url)
    ensures |DeltaBatch(urls, parse, nodes, root, version)| <= |urls|
  {
    if |urls| > 0 {
      var init := urls[..|urls| - 1];
      DeltaBatchExactly(init, parse, nodes, root, version, p);
      assert urls == init + [urls[|urls| - 1]];
    }
  }

  // ---- Progress ----

  /** A status still to be waited for. The first batch also waits for archives being unpacked; the delta list does not. */
  predicate Pending(s: DownloadStatus, countProcessing: bool) {
    s == Active || s == InProgress || (countProcessing && s == Processing)
  }

  /** The number of pending statuses. */
  function Outstanding(st: seq<DownloadStatus>, countProcessing: bool): nat {
    if |st| == 0 then 0
    else Outstanding(st[..|st| - 1], countProcessing) + (if Pending(st[|st| - 1], countProcessing) then 1 else 0)
  }

  /** The count is at most the length, is zero iff nothing is pending and is the length iff everything is. */
  lemma {:induction false} OutstandingBounds(st: seq<DownloadStatus>, countProcessing: bool)
    ensures Outstanding(st, countProcessing) <= |st|
    ensures Outstanding(st, countProcessing) == 0 <==> forall i :: 0 <= i < |st| ==> !Pending(st[i], countProcessing)
    ensures Outstanding(st, countProcessing) == |st| <==> forall i :: 0 <= i < |st| ==> Pending(st[i], countProcessing)
  {
    if |st| > 0 {
      var init := st[..|st| - 1];
      OutstandingBounds(init, countProcessing);
      assert forall i :: 0 <= i < |init| ==> st[i] == init[i];
      if Outstanding(st, countProcessing) == |st| {
        assert Outstanding(init, countProcessing) == |init|;
      }
    }
  }

  /** The statuses of a batch, in order. */
  function Statuses(items: seq<DownloadItem>): (st: seq<DownloadStatus>)
    reads items
    ensures |st| == |items|
  {
    if |items| == 0 then [] else Statuses(items[..|items| - 1]) + [items[|items| - 1].status]
  }

  /** Each item's status sits at the item's own position. */
  lemma {:induction false} StatusesPointwise(items: seq<DownloadItem>)
    ensures forall i :: 0 <= i < |items| ==> Statuses(items)[i] == items[i].status
  {
    if |items| > 0 {
      var init := items[..|items| - 1];
      StatusesPointwise(init);
      assert forall i :: 0 <= i < |init| ==> items[i] == init[i];
    }
  }

  /** The statuses of the delta list, when there is one. */
  function DeltaStatuses(items: Option<seq<DownloadItem>>): Option<seq<DownloadStatus>>
    reads if items.Some? then items.value else []
  {
    if items.Some? then Some(Statuses(items.value)) else None
  }

  /** What `downloadCounts` returns. */
  datatype Counts = Counts(remainingItems: int, percentageComplete: real)

  /**
   * The progress formula. A full sync reports the completed share of its
   * batch (0 for an empty batch, where the division is not a number). A delta
   * sync reports one half before its image list exists, 1 when that list is
   * empty, and otherwise one half plus half the completed share of the list,
   * where what remains of the first batch is counted against the list too.
   */
  function CountsOf(fullSync: bool, main: seq<DownloadStatus>, delta: Option<seq<DownloadStatus>>): Counts {
    var remaining := Outstanding(main, true);
    if fullSync then
      Counts(remaining, if |main| == 0 then 0.0 else Share(|main| - remaining, |main|))
    else if delta.None? then
      Counts(remaining, 0.5)
    else if |delta.value| == 0 then
      Counts(remaining, 1.0)
    else
      var total := remaining + Outstanding(delta.value, false);
      Counts(total, 0.5 + Share(|delta.value| - total, |delta.value|) * 0.5)
  }

  /** The completed share of a batch (a `Float` division in the source). */
  function Share(done: int, total: int): real
    requires total > 0
  {
    done as real / total as real
  }

  /** A share of a positive total: not negative for a non-negative part, at most 1 for a part no larger than the total, and 1 exactly for the whole. */
  lemma ShareBounds(done: int, total: int)
    requires total > 0
    ensures 0 <= done ==> 0.0 <= Share(done, total)
    ensures done <= total ==> Share(done, total) <= 1.0
    ensures Share(done, total) == 1.0 <==> done == total
  {
    var x := done as real / total as real;
    var t := total as real;
    assert x * t == done as real;
    if x > 1.0 {
      assert (x - 1.0) * t > 0.0;
    }
    if x < 0.0 {
      assert -x * t > 0.0;
    }
  }

  /** One half plus half a share: at most 1, at least one half when the share is not negative, and 1 exactly when nothing remains. */
  lemma HalfPlusShare(count: int, remaining: int)
    requires count > 0 && remaining >= 0
    ensures var p := 0.5 + Share(count - remaining, count) * 0.5;
      && p <= 1.0
      && (remaining <= count ==> 0.5 <= p)
      && (p == 1.0 <==> remaining == 0)
  {
    ShareBounds(count - remaining, count);
  }

  /**
   * A full sync's progress lies in [0, 1]; an empty batch reports 0, and a
   * non-empty one reports 1 exactly when none of its items is pending. The
   * remaining count is the batch's pending items.
   */
  lemma FullSyncProgress(main: seq<DownloadStatus>, delta: Option<seq<DownloadStatus>>)
    ensures var c := CountsOf(true, main, delta);
      && c.remainingItems == Outstanding(main, true)
      && 0.0 <= c.percentageComplete <= 1.0
      && (|main| == 0 ==> c.percentageComplete == 0.0)
      && (c.percentageComplete == 1.0 <==> |main| > 0 && forall i :: 0 <= i < |main| ==> !Pending(main[i], true))
  {
    OutstandingBounds(main, true);
    if |main| > 0 {
      ShareBounds(|main| - Outstanding(main, true), |main|);
    }
  }

  /**
   * A delta sync's three phases: one half before the image list exists, 1
   * when the list is empty, and otherwise, once the first batch is done, a
   * value in [1/2, 1] that is 1 exactly when no listed image is pending.
   */
  lemma DeltaSyncProgress(main: seq<DownloadStatus>, delta: Option<seq<DownloadStatus>>)
    ensures var c := CountsOf(false, main, delta);
      && (delta.None? ==> c.percentageComplete == 0.5 && c.remainingItems == Outstanding(main, true))
      && (delta == Some([]) ==> c.percentageComplete == 1.0 && c.remainingItems == Outstanding(main, true))
      && (delta.Some? && |delta.value| > 0 ==>
            && c.remainingItems == Outstanding(main, true) + Outstanding(delta.value, false)
            && c.percentageComplete <= 1.0
            && (Outstanding(main, true) == 0 ==>
                  && 0.5 <= c.percentageComplete
                  && (c.percentageComplete == 1.0 <==> forall i :: 0 <= i < |delta.value| ==> !Pending(delta.value[i], false))))
  {
    if delta.Some? && |delta.value| > 0 {
      var d := delta.value;
      OutstandingBounds(d, false);
      HalfPlusShare(|d|, Outstanding(main, true) + Outstanding(d, false));
    }
  }

  // ---- Session bookkeeping ----

  /** The fields `stop` resets. */
  datatype RunState = RunState(
    downloadInProgress: bool,
    downloadItems: seq<DownloadItem>,
    deltaImageItems: Option<seq<DownloadItem>>,
    percentageComplete: real)

  /** `stop`: a running session drops its batches (the delta list is emptied, not forgotten) and its progress; otherwise nothing changes. */
  function AfterStop(s: RunState): RunState {
    if s.downloadInProgress then
      RunState(false, [], if s.deltaImageItems.Some? then Some([]) else None, 0.0)
    else s
  }

  /** Stopping twice is stopping once, and afterwards no session is running. */
  lemma StopIdempotent(s: RunState)
    ensures AfterStop(AfterStop(s)) == AfterStop(s)
    ensures !AfterStop(s).downloadInProgress
    ensures AfterStop(s).deltaImageItems.Some? == s.deltaImageItems.Some?
  {
  }

  /** After a running session stops, the progress formula gives 0 for a full sync, one half before the delta list exists and 1 after. */
  lemma ProgressAfterStop(s: RunState, fullSync: bool)
    requires s.downloadInProgress
    ensures var t := AfterStop(s);
      CountsOf(fullSync, Statuses(t.downloadItems), DeltaStatuses(t.deltaImageItems)).percentageComplete
        == if fullSync then 0.0 else if s.deltaImageItems.None? then 0.5 else 1.0
  {
    var t := AfterStop(s);
    assert Statuses(t.downloadItems) == [];
  }

  /** The settings a committed sync records: a backup exists, the completion date and the installed version. */
  function RecordSync(store: Settings, version: string, now: int): (r: Settings)
    ensures IsBackupAvailable(r) && SyncCompletionDate(r) == now
    ensures BackupVersionKeyName in r && r[BackupVersionKeyName] == StringValue(version)
    ensures forall k :: k in store && k != BackupKeyName && k != BackupVersionKeyName && k != SyncCompletionDateKey ==>
      k in r && r[k] == store[k]
  {
    var flagged := UpdateBackup(store, true);
    var dated := UpdateSyncCompletionDate(flagged, now);
    BackupRoundTrip(store, true);
    SyncCompletionDateRoundTrip(flagged, now, true, version);
    SyncCompletionDateRoundTrip(dated, now, true, version);
    assert BackupKeyName[0] != SyncCompletionDateKey[0] && BackupKeyName[8] != BackupVersionKeyName[8];
    UpdateApplicationVersionNumber(dated, version)
  }

  /** The callbacks that end a commit: full progress and completion, or the fatal move failure. */
  function CommitNotices(committed: bool): seq<Notification> {
    if committed then [DownloadProgress(1.0), DownloadFinished] else [FailureNotice(TempToFinalLocationError)]
  }

  // ---- Building items ----

  /** The loop of `start` over the image URLs: one new archive item per parseable URL, in order. */
  method ArchiveItems(root: Path, version: string, imageUrls: seq<string>, parse: string -> Option<Url>)
    returns (items: seq<DownloadItem>)
    ensures Plan(items) == Archives(ParsedUrls(imageUrls, parse))
    ensures forall d :: d in items ==>
      fresh(d) && d.status == Active && d.version == version && d.retryCount == 0 && d.catalogError == None
  {
    items := [];
    var i := 0;
    while i < |imageUrls|
      invariant 0 <= i <= |imageUrls|
      invariant Plan(items) == Archives(ParsedUrls(imageUrls[..i], parse))
      invariant forall d :: d in items ==>
        fresh(d) && d.status == Active && d.version == version && d.retryCount == 0 && d.catalogError == None
    {
      assert imageUrls[..i + 1][..i] == imageUrls[..i];
      var url := parse(imageUrls[i]);
      assert ParsedUrls(imageUrls[..i + 1], parse)
        == ParsedUrls(imageUrls[..i], parse) + (if url.Some? then [url.value] else []);
      if url.Some? {
        var d := new DownloadItem(root, version, Zip, url.value);
        PlanAppend(items, d);
        ArchivesAppend(ParsedUrls(imageUrls[..i], parse), url.value);
        items := items + [d];
      } else {
        assert ParsedUrls(imageUrls[..i + 1], parse) == ParsedUrls(imageUrls[..i], parse);
      }
      i := i + 1;
    }
    assert imageUrls[..i] == imageUrls;
  }

  /** The loop of `continueDeltaSync`: one new image item per parseable URL whose image is not yet staged, in order. */
  method DeltaItems(fs: FileSystem, root: Path, version: string, imageUrls: seq<string>, parse: string -> Option<Url>)
    returns (items: seq<DownloadItem>)
    ensures Plan(items) == DeltaBatch(imageUrls, parse, fs.nodes, root, version)
    ensures forall d :: d in items ==>
      fresh(d) && d.status == Active && d.version == version && d.retryCount == 0 && d.catalogError == None
  {
    items := [];
    var i := 0;
    while i < |imageUrls|
      invariant 0 <= i <= |imageUrls|
      invariant Plan(items) == DeltaBatch(imageUrls[..i], parse, fs.nodes, root, version)
      invariant forall d :: d in items ==>
        fresh(d) && d.status == Active && d.version == version && d.retryCount == 0 && d.catalogError == None
    {
      assert imageUrls[..i + 1][..i] == imageUrls[..i];
      ghost var step := DeltaBatch(imageUrls[..i + 1], parse, fs.nodes, root, version);
      var url := parse(imageUrls[i]);
      assert step == DeltaBatch(imageUrls[..i], parse, fs.nodes, root, version)
        + (if url.Some? && TempImagesPath(root, version) + [LastPathComponent(url.value)] !in fs.nodes
           then [Planned(Image, url.value)] else []);
      if url.Some? {
        if !TempImageExists(fs, root, version, LastPathComponent(url.value)) {
          var d := new DownloadItem(root, version, Image, url.value);
          PlanAppend(items, d);
          items := items + [d];
        }
      }
      i := i + 1;
    }
    assert imageUrls[..i] == imageUrls;
  }

  /**
   * One counting loop of `downloadCounts`: the items still Active or
   * InProgress and, in the first batch (`countProcessing`), Processing.
   */
  method CountOutstanding(items: seq<DownloadItem>, countProcessing: bool) returns (remainingItems: nat)
    ensures remainingItems == Outstanding(Statuses(items), countProcessing)
  {
    remainingItems := 0;
    var i := 0;
    while i < |items|
      invariant 0 <= i <= |items|
      invariant remainingItems == Outstanding(Statuses(items[..i]), countProcessing)
    {
      var status := items[i].status;
      ghost var done := Statuses(items[..i]);
      assert items[..i + 1] == items[..i] + [items[i]];
      assert Statuses(items[..i + 1]) == done + [status];
      assert Outstanding(done + [status], countProcessing)
        == Outstanding(done, countProcessing) + (if Pending(status, countProcessing) then 1 else 0) by {
        assert (done + [status])[..|done|] == done;
      }
      if status == Active { remainingItems := remainingItems + 1; }
      if status == InProgress { remainingItems := remainingItems + 1; }
      if countProcessing && status == Processing { remainingItems := remainingItems + 1; }
      i := i + 1;
    }
    assert items[..i] == items;
  }

  // ---- The orchestrator ----

  class CatalogManager {
    const session: URLSessionManager
    const db: CatalogDBManager
    const fs: FileSystem
    /** The shared container the catalog lives in. */
    const root: Path
    var downloadInProgress: bool
    var catalogItem: CatalogItem
    var downloadItems: seq<DownloadItem>
    var deltaImageItems: Option<seq<DownloadItem>>
    var fullSync: bool
    var percentageComplete: real
    /** The application-group settings store. */
    var settings: Settings
    /** The delegate callbacks issued so far. */
    var notifications: seq<Notification>

    ghost predicate Valid()
      reads this, db
    {
      db.Valid()
    }

    /** The fields `stop` resets. */
    function Run(): RunState
      reads this
    {
      RunState(downloadInProgress, downloadItems, deltaImageItems, percentageComplete)
    }

    /** An idle manager with no batches and no progress. */
    constructor (session: URLSessionManager, db: CatalogDBManager, fs: FileSystem, root: Path, settings: Settings)
      requires db.Valid()
      ensures Valid()
      ensures this.session == session && this.db == db && this.fs == fs && this.root == root && this.settings == settings
      ensures !downloadInProgress && downloadItems == [] && deltaImageItems == None && !fullSync
      ensures percentageComplete == 0.0 && notifications == []
    {
      this.session := session;
      this.db := db;
      this.fs := fs;
      this.root := root;
      this.settings := settings;
      downloadInProgress := false;
      catalogItem := CatalogItem("", "", []);
      downloadItems := [];
      deltaImageItems := None;
      fullSync := false;
      percentageComplete := 0.0;
      notifications := [];
    }

    /**
     * `start`: ignored while a sync runs. Otherwise it records the request,
     * announces the start with the current progress, stages the version's
     * folders and builds the first batch. A non-empty batch is handed to the
     * coordinator as it is; an empty one goes straight on to installing (full
     * sync) or to the delta step.
     */
    method Start(item: CatalogItem, fullSync: bool, env: Env)
      requires Valid()
      modifies this, session, db, fs
      ensures Valid()
      ensures old(downloadInProgress) ==> unchanged(this) && unchanged(session) && unchanged(db) && unchanged(fs)
      ensures !old(downloadInProgress) ==>
        var batch := InitialBatch(item, fullSync, env.parse, old(TempDatabaseExists(fs, root, item.version)));
        var announced := old(notifications) + [DownloadStarted, DownloadProgress(old(percentageComplete))];
        && catalogItem == item && this.fullSync == fullSync
        && announced <= notifications
        && (|batch| > 0 ==>
              && downloadInProgress && deltaImageItems == None
              && Plan(downloadItems) == batch
              && session.downloadItems == downloadItems
              && notifications == announced
              && settings == old(settings) && percentageComplete == old(percentageComplete)
              && unchanged(db) && fs.locked == old(fs.locked)
              && fs.nodes == TempFolders(old(fs.nodes), fs.locked, root, item.version)
              && (TempFoldersReady(old(fs.nodes), fs.locked, root, item.version) ==>
                    fs.IsDirectory(TempImagesPath(root, item.version)))
              && (forall d :: d in downloadItems ==>
                    fresh(d) && d.status == InProgress && d.version == item.version
                    && d.retryCount == 0 && d.catalogError == None))
        && (|batch| == 0 && fullSync ==>
              && !downloadInProgress && downloadItems == [] && deltaImageItems == None
              && notifications == announced + CommitNotices(true)
              && settings == RecordSync(old(settings), item.version, env.now))
        && (|batch| == 0 && !fullSync ==> deltaImageItems.Some?)
    {
      if downloadInProgress {
        return;
      }
      this.fullSync := fullSync;
      catalogItem := item;
      downloadInProgress := true;
      notifications := notifications + [DownloadStarted, DownloadProgress(percentageComplete)];
      downloadItems := [];
      deltaImageItems := None;

      var _ := CreateTempFolders(fs, root, item.version);
      assert TempDatabaseExists(fs, root, item.version) == old(TempDatabaseExists(fs, root, item.version));
      downloadItems := FirstBatch(item, fullSync, env.parse);
      DispatchBatch(env);
    }

    /**
     * The end of `start`: a non-empty first batch is handed to the
     * coordinator as it is; an empty one goes straight on to installing (full
     * sync) or to the delta step.
     */
    method DispatchBatch(env: Env)
      requires Valid()
      modifies this, session, db, fs, set i | i in downloadItems
      ensures Valid()
      ensures catalogItem == old(catalogItem) && fullSync == old(fullSync)
      ensures old(notifications) <= notifications
      ensures |old(downloadItems)| > 0 ==>
        && Run() == old(Run()) && session.downloadItems == downloadItems
        && notifications == old(notifications) && settings == old(settings)
        && unchanged(db) && unchanged(fs)
        && (forall d :: d in downloadItems ==>
              d.status == InProgress && d.retryCount == old(d.retryCount) && d.catalogError == old(d.catalogError))
      ensures |old(downloadItems)| == 0 && fullSync ==>
        && Run() == AfterStop(old(Run()))
        && notifications == old(notifications) + CommitNotices(true)
        && settings == RecordSync(old(settings), catalogItem.version, env.now)
      ensures |old(downloadItems)| == 0 && !fullSync ==> deltaImageItems.Some?
    {
      if |downloadItems| > 0 {
        session.Download(downloadItems, env.now);
      } else if fullSync {
        CompleteSync(env);
      } else {
        ContinueDeltaSync(env);
      }
    }

    /** The batch `start` builds (its first item is the database archive, then a full sync's image archives). */
    method FirstBatch(item: CatalogItem, fullSync: bool, parse: string -> Option<Url>) returns (items: seq<DownloadItem>)
      ensures Plan(items) == InitialBatch(item, fullSync, parse, TempDatabaseExists(fs, root, item.version))
      ensures forall d :: d in items ==>
        fresh(d) && d.status == Active && d.version == item.version && d.retryCount == 0 && d.catalogError == None
    {
      items := [];
      var url := parse(item.dataPathZip);
      if url.Some? {
        if !TempDatabaseExists(fs, root, item.version) {
          var d := new DownloadItem(root, item.version, SQLiteZip, url.value);
          PlanAppend([], d);
          items := items + [d];
        }
      }
      if fullSync {
        var archives := ArchiveItems(root, item.version, item.imageUrls, parse);
        PlanConcat(items, archives);
        items := items + archives;
      } else {
        assert items + [] == items;
      }
    }

    /** `stop`: see `AfterStop`; a running session also empties the coordinator's batch. */
    method Stop()
      modifies this, session
      ensures Run() == AfterStop(old(Run()))
      ensures old(downloadInProgress) ==> session.downloadItems == [] && session.nextTaskId == old(session.nextTaskId)
      ensures !old(downloadInProgress) ==> unchanged(session)
      ensures catalogItem == old(catalogItem) && fullSync == old(fullSync)
      ensures settings == old(settings) && notifications == old(notifications)
    {
      if downloadInProgress {
        session.Cancel();
        downloadItems := [];
        if deltaImageItems.Some? {
          deltaImageItems := Some([]);
        }
        percentageComplete := 0.0;
        downloadInProgress := false;
      }
    }

    /**
     * `continueDeltaSync`: marks the delta step as taken, diffs the staged
     * database against the installed one and queues an image item for each
     * new image not already staged. With nothing to fetch it installs at once.
     */
    method ContinueDeltaSync(env: Env)
      requires Valid()
      modifies this, session, db, fs
      ensures Valid()
      ensures deltaImageItems.Some?
      ensures catalogItem == old(catalogItem) && fullSync == old(fullSync)
      ensures
        var temp := if old(db.currentOpenedDatabase) == TempDatabase || env.tempOpenOk then Selected(env.tempRows) else [];
        var current := if env.normalOpenOk then Selected(env.currentRows) else [];
        var batch := DeltaBatch(DeltaUrls(temp, current), env.parse, old(fs.nodes), root, catalogItem.version);
        var committed := old(fullSync) || old(fs.IsDirectory(TempImagesPath(root, catalogItem.version)));
        && (|batch| > 0 ==>
              && Plan(deltaImageItems.value) == batch
              && session.downloadItems == deltaImageItems.value
              && downloadInProgress == old(downloadInProgress) && downloadItems == old(downloadItems)
              && notifications == old(notifications) && settings == old(settings) && fs.nodes == old(fs.nodes)
              && percentageComplete == old(percentageComplete)
              && (forall d :: d in deltaImageItems.value ==>
                    fresh(d) && d.status == InProgress && d.version == catalogItem.version
                    && d.retryCount == 0 && d.catalogError == None))
        && (|batch| == 0 ==>
              && Run() == AfterStop(old(Run()).(deltaImageItems := Some([])))
              && notifications == old(notifications) + CommitNotices(committed))
    {
      deltaImageItems := Some([]);
      var deltaImageUrls := GetDeltaImageUrls(db, root, catalogItem.version, env.tempRows, env.currentRows,
                                              env.tempOpenOk, env.normalOpenOk);
      var items := DeltaItems(fs, root, catalogItem.version, deltaImageUrls, env.parse);
      deltaImageItems := Some(items);
      if |items| > 0 {
        session.Download(items, env.now);
      } else {
        CompleteSync(env);
      }
    }

    /**
     * `completeSync`: installs the staged files. On success it records the
     * sync in the settings, closes the database, stops the session and
     * reports completion; otherwise it raises the fatal move error.
     */
    method CompleteSync(env: Env)
      requires Valid()
      modifies this, session, db, fs
      ensures Valid()
      ensures catalogItem == old(catalogItem) && fullSync == old(fullSync)
      ensures Run() == AfterStop(old(Run()))
      ensures
        var committed := old(fullSync) || old(fs.IsDirectory(TempImagesPath(root, catalogItem.version)));
        && notifications == old(notifications) + CommitNotices(committed)
        && (committed ==> settings == RecordSync(old(settings), catalogItem.version, env.now)
                          && db.currentOpenedDatabase == NoDatabase)
        && (!committed ==> settings == old(settings) && unchanged(db))
      ensures DatabaseMoves(old(fs.nodes), old(fs.locked), root, catalogItem.version) ==>
        && DatabasePath(root) in fs.nodes
        && fs.nodes[DatabasePath(root)] == old(fs.nodes)[TempDatabasePath(root, catalogItem.version)]
    {
      var moved := MoveTempFilesToFinalDirectory(fs, root, catalogItem.version, fullSync, env.uuid);
      if moved {
        settings := UpdateBackup(settings, true);
        settings := UpdateSyncCompletionDate(settings, env.now);
        settings := UpdateApplicationVersionNumber(settings, catalogItem.version);
        db.CloseDatabase();
        Stop();
        notifications := notifications + [DownloadProgress(1.0), DownloadFinished];
      } else {
        RaiseError(TempToFinalLocationError);
      }
    }

    /** `raiseError`: every error but a single image's stops the session and reports the failure; an image's changes nothing. */
    method RaiseError(error: CatalogError)
      modifies this, session
      ensures error == ImageSaveError ==> unchanged(this) && unchanged(session)
      ensures error != ImageSaveError ==>
        && Run() == AfterStop(old(Run()))
        && notifications == old(notifications) + [FailureNotice(error)]
        && (old(downloadInProgress) ==> session.downloadItems == [])
      ensures catalogItem == old(catalogItem) && fullSync == old(fullSync) && settings == old(settings)
    {
      if error != ImageSaveError {
        Stop();
        notifications := notifications + [FailureNotice(error)];
      }
    }

    /** `downloadCounts`: the counting loops over both lists, computing the progress formula. */
    method DownloadCounts() returns (counts: Counts)
      ensures counts == CountsOf(fullSync, Statuses(downloadItems), DeltaStatuses(deltaImageItems))
    {
      ghost var main := Statuses(downloadItems);
      var remainingItems := CountOutstanding(downloadItems, true);
      var percentage: real;
      if fullSync {
        if |downloadItems| == 0 {
          percentage := 0.0;
        } else {
          percentage := Share(|downloadItems| - remainingItems, |downloadItems|);
        }
        assert CountsOf(true, main, DeltaStatuses(deltaImageItems)) == Counts(remainingItems, percentage);
      } else if deltaImageItems.Some? {
        var delta := deltaImageItems.value;
        ghost var deltaStatuses := Statuses(delta);
        if |delta| == 0 {
          percentage := 1.0;
          assert CountsOf(false, main, Some(deltaStatuses)) == Counts(remainingItems, percentage);
        } else {
          var deltaRemaining := CountOutstanding(delta, false);
          remainingItems := remainingItems + deltaRemaining;
          percentage := 0.5 + Share(|delta| - remainingItems, |delta|) * 0.5;
          assert CountsOf(false, main, Some(deltaStatuses)) == Counts(remainingItems, percentage);
        }
      } else {
        percentage := 0.5;
        assert CountsOf(false, main, None) == Counts(remainingItems, percentage);
      }
      counts := Counts(remainingItems, percentage);
    }

    /**
     * The second part of `downloadItemCompleted`: the progress is recomputed,
     * stored and reported; then, when the session still runs and nothing
     * remains, a full sync, or a delta sync whose delta step was taken,
     * installs, and a delta sync that has not yet taken it takes it now.
     */
    method ReportProgressAndAdvance(env: Env)
      requires Valid()
      modifies this, session, db, fs
      ensures Valid()
      ensures catalogItem == old(catalogItem) && fullSync == old(fullSync)
      ensures
        var counts := old(CountsOf(fullSync, Statuses(downloadItems), DeltaStatuses(deltaImageItems)));
        var reported := old(notifications) + [DownloadProgress(counts.percentageComplete)];
        var finishing := old(downloadInProgress) && counts.remainingItems == 0;
        var committed := old(fullSync) || old(fs.IsDirectory(TempImagesPath(root, catalogItem.version)));
        && reported <= notifications
        && notifications[|old(notifications)|] == DownloadProgress(counts.percentageComplete)
        && (!finishing ==>
              && notifications == reported && percentageComplete == counts.percentageComplete
              && downloadInProgress == old(downloadInProgress) && downloadItems == old(downloadItems)
              && deltaImageItems == old(deltaImageItems)
              && unchanged(session) && unchanged(db) && unchanged(fs))
        && (finishing && (old(fullSync) || old(deltaImageItems).Some?) ==>
              && Run() == AfterStop(old(Run()))
              && notifications == reported + CommitNotices(committed))
        && (finishing && !old(fullSync) && old(deltaImageItems).None? ==> deltaImageItems.Some?)
      ensures !old(downloadInProgress) ==>
        && !downloadInProgress
        && notifications == old(notifications) + [DownloadProgress(
             old(CountsOf(fullSync, Statuses(downloadItems), DeltaStatuses(deltaImageItems))).percentageComplete)]
    {
      var counts := DownloadCounts();
      percentageComplete := counts.percentageComplete;
      notifications := notifications + [DownloadProgress(percentageComplete)];

      if downloadInProgress && counts.remainingItems == 0 {
        if fullSync || deltaImageItems.Some? {
          CompleteSync(env);
        } else {
          ContinueDeltaSync(env);
        }
      }
    }

    /**
     * The first part of `downloadItemCompleted`, which advances the item: a
     * downloaded image archive is marked as being unpacked and handling stops
     * there (`proceed` is false) until `ZipProcessed`; an unpacked archive
     * becomes completed; a downloaded database archive is unpacked (a failure
     * there is ignored); an item carrying an error raises it.
     */
    method AdvanceItem(item: DownloadItem, env: Env) returns (proceed: bool)
      modifies this, item, session, fs
      ensures proceed <==> !(old(item.status) == Completed && item.fileType == Zip)
      ensures !proceed ==> item.status == Processing && unchanged(this) && unchanged(session) && unchanged(fs)
      ensures old(item.status) == Completed && item.fileType != Zip ==>
        item.status == Completed && unchanged(this) && unchanged(session)
      ensures old(item.status) == Completed && item.fileType != Zip ==>
        CountsOf(fullSync, Statuses(downloadItems), DeltaStatuses(deltaImageItems))
          == old(CountsOf(fullSync, Statuses(downloadItems), DeltaStatuses(deltaImageItems)))
      ensures old(item.status) == Completed && item.fileType == SQLiteZip && !env.sqliteUnzipped ==>
        item.location == old(item.location) && item.fileName == old(item.fileName)
      ensures old(item.status) == Completed && item.fileType == SQLiteZip && env.sqliteUnzipped ==>
        var installed := TempDatabasePath(root, item.version);
        if MoveSucceeds(StagedExtraction(old(fs.nodes), fs.locked, root, item.version, env.extracted), fs.locked,
                        TempPath(root, item.version) + [DownloadSqliteFileName], installed)
        then
          && item.fileName == SqliteFileName && item.location == installed
          && (!InSubtree(old(item.location), installed) ==> installed in fs.nodes && fs.nodes[installed] == File(env.extracted))
        else
          item.location == old(item.location) && item.fileName == old(item.fileName)
      ensures old(item.status) == Processing && item.fileType == Zip ==>
        item.status == Completed && unchanged(this) && unchanged(session) && unchanged(fs)
      ensures old(item.status) != Completed && !(old(item.status) == Processing && item.fileType == Zip) ==>
        && unchanged(item) && unchanged(fs)
        && (old(item.catalogError).None? || old(item.catalogError) == Some(ImageSaveError) ==>
              unchanged(this) && unchanged(session))
        && (old(item.catalogError).Some? && old(item.catalogError) != Some(ImageSaveError) ==>
              && Run() == AfterStop(old(Run()))
              && notifications == old(notifications) + [FailureNotice(old(item.catalogError).value)])
      ensures old(item.status) != Completed && !(old(item.status) == Processing && item.fileType == Zip)
              && (old(item.catalogError).None? || old(item.catalogError) == Some(ImageSaveError)) ==>
        CountsOf(fullSync, Statuses(downloadItems), DeltaStatuses(deltaImageItems))
          == old(CountsOf(fullSync, Statuses(downloadItems), DeltaStatuses(deltaImageItems)))
      ensures old(item.status) != Completed && !(old(item.status) == Processing && item.fileType == Zip)
              && old(item.catalogError).Some? && old(item.catalogError) != Some(ImageSaveError) && old(downloadInProgress) ==>
        && !downloadInProgress
        && CountsOf(fullSync, Statuses(downloadItems), DeltaStatuses(deltaImageItems)).percentageComplete
             == if fullSync then 0.0 else if old(deltaImageItems).None? then 0.5 else 1.0
      ensures catalogItem == old(catalogItem) && fullSync == old(fullSync) && settings == old(settings)
    {
      ghost var run := Run();
      proceed := true;
      if item.status == Completed {
        if item.fileType == SQLiteZip {
          ghost var main := Statuses(downloadItems);
          ghost var delta := DeltaStatuses(deltaImageItems);
          StatusesPointwise(downloadItems);
          if deltaImageItems.Some? {
            StatusesPointwise(deltaImageItems.value);
          }
          var _ := ProcessSQLiteZipFile(fs, root, item, env.sqliteUnzipped, env.extracted);
          StatusesPointwise(downloadItems);
          assert Statuses(downloadItems) == main;
          if deltaImageItems.Some? {
            StatusesPointwise(deltaImageItems.value);
            assert Statuses(deltaImageItems.value) == delta.value;
          }
        }
        if item.fileType == Zip {
          item.status := Processing;
          proceed := false;
        }
      } else if item.status == Processing && item.fileType == Zip {
        item.status := Completed;
      } else {
        if item.catalogError.Some? {
          RaiseError(item.catalogError.value);
          if run.downloadInProgress && old(item.catalogError) != Some(ImageSaveError) {
            ProgressAfterStop(run, fullSync);
          }
        }
      }
    }

    /**
     * `downloadItemCompleted`: advances the item as `AdvanceItem` says; unless
     * it is an archive now waiting to be unpacked, reports progress and, once
     * nothing remains, moves the sync on. An item whose error is fatal stops
     * the session, and the progress reported after the failure is that of the
     * emptied batches.
     */
    method DownloadItemCompleted(item: DownloadItem, env: Env)
      requires Valid()
      modifies this, item, session, db, fs
      ensures Valid()
      ensures old(item.status) == Completed && item.fileType == Zip ==>
        item.status == Processing && unchanged(this) && unchanged(session) && unchanged(db) && unchanged(fs)
      ensures old(item.status) == Completed && item.fileType != Zip ==> item.status == Completed
      ensures old(item.status) == Completed && item.fileType == SQLiteZip && !env.sqliteUnzipped ==>
        item.location == old(item.location) && item.fileName == old(item.fileName)
      ensures old(item.status) == Processing && item.fileType == Zip ==> item.status == Completed
      ensures !(old(item.status) == Completed && item.fileType == Zip) ==>
        && |notifications| > |old(notifications)| && old(notifications) <= notifications
        && catalogItem == old(catalogItem) && fullSync == old(fullSync)
      ensures old(item.status) != Completed && !(old(item.status) == Processing && item.fileType == Zip) ==>
        item.status == old(item.status) && item.catalogError == old(item.catalogError)
      ensures old(item.status) == Completed && item.fileType != Zip ==>
        notifications[|old(notifications)|] == DownloadProgress(
          old(CountsOf(fullSync, Statuses(downloadItems), DeltaStatuses(deltaImageItems))).percentageComplete)
      ensures old(item.status) == Processing && item.fileType == Zip ==>
        notifications[|old(notifications)|].DownloadProgress?
      ensures old(item.status) != Completed && !(old(item.status) == Processing && item.fileType == Zip)
              && (old(item.catalogError).None? || old(item.catalogError) == Some(ImageSaveError)) ==>
        notifications[|old(notifications)|] == DownloadProgress(
          old(CountsOf(fullSync, Statuses(downloadItems), DeltaStatuses(deltaImageItems))).percentageComplete)
      ensures
        var e := old(item.catalogError);
        old(item.status) != Completed && !(old(item.status) == Processing && item.fileType == Zip)
        && e.Some? && e.value != ImageSaveError && old(downloadInProgress) ==>
          && !downloadInProgress
          && notifications == old(notifications) + [FailureNotice(e.value),
               DownloadProgress(if old(fullSync) then 0.0 else if old(deltaImageItems).None? then 0.5 else 1.0)]
    {
      var proceed := AdvanceItem(item, env);
      if proceed {
        ReportProgressAndAdvance(env);
      }
    }

    /**
     * The completion of `processZipFile`'s background unpacking: success
     * re-enters `downloadItemCompleted`; failure marks the item failed and
     * raises the fatal unzip error.
     */
    method ZipProcessed(item: DownloadItem, success: bool, env: Env)
      requires Valid()
      modifies this, item, session, db, fs
      ensures Valid()
      ensures !success ==>
        && item.status == Error
        && Run() == AfterStop(old(Run()))
        && notifications == old(notifications) + [FailureNotice(UnzipError)]
      ensures success && old(item.status) == Processing && item.fileType == Zip ==>
        && item.status == Completed && |notifications| > |old(notifications)| && old(notifications) <= notifications
        && notifications[|old(notifications)|].DownloadProgress?
    {
      if success {
        DownloadItemCompleted(item, env);
      } else {
        item.status := Error;
        RaiseError(UnzipError);
      }
    }

    /** `sessionDidBecomeInvalidWithError`: always fatal. */
    method SessionDidBecomeInvalidWithError()
      modifies this, session
      ensures Run() == AfterStop(old(Run()))
      ensures notifications == old(notifications) + [FailureNotice(SessionInvalid)]
      ensures catalogItem == old(catalogItem) && fullSync == old(fullSync) && settings == old(settings)
    {
      RaiseError(SessionInvalid);
    }

    /**
     * A transfer ended with `error`: the coordinator applies its retry
     * policy, and an item it gives up is handed to `downloadItemCompleted`.
     * A retried item leaves the orchestrator as it was; a given-up image
     * does not stop the sync, any other given-up item does.
     */
    method OnTaskCompleted(task: Task, error: Option<TransportError>, env: Env)
      requires Valid()
      modifies this, session, db, fs, TaskTarget(session.downloadItems, task)
      ensures Valid()
      ensures !Actionable(error) || old(FirstWithTask(session.downloadItems, task)) < 0 ==>
        && unchanged(this) && unchanged(db) && unchanged(fs)
        && session.downloadItems == old(session.downloadItems) && session.nextTaskId == old(session.nextTaskId)
      ensures !Actionable(error) && old(FirstWithTask(session.downloadItems, task)) >= 0 ==>
        unchanged(old(session.downloadItems)[old(FirstWithTask(session.downloadItems, task))])
      ensures Actionable(error) && old(FirstWithTask(session.downloadItems, task)) >= 0 ==>
        var item := old(session.downloadItems)[old(FirstWithTask(session.downloadItems, task))];
        && (old(item.retryCount) < MaxRetryRequest - 1 ==>
              unchanged(this) && item.status == old(item.status) && item.retryCount == old(item.retryCount) + 1)
        && (old(item.retryCount) >= MaxRetryRequest - 1 ==>
              && item.status == Error && item.catalogError == Some(ExhaustedError(item.fileType))
              && (item.fileType != Image && old(downloadInProgress) ==>
                    && !downloadInProgress && |notifications| > |old(notifications)|
                    && notifications[|old(notifications)|] == FailureNotice(DownloadError))
              && (item.fileType == Image ==>
                    |notifications| > |old(notifications)| && notifications[|old(notifications)|].DownloadProgress?))
    {
      var reported := session.DidCompleteWithError(task, error);
      if reported.Some? {
        DownloadItemCompleted(reported.value, env);
      }
    }

    /**
     * A transfer finished with a file at `fromLocation`: the coordinator saves
     * and validates it (`decodes` is the image decoder's verdict). A valid
     * image archive then waits to be unpacked; a valid database archive or
     * image is completed and progress is reported; an invalid image is
     * retried like a failed transfer.
     */
    method OnDownloadFinished(task: Task, fromLocation: Path, decodes: bool, env: Env)
      requires Valid()
      modifies this, session, db, fs, UrlTarget(session.downloadItems, task.url)
      ensures Valid()
      ensures old(FirstWithUrl(session.downloadItems, task.url)) < 0 ==>
        unchanged(this) && unchanged(db) && fs.nodes == old(fs.nodes) && session.nextTaskId == old(session.nextTaskId)
      ensures old(FirstWithUrl(session.downloadItems, task.url)) >= 0 ==>
        var item := old(session.downloadItems)[old(FirstWithUrl(session.downloadItems, task.url))];
        && (item.fileType == Zip || (item.fileType == Image && !decodes && old(item.retryCount) < MaxRetryRequest - 1) ==>
              && fs.locked == old(fs.locked)
              && fs.nodes == Received(old(fs.nodes), fs.locked, fromLocation, old(item.location), item.fileType == Image))
        && (item.fileType == Zip ==> item.status == Processing && unchanged(this))
        && (item.fileType == SQLiteZip || (item.fileType == Image && decodes) ==>
              && item.status == Completed && |notifications| > |old(notifications)| && old(notifications) <= notifications
              && notifications[|old(notifications)|].DownloadProgress?)
        && (item.fileType == Image && !decodes && old(item.retryCount) < MaxRetryRequest - 1 ==>
              unchanged(this) && item.retryCount == old(item.retryCount) + 1)
        && (item.fileType == Image && !decodes && old(item.retryCount) >= MaxRetryRequest - 1 ==>
              && item.status == Error && item.catalogError == Some(ImageSaveError)
              && |notifications| > |old(notifications)| && notifications[|old(notifications)|].DownloadProgress?)
    {
      var reported := session.DidFinishDownloading(task, fromLocation, fs, decodes, env.now);
      if reported.Some? {
        DownloadItemCompleted(reported.value, env);
      }
    }

    /**
     * `urlSession(_:didBecomeInvalidWithError:)` of the coordinator, which
     * passes only an actual error on to `sessionDidBecomeInvalidWithError`:
     * with an error the sync fails with `SessionInvalid`; without one nothing
     * happens.
     */
    method OnSessionInvalid(error: Option<TransportError>)
      modifies this, session
      ensures error.None? ==> unchanged(this) && unchanged(session)
      ensures error.Some? ==>
        && Run() == AfterStop(old(Run()))
        && notifications == old(notifications) + [FailureNotice(SessionInvalid)]
    {
      if error.Some? {
        SessionDidBecomeInvalidWithError();
      }
    }
  }
}
