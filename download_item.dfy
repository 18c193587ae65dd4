/**
 * DownloadItem.swift: one file to fetch, where it is staged, and how far
 * along it is. The item is an object: the download coordinator and the sync
 * orchestrator both update its status and bookkeeping in place.
 */
module DownloadItems {
  import opened Wrappers
  import opened Configurations
  import opened FileSystemModel
  import opened FileManagerUtility

  datatype DownloadStatus = Active | InProgress | Completed | Processing | Error

  /** The packaged database, an archive of images, or a single image. */
  datatype FileType = SQLiteZip | Zip | Image

  /** A parsed URL: its text and the components of its path. */
  datatype Url = Url(text: string, path: seq<string>)

  /** The last component of the URL's path, or the empty name when the path has none. */
  function LastPathComponent(u: Url): string {
    if |u.path| == 0 then "" else u.path[|u.path| - 1]
  }

  /**
   * A transport task: its identifier, the URL of its original request and,
   * when it continues an interrupted transfer, the resume data it starts from.
   */
  datatype Task = Task(id: nat, url: Url, resumeFrom: Option<seq<int>>)

  /** Where an item is staged: the version's folder for the database, its images folder otherwise. */
  function ItemLocation(root: Path, version: string, fileType: FileType, fileName: string): Path
  {
    if fileType == SQLiteZip then TempPath(root, version) + [fileName]
    else TempImagesPath(root, version) + [fileName]
  }

  /** An image item is staged exactly where the "already downloaded" check looks for it. */
  lemma ImageLocationIsCheckedPath(fs: FileSystem, root: Path, version: string, url: Url)
    ensures fs.Exists(ItemLocation(root, version, Image, LastPathComponent(url)))
        <==> TempImageExists(fs, root, version, LastPathComponent(url))
  {
  }

  /** The entries after `saveItem`: the file moves to `location` unless something is there or the move is refused. */
  function Saved(nodes: map<Path, Node>, locked: set<Path>, from: Path, location: Path): map<Path, Node> {
    if location in nodes then nodes
    else if Movable(nodes, locked, from, location) then Relocated(nodes, from, location)
    else nodes
  }

  /** The entries after `isValid` rejected the file at `location`: it is removed when permitted. */
  function Discarded(nodes: map<Path, Node>, locked: set<Path>, location: Path): map<Path, Node> {
    if Removable(nodes, locked, location) then WithoutSubtree(nodes, location) else nodes
  }

  /** The entries after a finished download is saved and checked; `rejected` is the check's verdict against it. */
  function Received(nodes: map<Path, Node>, locked: set<Path>, from: Path, location: Path, rejected: bool): map<Path, Node> {
    var saved := Saved(nodes, locked, from, location);
    if rejected then Discarded(saved, locked, location) else saved
  }

  class DownloadItem {
    const version: string
    const url: Url
    const fileType: FileType
    var fileName: string
    var location: Path
    var status: DownloadStatus
    var retryCount: int
    var startTime: Option<int>
    var endTime: Option<int>
    var catalogError: Option<CatalogError>
    var downloadTask: Option<Task>

    /** A new item waits to be scheduled, has used no retries and carries no error. */
    constructor (root: Path, version: string, fileType: FileType, url: Url)
      ensures this.version == version && this.fileType == fileType && this.url == url
      ensures status == Active && retryCount == 0 && catalogError == None
      ensures downloadTask == None && startTime == None && endTime == None
      ensures fileName == LastPathComponent(url)
      ensures location == ItemLocation(root, version, fileType, LastPathComponent(url))
    {
      this.version := version;
      this.fileType := fileType;
      this.url := url;
      this.status := Active;
      this.retryCount := 0;
      this.catalogError := None;
      this.downloadTask := None;
      this.startTime := None;
      this.endTime := None;
      this.fileName := LastPathComponent(url);
      this.location := ItemLocation(root, version, fileType, LastPathComponent(url));
    }

    /**
     * `saveItem`: moves the downloaded file to the item's location unless
     * something is already there, which is then left untouched. A failed move
     * is ignored.
     */
    method SaveItem(fs: FileSystem, fromLocation: Path)
      modifies fs
      ensures fs.locked == old(fs.locked)
      ensures old(fs.Exists(location)) ==> fs.nodes == old(fs.nodes)
      ensures fs.nodes == Saved(old(fs.nodes), fs.locked, fromLocation, location)
    {
      if !fs.Exists(location) {
        var _ := fs.MoveItem(fromLocation, location);
      }
    }

    /**
     * `isValid`: only images are checked. `decodes` says whether the image
     * decoder accepts the staged file; an image it rejects is removed.
     */
    method IsValid(fs: FileSystem, decodes: bool) returns (valid: bool)
      modifies fs
      ensures valid <==> fileType != Image || decodes
      ensures fs.locked == old(fs.locked)
      ensures valid ==> fs.nodes == old(fs.nodes)
      ensures !valid ==> fs.nodes == Discarded(old(fs.nodes), fs.locked, location)
    {
      if fileType == Image {
        if !decodes {
          var _ := fs.RemoveItem(location);
          return false;
        }
      }
      return true;
    }
  }

  /**
   * `processSQLiteZipFile` (FileManagerUtility.swift): clears the staged
   * database path, extracts the downloaded archive into the version's folder
   * (`unzipped` is the archive library's verdict and `extracted` the content
   * of the database it yields), renames the extracted file to the canonical
   * name and deletes the archive. Only on success does the item point at the
   * renamed database.
   */
  method ProcessSQLiteZipFile(fs: FileSystem, root: Path, item: DownloadItem, unzipped: bool, extracted: nat)
    returns (returnVal: bool)
    modifies fs, item
    ensures fs.locked == old(fs.locked)
    ensures !unzipped ==> !returnVal
    ensures returnVal ==> item.fileName == SqliteFileName && item.location == TempDatabasePath(root, item.version)
    ensures !returnVal ==> item.fileName == old(item.fileName) && item.location == old(item.location)
    ensures unzipped ==>
      (returnVal <==> MoveSucceeds(StagedExtraction(old(fs.nodes), fs.locked, root, item.version, extracted), fs.locked,
                                   TempPath(root, item.version) + [DownloadSqliteFileName], TempDatabasePath(root, item.version)))
    ensures returnVal && !InSubtree(old(item.location), TempDatabasePath(root, item.version)) ==>
      && TempDatabasePath(root, item.version) in fs.nodes
      && fs.nodes[TempDatabasePath(root, item.version)] == File(extracted)
    ensures returnVal ==> !Removable(fs.nodes, fs.locked, old(item.location))
    ensures item.status == old(item.status) && item.retryCount == old(item.retryCount)
    ensures item.catalogError == old(item.catalogError) && item.downloadTask == old(item.downloadTask)
    ensures item.startTime == old(item.startTime) && item.endTime == old(item.endTime)
  {
    returnVal := InstallExtractedDatabase(fs, root, item.version, item.location, unzipped, extracted);
    if returnVal {
      item.fileName := SqliteFileName;
      item.location := TempDatabasePath(root, item.version);
    }
  }
}
