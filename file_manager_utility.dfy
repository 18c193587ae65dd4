/**
 * FileManagerUtility.swift: the on-disk layout of a catalog (final and
 * temporary locations), the settings the sync persists, and the file
 * operations a commit is made of, over the abstract file system. `root` is
 * the shared application-group container, whose location the system supplies.
 */
module FileManagerUtility {
  import opened Wrappers
  import opened Configurations
  import opened FileSystemModel

  // ---- Final locations ----

  /** The installed catalog database. */
  function DatabasePath(root: Path): Path {
    root + [SqliteFileName]
  }

  /** The installed images folder (capitalised, unlike the temporary one). */
  function ImagesFolderPath(root: Path): Path {
    root + ["Images"]
  }

  // ---- Temporary locations ----

  /** The temporary area shared by all versions. */
  function TempRoot(root: Path): Path {
    root + ["temp"]
  }

  /** The staging folder of one catalog version. */
  function TempPath(root: Path, version: string): Path {
    TempRoot(root) + [version]
  }

  function TempImagesPath(root: Path, version: string): Path {
    TempPath(root, version) + ["images"]
  }

  function TempDatabasePath(root: Path, version: string): Path {
    TempPath(root, version) + [SqliteFileName]
  }

  /** Where the unpacked database is looked for; the same file as `TempDatabasePath`. */
  function TempZipDatabasePath(root: Path, version: string): Path {
    TempPath(root, version) + [SqliteFileName]
  }

  /** How the locations relate: all staging lives under the version's folder, the two database paths coincide, and no staging path is inside a final one. */
  lemma Layout(root: Path, version: string)
    ensures TempPath(root, version) == root + ["temp", version]
    ensures TempImagesPath(root, version) == TempPath(root, version) + ["images"]
    ensures TempDatabasePath(root, version) == TempZipDatabasePath(root, version)
    ensures DatabasePath(root) == root + ["catalog.sqlite"]
    ensures ImagesFolderPath(root) != TempImagesPath(root, version)
    ensures !InSubtree(ImagesFolderPath(root), TempPath(root, version))
    ensures !InSubtree(DatabasePath(root), TempPath(root, version))
    ensures !InSubtree(TempImagesPath(root, version), TempDatabasePath(root, version))
  {
    assert TempPath(root, version)[..|root| + 1] == root + ["temp"];
    assert ImagesFolderPath(root)[|root|] == "Images";
    assert DatabasePath(root)[|root|] == "catalog.sqlite";
    assert TempImagesPath(root, version)[|root| + 2] == "images";
    assert TempDatabasePath(root, version)[|root| + 2] == "catalog.sqlite";
  }

  predicate TempImageExists(fs: FileSystem, root: Path, version: string, fileName: string)
    reads fs
  {
    fs.Exists(TempImagesPath(root, version) + [fileName])
  }

  predicate TempDatabaseExists(fs: FileSystem, root: Path, version: string)
    reads fs
  {
    fs.Exists(TempZipDatabasePath(root, version))
  }

  // ---- Settings store (application-group user defaults) ----

  datatype SettingValue = BoolValue(b: bool) | StringValue(s: string) | DateValue(seconds: int)

  type Settings = map<string, SettingValue>

  function UpdateBackup(store: Settings, yesOrNo: bool): Settings {
    store[BackupKeyName := BoolValue(yesOrNo)]
  }

  /** A missing or non-boolean value reads as false. */
  function IsBackupAvailable(store: Settings): bool {
    BackupKeyName in store && store[BackupKeyName].BoolValue? && store[BackupKeyName].b
  }

  function UpdateApplicationVersionNumber(store: Settings, version: string): Settings {
    store[BackupVersionKeyName := StringValue(version)]
  }

  function UpdateSyncCompletionDate(store: Settings, seconds: int): Settings {
    store[SyncCompletionDateKey := DateValue(seconds)]
  }

  /** The stored completion date in seconds since 1970, or the epoch itself when none was stored. */
  function SyncCompletionDate(store: Settings): int {
    if SyncCompletionDateKey in store && store[SyncCompletionDateKey].DateValue? then
      store[SyncCompletionDateKey].seconds
    else
      0
  }

  /** The completion date reads back what was stored; never stored reads as the epoch; the other two settings do not disturb it. */
  lemma SyncCompletionDateRoundTrip(store: Settings, seconds: int, flag: bool, version: string)
    ensures SyncCompletionDate(UpdateSyncCompletionDate(store, seconds)) == seconds
    ensures SyncCompletionDateKey !in store ==> SyncCompletionDate(store) == 0
    ensures SyncCompletionDate(UpdateBackup(store, flag)) == SyncCompletionDate(store)
    ensures SyncCompletionDate(UpdateApplicationVersionNumber(store, version)) == SyncCompletionDate(store)
  {
    assert BackupKeyName[0] != SyncCompletionDateKey[0];
    assert BackupVersionKeyName[0] != SyncCompletionDateKey[0];
  }

  /** The backup flag reads back what was stored. */
  lemma BackupRoundTrip(store: Settings, flag: bool)
    ensures IsBackupAvailable(UpdateBackup(store, flag)) == flag
  {
  }

  // ---- File names ----

  /** The index of the last occurrence of `c` in `s`, or -1. */
  function LastIndexOf(s: string, c: char): (k: int)
    ensures -1 <= k < |s|
    ensures k >= 0 ==> s[k] == c
    ensures forall j :: k < j < |s| ==> s[j] != c
  {
    if |s| == 0 then -1
    else if s[|s| - 1] == c then |s| - 1
    else LastIndexOf(s[..|s| - 1], c)
  }

  /** The extension of a file name: what follows its last dot, when that dot is not the name's first character. */
  function PathExtension(name: string): string {
    var k := LastIndexOf(name, '.');
    if k > 0 then name[k + 1..] else ""
  }

  function UpperChar(c: char): char {
    if 'a' <= c <= 'z' then (c as int - 32) as char else c
  }

  /** ASCII upper-casing. */
  function Uppercased(s: string): string
  {
    seq(|s|, i requires 0 <= i < |s| => UpperChar(s[i]))
  }

  /** Upper-casing leaves no ASCII lower-case letter, keeps every other character, and changes nothing when repeated. */
  lemma UppercasedNormal(s: string)
    ensures forall i :: 0 <= i < |s| ==> !('a' <= Uppercased(s)[i] <= 'z')
    ensures forall i :: 0 <= i < |s| && !('a' <= s[i] <= 'z') ==> Uppercased(s)[i] == s[i]
    ensures Uppercased(Uppercased(s)) == Uppercased(s)
  {
  }

  /** Names that `deleteDownloadedZipFiles` removes. */
  predicate IsZipName(name: string) {
    Uppercased(PathExtension(name)) == ZipKeyName
  }

  /** A name is a zip archive exactly when it ends in a dot and three letters spelling "zip" in any case, with something before the dot. */
  lemma IsZipNameCharacterised(name: string)
    ensures IsZipName(name) <==>
      |name| >= 5 && name[|name| - 4] == '.' && Uppercased(name[|name| - 3..]) == ZipKeyName
  {
    var k := LastIndexOf(name, '.');
    if IsZipName(name) {
      assert k > 0;
      var ext := name[k + 1..];
      assert |ext| == 3;
      assert k == |name| - 4;
    }
    if |name| >= 5 && name[|name| - 4] == '.' && Uppercased(name[|name| - 3..]) == ZipKeyName {
      var tail := name[|name| - 3..];
      forall j | |name| - 4 < j < |name|
        ensures name[j] != '.'
      {
        assert UpperChar(tail[j - (|name| - 3)]) == ZipKeyName[j - (|name| - 3)];
      }
      assert k == |name| - 4;
    }
  }

  // ---- File operations ----

  /** Entries after `moveFileWithURL`'s first step: an existing target removed. */
  function ClearedTarget(nodes: map<Path, Node>, to: Path): map<Path, Node> {
    if to in nodes then WithoutSubtree(nodes, to) else nodes
  }

  /** When `moveFileWithURL` succeeds: an existing target can be removed, and the move onto the cleared target is permitted. */
  predicate MoveSucceeds(nodes: map<Path, Node>, locked: set<Path>, from: Path, to: Path) {
    !(to in nodes && !Removable(nodes, locked, to)) && Movable(ClearedTarget(nodes, to), locked, from, to)
  }

  /**
   * `moveFileWithURL`: removes an existing target, then moves. When the
   * target exists and cannot be removed it reports failure and moves nothing;
   * otherwise it reports whether the move succeeded.
   */
  method MoveFileWithUrl(fs: FileSystem, from: Path, to: Path) returns (returnVal: bool)
    modifies fs
    ensures fs.locked == old(fs.locked)
    ensures old(to in fs.nodes && !Removable(fs.nodes, fs.locked, to)) ==>
      !returnVal && fs.nodes == old(fs.nodes)
    ensures !old(to in fs.nodes && !Removable(fs.nodes, fs.locked, to)) ==>
      var cleared := ClearedTarget(old(fs.nodes), to);
      && returnVal == Movable(cleared, fs.locked, from, to)
      && fs.nodes == if returnVal then Relocated(cleared, from, to) else cleared
    ensures returnVal == MoveSucceeds(old(fs.nodes), fs.locked, from, to)
    ensures forall q :: !InSubtree(from, q) && !InSubtree(to, q) ==> SameAt(fs.nodes, old(fs.nodes), q)
  {
    returnVal := true;
    if fs.Exists(to) {
      var removed := fs.RemoveItem(to);
      if !removed {
        return false;
      }
    }
    var moved := fs.MoveItem(from, to);
    if !moved {
      returnVal := false;
    }
    forall q | !InSubtree(from, q) && !InSubtree(to, q)
      ensures SameAt(fs.nodes, old(fs.nodes), q)
    {
      RelocatedElsewhere(ClearedTarget(old(fs.nodes), to), from, to, q);
    }
  }

  /** `createImagesFolder`: creates the installed images folder when missing, ignoring failure. */
  method CreateImagesFolder(fs: FileSystem, root: Path)
    modifies fs
    ensures fs.locked == old(fs.locked)
    ensures old(fs.Exists(ImagesFolderPath(root))) ==> fs.nodes == old(fs.nodes)
    ensures !old(fs.Exists(ImagesFolderPath(root))) ==>
      fs.nodes == if Creatable(old(fs.nodes), fs.locked, ImagesFolderPath(root))
                  then WithDirectories(old(fs.nodes), ImagesFolderPath(root)) else old(fs.nodes)
    ensures forall q :: !InSubtree(q, ImagesFolderPath(root)) ==> SameAt(fs.nodes, old(fs.nodes), q)
  {
    var path := ImagesFolderPath(root);
    if !fs.Exists(path) {
      var _ := fs.CreateDirectory(path);
    }
    forall q | !InSubtree(q, path)
      ensures SameAt(fs.nodes, old(fs.nodes), q)
    {
      WithDirectoriesElsewhere(old(fs.nodes), path, q);
    }
  }

  /** Entries after the first step of `createTempFolders`: the version folder created when missing. */
  function AfterVersionFolder(nodes: map<Path, Node>, root: Path, version: string): map<Path, Node> {
    if TempPath(root, version) in nodes then nodes else WithDirectories(nodes, TempPath(root, version))
  }

  /** Whether both steps of `createTempFolders` succeed on the entries `nodes`. */
  predicate TempFoldersReady(nodes: map<Path, Node>, locked: set<Path>, root: Path, version: string) {
    && (TempPath(root, version) in nodes || Creatable(nodes, locked, TempPath(root, version)))
    && Creatable(AfterVersionFolder(nodes, root, version), locked, TempImagesPath(root, version))
  }

  /** The entries `createTempFolders` leaves: each folder is created when its step is attempted and permitted. */
  function TempFolders(nodes: map<Path, Node>, locked: set<Path>, root: Path, version: string): map<Path, Node> {
    if !(TempPath(root, version) in nodes || Creatable(nodes, locked, TempPath(root, version))) then nodes
    else if TempFoldersReady(nodes, locked, root, version)
    then WithDirectories(AfterVersionFolder(nodes, root, version), TempImagesPath(root, version))
    else AfterVersionFolder(nodes, root, version)
  }

  /**
   * `createTempFolders`: creates the version's staging folder if missing and,
   * only when that folder exists or was created, its images folder. Reports
   * false exactly when a creation failed; on success both folders are there.
   */
  method CreateTempFolders(fs: FileSystem, root: Path, version: string) returns (returnVal: bool)
    modifies fs
    ensures fs.locked == old(fs.locked)
    ensures var versionReady := old(fs.Exists(TempPath(root, version)))
                                || Creatable(old(fs.nodes), fs.locked, TempPath(root, version));
            var mid := AfterVersionFolder(old(fs.nodes), root, version);
            && (!versionReady ==> !returnVal && fs.nodes == old(fs.nodes))
            && (versionReady ==>
                  && returnVal == Creatable(mid, fs.locked, TempImagesPath(root, version))
                  && fs.nodes == if returnVal then WithDirectories(mid, TempImagesPath(root, version)) else mid)
    ensures returnVal ==> fs.IsDirectory(TempImagesPath(root, version)) && TempPath(root, version) in fs.nodes
    ensures SameAt(fs.nodes, old(fs.nodes), TempZipDatabasePath(root, version))
    ensures returnVal == TempFoldersReady(old(fs.nodes), fs.locked, root, version)
    ensures fs.nodes == TempFolders(old(fs.nodes), fs.locked, root, version)
  {
    Layout(root, version);
    returnVal := true;
    var path := TempPath(root, version);
    if !fs.Exists(path) {
      ghost var before := fs.nodes;
      var created := fs.CreateDirectory(path);
      if !created {
        returnVal := false;
      } else {
        CreatedIsDirectory(before, fs.locked, path);
        WithDirectoriesElsewhere(before, path, TempZipDatabasePath(root, version));
      }
    }
    if returnVal {
      ghost var mid := fs.nodes;
      path := TempImagesPath(root, version);
      var created := fs.CreateDirectory(path);
      if !created {
        returnVal := false;
      } else {
        CreatedIsDirectory(mid, fs.locked, path);
        WithDirectoriesKeeps(mid, path, TempPath(root, version));
        WithDirectoriesElsewhere(mid, path, TempZipDatabasePath(root, version));
      }
    }
  }

  /**
   * What a successful extraction does: the archive's single entry `name`
   * is written into `dir`, creating `dir` if need be and replacing whatever
   * was at that path.
   */
  function Extracted(nodes: map<Path, Node>, dir: Path, name: string, content: nat): (r: map<Path, Node>)
    ensures dir + [name] in r && r[dir + [name]] == File(content)
  {
    WithDirectories(WithoutSubtree(nodes, dir + [name]), dir)[dir + [name] := File(content)]
  }

  /**
   * The entries `processSQLiteZipFile` renames from: the staged database
   * path cleared when it can be, then the archive's database extracted into
   * the version's folder.
   */
  function StagedExtraction(nodes: map<Path, Node>, locked: set<Path>, root: Path, version: string, extracted: nat): map<Path, Node> {
    var location := TempDatabasePath(root, version);
    var cleared := if Removable(nodes, locked, location) then WithoutSubtree(nodes, location) else nodes;
    Extracted(cleared, TempPath(root, version), DownloadSqliteFileName, extracted)
  }

  /**
   * After a successful unzip, the rename onto the canonical name succeeds
   * exactly when neither the extracted file nor the canonical path is locked
   * and the version's folder is not a plain file.
   */
  lemma StagedRenameSucceeds(nodes: map<Path, Node>, locked: set<Path>, root: Path, version: string, extracted: nat)
    ensures var dir := TempPath(root, version);
      MoveSucceeds(StagedExtraction(nodes, locked, root, version, extracted), locked,
                   dir + [DownloadSqliteFileName], TempDatabasePath(root, version))
      <==> && dir + [DownloadSqliteFileName] !in locked
           && TempDatabasePath(root, version) !in locked
           && !(dir in nodes && nodes[dir].File?)
  {
    var dir := TempPath(root, version);
    var from := dir + [DownloadSqliteFileName];
    var to := TempDatabasePath(root, version);
    var cleared := if Removable(nodes, locked, to) then WithoutSubtree(nodes, to) else nodes;
    var mid := StagedExtraction(nodes, locked, root, version, extracted);
    DatabaseRenameIsNotIdentity();
    assert from[|from| - 1] != to[|to| - 1];
    assert !InSubtree(to, from) && !InSubtree(from, to);
    assert !InSubtree(to, dir) && !InSubtree(from, dir);
    assert Parent(to) == dir;
    assert dir in cleared <==> dir in nodes;
    assert dir in cleared ==> cleared[dir] == nodes[dir];
    assert dir[..|dir|] == dir;
    assert !InSubtree(to, dir + [DownloadSqliteFileName]);
    assert dir in mid && (dir in nodes ==> mid[dir] == nodes[dir]) && (dir !in nodes ==> mid[dir] == Directory);
    assert from in mid;
    if to !in locked {
      assert to !in cleared;
      assert to !in mid;
      assert ClearedTarget(mid, to) == mid;
    }
  }

  /** Removing `p` keeps every entry outside its subtree and leaves `p` itself not removable. */
  lemma RemovalOutcome(nodes: map<Path, Node>, locked: set<Path>, p: Path, q: Path)
    requires !InSubtree(p, q)
    ensures var after := if Removable(nodes, locked, p) then WithoutSubtree(nodes, p) else nodes;
      SameAt(after, nodes, q) && !Removable(after, locked, p)
  {
    assert InSubtree(p, p);
  }

  /**
   * The file-system part of `processSQLiteZipFile`: clears the staged
   * database path, extracts the archive at `archive` into the version's
   * folder, renames the extracted database to the canonical name and, when
   * that worked, deletes the archive. Reports whether the rename worked.
   */
  method InstallExtractedDatabase(fs: FileSystem, root: Path, version: string, archive: Path, unzipped: bool, extracted: nat)
    returns (returnVal: bool)
    modifies fs
    ensures fs.locked == old(fs.locked)
    ensures !unzipped ==> !returnVal
    ensures unzipped ==>
      (returnVal <==> MoveSucceeds(StagedExtraction(old(fs.nodes), fs.locked, root, version, extracted), fs.locked,
                                   TempPath(root, version) + [DownloadSqliteFileName], TempDatabasePath(root, version)))
    ensures returnVal && !InSubtree(archive, TempDatabasePath(root, version)) ==>
      && TempDatabasePath(root, version) in fs.nodes
      && fs.nodes[TempDatabasePath(root, version)] == File(extracted)
    ensures returnVal ==> !Removable(fs.nodes, fs.locked, archive)
  {
    returnVal := false;
    var location := TempDatabasePath(root, version);
    var _ := fs.RemoveItem(location);
    if unzipped {
      var extractedPath := TempPath(root, version) + [DownloadSqliteFileName];
      fs.nodes := Extracted(fs.nodes, TempPath(root, version), DownloadSqliteFileName, extracted);
      assert !InSubtree(location, extractedPath) by {
        DatabaseRenameIsNotIdentity();
        assert extractedPath[|extractedPath| - 1] != location[|location| - 1];
      }
      ghost var cleared := ClearedTarget(fs.nodes, location);
      assert extractedPath in cleared && cleared[extractedPath] == File(extracted);
      returnVal := MoveFileWithUrl(fs, extractedPath, location);
      if returnVal {
        RelocatedTarget(cleared, extractedPath, location);
        if !InSubtree(archive, location) {
          RemovalOutcome(fs.nodes, fs.locked, archive, location);
        }
        var _ := fs.RemoveItem(archive);
      }
    }
  }

  /** `removeTempFolder`: removes the whole temporary area if present, ignoring failure. */
  method RemoveTempFolder(fs: FileSystem, root: Path)
    modifies fs
    ensures fs.locked == old(fs.locked)
    ensures fs.nodes == if Removable(old(fs.nodes), fs.locked, TempRoot(root))
                        then WithoutSubtree(old(fs.nodes), TempRoot(root)) else old(fs.nodes)
  {
    var path := TempRoot(root);
    if fs.Exists(path) {
      var _ := fs.RemoveItem(path);
    }
  }

  /** `moveImageFolderToTempFolder`: moves the installed images aside, under a fresh name in the temporary area. */
  method MoveImageFolderToTempFolder(fs: FileSystem, root: Path, uuid: string)
    modifies fs
    ensures fs.locked == old(fs.locked)
    ensures forall q :: !InSubtree(ImagesFolderPath(root), q) && !InSubtree(TempRoot(root) + [uuid], q) ==>
      SameAt(fs.nodes, old(fs.nodes), q)
  {
    var _ := MoveFileWithUrl(fs, ImagesFolderPath(root), TempRoot(root) + [uuid]);
  }

  /** An entry at or below a listed zip archive directly inside `dir`. */
  predicate InZipEntry(nodes: map<Path, Node>, dir: Path, q: Path) {
    |q| > |dir| && q[..|dir|] == dir && IsZipName(q[|dir|]) && dir + [q[|dir|]] in nodes
  }

  /** The entries with every zip archive directly inside `dir` removed. */
  function WithoutZipEntries(nodes: map<Path, Node>, dir: Path): map<Path, Node> {
    map q | q in nodes && !InZipEntry(nodes, dir, q) :: nodes[q]
  }

  /** The entries left once the archives among `done` have been removed from `dir`. */
  function Swept(start: map<Path, Node>, dir: Path, done: seq<string>): map<Path, Node> {
    map q | q in start && !(InZipEntry(start, dir, q) && q[|dir|] in done) :: start[q]
  }

  /** One path of `SweepZipStep`: below the removed archive exactly when swept by its name. */
  lemma SweepZipStepAt(start: map<Path, Node>, dir: Path, done: seq<string>, name: string, q: Path)
    requires IsZipName(name) && dir + [name] in start && q in start
    ensures InSubtree(dir + [name], q) <==> InZipEntry(start, dir, q) && q[|dir|] == name
  {
    if InSubtree(dir + [name], q) {
      assert q[..|dir|] == dir && q[|dir|] == name by {
        assert q[..|dir| + 1] == dir + [name];
        assert q[..|dir|] == q[..|dir| + 1][..|dir|];
      }
    }
    if InZipEntry(start, dir, q) && q[|dir|] == name {
      assert q[..|dir| + 1] == q[..|dir|] + [q[|dir|]];
    }
  }

  /** Removing one more listed archive extends the sweep by its name. */
  lemma SweepZipStep(start: map<Path, Node>, dir: Path, done: seq<string>, name: string)
    requires IsZipName(name) && dir + [name] in start
    ensures WithoutSubtree(Swept(start, dir, done), dir + [name]) == Swept(start, dir, done + [name])
  {
    var a := WithoutSubtree(Swept(start, dir, done), dir + [name]);
    var b := Swept(start, dir, done + [name]);
    forall q | q in start
      ensures (q in a <==> q in b)
    {
      SweepZipStepAt(start, dir, done, name, q);
    }
    assert a == b;
  }

  /** Passing over a name that is not an archive leaves the sweep as it was. */
  lemma SweepOtherStep(start: map<Path, Node>, dir: Path, done: seq<string>, name: string)
    requires !IsZipName(name)
    ensures Swept(start, dir, done) == Swept(start, dir, done + [name])
  {
    var a := Swept(start, dir, done);
    var b := Swept(start, dir, done + [name]);
    forall q | q in start
      ensures (q in a <==> q in b)
    {
    }
    assert a == b;
  }

  /** Once every listed name is done, exactly the archives are gone. */
  lemma SweepComplete(start: map<Path, Node>, dir: Path, names: seq<string>)
    requires forall n :: n in names <==> dir + [n] in start
    ensures Swept(start, dir, names) == WithoutZipEntries(start, dir)
  {
    var a := Swept(start, dir, names);
    var b := WithoutZipEntries(start, dir);
    forall q | q in start
      ensures (q in a <==> q in b)
    {
    }
    assert a == b;
  }

  /**
   * `deleteDownloadedZipFiles`: removes the archives in the installed images
   * folder, chosen by upper-cased extension. A listing failure changes
   * nothing; a failed removal ends the sweep. Nothing else is touched, and
   * when no archive is locked exactly the archives go.
   */
  method DeleteDownloadedZipFiles(fs: FileSystem, root: Path)
    modifies fs
    ensures fs.locked == old(fs.locked)
    ensures !old(fs.IsDirectory(ImagesFolderPath(root))) ==> fs.nodes == old(fs.nodes)
    ensures forall q :: q in fs.nodes ==> q in old(fs.nodes) && fs.nodes[q] == old(fs.nodes)[q]
    ensures forall q :: q in old(fs.nodes) && !InZipEntry(old(fs.nodes), ImagesFolderPath(root), q) ==> q in fs.nodes
    ensures old(fs.IsDirectory(ImagesFolderPath(root)))
            && (forall n :: IsZipName(n) ==> ImagesFolderPath(root) + [n] !in fs.locked) ==>
      fs.nodes == WithoutZipEntries(old(fs.nodes), ImagesFolderPath(root))
  {
    var imagePath := ImagesFolderPath(root);
    var listing := fs.ContentsOfDirectory(imagePath);
    if listing.None? {
      return;
    }
    var names := listing.value;
    ghost var start := fs.nodes;
    var i := 0;
    assert names[..0] == [];
    assert Swept(start, imagePath, []) == start;
    while i < |names|
      invariant 0 <= i <= |names|
      invariant fs.locked == old(fs.locked)
      invariant fs.nodes == Swept(start, imagePath, names[..i])
    {
      var name := names[i];
      assert names[..i + 1] == names[..i] + [name];
      if Uppercased(PathExtension(name)) == ZipKeyName {
        assert name !in names[..i];
        assert imagePath + [name] in fs.nodes;
        var removed := fs.RemoveItem(imagePath + [name]);
        if !removed {
          return;
        }
        SweepZipStep(start, imagePath, names[..i], name);
      } else {
        SweepOtherStep(start, imagePath, names[..i], name);
      }
      i := i + 1;
    }
    assert names[..i] == names;
    SweepComplete(start, imagePath, names);
  }

  /** Entries after `createImagesFolder`. */
  function AfterImagesFolder(nodes: map<Path, Node>, locked: set<Path>, root: Path): map<Path, Node> {
    if ImagesFolderPath(root) !in nodes && Creatable(nodes, locked, ImagesFolderPath(root))
    then WithDirectories(nodes, ImagesFolderPath(root)) else nodes
  }

  /** The staged database replaces the installed one when, after the images folder is ensured, the old file can be removed and the move is allowed. */
  predicate DatabaseMoves(nodes: map<Path, Node>, locked: set<Path>, root: Path, version: string) {
    var mid := AfterImagesFolder(nodes, locked, root);
    && !(DatabasePath(root) in mid && !Removable(mid, locked, DatabasePath(root)))
    && Movable(ClearedTarget(mid, DatabasePath(root)), locked, TempDatabasePath(root, version), DatabasePath(root))
  }

  /** The installed database path lies outside every other path a commit moves, creates or removes. */
  lemma DatabasePathApart(root: Path, version: string, uuid: string, name: string)
    ensures !InSubtree(ImagesFolderPath(root), DatabasePath(root))
    ensures !InSubtree(DatabasePath(root), ImagesFolderPath(root))
    ensures !InSubtree(TempRoot(root), DatabasePath(root))
    ensures !InSubtree(TempRoot(root) + [uuid], DatabasePath(root))
    ensures !InSubtree(TempImagesPath(root, version), DatabasePath(root))
    ensures !InSubtree(TempDatabasePath(root, version), DatabasePath(root))
    ensures !InSubtree(TempImagesPath(root, version) + [name], DatabasePath(root))
    ensures !InSubtree(ImagesFolderPath(root) + [name], DatabasePath(root))
    ensures !InSubtree(DatabasePath(root), TempDatabasePath(root, version))
    ensures !InSubtree(TempDatabasePath(root, version), ImagesFolderPath(root))
  {
    assert DatabasePath(root)[|root|] == "catalog.sqlite";
    assert ImagesFolderPath(root)[|root|] == "Images";
    assert TempRoot(root)[|root|] == "temp";
    assert TempDatabasePath(root, version)[|root|] == "temp";
  }

  /** The temporary images folder lies outside what a commit touches before listing it. */
  lemma TempImagesPathApart(root: Path, version: string)
    ensures !InSubtree(TempImagesPath(root, version), ImagesFolderPath(root))
    ensures !InSubtree(TempDatabasePath(root, version), TempImagesPath(root, version))
    ensures !InSubtree(DatabasePath(root), TempImagesPath(root, version))
  {
    assert TempImagesPath(root, version)[|root| + 2] == "images";
    assert TempDatabasePath(root, version)[|root| + 2] == "catalog.sqlite";
    assert TempImagesPath(root, version)[|root|] == "temp";
    assert DatabasePath(root)[|root|] == "catalog.sqlite";
  }

  /**
   * `moveTempFilesToFinalDirectory`: installs the staged catalog. The
   * database is moved first; then a full sync swaps the whole images folder,
   * while a delta sync moves each staged image across, ignoring individual
   * failures. It reports failure only when a delta sync cannot list the staged
   * images, and by then the database has already been replaced. On success
   * the temporary area and the installed archives are cleaned up.
   */
  method MoveTempFilesToFinalDirectory(fs: FileSystem, root: Path, version: string, fullSync: bool, uuid: string)
    returns (returnVal: bool)
    modifies fs
    ensures fs.locked == old(fs.locked)
    ensures returnVal == (fullSync || old(fs.IsDirectory(TempImagesPath(root, version))))
    ensures DatabaseMoves(old(fs.nodes), fs.locked, root, version) ==>
      DatabasePath(root) in fs.nodes && fs.nodes[DatabasePath(root)] == old(fs.nodes)[TempDatabasePath(root, version)]
  {
    returnVal := true;
    var tempImagePath := TempImagesPath(root, version);
    var imagePath := ImagesFolderPath(root);
    var dbPath := DatabasePath(root);
    var tempDbPath := TempDatabasePath(root, version);
    DatabasePathApart(root, version, uuid, "");
    TempImagesPathApart(root, version);

    CreateImagesFolder(fs, root);
    ghost var mid := fs.nodes;
    assert mid == AfterImagesFolder(old(fs.nodes), fs.locked, root);
    assert SameAt(mid, old(fs.nodes), tempDbPath);
    assert SameAt(mid, old(fs.nodes), tempImagePath);

    var _ := MoveFileWithUrl(fs, tempDbPath, dbPath);
    ghost var afterDb := fs.nodes;
    assert SameAt(afterDb, old(fs.nodes), tempImagePath);
    if DatabaseMoves(old(fs.nodes), fs.locked, root, version) {
      RelocatedTarget(ClearedTarget(mid, dbPath), tempDbPath, dbPath);
    }

    if fullSync {
      MoveImageFolderToTempFolder(fs, root, uuid);
      assert SameAt(fs.nodes, afterDb, dbPath);
      ghost var beforeSwap := fs.nodes;
      var _ := MoveFileWithUrl(fs, tempImagePath, imagePath);
      assert SameAt(fs.nodes, beforeSwap, dbPath);
    } else {
      var listing := fs.ContentsOfDirectory(tempImagePath);
      if listing.Some? {
        var names := listing.value;
        var i := 0;
        while i < |names|
          invariant 0 <= i <= |names|
          invariant fs.locked == old(fs.locked)
          invariant SameAt(fs.nodes, afterDb, dbPath)
        {
          var name := names[i];
          DatabasePathApart(root, version, uuid, name);
          ghost var before := fs.nodes;
          var _ := MoveFileWithUrl(fs, tempImagePath + [name], imagePath + [name]);
          assert SameAt(fs.nodes, before, dbPath);
          i := i + 1;
        }
      } else {
        returnVal := false;
      }
    }

    if returnVal {
      ghost var beforeCleanup := fs.nodes;
      RemoveTempFolder(fs, root);
      assert SameAt(fs.nodes, beforeCleanup, dbPath);
      ghost var beforeZips := fs.nodes;
      DeleteDownloadedZipFiles(fs, root);
      assert !InZipEntry(beforeZips, imagePath, dbPath) by {
        assert dbPath[..|imagePath|] != imagePath by {
          assert dbPath[..|imagePath|][|root|] == "catalog.sqlite";
        }
      }
      assert SameAt(fs.nodes, beforeZips, dbPath);
    }
  }
}
