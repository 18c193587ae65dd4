/**
 * CatalogDBManager.swift: the single shared database handle, which is open
 * on the installed database, on a version's staged database, or on neither.
 * Opening itself is an oracle (`openOk`); like `sqlite3_open`, an attempt
 * always yields a handle, even when it fails.
 */
module CatalogDatabase {
  import opened Wrappers
  import opened FileSystemModel
  import opened FileManagerUtility

  datatype DatabaseType = TempDatabase | NormalDatabase | NoDatabase

  /** A database connection handle. */
  type Handle = nat

  /** The file a database type is opened from: the installed database, the version's staged one, or no path at all. */
  function DatabasePathFor(root: Path, dbType: DatabaseType, version: Option<string>): Path
    requires dbType == TempDatabase ==> version.Some?
  {
    match dbType
    case NormalDatabase => DatabasePath(root)
    case TempDatabase => TempDatabasePath(root, version.value)
    case NoDatabase => []
  }

  class CatalogDBManager {
    var currentOpenedDatabase: DatabaseType
    var database: Option<Handle>
    /** The path of the most recent open attempt. */
    var openedPath: Option<Path>
    /** The handle the next open attempt yields. */
    var nextHandle: Handle

    /** While a database counts as open there is a handle to return. */
    ghost predicate Valid()
      reads this
    {
      currentOpenedDatabase != NoDatabase ==> database.Some?
    }

    constructor ()
      ensures Valid()
      ensures currentOpenedDatabase == NoDatabase && database == None && openedPath == None
    {
      currentOpenedDatabase := NoDatabase;
      database := None;
      openedPath := None;
      nextHandle := 0;
    }

    /**
     * `createDatabase`: opens the file for `dbType`; afterwards `dbType` is
     * the open database if the open succeeded and none is otherwise. A staged
     * database needs its version.
     */
    method CreateDatabase(root: Path, dbType: DatabaseType, version: Option<string>, openOk: bool) returns (h: Handle)
      requires dbType == TempDatabase ==> version.Some?
      modifies this
      ensures Valid()
      ensures openedPath == Some(DatabasePathFor(root, dbType, version))
      ensures currentOpenedDatabase == if openOk then dbType else NoDatabase
      ensures h == old(nextHandle) && database == Some(h) && nextHandle == h + 1
    {
      openedPath := Some(DatabasePathFor(root, dbType, version));
      database := Some(nextHandle);
      nextHandle := nextHandle + 1;
      if openOk {
        currentOpenedDatabase := dbType;
      } else {
        currentOpenedDatabase := NoDatabase;
      }
      h := database.value;
    }

    /** `closeDatabase`: closes whatever is open; with nothing open it does nothing. */
    method CloseDatabase()
      requires Valid()
      modifies this
      ensures Valid()
      ensures currentOpenedDatabase == NoDatabase
      ensures database == old(database) && openedPath == old(openedPath) && nextHandle == old(nextHandle)
    {
      if currentOpenedDatabase != NoDatabase {
        currentOpenedDatabase := NoDatabase;
      }
    }

    /**
     * `openDataBase`: when `dbType` is already open its handle is returned as
     * it is, whatever version is asked for; otherwise the open database is
     * closed and `dbType` opened afresh. Asking for no database when none was
     * ever opened unwraps a missing handle in the source, hence the second
     * precondition.
     */
    method OpenDataBase(root: Path, dbType: DatabaseType, version: Option<string>, openOk: bool) returns (h: Handle)
      requires Valid()
      requires currentOpenedDatabase == dbType ==> database.Some?
      requires dbType == TempDatabase ==> version.Some?
      modifies this
      ensures Valid()
      ensures old(currentOpenedDatabase) == dbType ==>
        && currentOpenedDatabase == old(currentOpenedDatabase) && database == old(database)
        && openedPath == old(openedPath) && nextHandle == old(nextHandle)
        && database == Some(h)
      ensures old(currentOpenedDatabase) != dbType ==>
        && currentOpenedDatabase == (if openOk then dbType else NoDatabase)
        && openedPath == Some(DatabasePathFor(root, dbType, version))
        && h == old(nextHandle) && database == Some(h)
    {
      if currentOpenedDatabase == dbType {
        h := database.value;
      } else {
        CloseDatabase();
        h := CreateDatabase(root, dbType, version, openOk);
      }
    }
  }
}
