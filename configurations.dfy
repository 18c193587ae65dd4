/**
 * The library's constants and its error table (`Configuration` and
 * `CatalogError` in Configurations.swift).
 */
module Configurations {
  import opened Wrappers

  /** Number of download attempts an item gets before it is given up. */
  const MaxRetryRequest: int := 3

  /** Extension (upper-cased) of the archives removed after a commit. */
  const ZipKeyName: string := "ZIP"

  /** Name of the database inside the downloaded archive. */
  const DownloadSqliteFileName: string := "xiq_small_db.sqlite"

  /** Canonical name under which the catalog database is installed. */
  const SqliteFileName: string := "catalog.sqlite"

  /** Settings-store keys. */
  const BackupKeyName: string := "CATALOG_BACK_UP"
  const BackupVersionKeyName: string := "CATALOG_VERSION"
  const SyncCompletionDateKey: string := "SYNC_COMPLETION_DATE"

  /** The error kinds a sync can end with; each carries an integer raw code. */
  datatype CatalogError =
    | RequestTimedOut
    | UnzipSQLiteError
    | UnzipError
    | DownloadError
    | TempToFinalLocationError
    | ImageSaveError
    | SessionInvalid

  /** The raw code the error is reported with. */
  function RawValue(e: CatalogError): (code: int)
    ensures code == -1001 || 4004 <= code <= 4009
  {
    match e
    case RequestTimedOut => -1001
    case UnzipSQLiteError => 4004
    case UnzipError => 4005
    case DownloadError => 4006
    case TempToFinalLocationError => 4007
    case ImageSaveError => 4008
    case SessionInvalid => 4009
  }

  /** The error kind with a given raw code, if any (Swift's `init?(rawValue:)`). */
  function FromRawValue(code: int): (r: Option<CatalogError>)
    ensures r.Some? <==> code == -1001 || 4004 <= code <= 4009
  {
    if code == -1001 then Some(RequestTimedOut)
    else if code == 4004 then Some(UnzipSQLiteError)
    else if code == 4005 then Some(UnzipError)
    else if code == 4006 then Some(DownloadError)
    else if code == 4007 then Some(TempToFinalLocationError)
    else if code == 4008 then Some(ImageSaveError)
    else if code == 4009 then Some(SessionInvalid)
    else None
  }

  /** The human-readable text reported with the error. */
  function Description(e: CatalogError): (text: string)
    ensures |text| > 0
  {
    match e
    case RequestTimedOut => "The request timed out"
    case UnzipSQLiteError => "Error unzipping catalog file"
    case UnzipError => "Error unzipping file"
    case DownloadError => "Unable to download file"
    case TempToFinalLocationError => "Error moving files from temp to final location"
    case ImageSaveError => "Error saving delta image"
    case SessionInvalid => "The session became invalid"
  }

  /** Raw codes and error kinds are in one-to-one correspondence. */
  lemma RawValueRoundTrip(e: CatalogError, code: int)
    ensures FromRawValue(RawValue(e)) == Some(e)
    ensures FromRawValue(code) == Some(e) ==> RawValue(e) == code
  {
  }

  /** No two error kinds share a raw code. */
  lemma RawValuesDistinct(e1: CatalogError, e2: CatalogError)
    ensures RawValue(e1) == RawValue(e2) ==> e1 == e2
  {
    RawValueRoundTrip(e1, RawValue(e1));
    RawValueRoundTrip(e2, RawValue(e2));
  }

  /** The retry budget allows at least one retry, so `MaxRetryRequest - 1` is a positive bound. */
  lemma RetryBudget()
    ensures MaxRetryRequest == 3 && MaxRetryRequest - 1 > 0
  {
  }

  /** The archive's database name differs from the installed one, so the rename step really moves a file. */
  lemma DatabaseRenameIsNotIdentity()
    ensures DownloadSqliteFileName != SqliteFileName
  {
    assert DownloadSqliteFileName[0] != SqliteFileName[0];
  }
}
