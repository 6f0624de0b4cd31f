/**
 The upload handler (`uploadAPI`): spool the request body to a temporary
 file while hashing it, name it by the lowercase hex of its SHA-1 sum, refuse
 a name that already exists, rename the temporary file into the data
 directory, and only then run the archive check on the stored file.
 */
module Upload {
  import opened Libraries
  import opened ZipCheck
  import opened HexName

  const STATUS_BAD_REQUEST := 400
  const STATUS_INTERNAL_SERVER_ERROR := 500

  /**
   The filesystem calls whose failure the handler reacts to. `statFails`
   stands for `os.Stat` returning an error other than "does not exist"
   (a permission error, say) on a name that is not in the directory.
   */
  datatype Faults = Faults(createTempFails: bool, copyFails: bool, statFails: bool, renameFails: bool)

  /** The causes of an `apiError`, one per stage. */
  datatype UploadError =
    | CreateTempFailed
    | CopyFailed
    | AlreadyExists(name: string)
    | RenameFailed
    | IpaCheckFailed(error: CheckError)

  /** `apiError`: a cause and the HTTP status it is reported with. */
  datatype ApiError = ApiError(error: UploadError, status: int)

  /** What `uploadAPI` ends in: nil, an `apiError`, or a panic out of the archive check. */
  datatype UploadResult = Stored | Failed(apiError: ApiError) | Panicked

  /** The data directory: file name to content. */
  type Directory = map<string, Bytes>

  /** The result of one upload and the data directory after it. */
  datatype Step = Step(result: UploadResult, files: Directory)

  /** True of the errors the server is to blame for. */
  predicate IsServerFault(e: UploadError) {
    e.CreateTempFailed? || e.CopyFailed? || e.RenameFailed?
  }

  /** Every file is named by the hex SHA-1 sum of its content. */
  ghost predicate ContentAddressed(libs: Libraries, files: Directory) {
    forall n | n in files :: n == StoredName(libs.sha1(files[n]))
  }

  /** One upload of `body` into `files`, stage by stage. */
  function UploadStep(libs: Libraries, appId: string, files: Directory, body: Bytes, faults: Faults): (r: Step)
    ensures r.result.Failed? ==> r.result.apiError.status == 400 || r.result.apiError.status == 500
    ensures r.files != files ==>
              && !faults.createTempFails && !faults.copyFails && !faults.statFails && !faults.renameFails
              && StoredName(libs.sha1(body)) !in files
              && r.files == files[StoredName(libs.sha1(body)) := body]
  {
    if faults.createTempFails then
      Step(Failed(ApiError(CreateTempFailed, STATUS_INTERNAL_SERVER_ERROR)), files)
    else if faults.copyFails then
      Step(Failed(ApiError(CopyFailed, STATUS_INTERNAL_SERVER_ERROR)), files)
    else
      var name := StoredName(libs.sha1(body));
      if name in files || faults.statFails then
        Step(Failed(ApiError(AlreadyExists(name), STATUS_BAD_REQUEST)), files)
      else if faults.renameFails then
        Step(Failed(ApiError(RenameFailed, STATUS_INTERNAL_SERVER_ERROR)), files)
      else
        var stored := files[name := body];
        match ZipCheckSpec(libs, stored[name], appId)
        case Accepted => Step(Stored, stored)
        case Rejected(e) => Step(Failed(ApiError(IpaCheckFailed(e), STATUS_BAD_REQUEST)), stored)
        case Panic => Step(Panicked, stored)
  }

  /**
   The service: the configured application identifier, the library oracles,
   and the contents of the data directory, which uploads change.
   */
  class Server {
    const libs: Libraries
    const appId: string
    var files: Directory

    constructor (libs: Libraries, appId: string, files: Directory)
      ensures this.libs == libs && this.appId == appId && this.files == files
    {
      this.libs := libs;
      this.appId := appId;
      this.files := files;
    }

    /** `uploadAPI` */
    method Upload(body: Bytes, faults: Faults) returns (r: UploadResult)
      modifies this
      ensures Step(r, files) == UploadStep(libs, appId, old(files), body, faults)
    {
      if faults.createTempFails {
        return Failed(ApiError(CreateTempFailed, STATUS_INTERNAL_SERVER_ERROR));
      }
      if faults.copyFails {
        return Failed(ApiError(CopyFailed, STATUS_INTERNAL_SERVER_ERROR));
      }
      var name := StoredName(libs.sha1(body));
      if name in files || faults.statFails {
        return Failed(ApiError(AlreadyExists(name), STATUS_BAD_REQUEST));
      }
      if faults.renameFails {
        return Failed(ApiError(RenameFailed, STATUS_INTERNAL_SERVER_ERROR));
      }
      files := files[name := body];
      var v: Verdict;
      ghost var examined: seq<nat>;
      v, examined := Check(libs, files[name], appId);
      match v
      case Accepted => r := Stored;
      case Rejected(e) => r := Failed(ApiError(IpaCheckFailed(e), STATUS_BAD_REQUEST));
      case Panic => r := Panicked;
    }
  }

  /**
   Temp-file, copy and rename failures are reported as 500; a duplicate name,
   an `os.Stat` error other than "does not exist", and a failed archive check
   as 400; a panic in the check escapes. An upload ends in nil exactly when every
   filesystem call succeeds, the name is new and the archive check passes.
   */
  lemma StatusMapping(libs: Libraries, appId: string, files: Directory, body: Bytes, faults: Faults)
    ensures var r := UploadStep(libs, appId, files, body, faults).result;
      && (r.Failed? ==> (r.apiError.status == 500 <==> IsServerFault(r.apiError.error)))
      && (r.Failed? ==> (r.apiError.status == 400 <==> !IsServerFault(r.apiError.error)))
      && (r.Failed? ==> r.apiError.status == 400 || r.apiError.status == 500)
      && (faults.createTempFails ==> r == Failed(ApiError(CreateTempFailed, 500)))
      && (!faults.createTempFails && faults.copyFails ==> r == Failed(ApiError(CopyFailed, 500)))
      && (!faults.createTempFails && !faults.copyFails
          && (StoredName(libs.sha1(body)) in files || faults.statFails) ==>
            r == Failed(ApiError(AlreadyExists(StoredName(libs.sha1(body))), 400)))
      && (!faults.createTempFails && !faults.copyFails
          && StoredName(libs.sha1(body)) !in files && !faults.statFails && faults.renameFails ==>
            r == Failed(ApiError(RenameFailed, 500)))
      && ((r.Failed? && r.apiError.status == 500) <==>
            faults.createTempFails || faults.copyFails
            || (StoredName(libs.sha1(body)) !in files && !faults.statFails && faults.renameFails))
      && ((r.Failed? && r.apiError.status == 400) <==>
            !faults.createTempFails && !faults.copyFails
            && (StoredName(libs.sha1(body)) in files || faults.statFails
                || (!faults.renameFails && ZipCheckSpec(libs, body, appId).Rejected?)))
      && (r.Panicked? <==>
            && !faults.createTempFails && !faults.copyFails && !faults.statFails && !faults.renameFails
            && StoredName(libs.sha1(body)) !in files
            && ZipCheckSpec(libs, body, appId).Panic?)
      && (r == Stored <==>
            && !faults.createTempFails && !faults.copyFails && !faults.statFails && !faults.renameFails
            && StoredName(libs.sha1(body)) !in files
            && ZipCheckSpec(libs, body, appId).Accepted?)
  {
  }

  /**
   The directory changes only by the new file, under the hex name of its
   SHA-1 sum: an existing file is never replaced or removed.
   */
  lemma OnlyNewFileAdded(libs: Libraries, appId: string, files: Directory, body: Bytes, faults: Faults)
    ensures var after := UploadStep(libs, appId, files, body, faults).files;
      && (forall n | n in files :: n in after && after[n] == files[n])
      && (forall n | n in after && n !in files :: n == StoredName(libs.sha1(body)) && after[n] == body)
  {
  }

  /** A name that already exists gives 400 and leaves the directory as it was. */
  lemma ExistingNameRejected(libs: Libraries, appId: string, files: Directory, body: Bytes, faults: Faults)
    requires !faults.createTempFails && !faults.copyFails
    requires StoredName(libs.sha1(body)) in files
    ensures UploadStep(libs, appId, files, body, faults)
            == Step(Failed(ApiError(AlreadyExists(StoredName(libs.sha1(body))), 400)), files)
  {
  }

  /**
   The file is renamed into place before the archive check runs, so an
   archive the check rejects, or one that makes it panic, stays stored.
   */
  lemma StoredBeforeCheck(libs: Libraries, appId: string, files: Directory, body: Bytes, faults: Faults)
    requires faults == Faults(false, false, false, false)
    requires StoredName(libs.sha1(body)) !in files
    ensures var s := UploadStep(libs, appId, files, body, faults);
      && s.files == files[StoredName(libs.sha1(body)) := body]
      && (ZipCheckSpec(libs, body, appId).Rejected? ==>
            s.result == Failed(ApiError(IpaCheckFailed(ZipCheckSpec(libs, body, appId).error), 400)))
      && (ZipCheckSpec(libs, body, appId).Panic? ==> s.result == Panicked)
  {
  }

  /**
   Uploading the same bytes again, once they are stored, is refused with 400
   and stores nothing more: one file per distinct content.
   */
  lemma UploadTwice(libs: Libraries, appId: string, files: Directory, body: Bytes, first: Faults, second: Faults)
    requires StoredName(libs.sha1(body)) in UploadStep(libs, appId, files, body, first).files
    requires !second.createTempFails && !second.copyFails
    ensures var once := UploadStep(libs, appId, files, body, first).files;
      var twice := UploadStep(libs, appId, once, body, second);
      && twice.files == once
      && twice.result == Failed(ApiError(AlreadyExists(StoredName(libs.sha1(body))), 400))
  {
  }

  /** A directory whose every file is named by its content's digest stays so after an upload. */
  lemma KeepsContentAddressed(libs: Libraries, appId: string, files: Directory, body: Bytes, faults: Faults)
    requires ContentAddressed(libs, files)
    ensures ContentAddressed(libs, UploadStep(libs, appId, files, body, faults).files)
  {
  }
}
