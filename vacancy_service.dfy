/**
 * The vacancy application service: listing and reading vacancies under
 * the permission-by-state rule, and the attachment files of a vacancy with
 * their small life cycle (recorded, confirmed as uploaded, deleted) and
 * the poster that must point at an uploaded file of its own vacancy.
 */
module VacancyApp {
  import opened Common
  import opened Entities
  import opened Pagination
  import VS = VacancySchemas

  /** The two permissions the service itself looks at. */
  datatype Permission = GetPublicVacancy | GetPrivateVacancy

  /** The key of a file's object in storage: "<vacancy id>/<file id>". */
  datatype ObjectKey = ObjectKey(vacancyId: VacancyId, fileId: FileId)

  /** How a download link asks the browser to treat the file. */
  datatype Disposition = Inline | Attachment

  /** The parameters a public download link is generated from. */
  datatype DownloadLink = DownloadLink(key: ObjectKey, contentType: string, disposition: Disposition, filename: string)

  /** A file as the service returns it: its link and its record without the vacancy and upload flag. */
  datatype FileItem = FileItem(id: FileId, filename: string, contentType: string, url: DownloadLink)

  /** The repository request a vacancy listing turns into. */
  datatype ListRequest = ListRequest(window: Window, state: Option<VacancyState>, search: Option<string>)

  /**
   * Reading a vacancy in `state`: an opened one needs the public
   * permission, any other the private one; otherwise AccessDenied.
   */
  function AccessCheck(permissions: set<Permission>, state: VacancyState): (r: Result<()>)
    ensures r.Ok? <==> (if state == Opened then GetPublicVacancy in permissions else GetPrivateVacancy in permissions)
    ensures r.Err? ==> r.error == AccessDenied
  {
    if state != Opened && GetPrivateVacancy !in permissions then Err(AccessDenied)
    else if state == Opened && GetPublicVacancy !in permissions then Err(AccessDenied)
    else Ok(())
  }

  /** Holding both permissions, every vacancy can be read. */
  lemma BothPermissionsReadEverything(permissions: set<Permission>, state: VacancyState)
    requires GetPublicVacancy in permissions && GetPrivateVacancy in permissions
    ensures AccessCheck(permissions, state).Ok?
  {
  }

  /**
   * `get_vacancies`: the page checks come before the permission check,
   * then the clamp. The state filter is dropped when the state is CLOSED
   * (its value 0 is false), and a non-empty query chooses the search.
   */
  function GetVacancies(permissions: set<Permission>, state: VacancyState, page: int, perPage: int, query: Option<string>): (r: Result<ListRequest>)
    ensures page < 1 ==> r == Err(NotFound)
    ensures page >= 1 && perPage < 1 ==> r == Err(BadRequest)
    ensures page >= 1 && perPage >= 1 ==> (r.Ok? <==> AccessCheck(permissions, state).Ok?)
    ensures page >= 1 && perPage >= 1 && AccessCheck(permissions, state).Err? ==> r == Err(AccessDenied)
    ensures r.Err? ==> r.error in {NotFound, BadRequest, AccessDenied}
    ensures r.Ok? ==> r.value.window == Clamp(page, perPage).value
    ensures r.Ok? ==> (r.value.state.Some? <==> state == Opened) && (r.value.state.Some? ==> r.value.state.value == state)
    ensures r.Ok? ==> (r.value.search.Some? <==> Truthy(query)) && (r.value.search.Some? ==> r.value.search == query)
  {
    match Clamp(page, perPage)
    case Err(e) => Err(e)
    case Ok(w) =>
      match AccessCheck(permissions, state)
      case Err(e) => Err(e)
      case Ok(_) =>
        var filter := if state == Opened then Some(state) else None;
        var search := if Truthy(query) then query else None;
        Ok(ListRequest(w, filter, search))
  }

  /**
   * Asking for CLOSED vacancies needs the private permission but lists
   * vacancies of every state: the request carries no state filter.
   */
  lemma ClosedListingIsUnfiltered(permissions: set<Permission>, page: int, perPage: int, query: Option<string>)
    requires page >= 1 && perPage >= 1 && GetPrivateVacancy in permissions
    ensures GetVacancies(permissions, Closed, page, perPage, query).Ok?
    ensures GetVacancies(permissions, Closed, page, perPage, query).value.state == None
  {
  }

  /** A page problem is reported even to a caller without any permission. */
  lemma PageCheckedBeforePermission(state: VacancyState, page: int, perPage: int, query: Option<string>)
    requires page < 1 || perPage < 1
    ensures GetVacancies({}, state, page, perPage, query).Err?
    ensures GetVacancies({}, state, page, perPage, query).error != AccessDenied
  {
  }

  /** The vacancy with the update payload's set fields replaced; test time and poster stay. */
  function ApplyVacancyUpdate(v: Vacancy, u: VS.VacancyUpdate): (r: Vacancy)
    ensures r.id == v.id && r.testTime == v.testTime && r.poster == v.poster
    ensures u.title.Some? ==> r.title == u.title.value
    ensures u.title.None? ==> r.title == v.title
    ensures u.content.Some? ==> r.content == u.content.value
    ensures u.content.None? ==> r.content == v.content
    ensures u.state.Some? ==> r.state == u.state.value
    ensures u.state.None? ==> r.state == v.state
    ensures u.kind.Some? ==> r.kind == u.kind.value
    ensures u.kind.None? ==> r.kind == v.kind
    ensures u == VS.VacancyUpdate(None, None, None, None) ==> r == v
  {
    v.(title := if u.title.Some? then u.title.value else v.title,
       content := if u.content.Some? then u.content.value else v.content,
       state := if u.state.Some? then u.state.value else v.state,
       kind := if u.kind.Some? then u.kind.value else v.kind)
  }

  /** Files of a vacancy that are uploaded: `filter_by(vacancy_id = ..., is_uploaded = True)`. */
  function UploadedOf(vacancyId: VacancyId): VacancyFile -> bool
  {
    (f: VacancyFile) => f.vacancyId == vacancyId && f.isUploaded
  }

  /**
   * The checks shared by confirming, deleting and choosing as poster: the
   * vacancy and the file exist (NotFound) and the file is the vacancy's
   * (BadRequest).
   */
  function FileOfVacancy(vacancies: map<VacancyId, Vacancy>, files: map<FileId, VacancyFile>, vacancyId: VacancyId, fileId: FileId): (r: Result<(Vacancy, VacancyFile)>)
    ensures r.Ok? <==> vacancyId in vacancies && fileId in files && files[fileId].vacancyId == vacancyId
    ensures r.Ok? ==> r.value == (vacancies[vacancyId], files[fileId])
    ensures r.Err? ==> r.error == (if vacancyId in vacancies && fileId in files then BadRequest else NotFound)
  {
    if vacancyId !in vacancies then Err(NotFound)
    else if fileId !in files then Err(NotFound)
    else if files[fileId].vacancyId != vacancyId then Err(BadRequest)
    else Ok((vacancies[vacancyId], files[fileId]))
  }

  /** `confirm_vacancy_file_upload`'s checks: a file of the vacancy, not yet uploaded (BadRequest), whose object is in storage (NotFound). */
  function ConfirmCheck(vacancies: map<VacancyId, Vacancy>, files: map<FileId, VacancyFile>, storage: set<ObjectKey>, vacancyId: VacancyId, fileId: FileId): (r: Result<()>)
    ensures r.Ok? <==> FileOfVacancy(vacancies, files, vacancyId, fileId).Ok? && !files[fileId].isUploaded && ObjectKey(vacancyId, fileId) in storage
    ensures FileOfVacancy(vacancies, files, vacancyId, fileId).Err? ==> r == Err(FileOfVacancy(vacancies, files, vacancyId, fileId).error)
    ensures FileOfVacancy(vacancies, files, vacancyId, fileId).Ok? && files[fileId].isUploaded ==> r == Err(BadRequest)
    ensures FileOfVacancy(vacancies, files, vacancyId, fileId).Ok? && !files[fileId].isUploaded && ObjectKey(vacancyId, fileId) !in storage ==> r == Err(NotFound)
  {
    match FileOfVacancy(vacancies, files, vacancyId, fileId)
    case Err(e) => Err(e)
    case Ok((_, f)) =>
      if f.isUploaded then Err(BadRequest)
      else if ObjectKey(vacancyId, fileId) !in storage then Err(NotFound)
      else Ok(())
  }

  /** `delete_vacancy_file`'s checks: a file of the vacancy that is uploaded (BadRequest otherwise). */
  function DeleteCheck(vacancies: map<VacancyId, Vacancy>, files: map<FileId, VacancyFile>, vacancyId: VacancyId, fileId: FileId): (r: Result<()>)
    ensures r.Ok? <==> FileOfVacancy(vacancies, files, vacancyId, fileId).Ok? && files[fileId].isUploaded
    ensures FileOfVacancy(vacancies, files, vacancyId, fileId).Err? ==> r == Err(FileOfVacancy(vacancies, files, vacancyId, fileId).error)
    ensures FileOfVacancy(vacancies, files, vacancyId, fileId).Ok? && !files[fileId].isUploaded ==> r == Err(BadRequest)
  {
    match FileOfVacancy(vacancies, files, vacancyId, fileId)
    case Err(e) => Err(e)
    case Ok((_, f)) => if !f.isUploaded then Err(BadRequest) else Ok(())
  }

  /** `set_vacancy_poster`'s checks: an uploaded file of the vacancy that is not its poster already (BadRequest otherwise). */
  function PosterCheck(vacancies: map<VacancyId, Vacancy>, files: map<FileId, VacancyFile>, vacancyId: VacancyId, fileId: FileId): (r: Result<()>)
    ensures r.Ok? <==> FileOfVacancy(vacancies, files, vacancyId, fileId).Ok? && files[fileId].isUploaded && vacancies[vacancyId].poster != Some(fileId)
    ensures FileOfVacancy(vacancies, files, vacancyId, fileId).Err? ==> r == Err(FileOfVacancy(vacancies, files, vacancyId, fileId).error)
    ensures FileOfVacancy(vacancies, files, vacancyId, fileId).Ok? && !r.Ok? ==> r == Err(BadRequest)
  {
    match FileOfVacancy(vacancies, files, vacancyId, fileId)
    case Err(e) => Err(e)
    case Ok((v, f)) =>
      if !f.isUploaded then Err(BadRequest)
      else if v.poster == Some(fileId) then Err(BadRequest)
      else Ok(())
  }

  /** A file that is recorded but not confirmed can be neither a poster nor deleted. */
  lemma UnconfirmedFileIsInert(vacancies: map<VacancyId, Vacancy>, files: map<FileId, VacancyFile>, vacancyId: VacancyId, fileId: FileId)
    requires fileId in files && !files[fileId].isUploaded
    ensures PosterCheck(vacancies, files, vacancyId, fileId).Err?
    ensures DeleteCheck(vacancies, files, vacancyId, fileId).Err?
  {
  }

  /**
   * Once confirmed, a file cannot be confirmed again, and it can be chosen
   * as poster unless it already is one, and deleted.
   */
  lemma ConfirmedFileStep(vacancies: map<VacancyId, Vacancy>, files: map<FileId, VacancyFile>, storage: set<ObjectKey>, vacancyId: VacancyId, fileId: FileId)
    requires ConfirmCheck(vacancies, files, storage, vacancyId, fileId).Ok?
    ensures var after := files[fileId := files[fileId].(isUploaded := true)];
      && ConfirmCheck(vacancies, after, storage, vacancyId, fileId) == Err(BadRequest)
      && DeleteCheck(vacancies, after, vacancyId, fileId).Ok?
      && (PosterCheck(vacancies, after, vacancyId, fileId).Ok? <==> vacancies[vacancyId].poster != Some(fileId))
  {
  }

  /**
   * A file just recorded by an upload request can be confirmed exactly
   * when its object has reached storage; before that, confirming is NotFound.
   */
  lemma NewFileConfirmsOnceStored(vacancies: map<VacancyId, Vacancy>, files: map<FileId, VacancyFile>, storage: set<ObjectKey>,
                                  vacancyId: VacancyId, id: FileId, filename: string, contentType: string)
    requires vacancyId in vacancies
    ensures var after := files[id := VacancyFile(id, filename, vacancyId, contentType, false)];
      && ConfirmCheck(vacancies, after, storage + {ObjectKey(vacancyId, id)}, vacancyId, id) == Ok(())
      && (ObjectKey(vacancyId, id) !in storage ==> ConfirmCheck(vacancies, after, storage, vacancyId, id) == Err(NotFound))
  {
  }

  /** Choosing the same poster twice: the second time is BadRequest. */
  lemma PosterTwiceRejected(vacancies: map<VacancyId, Vacancy>, files: map<FileId, VacancyFile>, vacancyId: VacancyId, fileId: FileId)
    requires PosterCheck(vacancies, files, vacancyId, fileId).Ok?
    ensures PosterCheck(vacancies[vacancyId := vacancies[vacancyId].(poster := Some(fileId))], files, vacancyId, fileId) == Err(BadRequest)
  {
  }

  class VacancyService {
    /** The permissions of the current user. */
    const permissions: set<Permission>
    var vacancies: map<VacancyId, Vacancy>
    var files: map<FileId, VacancyFile>
    /** The object keys present in file storage. */
    var storage: set<ObjectKey>
    var nextFileId: nat

    /** Every poster is an uploaded file of its own vacancy. */
    ghost predicate PostersValid()
      reads this
    {
      forall k :: k in vacancies && vacancies[k].poster.Some? ==>
        var p := vacancies[k].poster.value;
        p in files && files[p].vacancyId == k && files[p].isUploaded
    }

    ghost predicate Valid()
      reads this
    {
      && (forall k :: k in vacancies ==> vacancies[k].id == k)
      && (forall k :: k in files ==> k < nextFileId && files[k].id == k)
      && PostersValid()
    }

    constructor (permissions: set<Permission>, vacancies: map<VacancyId, Vacancy>, storage: set<ObjectKey>)
      requires forall k :: k in vacancies ==> vacancies[k].id == k && vacancies[k].poster.None?
      ensures Valid()
      ensures this.permissions == permissions && this.vacancies == vacancies && this.storage == storage && files == map[]
    {
      this.permissions := permissions;
      this.vacancies := vacancies;
      this.storage := storage;
      files := map[];
      nextFileId := 0;
    }

    /** `get_vacancy`: NotFound, then the permission-by-state rule. */
    function GetVacancy(vacancyId: VacancyId): (r: Result<Vacancy>)
      reads this
      ensures vacancyId !in vacancies ==> r == Err(NotFound)
      ensures vacancyId in vacancies ==>
        r == if AccessCheck(permissions, vacancies[vacancyId].state).Ok? then Ok(vacancies[vacancyId]) else Err(AccessDenied)
    {
      if vacancyId !in vacancies then Err(NotFound)
      else
        match AccessCheck(permissions, vacancies[vacancyId].state)
        case Err(e) => Err(e)
        case Ok(_) => Ok(vacancies[vacancyId])
    }

    /**
     * `get_vacancy_file`: the vacancy and the permission-by-state rule, then
     * the file must exist and be uploaded (NotFound). The file's own vacancy
     * is not compared; the link names the requested vacancy and is an
     * attachment iff `download`.
     */
    function GetVacancyFile(vacancyId: VacancyId, fileId: FileId, download: bool): (r: Result<FileItem>)
      reads this
      ensures vacancyId !in vacancies ==> r == Err(NotFound)
      ensures vacancyId in vacancies && AccessCheck(permissions, vacancies[vacancyId].state).Err? ==> r == Err(AccessDenied)
      ensures vacancyId in vacancies && AccessCheck(permissions, vacancies[vacancyId].state).Ok? ==>
        (r.Ok? <==> fileId in files && files[fileId].isUploaded) && (r.Err? ==> r.error == NotFound)
      ensures r.Ok? ==>
        var f := files[fileId];
        && r.value == FileItem(f.id, f.filename, f.contentType, DownloadLink(ObjectKey(vacancies[vacancyId].id, f.id), f.contentType, r.value.url.disposition, f.filename))
        && (r.value.url.disposition == Attachment <==> download)
    {
      if vacancyId !in vacancies then Err(NotFound)
      else
        var v := vacancies[vacancyId];
        match AccessCheck(permissions, v.state)
        case Err(e) => Err(e)
        case Ok(_) =>
          if fileId !in files then Err(NotFound)
          else
            var f := files[fileId];
            if !f.isUploaded then Err(NotFound)
            else
              var link := DownloadLink(ObjectKey(v.id, f.id), f.contentType, if download then Attachment else Inline, f.filename);
              Ok(FileItem(f.id, f.filename, f.contentType, link))
    }

    /**
     * `get_vacancy_files`: the vacancy must exist; then a link for each of
     * its uploaded files in id order (at most the default row limit), all
     * shown inline.
     */
    method GetVacancyFiles(vacancyId: VacancyId) returns (r: Result<seq<FileItem>>)
      requires Valid()
      ensures vacancyId !in vacancies ==> r == Err(NotFound)
      ensures vacancyId in vacancies ==>
        var listed := Take(ListById(files, UploadedOf(vacancyId), nextFileId), DefaultRowLimit);
        && r.Ok? && |r.value| == |listed|
        && forall i :: 0 <= i < |listed| ==>
             r.value[i] == FileItem(listed[i].id, listed[i].filename, listed[i].contentType,
                                    DownloadLink(ObjectKey(vacancyId, listed[i].id), listed[i].contentType, Inline, listed[i].filename))
      ensures r.Ok? ==> forall item :: item in r.value ==>
        item.id in files && files[item.id].vacancyId == vacancyId && files[item.id].isUploaded
    {
      if vacancyId !in vacancies {
        return Err(NotFound);
      }
      var vacancy := vacancies[vacancyId];
      var listed := Take(ListById(files, UploadedOf(vacancyId), nextFileId), DefaultRowLimit);
      var resp: seq<FileItem> := [];
      for i := 0 to |listed|
        invariant |resp| == i
        invariant forall j :: 0 <= j < i ==>
          resp[j] == FileItem(listed[j].id, listed[j].filename, listed[j].contentType,
                              DownloadLink(ObjectKey(vacancyId, listed[j].id), listed[j].contentType, Inline, listed[j].filename))
      {
        var file := listed[i];
        var url := DownloadLink(ObjectKey(vacancy.id, file.id), file.contentType, Inline, file.filename);
        resp := resp + [FileItem(file.id, file.filename, file.contentType, url)];
      }
      forall j | 0 <= j < |listed|
        ensures listed[j].id in files && files[listed[j].id] == listed[j]
      {
        var all := ListById(files, UploadedOf(vacancyId), nextFileId);
        assert listed[j] == all[j];
        assert listed[j] in files.Values;
        var k :| k in files && files[k] == listed[j];
      }
      r := Ok(resp);
    }

    /** `update_vacancy`: the vacancy must exist; the payload's set fields replace the stored ones. */
    method UpdateVacancy(vacancyId: VacancyId, data: VS.VacancyUpdate) returns (r: Result<()>)
      requires Valid()
      modifies this`vacancies
      ensures Valid()
      ensures vacancyId !in old(vacancies) ==> r == Err(NotFound) && vacancies == old(vacancies)
      ensures vacancyId in old(vacancies) ==>
        r == Ok(()) && vacancies == old(vacancies)[vacancyId := ApplyVacancyUpdate(old(vacancies)[vacancyId], data)]
    {
      if vacancyId !in vacancies {
        return Err(NotFound);
      }
      vacancies := vacancies[vacancyId := ApplyVacancyUpdate(vacancies[vacancyId], data)];
      r := Ok(());
    }

    /** `upload_vacancy_file`: the vacancy must exist; a new record, not uploaded, and the key to upload its object to. */
    method UploadFile(vacancyId: VacancyId, filename: string, contentType: string) returns (r: Result<ObjectKey>)
      requires Valid()
      modifies this`files, this`nextFileId
      ensures Valid()
      ensures vacancyId !in vacancies ==> r == Err(NotFound) && files == old(files) && nextFileId == old(nextFileId)
      ensures vacancyId in vacancies ==>
        && r == Ok(ObjectKey(vacancyId, old(nextFileId)))
        && old(nextFileId) !in old(files)
        && files == old(files)[old(nextFileId) := VacancyFile(old(nextFileId), filename, vacancyId, contentType, false)]
        && nextFileId == old(nextFileId) + 1
    {
      if vacancyId !in vacancies {
        return Err(NotFound);
      }
      var id := nextFileId;
      files := files[id := VacancyFile(id, filename, vacancyId, contentType, false)];
      nextFileId := nextFileId + 1;
      r := Ok(ObjectKey(vacancies[vacancyId].id, id));
    }

    /**
     * The client's upload of an object to the address an upload request
     * returned: the key is present in storage afterwards, and nothing else changes.
     */
    method ObjectStored(key: ObjectKey)
      requires Valid()
      modifies this`storage
      ensures Valid()
      ensures storage == old(storage) + {key}
    {
      storage := storage + {key};
    }

    /** `confirm_vacancy_file_upload`: after its checks, the file is marked uploaded and nothing else changes. */
    method ConfirmUpload(vacancyId: VacancyId, fileId: FileId) returns (r: Result<()>)
      requires Valid()
      modifies this`files
      ensures Valid()
      ensures r == ConfirmCheck(old(vacancies), old(files), storage, vacancyId, fileId)
      ensures r.Err? ==> files == old(files)
      ensures r.Ok? ==> files == old(files)[fileId := old(files)[fileId].(isUploaded := true)]
    {
      r := ConfirmCheck(vacancies, files, storage, vacancyId, fileId);
      if r.Err? {
        return;
      }
      files := files[fileId := files[fileId].(isUploaded := true)];
    }

    /**
     * `delete_vacancy_file`: after its checks, the poster is cleared if it
     * is this file, the object is removed from storage and the record is
     * removed.
     */
    method DeleteFile(vacancyId: VacancyId, fileId: FileId) returns (r: Result<()>)
      requires Valid()
      modifies this`vacancies, this`files, this`storage
      ensures Valid()
      ensures r == DeleteCheck(old(vacancies), old(files), vacancyId, fileId)
      ensures r.Err? ==> vacancies == old(vacancies) && files == old(files) && storage == old(storage)
      ensures r.Ok? ==>
        && vacancies == (if old(vacancies)[vacancyId].poster == Some(fileId)
                         then old(vacancies)[vacancyId := old(vacancies)[vacancyId].(poster := None)]
                         else old(vacancies))
        && storage == old(storage) - {ObjectKey(vacancyId, fileId)}
        && files == old(files) - {fileId}
      ensures forall k :: k in vacancies ==> vacancies[k].poster != Some(fileId) || r.Err?
    {
      r := DeleteCheck(vacancies, files, vacancyId, fileId);
      if r.Err? {
        return;
      }
      if vacancies[vacancyId].poster == Some(fileId) {
        vacancies := vacancies[vacancyId := vacancies[vacancyId].(poster := None)];
      }
      storage := storage - {ObjectKey(vacancyId, fileId)};
      files := files - {fileId};
    }

    /** `set_vacancy_poster`: after its checks, the vacancy's poster becomes the file. */
    method SetPoster(vacancyId: VacancyId, fileId: FileId) returns (r: Result<()>)
      requires Valid()
      modifies this`vacancies
      ensures Valid()
      ensures r == PosterCheck(old(vacancies), files, vacancyId, fileId)
      ensures r.Err? ==> vacancies == old(vacancies)
      ensures r.Ok? ==> vacancies == old(vacancies)[vacancyId := old(vacancies)[vacancyId].(poster := Some(fileId))]
    {
      r := PosterCheck(vacancies, files, vacancyId, fileId);
      if r.Err? {
        return;
      }
      vacancies := vacancies[vacancyId := vacancies[vacancyId].(poster := Some(fileId))];
    }
  }
}
