/** Uploaded files: the stored-name rule, the record saved for each upload,
    lookups by id, and deletion that only the uploader may perform. The file
    system is reduced to whether each operation on it succeeds. */
module FileStore {
  import opened Lang

  /** The directory uploads are copied into. */
  const UploadDir: string := "./data/upfile"

  /** One row of the chat_files table. */
  datatype ChatFile = ChatFile(
    id: nat,
    originalName: string,
    storedName: string,
    filePath: string,
    fileSize: int,
    contentType: Option<string>,
    uploadedBy: string,
    uploadedAt: int)

  /** The extension kept from the client's file name: the suffix starting at
      the last ".", or nothing for a null name or a name without a dot. */
  function Extension(originalName: Option<string>): (e: string)
    ensures originalName.None? || '.' !in originalName.value ==> e == ""
    ensures originalName.Some? && '.' in originalName.value ==>
      && 1 <= |e| <= |originalName.value| && e[0] == '.' && '.' !in e[1..]
      && originalName.value == originalName.value[..|originalName.value| - |e|] + e
  {
    if originalName.None? then ""
    else
      var name := originalName.value;
      ContainsChar(name, '.');
      if Contains(name, ".") then
        var dot := LastIndexOfChar(name, '.');
        assert name[dot..][1..] == name[dot + 1..];
        assert name == name[..dot] + name[dot..];
        name[dot..]
      else ""
  }

  /** The name an upload is stored under: a fresh UUID string followed by the
      extension. */
  function StoredName(uuid: string, originalName: Option<string>): string {
    uuid + Extension(originalName)
  }

  /** Where an upload is stored: `Paths.get(UploadDir).resolve(storedName)`. */
  function StoredPath(storedName: string): string {
    UploadDir + "/" + storedName
  }

  /** The stored name ends with the original's extension and, since a UUID
      string has no dot, has that same extension itself. */
  lemma {:induction false} StoredNameKeepsExtension(uuid: string, originalName: Option<string>)
    requires '.' !in uuid
    ensures var stored := StoredName(uuid, originalName);
      && stored[|uuid|..] == Extension(originalName)
      && Extension(Some(stored)) == Extension(originalName)
  {
    var e := Extension(originalName);
    var stored := uuid + e;
    if e == "" {
      assert stored == uuid;
    } else {
      assert stored[|uuid|] == '.';
      assert stored[|uuid| + 1..] == e[1..];
      var dot := LastIndexOfChar(stored, '.');
      assert dot == |uuid|;
      assert stored[dot..] == e;
    }
  }

  class FileService {
    /** The chat_files table, by id. */
    var files: map<nat, ChatFile>
    /** The id the next saved record receives. */
    var nextId: nat

    ghost predicate Valid()
      reads this
    {
      nextId >= 1 && forall k :: k in files ==> files[k].id == k && k < nextId
    }

    constructor ()
      ensures Valid() && files == map[] && nextId == 1
    {
      files := map[];
      nextId := 1;
    }

    /** `uploadFile`: the bytes are copied to the stored path, then the record
        is saved. A failing directory creation or copy throws before anything
        is saved; a null original name violates the NOT NULL column when the
        record is saved, after the copy. `uuid` stands for
        `UUID.randomUUID().toString()`. */
    method UploadFile(originalName: Option<string>, size: int, contentType: Option<string>, userIp: string,
                      uuid: string, storageOk: bool, now: int)
      returns (r: Result<ChatFile>)
      requires Valid()
      modifies this
      ensures Valid()
      ensures !storageOk ==> r == Thrown(IO)
      ensures storageOk && originalName.None? ==> r == Thrown(ConstraintViolation)
      ensures r.Thrown? ==> files == old(files) && nextId == old(nextId)
      ensures storageOk && originalName.Some? ==> r.Ok?
      ensures r.Ok? ==>
        && r.value == ChatFile(old(nextId), originalName.value, StoredName(uuid, originalName),
                               StoredPath(StoredName(uuid, originalName)), size, contentType, userIp, now)
        && old(nextId) !in old(files)
        && files == old(files)[old(nextId) := r.value]
        && nextId == old(nextId) + 1
    {
      if !storageOk {
        return Thrown(IO);
      }
      var extension := "";
      if originalName.Some? && Contains(originalName.value, ".") {
        ContainsChar(originalName.value, '.');
        extension := originalName.value[LastIndexOfChar(originalName.value, '.')..];
      }
      assert extension == Extension(originalName);
      var storedName := uuid + extension;
      var filePath := UploadDir + "/" + storedName;
      if originalName.None? {
        return Thrown(ConstraintViolation);
      }
      var record := ChatFile(nextId, originalName.value, storedName, filePath, size, contentType, userIp, now);
      files := files[nextId := record];
      nextId := nextId + 1;
      r := Ok(record);
    }

    /** `getFileById`: the record with that id, or null. */
    function GetFileById(fileId: int): (r: Option<ChatFile>)
      reads this
      ensures r.Some? <==> fileId >= 0 && fileId in files
      ensures r.Some? ==> r.value == files[fileId]
    {
      if fileId >= 0 && fileId in files then Some(files[fileId]) else None
    }

    /** `getPhysicalFile`: the stored path of that record, or null. */
    function GetPhysicalFile(fileId: int): (r: Option<string>)
      reads this
      ensures r.Some? <==> GetFileById(fileId).Some?
      ensures r.Some? ==> r.value == GetFileById(fileId).value.filePath
    {
      match GetFileById(fileId)
      case None => None
      case Some(f) => Some(f.filePath)
    }

    /** `deleteFile`: only the uploader may delete. The record is removed,
        and true returned, only when removing the stored file did not throw;
        otherwise the record is kept and the answer is false. */
    method DeleteFile(fileId: int, userIp: Option<string>, removeOk: bool) returns (deleted: bool)
      requires Valid()
      modifies this
      ensures Valid() && nextId == old(nextId)
      ensures deleted <==> old(GetFileById(fileId)).Some? && userIp == Some(old(GetFileById(fileId)).value.uploadedBy) && removeOk
      ensures deleted ==> files == old(files) - {fileId}
      ensures !deleted ==> files == old(files)
    {
      var chatFile := GetFileById(fileId);
      if chatFile.Some? && userIp == Some(chatFile.value.uploadedBy) {
        if removeOk {
          files := files - {fileId};
          return true;
        }
      }
      return false;
    }
  }
}
