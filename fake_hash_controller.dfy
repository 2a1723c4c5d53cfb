/** The fake-hash endpoint: stores caller-supplied hashes for a file record,
    found by file identifier or by import folder and path, and links the
    file's location to it, without hashing the file. */
module FakeHashController {
  import opened Wrappers
  import opened DotNetText
  import opened DotNetPath
  import FakeHash
  import opened Repositories

  /** Why a caller-supplied path was refused. */
  datatype PathError = NotWithinImportFolder | EmptyRelativePath

  /** Every way a request can end without a result. `FileNotFound` and
      `ImportFolderNotFound` are answered as "not found", the others as
      validation problems. */
  datatype Error =
    | MissingBody
    | MissingIdentifiers
    | MissingHashes
    | InvalidModel
    | FileNotFound(fileID: int)
    | LocationNotFound
    | ImportFolderNotFound(importFolderID: int)
    | InvalidFilePath(reason: PathError)
    | FileIDMismatch
    | UnresolvableLocation
    | UnresolvableImportFolder

  /** A stored hash: blank or missing input becomes "", anything else is
      trimmed and upper-cased. */
  function NormalizeHash(value: Option<string>): (r: string)
    ensures r == [] <==> IsNullOrWhiteSpace(value)
    ensures IsTrimmed(r) && IsUpper(r)
    ensures value.Some? ==> |r| <= |value.value|
  {
    if IsNullOrWhiteSpace(value) then []
    else
      var t := Trim(value.value);
      UpperOfTrimmed(t);
      ToUpperInvariant(t)
  }

  /** The path the caller names, as a full path: a rooted path as it is, any
      other path under the import folder's full path. */
  function FullPathUnder(importRoot: string, filePath: string): string {
    if IsPathRooted(filePath) then GetFullPath(filePath) else GetFullPath(Combine(importRoot, filePath))
  }

  /** The path of `filePath` relative to the import folder. Refused when the
      full path does not start, ignoring case, with the folder's full path,
      or when the relative path is blank. */
  function TryGetRelativePath(folder: ImportFolder, filePath: string): (r: Result<string, PathError>)
    ensures var root := GetFullPath(folder.location);
            var full := FullPathUnder(root, filePath);
      && (r == Failure(NotWithinImportFolder) <==> !StartsWithIgnoreCase(full, root))
      && (r == Failure(EmptyRelativePath) <==> StartsWithIgnoreCase(full, root) && IsBlank(GetRelativePath(root, full)))
      && (r.Success? ==> !IsBlank(r.value) && r.value == GetRelativePath(root, full))
  {
    var importRoot := GetFullPath(folder.location);
    var fullPath := FullPathUnder(importRoot, filePath);
    if !StartsWithIgnoreCase(fullPath, importRoot) then Failure(NotWithinImportFolder)
    else
      var relativePath := GetRelativePath(importRoot, fullPath);
      if IsBlank(relativePath) then Failure(EmptyRelativePath) else Success(relativePath)
  }

  /** The position of the first location present on disk, |ps| when none is. */
  function FirstValidIndex(ps: seq<Place>): (k: nat)
    ensures k <= |ps|
    ensures k < |ps| ==> ps[k].valid
    ensures forall j :: 0 <= j < k ==> !ps[j].valid
  {
    if ps == [] || ps[0].valid then 0 else 1 + FirstValidIndex(ps[1..])
  }

  /** The position of the first location whose full path can be formed, |ps|
      when none can. */
  function FirstResolvedIndex(ps: seq<Place>): (k: nat)
    ensures k <= |ps|
    ensures k < |ps| ==> ps[k].resolved
    ensures forall j :: 0 <= j < k ==> !ps[j].resolved
  {
    if ps == [] || ps[0].resolved then 0 else 1 + FirstResolvedIndex(ps[1..])
  }

  /** The location a known file is registered at: the first one present on
      disk, else the first one that can be resolved, else the first one,
      else none. */
  function ChoosePlace(ps: seq<Place>): (r: Option<Place>)
    ensures r.None? <==> ps == []
    ensures r.Some? ==> r.value in ps
    ensures forall k :: 0 <= k < |ps| && ps[k].valid && (forall j :: 0 <= j < k ==> !ps[j].valid) ==>
              r == Some(ps[k])
    ensures forall k :: 0 <= k < |ps| && ps[k].resolved && (forall j :: 0 <= j < k ==> !ps[j].resolved) &&
                        (forall j :: 0 <= j < |ps| ==> !ps[j].valid) ==>
              r == Some(ps[k])
    ensures ps != [] && (forall j :: 0 <= j < |ps| ==> !ps[j].valid && !ps[j].resolved) ==> r == Some(ps[0])
  {
    var v := FirstValidIndex(ps);
    if v < |ps| then Some(ps[v])
    else
      var k := FirstResolvedIndex(ps);
      if k < |ps| then Some(ps[k])
      else if ps == [] then None
      else Some(ps[0])
  }

  /** The body names a file: by identifier, or by import folder and path. */
  predicate NamesFile(b: FakeHash.Body) {
    b.fileID.Some? || (b.importFolderID.Some? && !IsNullOrWhiteSpace(b.filePath))
  }

  /** The checks made before anything is read, in order. */
  function Validate(body: Option<FakeHash.Body>): (r: Result<FakeHash.Body, Error>)
    ensures r.Success? <==> body.Some? && NamesFile(body.value) && FakeHash.ValidBody(body.value)
    ensures r.Success? ==> r.value == body.value
  {
    if body.None? then Failure(MissingBody)
    else
      var b := body.value;
      if b.fileID.None? && (b.importFolderID.None? || IsNullOrWhiteSpace(b.filePath)) then Failure(MissingIdentifiers)
      else if b.hashes.None? then Failure(MissingHashes)
      else if !FakeHash.ValidBody(b) then Failure(InvalidModel)
      else Success(b)
  }

  /** What the identity resolution settles on: the existing file record, if
      any; the location, if any; the import folder looked up, if any; and the
      relative path computed, "" when none was. */
  datatype Target = Target(file: Option<VideoLocal>, place: Option<Place>, folder: Option<ImportFolder>, relativePath: string)

  /** The target's records are stored ones. */
  predicate StoredTarget(s: RepoState, t: Target) {
    && (t.file.Some? ==> t.file.value.id in s.files && s.files[t.file.value.id] == t.file.value)
    && (t.place.Some? ==> t.place.value.id in s.places && s.places[t.place.value.id] == t.place.value)
    && (t.folder.Some? ==> t.folder.value.id in s.folders && s.folders[t.folder.value.id] == t.folder.value)
  }

  /** Identity resolution: which file record and which location the body
      means. Reads the repository and writes nothing. */
  function ResolveIdentity(s: RepoState, b: FakeHash.Body): (r: Result<Target, Error>)
    requires Consistent(s)
    ensures r.Success? ==> StoredTarget(s, r.value)
    ensures r.Success? && r.value.folder.None? ==>
              && r.value.file.Some? && b.fileID == Some(r.value.file.value.id)
              && r.value.place.Some? && r.value.place == ChoosePlace(GetPlacesByVideoLocal(s, r.value.file.value.id))
    ensures r.Success? && r.value.folder.Some? ==>
              var folder := r.value.folder.value;
              && b.importFolderID == Some(folder.id) && b.filePath.Some?
              && TryGetRelativePath(folder, b.filePath.value) == Success(r.value.relativePath)
              && (r.value.place.Some? ==> PlaceKey(r.value.place.value) == (folder.id, r.value.relativePath))
  {
    if b.fileID.Some? && GetFileByID(s, b.fileID.value).None? then Failure(FileNotFound(b.fileID.value))
    else
      var file := if b.fileID.Some? then GetFileByID(s, b.fileID.value) else None;
      var place := if file.Some? then ChoosePlace(GetPlacesByVideoLocal(s, file.value.id)) else None;
      if place.Some? then
        Success(Target(file, place, None, ""))
      else if b.importFolderID.None? || IsNullOrWhiteSpace(b.filePath) then Failure(LocationNotFound)
      else
        match GetImportFolderByID(s, b.importFolderID.value)
        case None => Failure(ImportFolderNotFound(b.importFolderID.value))
        case Some(folder) => ResolveByPath(s, b, file, folder)
  }

  /** The part of identity resolution that goes by import folder and path,
      for a body whose file identifier, if any, named a file with no
      location. */
  function ResolveByPath(s: RepoState, b: FakeHash.Body, file: Option<VideoLocal>, folder: ImportFolder): (r: Result<Target, Error>)
    requires Consistent(s) && b.filePath.Some?
    requires StoredTarget(s, Target(file, None, Some(folder), ""))
    ensures r.Success? ==> StoredTarget(s, r.value)
    ensures r.Success? ==> r.value.folder == Some(folder) && TryGetRelativePath(folder, b.filePath.value) == Success(r.value.relativePath)
    ensures r.Success? && r.value.place.Some? ==> PlaceKey(r.value.place.value) == (folder.id, r.value.relativePath)
  {
    match TryGetRelativePath(folder, b.filePath.value)
    case Failure(e) => Failure(InvalidFilePath(e))
    case Success(relativePath) =>
      var found := GetPlaceByFilePathAndImportFolderID(s, relativePath, folder.id);
      StoredPlaceByPath(s, relativePath, folder.id);
      var linked := if found.Some? then GetFileByID(s, found.value.videoLocalID) else None;
      if linked.None? then Success(Target(file, found, Some(folder), relativePath))
      else if b.fileID.Some? && linked.value.id != b.fileID.value then Failure(FileIDMismatch)
      else Success(Target(linked, found, Some(folder), relativePath))
  }

  /** A location found by path is stored under its identifier. */
  lemma StoredPlaceByPath(s: RepoState, filePath: string, importFolderID: int)
    requires Consistent(s)
    ensures var found := GetPlaceByFilePathAndImportFolderID(s, filePath, importFolderID);
      found.Some? ==> found.value.id in s.places && s.places[found.value.id] == found.value && PlaceKey(found.value) == (importFolderID, filePath)
  {
    var k := (importFolderID, filePath);
    if k in s.placeIndex && s.placeIndex[k] in s.places {
      var id := s.placeIndex[k];
      assert s.places[id].id == id;
    }
  }

  /** The record built for a file that has none yet. Its hash source and
      size are assigned again before the record is saved. */
  function NewVideoLocal(b: FakeHash.Body, now: FakeHash.DateTime, relativePath: string): VideoLocal {
    VideoLocal(
      id := 0, hash := "", crc32 := "", md5 := "", sha1 := "",
      hashSource := b.hashSource, fileSize := 0,
      dateTimeCreated := b.dateCreated.GetOr(now),
      dateTimeUpdated := b.dateUpdated.GetOr(now),
      dateTimeImported := b.dateImported,
      fileName := GetFileName(relativePath),
      isIgnored := false, isVariation := false)
  }

  /** The file record with the body's hashes, size and dates written over it. */
  function ApplyBody(v: VideoLocal, b: FakeHash.Body, now: FakeHash.DateTime, relativePath: string): VideoLocal
    requires b.hashes.Some?
  {
    var h := b.hashes.value;
    v.(hash := NormalizeHash(h.ed2k),
       crc32 := NormalizeHash(h.crc32),
       md5 := NormalizeHash(h.md5),
       sha1 := NormalizeHash(h.sha1),
       hashSource := b.hashSource,
       fileSize := b.fileSize,
       dateTimeUpdated := b.dateUpdated.GetOr(now),
       dateTimeCreated := b.dateCreated.GetOr(v.dateTimeCreated),
       dateTimeImported := if b.dateImported.Some? then b.dateImported else v.dateTimeImported,
       fileName := if IsBlank(relativePath) then v.fileName else GetFileName(relativePath))
  }

  /** The name-hash table after recording `fileName` and `vlocal`: nothing
      changes when the name or the hash is blank; otherwise a single entry
      for the name and size is overwritten, several are all deleted and a new
      one appended, and with none a new one is appended. */
  function FileNameHashesAfterSave(entries: seq<FileNameHash>, fileName: string, vlocal: VideoLocal, timestamp: FakeHash.DateTime): seq<FileNameHash> {
    if IsBlank(fileName) || IsBlank(vlocal.hash) then entries
    else
      var existing := Matching(entries, fileName, vlocal.fileSize);
      var record := FileNameHash(fileName, vlocal.fileSize, vlocal.hash, timestamp);
      if |existing| > 1 then WithoutKey(entries, fileName, vlocal.fileSize) + [record]
      else if |existing| == 1 then entries[IndexOfKey(entries, fileName, vlocal.fileSize) := record]
      else entries + [record]
  }

  /** The file record as saved: the target's record, or a new one, with the
      body written over it. */
  function SaveFile(s: RepoState, b: FakeHash.Body, now: FakeHash.DateTime, t: Target): (r: (RepoState, VideoLocal))
    requires Consistent(s) && StoredTarget(s, t) && b.hashes.Some?
    ensures Consistent(r.0) && StoredTarget(r.0, t.(file := None))
    ensures r.0.places == s.places && r.0.folders == s.folders && r.0.nameHashes == s.nameHashes
  {
    var base := if t.file.Some? then t.file.value else NewVideoLocal(b, now, t.relativePath);
    WithFileSaved(s, ApplyBody(base, b, now, t.relativePath))
  }

  /** The writes after the file record is saved: link the location to the
      file if it is not linked yet, save it, and record the name hash. */
  function SavePlace(s: RepoState, b: FakeHash.Body, now: FakeHash.DateTime, t: Target, vlocal: VideoLocal): (r: (Result<FakeHash.Result, Error>, RepoState))
    requires Consistent(s) && StoredTarget(s, t.(file := None))
  {
    if t.place.None? then (Failure(UnresolvableLocation), s)
    else
      var place := t.place.value;
      var folder := if place.videoLocalID == 0 && t.folder.None? then GetImportFolderByID(s, place.importFolderID) else t.folder;
      if place.videoLocalID == 0 && folder.None? then (Failure(UnresolvableImportFolder), s)
      else
        var linked := if place.videoLocalID == 0
          then place.(videoLocalID := vlocal.id, importFolderType := folder.value.folderType)
          else place;
        var s1 := WithPlaceSaved(s, linked);
        var s2 := s1.(nameHashes := FileNameHashesAfterSave(s1.nameHashes, GetFileName(linked.filePath), vlocal, b.dateUpdated.GetOr(now)));
        (Success(FakeHash.Result(vlocal.id, linked.id)), s2)
  }

  /** The writes, for a resolved target. */
  function Commit(s: RepoState, b: FakeHash.Body, now: FakeHash.DateTime, t: Target): (r: (Result<FakeHash.Result, Error>, RepoState))
    requires Consistent(s) && StoredTarget(s, t) && b.hashes.Some?
  {
    var (s1, vlocal) := SaveFile(s, b, now, t);
    SavePlace(s1, b, now, t, vlocal)
  }

  /** The whole registration: its answer and the repository afterwards. */
  function AddFakeHashesEffect(s: RepoState, body: Option<FakeHash.Body>, now: FakeHash.DateTime): (r: (Result<FakeHash.Result, Error>, RepoState))
    requires Consistent(s)
  {
    match Validate(body)
    case Failure(e) => (Failure(e), s)
    case Success(b) =>
      match ResolveIdentity(s, b)
      case Failure(e) => (Failure(e), s)
      case Success(t) => Commit(s, b, now, t)
  }

  /** Keeps the name-hash cache to one entry for the file's name and size. */
  method SaveFileNameHash(repo: Repository, fileName: string, vlocal: VideoLocal, timestamp: FakeHash.DateTime)
    requires repo.Valid()
    modifies repo
    ensures repo.Valid()
    ensures repo.State() == old(repo.State()).(nameHashes := FileNameHashesAfterSave(old(repo.nameHashes), fileName, vlocal, timestamp))
  {
    if IsBlank(fileName) || IsBlank(vlocal.hash) {
      return;
    }
    var existing := repo.GetFileNameHashes(fileName, vlocal.fileSize);
    if |existing| > 1 {
      repo.DeleteFileNameHashes(fileName, vlocal.fileSize);
    }
    var at: Option<nat> := None;
    var record := FileNameHash("", 0, "", 0);
    if |existing| == 1 {
      at := Some(IndexOfKey(repo.nameHashes, fileName, vlocal.fileSize));
      record := existing[0];
    }
    record := record.(fileName := fileName, fileSize := vlocal.fileSize, hash := vlocal.hash, dateTimeUpdated := timestamp);
    repo.SaveFileNameHash(at, record);
  }

  /** Identity resolution as the endpoint performs it: look the file up by
      identifier and pick its location, and when that gives no location go
      by import folder and path. Changes nothing. */
  method ResolveTarget(repo: Repository, b: FakeHash.Body) returns (r: Result<Target, Error>)
    requires repo.Valid()
    ensures r == ResolveIdentity(repo.State(), b)
  {
    var vlocal: Option<VideoLocal> := None;
    var place: Option<Place> := None;
    var importFolder: Option<ImportFolder> := None;
    var relativePath := "";

    if b.fileID.Some? {
      vlocal := repo.GetVideoLocal(b.fileID.value);
      if vlocal.None? {
        return Failure(FileNotFound(b.fileID.value));
      }
      place := ChoosePlace(repo.GetPlaces(vlocal.value.id));
    }

    if place.None? {
      if b.importFolderID.None? || IsNullOrWhiteSpace(b.filePath) {
        return Failure(LocationNotFound);
      }
      importFolder := repo.GetImportFolder(b.importFolderID.value);
      if importFolder.None? {
        return Failure(ImportFolderNotFound(b.importFolderID.value));
      }
      var resolved := TryGetRelativePath(importFolder.value, b.filePath.value);
      if resolved.Failure? {
        return Failure(InvalidFilePath(resolved.error));
      }
      relativePath := resolved.value;
      place := repo.GetPlace(relativePath, importFolder.value.id);
      var existing := if place.Some? then repo.GetVideoLocal(place.value.videoLocalID) else None;
      if existing.Some? {
        if b.fileID.Some? && existing.value.id != b.fileID.value {
          return Failure(FileIDMismatch);
        }
        vlocal := existing;
      }
    }
    return Success(Target(vlocal, place, importFolder, relativePath));
  }

  /** The second half of the writes: links the resolved location to the
      saved file and refreshes the name-hash cache. */
  method LinkPlace(repo: Repository, b: FakeHash.Body, now: FakeHash.DateTime, t: Target, v: VideoLocal) returns (r: Result<FakeHash.Result, Error>)
    requires repo.Valid() && StoredTarget(repo.State(), t.(file := None))
    modifies repo
    ensures repo.Valid()
    ensures (r, repo.State()) == SavePlace(old(repo.State()), b, now, t, v)
  {
    if t.place.None? {
      return Failure(UnresolvableLocation);
    }
    var p := t.place.value;
    var folder := t.folder;
    if p.videoLocalID == 0 {
      if folder.None? {
        folder := repo.GetImportFolder(p.importFolderID);
        if folder.None? {
          return Failure(UnresolvableImportFolder);
        }
      }
      p := p.(videoLocalID := v.id, importFolderType := folder.value.folderType);
    }
    repo.SavePlace(p);
    SaveFileNameHash(repo, GetFileName(p.filePath), v, b.dateUpdated.GetOr(now));
    return Success(FakeHash.Result(v.id, p.id));
  }

  /** Stores the body's hashes for the file it names and links the file's
      location to it. */
  method AddFakeHashes(repo: Repository, body: Option<FakeHash.Body>, now: FakeHash.DateTime) returns (r: Result<FakeHash.Result, Error>)
    requires repo.Valid()
    modifies repo
    ensures repo.Valid()
    ensures (r, repo.State()) == AddFakeHashesEffect(old(repo.State()), body, now)
  {
    if body.None? {
      return Failure(MissingBody);
    }
    var b := body.value;
    if b.fileID.None? && (b.importFolderID.None? || IsNullOrWhiteSpace(b.filePath)) {
      return Failure(MissingIdentifiers);
    }
    if b.hashes.None? {
      return Failure(MissingHashes);
    }
    if !FakeHash.ValidBody(b) {
      return Failure(InvalidModel);
    }
    ghost var s0 := repo.State();
    assert Validate(body) == Success(b);

    var target := ResolveTarget(repo, b);
    if target.Failure? {
      return Failure(target.error);
    }
    var Target(vlocal, place, importFolder, relativePath) := target.value;
    assert AddFakeHashesEffect(s0, body, now) == Commit(s0, b, now, target.value);

    var v := if vlocal.Some? then vlocal.value else NewVideoLocal(b, now, relativePath);
    ghost var base := v;
    var h := b.hashes.value;
    v := v.(hash := NormalizeHash(h.ed2k));
    v := v.(crc32 := NormalizeHash(h.crc32));
    v := v.(md5 := NormalizeHash(h.md5));
    v := v.(sha1 := NormalizeHash(h.sha1));
    v := v.(hashSource := b.hashSource);
    v := v.(fileSize := b.fileSize);
    v := v.(dateTimeUpdated := b.dateUpdated.GetOr(now));
    v := v.(dateTimeCreated := b.dateCreated.GetOr(v.dateTimeCreated));
    v := v.(dateTimeImported := if b.dateImported.Some? then b.dateImported else v.dateTimeImported);
    if !IsBlank(relativePath) {
      v := v.(fileName := GetFileName(relativePath));
    }
    assert v == ApplyBody(base, b, now, relativePath);

    v := repo.SaveVideoLocal(v);
    assert (repo.State(), v) == SaveFile(s0, b, now, target.value);
    r := LinkPlace(repo, b, now, target.value, v);
  }
}
