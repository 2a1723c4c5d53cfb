/** The persisted records the registration reads and writes, and the
    repository that stores them. The storage engine itself is not modelled:
    the repository is a set of maps and one ordered table, and saving a new
    file record gives it the next free identifier. */
module Repositories {
  import opened Wrappers
  import FakeHash

  /** A file record: one distinct piece of content and its hashes. An `id`
      of 0 marks a record that has not been saved yet. */
  datatype VideoLocal = VideoLocal(
    id: int,
    hash: string,
    crc32: string,
    md5: string,
    sha1: string,
    hashSource: FakeHash.HashSource,
    fileSize: int,
    dateTimeCreated: FakeHash.DateTime,
    dateTimeUpdated: FakeHash.DateTime,
    dateTimeImported: Option<FakeHash.DateTime>,
    fileName: string,
    isIgnored: bool,
    isVariation: bool)

  /** A file location: a path relative to an import folder. A `videoLocalID`
      of 0 means the location is not linked to a file record yet. `valid`
      (the file is present on disk) and `resolved` (its full path can be
      formed) are observations of the file system, recorded here. */
  datatype Place = Place(
    id: int,
    importFolderID: int,
    filePath: string,
    videoLocalID: int,
    importFolderType: int,
    valid: bool,
    resolved: bool)

  /** A configured root directory. */
  datatype ImportFolder = ImportFolder(id: int, location: string, folderType: int)

  /** A cache entry: a file name and size seen with a content hash. */
  datatype FileNameHash = FileNameHash(fileName: string, fileSize: int, hash: string, dateTimeUpdated: FakeHash.DateTime)

  /** What a location is looked up by. */
  function PlaceKey(p: Place): (int, string) {
    (p.importFolderID, p.filePath)
  }

  /** A snapshot of everything the repository holds. `placeOrder` is the
      order in which the repository enumerates locations; `placeIndex` finds
      a location by import folder and relative path. */
  datatype RepoState = RepoState(
    files: map<int, VideoLocal>,
    nextFileID: int,
    places: map<int, Place>,
    placeOrder: seq<int>,
    placeIndex: map<(int, string), int>,
    folders: map<int, ImportFolder>,
    nameHashes: seq<FileNameHash>)

  /** The repository's own invariants: records are stored under their own
      identifiers, file identifiers are below the next one to hand out, and
      there is exactly one location per (import folder, relative path). */
  predicate Consistent(s: RepoState) {
    && 1 <= s.nextFileID
    && (forall id :: id in s.files ==> 1 <= id < s.nextFileID && s.files[id].id == id)
    && (forall id :: id in s.places ==>
          s.places[id].id == id && PlaceKey(s.places[id]) in s.placeIndex && s.placeIndex[PlaceKey(s.places[id])] == id)
    && (forall k :: k in s.placeIndex ==> s.placeIndex[k] in s.places && PlaceKey(s.places[s.placeIndex[k]]) == k)
    && (forall i :: 0 <= i < |s.placeOrder| ==> s.placeOrder[i] in s.places)
    && (forall id :: id in s.places ==> id in s.placeOrder)
    && (forall id :: id in s.folders ==> s.folders[id].id == id)
  }

  /** Every linked location refers to a stored file record. */
  predicate LinksResolve(s: RepoState) {
    forall id :: id in s.places && s.places[id].videoLocalID != 0 ==> s.places[id].videoLocalID in s.files
  }

  // Queries

  function GetFileByID(s: RepoState, id: int): Option<VideoLocal> {
    if id in s.files then Some(s.files[id]) else None
  }

  function GetImportFolderByID(s: RepoState, id: int): Option<ImportFolder> {
    if id in s.folders then Some(s.folders[id]) else None
  }

  function GetPlaceByFilePathAndImportFolderID(s: RepoState, filePath: string, importFolderID: int): Option<Place> {
    var k := (importFolderID, filePath);
    if k in s.placeIndex && s.placeIndex[k] in s.places then Some(s.places[s.placeIndex[k]]) else None
  }

  /** The locations in `order` that are linked to file `fileID`, in that order. */
  function PlacesLinkedTo(order: seq<int>, places: map<int, Place>, fileID: int): (r: seq<Place>)
    requires forall id :: id in places ==> places[id].id == id
    ensures forall i :: 0 <= i < |r| ==> r[i].id in places && places[r[i].id] == r[i] && r[i].videoLocalID == fileID
  {
    if order == [] then []
    else
      var rest := PlacesLinkedTo(order[1..], places, fileID);
      if order[0] in places && places[order[0]].videoLocalID == fileID then [places[order[0]]] + rest else rest
  }

  /** A file record's locations. */
  function GetPlacesByVideoLocal(s: RepoState, fileID: int): seq<Place>
    requires Consistent(s)
  {
    PlacesLinkedTo(s.placeOrder, s.places, fileID)
  }

  predicate HasKey(e: FileNameHash, fileName: string, fileSize: int) {
    e.fileName == fileName && e.fileSize == fileSize
  }

  /** The cache entries for a file name and size, in table order. */
  function Matching(entries: seq<FileNameHash>, fileName: string, fileSize: int): (r: seq<FileNameHash>)
    ensures |r| <= |entries|
    ensures forall i :: 0 <= i < |r| ==> HasKey(r[i], fileName, fileSize)
  {
    if entries == [] then []
    else
      var rest := Matching(entries[1..], fileName, fileSize);
      if HasKey(entries[0], fileName, fileSize) then [entries[0]] + rest else rest
  }

  /** The cache entries for every other file name and size, in table order. */
  function WithoutKey(entries: seq<FileNameHash>, fileName: string, fileSize: int): (r: seq<FileNameHash>)
    ensures |r| <= |entries|
    ensures forall i :: 0 <= i < |r| ==> !HasKey(r[i], fileName, fileSize)
  {
    if entries == [] then []
    else
      var rest := WithoutKey(entries[1..], fileName, fileSize);
      if HasKey(entries[0], fileName, fileSize) then rest else [entries[0]] + rest
  }

  /** The position of the first entry for a file name and size. */
  function IndexOfKey(entries: seq<FileNameHash>, fileName: string, fileSize: int): (i: nat)
    requires Matching(entries, fileName, fileSize) != []
    ensures i < |entries| && HasKey(entries[i], fileName, fileSize)
    ensures forall j :: 0 <= j < i ==> !HasKey(entries[j], fileName, fileSize)
  {
    if HasKey(entries[0], fileName, fileSize) then 0 else 1 + IndexOfKey(entries[1..], fileName, fileSize)
  }

  /** Looking up a key in two tables one after the other. */
  lemma {:induction false} MatchingAppend(a: seq<FileNameHash>, b: seq<FileNameHash>, fileName: string, fileSize: int)
    ensures Matching(a + b, fileName, fileSize) == Matching(a, fileName, fileSize) + Matching(b, fileName, fileSize)
  {
    if a == [] {
      assert a + b == b;
    } else {
      assert (a + b)[0] == a[0] && (a + b)[1..] == a[1..] + b;
      MatchingAppend(a[1..], b, fileName, fileSize);
    }
  }

  /** A table with no entry for a key matches nothing for it. */
  lemma {:induction false} MatchingNone(entries: seq<FileNameHash>, fileName: string, fileSize: int)
    requires forall i :: 0 <= i < |entries| ==> !HasKey(entries[i], fileName, fileSize)
    ensures Matching(entries, fileName, fileSize) == []
  {
    if entries != [] {
      MatchingNone(entries[1..], fileName, fileSize);
    }
  }

  /** Deleting one key's entries leaves every other key's entries as they were. */
  lemma {:induction false} MatchingWithoutOtherKey(entries: seq<FileNameHash>, fileName: string, fileSize: int, otherName: string, otherSize: int)
    requires (otherName, otherSize) != (fileName, fileSize)
    ensures Matching(WithoutKey(entries, fileName, fileSize), otherName, otherSize) == Matching(entries, otherName, otherSize)
  {
    if entries != [] {
      MatchingWithoutOtherKey(entries[1..], fileName, fileSize, otherName, otherSize);
      if !HasKey(entries[0], fileName, fileSize) {
        assert ([entries[0]] + WithoutKey(entries[1..], fileName, fileSize))[1..] == WithoutKey(entries[1..], fileName, fileSize);
      }
    }
  }

  /** Overwriting one entry: the key lookup sees the new entry where it saw
      the old one, when both have the key, and is unchanged when neither has it. */
  lemma MatchingUpdate(entries: seq<FileNameHash>, i: nat, e: FileNameHash, fileName: string, fileSize: int)
    requires i < |entries|
    requires HasKey(entries[i], fileName, fileSize) == HasKey(e, fileName, fileSize)
    ensures var before := Matching(entries[..i], fileName, fileSize);
            var after := Matching(entries[i + 1..], fileName, fileSize);
      && Matching(entries, fileName, fileSize) == before + (if HasKey(e, fileName, fileSize) then [entries[i]] else []) + after
      && Matching(entries[i := e], fileName, fileSize) == before + (if HasKey(e, fileName, fileSize) then [e] else []) + after
  {
    assert entries == entries[..i] + [entries[i]] + entries[i + 1..];
    assert entries[i := e] == entries[..i] + [e] + entries[i + 1..];
    MatchingAppend(entries[..i] + [entries[i]], entries[i + 1..], fileName, fileSize);
    MatchingAppend(entries[..i], [entries[i]], fileName, fileSize);
    MatchingAppend(entries[..i] + [e], entries[i + 1..], fileName, fileSize);
    MatchingAppend(entries[..i], [e], fileName, fileSize);
  }

  // Writes, as transitions of the snapshot

  /** Saving a file record: a new one (id 0) is stored under the next free
      identifier, an existing one replaces the stored record. */
  function WithFileSaved(s: RepoState, v: VideoLocal): (r: (RepoState, VideoLocal))
    requires v.id == 0 || v.id in s.files
    ensures Consistent(s) ==> Consistent(r.0)
    ensures r.1 == v.(id := if v.id == 0 then s.nextFileID else v.id)
    ensures r.0.files == s.files[r.1.id := r.1]
    ensures Consistent(s) && v.id == 0 ==> r.1.id !in s.files
  {
    var id := if v.id == 0 then s.nextFileID else v.id;
    var saved := v.(id := id);
    (s.(files := s.files[id := saved], nextFileID := if v.id == 0 then s.nextFileID + 1 else s.nextFileID), saved)
  }

  /** Saving an existing location replaces the stored one. */
  function WithPlaceSaved(s: RepoState, p: Place): (r: RepoState)
    requires p.id in s.places && PlaceKey(p) == PlaceKey(s.places[p.id])
    ensures Consistent(s) ==> Consistent(r)
    ensures r.places.Keys == s.places.Keys
  {
    s.(places := s.places[p.id := p])
  }

  /** Deleting the cache entries for a file name and size. */
  function WithFileNameHashesDeleted(s: RepoState, fileName: string, fileSize: int): (r: RepoState)
    ensures Consistent(s) ==> Consistent(r)
  {
    s.(nameHashes := WithoutKey(s.nameHashes, fileName, fileSize))
  }

  /** Saving a cache entry: over the entry at position `at` when it was read
      from the table, at the end when it is new. */
  function WithFileNameHashSaved(s: RepoState, at: Option<nat>, e: FileNameHash): (r: RepoState)
    requires at.Some? ==> at.value < |s.nameHashes|
    ensures Consistent(s) ==> Consistent(r)
  {
    s.(nameHashes := if at.Some? then s.nameHashes[at.value := e] else s.nameHashes + [e])
  }

  /** The repository: the tables, updated in place by its save and delete
      operations. */
  class Repository {
    var files: map<int, VideoLocal>
    var nextFileID: int
    var places: map<int, Place>
    var placeOrder: seq<int>
    var placeIndex: map<(int, string), int>
    var folders: map<int, ImportFolder>
    var nameHashes: seq<FileNameHash>

    function State(): RepoState
      reads this
    {
      RepoState(files, nextFileID, places, placeOrder, placeIndex, folders, nameHashes)
    }

    ghost predicate Valid()
      reads this
    {
      Consistent(State())
    }

    /** A repository holding the given tables. */
    constructor (s: RepoState)
      requires Consistent(s)
      ensures Valid() && State() == s
    {
      files, nextFileID := s.files, s.nextFileID;
      places, placeOrder, placeIndex := s.places, s.placeOrder, s.placeIndex;
      folders, nameHashes := s.folders, s.nameHashes;
    }

    function GetVideoLocal(id: int): Option<VideoLocal>
      reads this
    {
      GetFileByID(State(), id)
    }

    function GetImportFolder(id: int): Option<ImportFolder>
      reads this
    {
      GetImportFolderByID(State(), id)
    }

    function GetPlace(filePath: string, importFolderID: int): Option<Place>
      reads this
    {
      GetPlaceByFilePathAndImportFolderID(State(), filePath, importFolderID)
    }

    function GetPlaces(fileID: int): seq<Place>
      reads this
      requires Valid()
    {
      GetPlacesByVideoLocal(State(), fileID)
    }

    function GetFileNameHashes(fileName: string, fileSize: int): seq<FileNameHash>
      reads this
    {
      Matching(nameHashes, fileName, fileSize)
    }

    method SaveVideoLocal(v: VideoLocal) returns (saved: VideoLocal)
      requires Valid()
      requires v.id == 0 || v.id in files
      modifies this
      ensures Valid()
      ensures (State(), saved) == WithFileSaved(old(State()), v)
      ensures places == old(places) && placeOrder == old(placeOrder) && placeIndex == old(placeIndex)
      ensures folders == old(folders) && nameHashes == old(nameHashes)
    {
      var id := v.id;
      if id == 0 {
        id := nextFileID;
        nextFileID := nextFileID + 1;
      }
      saved := v.(id := id);
      files := files[id := saved];
    }

    method SavePlace(p: Place)
      requires Valid()
      requires p.id in places && PlaceKey(p) == PlaceKey(places[p.id])
      modifies this
      ensures Valid()
      ensures State() == WithPlaceSaved(old(State()), p)
      ensures files == old(files) && nextFileID == old(nextFileID) && folders == old(folders) && nameHashes == old(nameHashes)
    {
      places := places[p.id := p];
    }

    method DeleteFileNameHashes(fileName: string, fileSize: int)
      requires Valid()
      modifies this
      ensures Valid()
      ensures State() == WithFileNameHashesDeleted(old(State()), fileName, fileSize)
    {
      nameHashes := WithoutKey(nameHashes, fileName, fileSize);
    }

    method SaveFileNameHash(at: Option<nat>, e: FileNameHash)
      requires Valid()
      requires at.Some? ==> at.value < |nameHashes|
      modifies this
      ensures Valid()
      ensures State() == WithFileNameHashSaved(old(State()), at, e)
    {
      if at.Some? {
        nameHashes := nameHashes[at.value := e];
      } else {
        nameHashes := nameHashes + [e];
      }
    }
  }
}
