# Fake-hash registration

This project models Shoko Server's `POST /api/v3/FakeHash` endpoint. The endpoint registers a video file
record ("VideoLocal") with hashes supplied by the caller, instead of hashes computed from the file. The
request names the file in one of two ways:

- by its file identifier;
- by an import folder and a path, absolute or relative to that folder.

The endpoint validates the body, then finds or creates the file record. It finds the file's location
("VideoLocal_Place"), links the location to the record when it is not linked yet, and refreshes the
file-name/hash cache ("FileNameHash"). It answers with the file and location identifiers.

The modules are:

- `Wrappers`: `Option` and `Result`.
- `DotNetText`: the .NET string operations the endpoint relies on. These are `string.IsNullOrWhiteSpace`
  with the full Unicode white-space list, `Trim`, `ToUpperInvariant`, and an `OrdinalIgnoreCase` prefix test.
- `DotNetPath`: `Path.GetFullPath`, `Path.Combine`, `Path.GetRelativePath`, `Path.GetFileName` and
  `Path.IsPathRooted`, with Unix semantics: `/` separates names, and `.` and `..` are resolved.
  - `GetFullPath` resolves `.` and `..` (never above the root), collapses repeated separators, and keeps
    a trailing separator.
  - `Combine` returns its second part when that part is rooted, and otherwise joins the two parts with
    one separator.
  - `GetRelativePath` climbs with `..` from the first path to the names it shares with the second. It
    then descends the second path's remaining names, keeping the second path's trailing separator. It
    gives `.` for the same directory.
  - `GetFileName` returns what follows the last separator.
- `FakeHash`: the request and response records `Hashes`, `Body` and `Result`, and the data-annotation
  validity of a body (`[Required]`, `[Length]`, `[Range]`).
- `Repositories`: the stored entities and a snapshot `RepoState` of the tables, with the lookups and saves
  the endpoint uses. The class `Repository` holds the tables as fields; its save methods update them in place.
- `FakeHashController`: the endpoint in two forms.
  - A specification: `Validate`, then `ResolveIdentity`, then `Commit`. `AddFakeHashesEffect` composes them.
  - The imperative `AddFakeHashes`, which works on a `Repository` and is proved to do what
    `AddFakeHashesEffect` says.
- `FakeHashProperties`: what the endpoint guarantees, proved about the specification.

## Model

| member | source | states |
|---|---|---|
| FakeHashController.NormalizeHash | Shoko.Server/API/v3/Controllers/FakeHashController.cs:164-165 | The stored hash is empty exactly when the value is null or white space. Otherwise it is trimmed, upper-case and no longer than the value. |
| FakeHashProperties.NormalizeHashOfPadded | Shoko.Server/API/v3/Controllers/FakeHashController.cs:164-165 | A hash with only white space around it is stored as that hash, upper-cased, without the white space. |
| DotNetText.Trim | Shoko.Server/API/v3/Controllers/FakeHashController.cs:165 | The result is trimmed and sits in the input with only white space before and after it. It is empty exactly when the input is blank. |
| FakeHashProperties.NormalizeHashIdempotent | Shoko.Server/API/v3/Controllers/FakeHashController.cs:164-165 | Normalising a normalised hash changes nothing. |
| FakeHashProperties.StoredHashesOfValidBody | Shoko.Server/API/v3/Controllers/FakeHashController.cs:95-98 | For a valid body, the four stored hashes are non-empty and no longer than 32, 8, 32 and 40 characters. |
| FakeHashController.TryGetRelativePath | Shoko.Server/API/v3/Controllers/FakeHashController.cs:138-162 | A path is refused as outside the folder exactly when its full path does not start, ignoring case, with the folder's full path. It is refused as empty exactly when it passes that test and its relative path is blank. Otherwise the answer is the relative path, which is never blank. |
| FakeHashProperties.ParentPathRefused | Shoko.Server/API/v3/Controllers/FakeHashController.cs:143-152 | For a folder of plain names, a relative path of k parent steps followed by plain names is refused as outside the folder, unless the path it reaches still starts with the folder's path, ignoring case. Climbing stops at the root. |
| FakeHashProperties.ClimbedFullPath | Shoko.Server/API/v3/Controllers/FakeHashController.cs:143-146 | k parent steps and then names, under a folder of plain names, reach the folder's first names that the steps leave, followed by those names. |
| FakeHashProperties.MediaEscapeRefused | Shoko.Server/API/v3/Controllers/FakeHashController.cs:143-152 | For the folder "/media/anime", the path "../../etc/passwd" is refused as outside the folder. |
| FakeHashProperties.BlankNameRefused | Shoko.Server/API/v3/Controllers/FakeHashController.cs:154-159 | A path naming a white-space entry right inside the folder ("/a" and "/a/ ") is refused as empty. |
| FakeHashProperties.TrailingSeparatorKept | Shoko.Server/API/v3/Controllers/FakeHashController.cs:154-161 | A directory path written with a trailing separator keeps the separator in its relative path. |
| FakeHashProperties.FolderItselfIsDot | Shoko.Server/API/v3/Controllers/FakeHashController.cs:154-161 | An import folder with a rooted location accepts that location as a path, with the relative path ".". |
| FakeHashProperties.RelativePathInsideFolder | Shoko.Server/API/v3/Controllers/FakeHashController.cs:143-161 | A relative path of plain names that is not all white space is accepted and returned unchanged. |
| FakeHashProperties.FolderIsPrefix | Shoko.Server/API/v3/Controllers/FakeHashController.cs:143-148 | The folder's full path is a prefix of the rooted path made of the folder's resolved names followed by any names. That path is the full path of a relative path of plain names (PlainPathUnderFolder). |
| FakeHashProperties.PlainPathUnderFolder | Shoko.Server/API/v3/Controllers/FakeHashController.cs:143-146 | The full path of a relative path of plain names is the folder's resolved names followed by those names. |
| FakeHashProperties.SiblingFolderAccepted | Shoko.Server/API/v3/Controllers/FakeHashController.cs:148-154 | A path in a sibling folder whose name extends the import folder's name passes the prefix test. It is returned as "../sibling". |
| FakeHashProperties.OtherCaseFolderAccepted | Shoko.Server/API/v3/Controllers/FakeHashController.cs:148-154 | A path in a folder whose name differs from the import folder's only in case passes the prefix test. It is returned with a leading "..". |
| FakeHashController.ChoosePlace | Shoko.Server/API/v3/Controllers/FakeHashController.cs:53 | The first valid location is chosen, else the first resolved one, else the first one. There is none only when the file has no location. |
| FakeHashController.Validate | Shoko.Server/API/v3/Controllers/FakeHashController.cs:29-39 | A body passes exactly when it is present, names a file (by identifier, or by import folder and non-blank path) and satisfies its annotations. |
| FakeHash.Deserialize | Shoko.Server/API/v3/Models/Shoko/FakeHash.cs:36-86 | Absent fields keep their defaults. The hash source defaults to DirectHash. A body with no size or no hashes is not valid. |
| FakeHash.ValidBodyHashes | Shoko.Server/API/v3/Models/Shoko/FakeHash.cs:9-34 | A valid body has hashes. Each hash is a non-blank string of length 32, 8, 32 and 40 respectively. |
| FakeHashProperties.RequestChecks | Shoko.Server/API/v3/Controllers/FakeHashController.cs:29-39 | A missing body, missing identifiers, missing hashes and an invalid body each fail with their own error, in that order, and change nothing. |
| FakeHashController.ResolveIdentity | Shoko.Server/API/v3/Controllers/FakeHashController.cs:47-76 | The file, location and import folder found are all stored. Without a folder, the target is the body's file at ChoosePlace's location. With a folder, that folder is the body's, the relative path is TryGetRelativePath's answer, and a location found has that folder and relative path. |
| FakeHashController.ResolveByPath | Shoko.Server/API/v3/Controllers/FakeHashController.cs:61-75 | The path branch of ResolveIdentity. On success, the folder is the one given and the relative path is TryGetRelativePath's answer, and a location found has that folder and relative path. |
| FakeHashController.ResolveTarget | Shoko.Server/API/v3/Controllers/FakeHashController.cs:47-76 | The lookups on the repository give the answer of ResolveIdentity and change nothing. |
| FakeHashProperties.UnknownFileNotFound | Shoko.Server/API/v3/Controllers/FakeHashController.cs:49-51 | An unknown file identifier fails with "not found" and changes nothing. |
| FakeHashProperties.KnownFileAtChosenPlace | Shoko.Server/API/v3/Controllers/FakeHashController.cs:47-54 | A known file with locations is updated from the body. The answer is that file and the chosen location. The locations are unchanged. |
| FakeHashProperties.NoLocationWithoutPath | Shoko.Server/API/v3/Controllers/FakeHashController.cs:56-59 | With no location from the file and no import folder and path, the request fails with "file location not found" and changes nothing. |
| FakeHashProperties.UnknownImportFolderNotFound | Shoko.Server/API/v3/Controllers/FakeHashController.cs:61-63 | An unknown import folder fails with "not found" and changes nothing. |
| FakeHashProperties.RefusedPathChangesNothing | Shoko.Server/API/v3/Controllers/FakeHashController.cs:65-66 | A path that TryGetRelativePath refuses fails with its path error and changes nothing. |
| FakeHashProperties.PathOfOtherFileRefused | Shoko.Server/API/v3/Controllers/FakeHashController.cs:68-72 | A path whose location belongs to another file than the identifier given fails with a mismatch and changes nothing. |
| FakeHashProperties.PathAdoptsLinkedFile | Shoko.Server/API/v3/Controllers/FakeHashController.cs:68-75 | A path whose location is linked to a file updates that file. The answer is that file and location. No record or location is added. |
| FakeHashProperties.PathLinksUnlinkedPlace | Shoko.Server/API/v3/Controllers/FakeHashController.cs:114-127 | An unlinked location found by path is linked to the file (given, or new) with the folder's type. The answer names both. |
| FakeHashProperties.UnplacedPathSavesFileThenFails | Shoko.Server/API/v3/Controllers/FakeHashController.cs:78-112 | A path with no location on record saves the file record (a new one without an identifier) and then fails. No location is created, and the cache is untouched. |
| FakeHashProperties.FileRecordAfterRegistration | Shoko.Server/API/v3/Controllers/FakeHashController.cs:78-107 | Once identity is resolved, the file record gets the normalised hashes, hash source, size and update time. Creation and import times, file name and flags follow the source's rules for new and existing records. No other record changes. |
| FakeHashProperties.SuccessfulRegistration | Shoko.Server/API/v3/Controllers/FakeHashController.cs:114-135 | When every link resolved before the request and the request succeeds, the answered location is linked to the answered file and the file's hash is non-blank. The cache then holds exactly one entry for the location's file name and size, and no other entry changes. |
| FakeHashProperties.NeverUnresolvableImportFolder | Shoko.Server/API/v3/Controllers/FakeHashController.cs:116-121 | The "unable to resolve the import folder" failure never happens. |
| FakeHashProperties.ResolutionErrors | Shoko.Server/API/v3/Controllers/FakeHashController.cs:47-76 | Identity resolution fails only with file not found, location not found, import folder not found, a path error or a mismatch. |
| FakeHashProperties.NoLocationCreated | Shoko.Server/API/v3/Controllers/FakeHashController.cs:109-127 | No request adds or removes a location. A linked location is never changed. An unlinked one can only gain a file and a folder type. |
| FakeHashProperties.InvariantsPreserved | Shoko.Server/API/v3/Controllers/FakeHashController.cs:27-136 | Every request keeps the tables consistent and keeps every link resolving to a stored file. |
| FakeHashProperties.UnplacedPathTwiceDuplicatesFile | Shoko.Server/API/v3/Controllers/FakeHashController.cs:78-112 | The same unplaced path sent twice without an identifier stores two file records that differ only in identifier. |
| FakeHashProperties.RepeatedRegistrationStable | Shoko.Server/API/v3/Controllers/FakeHashController.cs:68-75 | Suppose every link resolves, neither request sends a file identifier, and the path has a location on record. Then a registration by path succeeds, and another registration of that path gives the same answer. It adds no record or location and only overwrites the answered file from the new body. |
| FakeHashProperties.NameHashSaved | Shoko.Server/API/v3/Controllers/FakeHashController.cs:172-181 | After saving, the cache holds exactly one entry for the name and size, carrying the file's hash and the timestamp. |
| FakeHashProperties.NameHashOthersUntouched | Shoko.Server/API/v3/Controllers/FakeHashController.cs:172-181 | The cache entries of every other name and size are unchanged. |
| FakeHashController.SaveFileNameHash | Shoko.Server/API/v3/Controllers/FakeHashController.cs:167-182 | The repository's cache becomes FileNameHashesAfterSave of the old one, and nothing else changes. |
| FakeHashController.NewVideoLocal | Shoko.Server/API/v3/Controllers/FakeHashController.cs:80-92 | The record built for a file that has none. What it contributes to the saved record is stated by FileRecordAfterRegistration. |
| FakeHashController.ApplyBody | Shoko.Server/API/v3/Controllers/FakeHashController.cs:95-105 | The body written over a file record. What the saved record holds is stated by FileRecordAfterRegistration. |
| FakeHashController.FileNameHashesAfterSave | Shoko.Server/API/v3/Controllers/FakeHashController.cs:169-181 | The cache after recording a name and hash. It is unchanged when the name or the hash is blank. NameHashSaved and NameHashOthersUntouched state the rest. |
| FakeHashController.SaveFile | Shoko.Server/API/v3/Controllers/FakeHashController.cs:78-107 | Saving the file record keeps the tables consistent. The locations, folders and cache are unchanged. |
| FakeHashController.SavePlace | Shoko.Server/API/v3/Controllers/FakeHashController.cs:109-135 | The writes after the file record is saved. Their answer and effect are stated by CommitAnswer, CommitWithPlace and SavePlaceKeepsPlaces. |
| FakeHashController.Commit | Shoko.Server/API/v3/Controllers/FakeHashController.cs:78-135 | All writes for a resolved target. CommitStoresFile, CommitAnswer, CommitPlaces and CommitInvariants state their effect. |
| FakeHashController.AddFakeHashesEffect | Shoko.Server/API/v3/Controllers/FakeHashController.cs:27-136 | The whole request: Validate, then ResolveIdentity, then Commit. The FakeHashProperties lemmas in this table state its properties. |
| FakeHashProperties.CommitAnswer | Shoko.Server/API/v3/Controllers/FakeHashController.cs:109-135 | After the writes, the answer is "unable to resolve the location" when there is no location, and otherwise the file and the location. |
| FakeHashProperties.CommitStoresFile | Shoko.Server/API/v3/Controllers/FakeHashController.cs:78-107 | The writes store the saved record under the target's file identifier, or under the next identifier for a new record. |
| FakeHashProperties.CommitWithPlace | Shoko.Server/API/v3/Controllers/FakeHashController.cs:78-135 | With a location, the writes store the saved record, link the location to the file and refresh the cache for the location's file name. The answer is the file and the location. |
| FakeHashProperties.SavePlaceKeepsPlaces | Shoko.Server/API/v3/Controllers/FakeHashController.cs:109-127 | The location writes add and remove no location. A linked location is unchanged, and an unlinked one changes only in its link and folder type. |
| FakeHashProperties.CommitPlaces | Shoko.Server/API/v3/Controllers/FakeHashController.cs:78-135 | The same guarantee on the locations for all writes of a resolved target. |
| FakeHashProperties.CommitInvariants | Shoko.Server/API/v3/Controllers/FakeHashController.cs:78-135 | The writes keep the tables consistent, and keep every link resolving when it did before. |
| FakeHashController.LinkPlace | Shoko.Server/API/v3/Controllers/FakeHashController.cs:109-135 | The location writes and the answer are those of the specification's SavePlace. |
| FakeHashController.AddFakeHashes | Shoko.Server/API/v3/Controllers/FakeHashController.cs:27-136 | The answer and the new repository state are AddFakeHashesEffect of the old state, and the repository stays valid. |
| Repositories.Repository.SaveVideoLocal | Shoko.Server/API/v3/Controllers/FakeHashController.cs:107 | A record with identifier 0 gets the next free identifier. The record is stored and returned, and the other tables are unchanged. |
| Repositories.Repository.SavePlace | Shoko.Server/API/v3/Controllers/FakeHashController.cs:127 | The location is stored under its identifier, and the other tables are unchanged. |
| Repositories.Repository.DeleteFileNameHashes | Shoko.Server/API/v3/Controllers/FakeHashController.cs:173-174 | The cache entries for the name and size are removed. |
| Repositories.Repository.SaveFileNameHash | Shoko.Server/API/v3/Controllers/FakeHashController.cs:181 | The record is stored in place of an existing entry, or appended. |

### Behaviour of the code worth knowing

- The code never creates a location. Given an import folder and a path with no location on record, it
  saves the file record and then fails with "unable to resolve or create a file location"
  (UnplacedPathSavesFileThenFails, NoLocationCreated).
- That failure comes after the file record was written. Every other failure writes nothing
  (RequestChecks, UnknownFileNotFound, NoLocationWithoutPath, UnknownImportFolderNotFound,
  RefusedPathChangesNothing, PathOfOtherFileRefused).
- An import folder with a rooted location accepts that location itself, as the relative path "."
  (FolderItselfIsDot). Only a relative path made of white space is refused as empty
  (BlankNameRefused). A relative path of plain names that is not all white space is accepted as it is
  (RelativePathInsideFolder).
- The folder test compares text, ignoring case. It therefore accepts sibling folders whose names
  extend the folder's name, and folders that differ from it only in case (SiblingFolderAccepted,
  OtherCaseFolderAccepted). Take a folder of plain names. A path that climbs out of it with `..`
  steps and then goes down plain names is refused, unless it reaches a path that passes the text test
  (ParentPathRefused). An example is "../../etc/passwd" under "/media/anime" (MediaEscapeRefused).
- A file with no locations, sent without an import folder and path, is answered with "file location
  not found" (NoLocationWithoutPath).
- The "unable to resolve the import folder" failure cannot happen (NeverUnresolvableImportFolder).
- Suppose every link resolves to a stored file, no file identifier is sent, and a location exists for
  the path. Then registering the same path twice leaves one file record (RepeatedRegistrationStable).
  Without a location, each request stores a new record (UnplacedPathTwiceDuplicatesFile). The lemma
  needs every link to resolve. Take a location linked to a file that no longer exists. The lookup at
  line 69 of FakeHashController.cs then finds no file, and line 114 does not relink the location. So
  each request creates a new record.

## Left out

- HTTP plumbing: routing, authorization and the shape of the problem responses. Each failure is an
  `Error` value. `ModelState.IsValid` is the data-annotation validity `FakeHash.ValidBody`.
- `DateTime.Now` is the parameter `now`. Dates are opaque integers.
- Concurrency between requests, and transactions.
- What the VideoLocal repository does beyond storing the record on `Save(vlocal, true)`, such as updating
  statistics and caches. The repositories' caches and statistics are not modelled; each repository is an
  in-memory table.
- The members of the `HashSource` enumeration are not modelled. A code is `DirectHash` or an opaque
  integer.
- Case mapping outside ASCII in `ToUpperInvariant` and in the ignore-case prefix test.
- Windows paths: drive letters, `\` separators and case-insensitive file systems. Also left out are the
  process's working directory (taken as `/`) and the exceptions `Path.GetFullPath` throws on malformed paths.
- The database collation used by the path lookup. `GetByFilePathAndImportFolderID` compares paths exactly.
- The file-system checks behind `FirstValidPlace` and `FirstResolvedPlace` are not modelled. Whether a
  location is valid or resolved is a flag recorded on the location.
- The `vlocal == null` test in SaveFileNameHash at line 169. The endpoint never passes null there.
- Repositories.Repository.SavePlace: updates only locations that already exist. The endpoint only saves
  locations it looked up.
- The fields of FileNameHash other than name, size, hash and update time.
- FolderIsPrefix: stated only for paths made of names under the folder's resolved names. Paths that
  climb out with ".." are covered separately: by ParentPathRefused for a folder of plain names and a
  path of parent steps then plain names, and by SiblingFolderAccepted and OtherCaseFolderAccepted.
- ParentPathRefused: stated for a rooted folder of plain names and a path of `..` steps followed by
  plain names. Paths that mix `.` or `..` among later names are not covered by a lemma.
- String encoding. A Dafny `string` here is a sequence of Unicode scalar values, while a .NET string
  is a sequence of UTF-16 code units, and `[Length]` counts code units. The model counts characters,
  so it agrees with the source only for hashes made of characters of the Basic Multilingual Plane.
