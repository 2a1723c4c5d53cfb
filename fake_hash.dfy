/** The request and response shapes of the fake-hash endpoint and the checks
    their validation attributes make. */
module FakeHash {
  import opened Wrappers
  import opened DotNetText

  /** A point in time; only equality and copying matter here. */
  type DateTime = int

  const IntMax: int := 0x7FFF_FFFF
  const LongMax: int := 0x7FFF_FFFF_FFFF_FFFF

  /** Where a file's hashes came from. The enumeration is declared elsewhere;
      only its default member is named here, the others are carried by their
      numeric value. */
  datatype HashSource = DirectHash | Other(code: int)

  /** The four hex-encoded hashes; each may be missing (null). */
  datatype Hashes = Hashes(ed2k: Option<string>, crc32: Option<string>, md5: Option<string>, sha1: Option<string>)

  /** The request body. */
  datatype Body = Body(
    fileID: Option<int>,
    importFolderID: Option<int>,
    filePath: Option<string>,
    fileSize: int,
    hashes: Option<Hashes>,
    hashSource: HashSource,
    dateCreated: Option<DateTime>,
    dateUpdated: Option<DateTime>,
    dateImported: Option<DateTime>)

  /** The response: the file and the file location the hashes were stored for. */
  datatype Result = Result(fileID: int, fileLocationID: int)

  /** `[Required]` on a string: present and not only white space. */
  predicate Required(s: Option<string>) {
    !IsNullOrWhiteSpace(s)
  }

  /** `[Length(min, max)]`: a missing value passes, a present one needs a length in range. */
  predicate HasLength(s: Option<string>, min: int, max: int) {
    s.None? || min <= |s.value| <= max
  }

  /** `[Range(min, max)]` on a nullable number: a missing value passes. */
  predicate InRange(v: Option<int>, min: int, max: int) {
    v.None? || min <= v.value <= max
  }

  /** The attributes on the members of `Hashes`. */
  predicate ValidHashes(h: Hashes) {
    && Required(h.ed2k) && HasLength(h.ed2k, 32, 32)
    && Required(h.crc32) && HasLength(h.crc32, 8, 8)
    && Required(h.md5) && HasLength(h.md5, 32, 32)
    && Required(h.sha1) && HasLength(h.sha1, 40, 40)
  }

  /** The attributes on the members of `Body`, and those of its `Hashes`
      when present: what the framework's model validation accepts. */
  predicate ValidBody(b: Body) {
    && InRange(b.fileID, 1, IntMax)
    && InRange(b.importFolderID, 1, IntMax)
    && 1 <= b.fileSize <= LongMax
    && b.hashes.Some?
    && ValidHashes(b.hashes.value)
  }

  /** A body as deserialized from a request in which any member may be
      omitted: an omitted member keeps its initial value (null, 0, or
      DirectHash for the hash source). */
  function Deserialize(
    fileID: Option<int>, importFolderID: Option<int>, filePath: Option<string>,
    fileSize: Option<int>, hashes: Option<Hashes>, hashSource: Option<HashSource>,
    dateCreated: Option<DateTime>, dateUpdated: Option<DateTime>, dateImported: Option<DateTime>): (b: Body)
    ensures hashSource.None? ==> b.hashSource == DirectHash
    ensures hashSource.Some? ==> b.hashSource == hashSource.value
    ensures fileSize.None? ==> !ValidBody(b)
    ensures hashes.None? ==> !ValidBody(b)
    ensures b.fileID == fileID && b.importFolderID == importFolderID && b.filePath == filePath
    ensures b.dateCreated == dateCreated && b.dateUpdated == dateUpdated && b.dateImported == dateImported
  {
    Body(fileID, importFolderID, filePath, fileSize.GetOr(0), hashes, hashSource.GetOr(DirectHash),
         dateCreated, dateUpdated, dateImported)
  }

  /** A valid body carries all four hashes, none of them blank, with the
      lengths of their hex encodings: 32, 8, 32 and 40 characters. */
  lemma ValidBodyHashes(b: Body)
    requires ValidBody(b)
    ensures b.hashes.Some?
    ensures var h := b.hashes.value;
      && h.ed2k.Some? && |h.ed2k.value| == 32 && !IsBlank(h.ed2k.value)
      && h.crc32.Some? && |h.crc32.value| == 8 && !IsBlank(h.crc32.value)
      && h.md5.Some? && |h.md5.value| == 32 && !IsBlank(h.md5.value)
      && h.sha1.Some? && |h.sha1.value| == 40 && !IsBlank(h.sha1.value)
  {
  }
}
