/** What the fake-hash registration promises, proved about its model: the
    normalisation of hashes, the import-folder path check, the name-hash
    cache, and the registration's effect on the repository. */
module FakeHashProperties {
  import opened Wrappers
  import opened DotNetText
  import opened DotNetPath
  import FakeHash
  import opened Repositories
  import opened FakeHashController

  // Hash normalisation

  /** Normalising a stored hash again changes nothing. */
  lemma NormalizeHashIdempotent(value: Option<string>)
    ensures NormalizeHash(Some(NormalizeHash(value))) == NormalizeHash(value)
  {
    var r := NormalizeHash(value);
    if r != [] {
      assert !IsWhiteSpace(r[0]);
      TrimOfTrimmed(r);
      ToUpperInvariantOfUpper(r);
    }
  }

  /** A hash with white space around it is stored as the upper-cased hash
      without that white space. */
  lemma NormalizeHashOfPadded(w1: string, c: string, w2: string)
    requires IsBlank(w1) && IsBlank(w2) && c != [] && IsTrimmed(c)
    ensures NormalizeHash(Some(w1 + c + w2)) == ToUpperInvariant(c)
  {
    var s := w1 + c + w2;
    assert s[|w1|] == c[0];
    TrimOfPadded(w1, c, w2);
  }

  /** The hashes of a valid body are stored non-empty, trimmed, upper-case
      and no longer than their hex encodings. */
  lemma StoredHashesOfValidBody(b: FakeHash.Body)
    requires FakeHash.ValidBody(b)
    ensures var h := b.hashes.value;
      && 0 < |NormalizeHash(h.ed2k)| <= 32 && 0 < |NormalizeHash(h.crc32)| <= 8
      && 0 < |NormalizeHash(h.md5)| <= 32 && 0 < |NormalizeHash(h.sha1)| <= 40
  {
    FakeHash.ValidBodyHashes(b);
  }

  // The import-folder path check

  /** The import folder's own path is accepted, as the relative path ".". */
  lemma FolderItselfIsDot(folder: ImportFolder)
    requires IsPathRooted(folder.location)
    ensures TryGetRelativePath(folder, folder.location) == Success(".")
  {
    var root := GetFullPath(folder.location);
    assert FullPathUnder(root, folder.location) == root;
    PrefixStartsWithIgnoreCase(root, root);
    RelativeToSelf(root);
    assert GetRelativePath(root, root) == ".";
    assert !IsBlank(".") by { assert "."[0] == '.'; }
  }

  /** A relative path of plain names lies under the import folder's full
      path: its full path is the folder's names followed by its own. */
  lemma PlainPathUnderFolder(location: string, names: seq<string>)
    requires names != [] && AllPlainNames(names)
    ensures var all := Resolve(Segments(location)) + names;
      && AllPlainNames(all)
      && FullPathUnder(GetFullPath(location), Join(names)) == [Separator] + Join(all)
  {
    var root, p := GetFullPath(location), Join(names);
    var all := Resolve(Segments(location)) + names;
    JoinEnds(names);
    assert FullPathUnder(root, p) == GetFullPath(Combine(root, p));
    CombineUnderFullPath(location, names);
    PlainNamesAppend(Resolve(Segments(location)), names);
    ResolveOfPlain(all);
  }

  /** The folder's full path combined with a relative path of names: the
      folder's resolved names followed by those names, with no trailing
      separator. */
  lemma CombineUnderFullPath(location: string, names: seq<string>)
    requires names != [] && AllPlainNames(names)
    ensures var c := Combine(GetFullPath(location), Join(names));
      Segments(c) == Resolve(Segments(location)) + names && !EndsInSeparator(c)
  {
    var root, p := GetFullPath(location), Join(names);
    JoinEnds(names);
    SegmentsOfJoin(names);
    SegmentsOfFullPath(location);
    SegmentsOfCombine(root, p);
    CombineEnd(root, p);
  }

  /** The import folder's full path is a prefix of the full path of any
      plain name sequence appended to its names. */
  lemma FolderIsPrefix(location: string, names: seq<string>)
    requires names != [] && AllNames(names)
    ensures StartsWithIgnoreCase([Separator] + Join(Resolve(Segments(location)) + names), GetFullPath(location))
  {
    var root := GetFullPath(location);
    var rootNames := Resolve(Segments(location));
    var full := [Separator] + Join(rootNames + names);
    if rootNames == [] {
      assert root == [Separator];
      assert rootNames + names == names;
    } else {
      JoinAppend(rootNames, names);
      var jr := Join(rootNames);
      assert full == [Separator] + jr + [Separator] + Join(names);
      assert root == [Separator] + jr + [Separator] || root == [Separator] + jr;
      DirectoryPrefixes(jr, Join(names));
    }
    PrefixStartsWithIgnoreCase(full, root);
  }

  /** "/d" and "/d/" both begin "/d/rest". */
  lemma DirectoryPrefixes(d: string, rest: string)
    ensures [Separator] + d <= [Separator] + d + [Separator] + rest
    ensures [Separator] + d + [Separator] <= [Separator] + d + [Separator] + rest
  {
    var head, full := [Separator] + d + [Separator], [Separator] + d + [Separator] + rest;
    assert full[..|head|] == head;
    assert full[..|d| + 1] == [Separator] + d;
  }

  /** A relative path made of plain names is accepted as it is, whatever the
      import folder. */
  lemma RelativePathInsideFolder(folder: ImportFolder, names: seq<string>)
    requires names != [] && AllPlainNames(names) && !IsBlank(Join(names))
    ensures TryGetRelativePath(folder, Join(names)) == Success(Join(names))
  {
    var root := GetFullPath(folder.location);
    var rootNames := Resolve(Segments(folder.location));
    var all := rootNames + names;
    PlainPathUnderFolder(folder.location, names);
    var full := [Separator] + Join(all);
    assert FullPathUnder(root, Join(names)) == full;
    FolderIsPrefix(folder.location, names);
    assert GetRelativePath(root, full) == Join(names) by {
      SegmentsOfFullPath(folder.location);
      ResolveOfPlain(rootNames);
      FullPathOfPlainNames(all);
      ResolveOfPlain(all);
      CommonPrefixOfExtension(rootNames, names);
      assert all[|rootNames|..] == names;
      assert Parents(0) + names == names;
    }
  }

  /** A relative path that climbs `k` levels out of the import folder and
      then goes down other names (the folder "/media/anime" and the path
      "../../etc/passwd") is refused, unless the path it reaches still starts,
      ignoring case, with the folder's path. Climbing stops at the root. */
  lemma ParentPathRefused(folder: ImportFolder, dir: seq<string>, k: nat, names: seq<string>)
    requires dir != [] && AllPlainNames(dir) && folder.location == [Separator] + Join(dir)
    requires k > 0 && names != [] && AllPlainNames(names)
    requires var kept := if k <= |dir| then |dir| - k else 0;
      !StartsWithIgnoreCase([Separator] + Join(dir[..kept] + names), [Separator] + Join(dir))
    ensures TryGetRelativePath(folder, Join(Parents(k) + names)) == Failure(NotWithinImportFolder)
  {
    var root := [Separator] + Join(dir);
    FullPathOfPlainNames(dir);
    assert GetFullPath(folder.location) == root;
    ClimbedFullPath(dir, k, names);
  }

  /** Under a folder of plain names, `k` parent steps and then names reach
      the folder's first names, as many as the steps leave, followed by those
      names. */
  lemma ClimbedFullPath(dir: seq<string>, k: nat, names: seq<string>)
    requires dir != [] && AllPlainNames(dir) && k > 0 && names != [] && AllPlainNames(names)
    ensures var kept := if k <= |dir| then |dir| - k else 0;
      FullPathUnder([Separator] + Join(dir), Join(Parents(k) + names)) == [Separator] + Join(dir[..kept] + names)
  {
    var kept := if k <= |dir| then |dir| - k else 0;
    var root, p := [Separator] + Join(dir), Join(Parents(k) + names);
    ResolveParents(dir, k, names);
    ClimbingPath(k, names);
    assert !EndsInSeparator(root) by {
      JoinEnds(dir);
      assert root[|root| - 1] == Join(dir)[|Join(dir)| - 1];
    }
    var c := Combine(root, p);
    SegmentsOfCombine(root, p);
    CombineEnd(root, p);
    assert Segments(root) == dir by { FullPathOfPlainNames(dir); }
    var steps := Parents(k) + names;
    assert Segments(c) == dir + steps;
    ResolveClimb(dir, k, names);
    assert GetFullPath(c) == [Separator] + Join(dir[..kept] + names) + [];
  }

  /** Resolving a folder's names followed by `k` parent steps and names. */
  lemma ResolveClimb(dir: seq<string>, k: nat, names: seq<string>)
    requires AllPlainNames(dir) && AllPlainNames(names)
    ensures AllNames(dir + (Parents(k) + names))
    ensures Resolve(dir + (Parents(k) + names)) == dir[..if k <= |dir| then |dir| - k else 0] + names
  {
    var steps := Parents(k) + names;
    ResolveParents(dir, k, names);
    ResolvePlainPrefix([], dir, steps);
    assert [] + dir == dir;
    ResolvePlain(dir[..if k <= |dir| then |dir| - k else 0], names);
  }

  /** The relative path of `k` parent steps and then names: not rooted, not
      ending in a separator, and split back into those steps and names. */
  lemma ClimbingPath(k: nat, names: seq<string>)
    requires k > 0 && names != [] && AllPlainNames(names)
    ensures AllNames(Parents(k) + names)
    ensures var p := Join(Parents(k) + names);
      p != [] && !IsPathRooted(p) && !EndsInSeparator(p) && Segments(p) == Parents(k) + names
  {
    ResolveParents([], k, names);
    JoinEnds(Parents(k) + names);
    SegmentsOfJoin(Parents(k) + names);
  }

  /** The example of a path escaping "/media/anime" is refused. */
  lemma MediaEscapeRefused(folder: ImportFolder)
    requires folder.location == "/media/anime"
    ensures TryGetRelativePath(folder, "../../etc/passwd") == Failure(NotWithinImportFolder)
  {
    var dir, names := ["media", "anime"], ["etc", "passwd"];
    MediaEscapeNames();
    var reached := [Separator] + Join(dir[..0] + names);
    assert |reached| < |[Separator] + Join(dir)|;
    ParentPathRefused(folder, dir, 2, names);
  }

  /** The names of the "/media/anime" example and their joined forms. */
  lemma MediaEscapeNames()
    ensures var dir, names := ["media", "anime"], ["etc", "passwd"];
      && AllPlainNames(dir) && AllPlainNames(names)
      && Join(dir) == "media/anime" && Join(dir[..0] + names) == "etc/passwd"
      && Join(Parents(2) + names) == "../../etc/passwd"
  {
    var dir, names := ["media", "anime"], ["etc", "passwd"];
    assert "media"[0] == 'm' && "anime"[0] == 'a' && "etc"[0] == 'e' && "passwd"[0] == 'p';
    assert Join(dir) == "media/anime" by { assert dir[1..] == ["anime"]; }
    assert Join(dir[..0] + names) == "etc/passwd" by {
      assert dir[..0] + names == names && names[1..] == ["passwd"];
    }
    MediaEscapeSteps();
  }

  /** "../../etc/passwd" as two parent steps and two names. */
  lemma MediaEscapeSteps()
    ensures Join(Parents(2) + ["etc", "passwd"]) == "../../etc/passwd"
  {
    var steps := Parents(2) + ["etc", "passwd"];
    assert Parents(2) == ["..", ".."];
    assert steps == ["..", "..", "etc", "passwd"];
    assert Join(steps[2..]) == "etc/passwd" by {
      assert steps[2..] == ["etc", "passwd"] && steps[2..][1..] == ["passwd"];
    }
    assert Join(steps[1..]) == "../etc/passwd" by { assert steps[1..][1..] == steps[2..]; }
  }

  /** A path naming a white-space entry right inside the import folder (the
      folder "/a" and the path "/a/ ") resolves to a blank relative path and
      is refused. */
  lemma BlankNameRefused(folder: ImportFolder, n: string, w: string)
    requires IsPlainName(n) && w != [] && IsBlank(w)
    requires folder.location == [Separator] + n
    ensures TryGetRelativePath(folder, [Separator] + n + [Separator] + w) == Failure(EmptyRelativePath)
  {
    var path := [Separator] + n + [Separator] + w;
    assert Join([n]) == n;
    FullPathOfPlainNames([n]);
    BlankIsPlainName(w);
    ChildPaths(n, w);
    DirectoryPrefixes(n, w);
    PrefixStartsWithIgnoreCase(path, [Separator] + n);
  }

  /** A non-empty blank string is a plain name: white space holds no
      separator and no dot. */
  lemma BlankIsPlainName(w: string)
    requires w != [] && IsBlank(w)
    ensures IsPlainName(w)
  {
    assert Separator !in w by { assert forall i :: 0 <= i < |w| ==> w[i] != Separator; }
    assert w[0] != '.';
  }

  /** "/n/w" is its own full path, and leads from "/n" to "w". */
  lemma ChildPaths(n: string, w: string)
    requires IsPlainName(n) && IsPlainName(w)
    ensures var path := [Separator] + n + [Separator] + w;
      GetFullPath(path) == path && GetRelativePath([Separator] + n, path) == w
  {
    var path := [Separator] + n + [Separator] + w;
    assert Join([n]) == n;
    JoinPair(n, w);
    assert path == [Separator] + Join([n, w]);
    FullPathOfPlainNames([n]);
    FullPathOfPlainNames([n, w]);
    CommonPrefixOfExtension([n], [w]);
    assert [n] + [w] == [n, w] && [n, w][1..] == [w] && Parents(0) + [w] == [w];
    assert !EndsInSeparator(path) by { assert path[|path| - 1] == w[|w| - 1] && w[|w| - 1] in w; }
  }

  /** A directory path written with a trailing separator keeps it in the
      relative path, as .NET's GetRelativePath does. */
  lemma TrailingSeparatorKept(folder: ImportFolder, names: seq<string>)
    requires names != [] && AllPlainNames(names)
    ensures TryGetRelativePath(folder, Join(names) + [Separator]) == Success(Join(names) + [Separator])
  {
    var root, p := GetFullPath(folder.location), Join(names) + [Separator];
    var all := Resolve(Segments(folder.location)) + names;
    var full := [Separator] + Join(all) + [Separator];
    TrailingFullPath(folder.location, names);
    FolderIsPrefix(folder.location, names);
    ExtendedStartsWith([Separator] + Join(all), [Separator], root);
    TrailingRelative(folder.location, names);
    assert !IsBlank(p) by { assert p[|p| - 1] == Separator; }
  }

  /** The full path of a directory path under the import folder, written
      with a trailing separator. */
  lemma TrailingFullPath(location: string, names: seq<string>)
    requires names != [] && AllPlainNames(names)
    ensures var all := Resolve(Segments(location)) + names;
      && AllPlainNames(all)
      && FullPathUnder(GetFullPath(location), Join(names) + [Separator]) == [Separator] + Join(all) + [Separator]
  {
    var root, j := GetFullPath(location), Join(names);
    var p := j + [Separator];
    var all := Resolve(Segments(location)) + names;
    JoinEnds(names);
    assert Segments(p) == names by {
      SegmentsOfJoin(names);
      SegmentsSplit(j, []);
      assert j + [Separator] + [] == p;
    }
    SegmentsOfFullPath(location);
    SegmentsOfCombine(root, p);
    CombineEnd(root, p);
    PlainNamesAppend(Resolve(Segments(location)), names);
    ResolveOfPlain(all);
  }

  /** From the import folder to a directory under it written with a trailing
      separator: its own names, and the separator. */
  lemma TrailingRelative(location: string, names: seq<string>)
    requires names != [] && AllPlainNames(names) && AllPlainNames(Resolve(Segments(location)) + names)
    ensures var all := Resolve(Segments(location)) + names;
      GetRelativePath(GetFullPath(location), [Separator] + Join(all) + [Separator]) == Join(names) + [Separator]
  {
    var rootNames := Resolve(Segments(location));
    var all := rootNames + names;
    var full := [Separator] + Join(all) + [Separator];
    SegmentsOfFullPath(location);
    ResolveOfPlain(rootNames);
    FullPathOfPlainNames(all);
    assert Segments(full) == all by {
      SegmentsSplit([Separator] + Join(all), []);
      assert [Separator] + Join(all) + [Separator] + [] == full;
    }
    ResolveOfPlain(all);
    CommonPrefixOfExtension(rootNames, names);
    assert all[|rootNames|..] == names;
    assert Parents(0) + names == names;
  }

  /** A string that starts with a prefix, ignoring case, still does once
      extended. */
  lemma ExtendedStartsWith(s: string, t: string, prefix: string)
    requires StartsWithIgnoreCase(s, prefix)
    ensures StartsWithIgnoreCase(s + t, prefix)
  {
    assert (s + t)[..|prefix|] == s[..|prefix|];
  }

  /** The check is a prefix test on text, not on names: a sibling of the
      import folder whose name extends the folder's name (the folder "/a"
      and the path "/ab") is accepted, and its relative path leads out of
      the folder. */
  lemma SiblingFolderAccepted(folder: ImportFolder, n: string, m: string)
    requires IsPlainName(n) && IsPlainName(m) && n < m
    requires folder.location == [Separator] + n
    ensures TryGetRelativePath(folder, [Separator] + m) == Success(".." + [Separator] + m)
  {
    assert Join([n]) == n && Join([m]) == m;
    FullPathOfPlainNames([n]);
    FullPathOfPlainNames([m]);
    assert [Separator] + n <= [Separator] + m by {
      assert ([Separator] + m)[..|n| + 1] == [Separator] + m[..|n|];
    }
    PrefixStartsWithIgnoreCase([Separator] + m, [Separator] + n);
    RelativeToOtherBranch([n], [m]);
    assert Parents(1) + [m] == ["..", m];
    assert Join(["..", m]) == ".." + [Separator] + m by {
      assert ["..", m][1..] == [m];
    }
    assert !IsBlank(".." + [Separator] + m) by { assert (".." + [Separator] + m)[0] == '.'; }
  }

  /** The prefix test ignores case, though names on the file system do not:
      a directory whose name differs from the import folder's only in case
      (the folder "/media" and the path "/MEDIA/x") is accepted, and the
      relative path leads out of the folder. */
  lemma OtherCaseFolderAccepted(folder: ImportFolder, n: string, m: string, x: string)
    requires IsPlainName(n) && IsPlainName(m) && IsPlainName(x) && n != m
    requires ToUpperInvariant(m) == ToUpperInvariant(n)
    requires folder.location == [Separator] + n
    ensures TryGetRelativePath(folder, [Separator] + m + [Separator] + x) == Success(".." + [Separator] + m + [Separator] + x)
  {
    var rel := ".." + [Separator] + m + [Separator] + x;
    OtherBranchPaths(n, m, x);
    OtherCasePrefix(n, m, x);
    assert rel[0] == '.';
  }

  /** "/m/x" starts with "/n", ignoring case, when m and n differ only in case. */
  lemma OtherCasePrefix(n: string, m: string, x: string)
    requires ToUpperInvariant(m) == ToUpperInvariant(n)
    ensures StartsWithIgnoreCase([Separator] + m + [Separator] + x, [Separator] + n)
  {
    AppendAssociates([Separator] + m, [Separator], x);
    CaseVariantStartsWith([Separator], m, n, [Separator] + x);
  }

  /** Concatenation regroups. */
  lemma AppendAssociates(a: string, b: string, c: string)
    ensures a + b + c == a + (b + c)
  {
  }

  /** The full paths and the relative path for the import folder "/n" and
      the path "/m/x", when n and m differ. */
  lemma OtherBranchPaths(n: string, m: string, x: string)
    requires IsPlainName(n) && IsPlainName(m) && IsPlainName(x) && n != m
    ensures var path := [Separator] + m + [Separator] + x;
      && GetFullPath([Separator] + n) == [Separator] + n
      && FullPathUnder([Separator] + n, path) == path
      && GetRelativePath([Separator] + n, path) == ".." + [Separator] + m + [Separator] + x
  {
    var rest := m + [Separator] + x;
    assert Join([n]) == n;
    JoinPair(m, x);
    assert [Separator] + m + [Separator] + x == [Separator] + rest;
    FullPathOfPlainNames([n]);
    FullPathOfPlainNames([m, x]);
    RelativeToOtherBranch([n], [m, x]);
    assert Parents(1) + [m, x] == ["..", m, x];
    assert ["..", m, x][1..] == [m, x];
    assert Join(["..", m, x]) == ".." + [Separator] + rest;
    assert ".." + [Separator] + m + [Separator] + x == ".." + [Separator] + rest;
  }

  /** Two names joined. */
  lemma JoinPair(a: string, b: string)
    ensures Join([a, b]) == a + [Separator] + b
  {
    assert [a, b][1..] == [b];
  }

  // The name-hash cache

  /** After recording a name and hash, the table holds exactly one entry for
      the name and size, carrying the file's hash. */
  lemma NameHashSaved(entries: seq<FileNameHash>, fileName: string, vlocal: VideoLocal, timestamp: FakeHash.DateTime)
    requires !IsBlank(fileName) && !IsBlank(vlocal.hash)
    ensures Matching(FileNameHashesAfterSave(entries, fileName, vlocal, timestamp), fileName, vlocal.fileSize)
            == [FileNameHash(fileName, vlocal.fileSize, vlocal.hash, timestamp)]
  {
    var z := vlocal.fileSize;
    var record := FileNameHash(fileName, z, vlocal.hash, timestamp);
    var existing := Matching(entries, fileName, z);
    assert Matching([record], fileName, z) == [record];
    if |existing| > 1 {
      MatchingAppend(WithoutKey(entries, fileName, z), [record], fileName, z);
      MatchingNone(WithoutKey(entries, fileName, z), fileName, z);
    } else if |existing| == 1 {
      var i := IndexOfKey(entries, fileName, z);
      MatchingUpdate(entries, i, record, fileName, z);
    } else {
      MatchingAppend(entries, [record], fileName, z);
    }
  }

  /** Recording a name and hash leaves the entries of every other name and
      size as they were. */
  lemma NameHashOthersUntouched(entries: seq<FileNameHash>, fileName: string, vlocal: VideoLocal, timestamp: FakeHash.DateTime,
                                otherName: string, otherSize: int)
    requires (otherName, otherSize) != (fileName, vlocal.fileSize)
    ensures Matching(FileNameHashesAfterSave(entries, fileName, vlocal, timestamp), otherName, otherSize)
            == Matching(entries, otherName, otherSize)
  {
    var z := vlocal.fileSize;
    var record := FileNameHash(fileName, z, vlocal.hash, timestamp);
    if !IsBlank(fileName) && !IsBlank(vlocal.hash) {
      var existing := Matching(entries, fileName, z);
      assert Matching([record], otherName, otherSize) == [];
      if |existing| > 1 {
        MatchingAppend(WithoutKey(entries, fileName, z), [record], otherName, otherSize);
        MatchingWithoutOtherKey(entries, fileName, z, otherName, otherSize);
      } else if |existing| == 1 {
        var i := IndexOfKey(entries, fileName, z);
        MatchingUpdate(entries, i, record, otherName, otherSize);
      } else {
        MatchingAppend(entries, [record], otherName, otherSize);
      }
    }
  }

  // The registration, branch by branch

  /** The body names no file with a location: no file identifier, or one of
      a file record that has no location. Identity then goes by import
      folder and path. */
  predicate GoesByPath(s: RepoState, b: FakeHash.Body)
    requires Consistent(s)
  {
    b.fileID.None? || (b.fileID.value in s.files && GetPlacesByVideoLocal(s, b.fileID.value) == [])
  }

  /** The request checks come first, in order, and a request they refuse
      changes nothing. */
  lemma RequestChecks(s: RepoState, body: Option<FakeHash.Body>, now: FakeHash.DateTime)
    requires Consistent(s)
    ensures body.None? ==> AddFakeHashesEffect(s, body, now) == (Failure(MissingBody), s)
    ensures body.Some? && !NamesFile(body.value) ==> AddFakeHashesEffect(s, body, now) == (Failure(MissingIdentifiers), s)
    ensures body.Some? && NamesFile(body.value) && body.value.hashes.None? ==>
              AddFakeHashesEffect(s, body, now) == (Failure(MissingHashes), s)
    ensures body.Some? && NamesFile(body.value) && body.value.hashes.Some? && !FakeHash.ValidBody(body.value) ==>
              AddFakeHashesEffect(s, body, now) == (Failure(InvalidModel), s)
  {
  }

  /** An unknown file identifier is answered "not found" and changes nothing. */
  lemma UnknownFileNotFound(s: RepoState, body: Option<FakeHash.Body>, now: FakeHash.DateTime)
    requires Consistent(s) && Validate(body).Success?
    requires body.value.fileID.Some? && body.value.fileID.value !in s.files
    ensures AddFakeHashesEffect(s, body, now) == (Failure(FileNotFound(body.value.fileID.value)), s)
  {
    assert ResolveIdentity(s, body.value) == Failure(FileNotFound(body.value.fileID.value));
  }

  /** The writes for an existing file at an already linked location: the
      file record is overwritten, the location stays as it is, and the name
      hash is recorded for the location's file name. */
  lemma CommitAtLinkedPlace(s: RepoState, b: FakeHash.Body, now: FakeHash.DateTime, t: Target)
    requires Consistent(s) && StoredTarget(s, t) && b.hashes.Some?
    requires t.file.Some? && t.place.Some? && t.place.value.videoLocalID != 0
    ensures var file, place := t.file.value, t.place.value;
            var v := ApplyBody(file, b, now, t.relativePath);
            var (r, s') := Commit(s, b, now, t);
      && r == Success(FakeHash.Result(file.id, place.id))
      && s'.files == s.files[file.id := v] && s'.nextFileID == s.nextFileID
      && s'.places == s.places
      && s'.nameHashes == FileNameHashesAfterSave(s.nameHashes, GetFileName(place.filePath), v, b.dateUpdated.GetOr(now))
  {
    var place := t.place.value;
    CommitWithPlace(s, b, now, t);
    UpdateWithSame(s.places, place.id);
  }

  /** Storing a map's own value under its key changes nothing. */
  lemma UpdateWithSame<K, V>(m: map<K, V>, k: K)
    requires k in m
    ensures m[k := m[k]] == m
  {
  }

  /** A known file with locations is registered at the location ChoosePlace
      picks: the file record gets the body written over it, and no location
      changes. */
  lemma KnownFileAtChosenPlace(s: RepoState, body: Option<FakeHash.Body>, now: FakeHash.DateTime)
    requires Consistent(s) && Validate(body).Success?
    requires body.value.fileID.Some? && body.value.fileID.value in s.files
    requires GetPlacesByVideoLocal(s, body.value.fileID.value) != []
    ensures var b, id := body.value, body.value.fileID.value;
            var place := ChoosePlace(GetPlacesByVideoLocal(s, id)).value;
            var (r, s') := AddFakeHashesEffect(s, body, now);
      && r == Success(FakeHash.Result(id, place.id))
      && s'.files == s.files[id := ApplyBody(s.files[id], b, now, "")]
      && s'.places == s.places
  {
    var b, id := body.value, body.value.fileID.value;
    var place := ChoosePlace(GetPlacesByVideoLocal(s, id)).value;
    var t := Target(Some(s.files[id]), Some(place), None, "");
    assert ResolveIdentity(s, b) == Success(t);
    CommitAtLinkedPlace(s, b, now, t);
  }

  /** Without a location from the file and without import folder and path,
      the request fails and changes nothing. */
  lemma NoLocationWithoutPath(s: RepoState, body: Option<FakeHash.Body>, now: FakeHash.DateTime)
    requires Consistent(s) && Validate(body).Success? && GoesByPath(s, body.value)
    requires body.value.importFolderID.None? || IsNullOrWhiteSpace(body.value.filePath)
    ensures AddFakeHashesEffect(s, body, now) == (Failure(LocationNotFound), s)
  {
    assert ResolveIdentity(s, body.value) == Failure(LocationNotFound);
  }

  /** An unknown import folder is answered "not found" and changes nothing. */
  lemma UnknownImportFolderNotFound(s: RepoState, body: Option<FakeHash.Body>, now: FakeHash.DateTime)
    requires Consistent(s) && Validate(body).Success? && GoesByPath(s, body.value)
    requires body.value.importFolderID.Some? && !IsNullOrWhiteSpace(body.value.filePath)
    requires body.value.importFolderID.value !in s.folders
    ensures AddFakeHashesEffect(s, body, now) == (Failure(ImportFolderNotFound(body.value.importFolderID.value)), s)
  {
    assert ResolveIdentity(s, body.value) == Failure(ImportFolderNotFound(body.value.importFolderID.value));
  }

  /** A path the import folder refuses fails the request with the reason,
      and changes nothing. */
  lemma RefusedPathChangesNothing(s: RepoState, body: Option<FakeHash.Body>, now: FakeHash.DateTime)
    requires Consistent(s) && Validate(body).Success? && GoesByPath(s, body.value)
    requires body.value.importFolderID.Some? && !IsNullOrWhiteSpace(body.value.filePath)
    requires body.value.importFolderID.value in s.folders
    requires TryGetRelativePath(s.folders[body.value.importFolderID.value], body.value.filePath.value).Failure?
    ensures AddFakeHashesEffect(s, body, now)
            == (Failure(InvalidFilePath(TryGetRelativePath(s.folders[body.value.importFolderID.value], body.value.filePath.value).error)), s)
  {
    var b := body.value;
    var e := TryGetRelativePath(s.folders[b.importFolderID.value], b.filePath.value).error;
    assert ResolveIdentity(s, b) == Failure(InvalidFilePath(e));
  }

  /** Identity goes by import folder and path, the path is accepted as
      `relativePath`, and looking it up finds `found`. */
  predicate ByPathTo(s: RepoState, b: FakeHash.Body, relativePath: string, found: Option<Place>)
    requires Consistent(s)
  {
    && GoesByPath(s, b)
    && b.importFolderID.Some? && !IsNullOrWhiteSpace(b.filePath)
    && b.importFolderID.value in s.folders
    && TryGetRelativePath(s.folders[b.importFolderID.value], b.filePath.value) == Success(relativePath)
    && found == GetPlaceByFilePathAndImportFolderID(s, relativePath, b.importFolderID.value)
  }

  /** The file record a target leads to: the existing one, or a new one
      under the next free identifier. */
  function TargetFileID(s: RepoState, t: Target): int {
    if t.file.Some? then t.file.value.id else s.nextFileID
  }

  /** The record saved for a target. */
  function SavedRecord(s: RepoState, b: FakeHash.Body, now: FakeHash.DateTime, t: Target): VideoLocal
    requires b.hashes.Some?
  {
    var base := if t.file.Some? then t.file.value else NewVideoLocal(b, now, t.relativePath);
    ApplyBody(base, b, now, t.relativePath).(id := TargetFileID(s, t))
  }

  /** Saving the file record for a target stores SavedRecord under
      TargetFileID, and a new record's identifier was free. */
  lemma SaveFileStores(s: RepoState, b: FakeHash.Body, now: FakeHash.DateTime, t: Target)
    requires Consistent(s) && StoredTarget(s, t) && b.hashes.Some?
    ensures var (s1, v) := SaveFile(s, b, now, t);
      && v == SavedRecord(s, b, now, t) && v.id == TargetFileID(s, t)
      && s1.files == s.files[v.id := v]
      && s1.nextFileID == (if t.file.Some? then s.nextFileID else s.nextFileID + 1)
      && (t.file.None? ==> v.id !in s.files)
  {
  }

  /** The location as saved for a target: linked to the file `id`, with its
      import folder's type, when it was not linked yet; as it was otherwise. */
  function LinkedPlace(t: Target, id: int): Place
    requires t.place.Some? && (t.place.value.videoLocalID == 0 ==> t.folder.Some?)
  {
    var p := t.place.value;
    if p.videoLocalID == 0 then p.(videoLocalID := id, importFolderType := t.folder.value.folderType) else p
  }

  /** The writes for a target with a location, all at once. */
  lemma CommitWithPlace(s: RepoState, b: FakeHash.Body, now: FakeHash.DateTime, t: Target)
    requires Consistent(s) && StoredTarget(s, t) && b.hashes.Some? && t.place.Some?
    requires t.place.value.videoLocalID == 0 ==> t.folder.Some?
    ensures var id, v, p := TargetFileID(s, t), SavedRecord(s, b, now, t), t.place.value;
      Commit(s, b, now, t) == (Success(FakeHash.Result(id, p.id)),
        s.(files := s.files[id := v],
           nextFileID := if t.file.Some? then s.nextFileID else s.nextFileID + 1,
           places := s.places[p.id := LinkedPlace(t, id)],
           nameHashes := FileNameHashesAfterSave(s.nameHashes, GetFileName(p.filePath), v, b.dateUpdated.GetOr(now))))
  {
    var (s1, v) := SaveFile(s, b, now, t);
    SaveFileStores(s, b, now, t);
    SavePlaceWithPlace(s1, b, now, t, v);
  }

  /** The second half of the writes, for a target with a location. */
  lemma SavePlaceWithPlace(s: RepoState, b: FakeHash.Body, now: FakeHash.DateTime, t: Target, v: VideoLocal)
    requires Consistent(s) && StoredTarget(s, t.(file := None)) && t.place.Some?
    requires t.place.value.videoLocalID == 0 ==> t.folder.Some?
    ensures var p := t.place.value;
      SavePlace(s, b, now, t, v) == (Success(FakeHash.Result(v.id, p.id)),
        s.(places := s.places[p.id := LinkedPlace(t, v.id)],
           nameHashes := FileNameHashesAfterSave(s.nameHashes, GetFileName(p.filePath), v, b.dateUpdated.GetOr(now))))
  {
    var p, linked := t.place.value, LinkedPlace(t, v.id);
    assert linked.id == p.id && linked.filePath == p.filePath;
    var s1 := WithPlaceSaved(s, linked);
    assert SavePlace(s, b, now, t, v)
        == (Success(FakeHash.Result(v.id, p.id)),
            s1.(nameHashes := FileNameHashesAfterSave(s1.nameHashes, GetFileName(linked.filePath), v, b.dateUpdated.GetOr(now))));
  }

  /** The writes for a target without a location: the file record is saved
      and the request fails. */
  lemma CommitWithoutPlace(s: RepoState, b: FakeHash.Body, now: FakeHash.DateTime, t: Target)
    requires Consistent(s) && StoredTarget(s, t) && b.hashes.Some? && t.place.None?
    ensures Commit(s, b, now, t) == (Failure(UnresolvableLocation),
        s.(files := s.files[TargetFileID(s, t) := SavedRecord(s, b, now, t)],
           nextFileID := if t.file.Some? then s.nextFileID else s.nextFileID + 1))
  {
    SaveFileStores(s, b, now, t);
  }

  /** The writes for a target with an unlinked location: the location is
      linked to the saved file and takes its import folder's type. */
  lemma CommitAtUnlinkedPlace(s: RepoState, b: FakeHash.Body, now: FakeHash.DateTime, t: Target)
    requires Consistent(s) && StoredTarget(s, t) && b.hashes.Some?
    requires t.place.Some? && t.place.value.videoLocalID == 0 && t.folder.Some?
    ensures var place, id := t.place.value, TargetFileID(s, t);
            var v := SavedRecord(s, b, now, t);
            var (r, s') := Commit(s, b, now, t);
      && r == Success(FakeHash.Result(id, place.id))
      && s'.files == s.files[id := v]
      && s'.places == s.places[place.id := place.(videoLocalID := id, importFolderType := t.folder.value.folderType)]
      && s'.nameHashes == FileNameHashesAfterSave(s.nameHashes, GetFileName(place.filePath), v, b.dateUpdated.GetOr(now))
  {
    CommitWithPlace(s, b, now, t);
  }

  /** A location found by path that is linked to a different file than the
      body's file identifier fails the request and changes nothing. */
  lemma PathOfOtherFileRefused(s: RepoState, body: Option<FakeHash.Body>, now: FakeHash.DateTime, relativePath: string, p: Place)
    requires Consistent(s) && Validate(body).Success? && ByPathTo(s, body.value, relativePath, Some(p))
    requires p.videoLocalID in s.files
    requires body.value.fileID.Some? && body.value.fileID.value != p.videoLocalID
    ensures AddFakeHashesEffect(s, body, now) == (Failure(FileIDMismatch), s)
  {
    var b := body.value;
    StoredPlaceByPath(s, relativePath, b.importFolderID.value);
    assert ResolveIdentity(s, b) == Failure(FileIDMismatch);
  }

  /** A location found by path that is linked to a file makes that file the
      target: its record is overwritten, and no location changes. */
  lemma PathAdoptsLinkedFile(s: RepoState, body: Option<FakeHash.Body>, now: FakeHash.DateTime, relativePath: string, p: Place)
    requires Consistent(s) && Validate(body).Success? && ByPathTo(s, body.value, relativePath, Some(p))
    requires p.videoLocalID in s.files
    requires body.value.fileID.None? || body.value.fileID.value == p.videoLocalID
    ensures var id := p.videoLocalID;
            var (r, s') := AddFakeHashesEffect(s, body, now);
      && r == Success(FakeHash.Result(id, p.id))
      && s'.files == s.files[id := ApplyBody(s.files[id], body.value, now, relativePath)]
      && s'.nextFileID == s.nextFileID && s'.places == s.places
  {
    var b := body.value;
    var folder := s.folders[b.importFolderID.value];
    StoredPlaceByPath(s, relativePath, folder.id);
    var t := Target(Some(s.files[p.videoLocalID]), Some(p), Some(folder), relativePath);
    assert ResolveIdentity(s, b) == Success(t);
    CommitAtLinkedPlace(s, b, now, t);
  }

  /** A location found by path that is not linked yet is linked to the
      target file, with the import folder's type. */
  lemma PathLinksUnlinkedPlace(s: RepoState, body: Option<FakeHash.Body>, now: FakeHash.DateTime, relativePath: string, p: Place)
    requires Consistent(s) && Validate(body).Success? && ByPathTo(s, body.value, relativePath, Some(p))
    requires p.videoLocalID == 0
    ensures var b := body.value;
            var id := if b.fileID.Some? then b.fileID.value else s.nextFileID;
            var folder := s.folders[b.importFolderID.value];
            var (r, s') := AddFakeHashesEffect(s, body, now);
      && r == Success(FakeHash.Result(id, p.id))
      && s'.places == s.places[p.id := p.(videoLocalID := id, importFolderType := folder.folderType)]
  {
    var b := body.value;
    var folder := s.folders[b.importFolderID.value];
    StoredPlaceByPath(s, relativePath, folder.id);
    var file := if b.fileID.Some? then Some(s.files[b.fileID.value]) else None;
    var t := Target(file, Some(p), Some(folder), relativePath);
    assert ResolveIdentity(s, b) == Success(t);
    CommitAtUnlinkedPlace(s, b, now, t);
  }

  /** A path with no location on record: the file record is still saved (a
      new one when no file identifier was given), and then the request
      fails; no location is created and the name-hash cache is untouched. */
  lemma UnplacedPathSavesFileThenFails(s: RepoState, body: Option<FakeHash.Body>, now: FakeHash.DateTime, relativePath: string)
    requires Consistent(s) && Validate(body).Success? && ByPathTo(s, body.value, relativePath, None)
    ensures var b := body.value;
            var id := if b.fileID.Some? then b.fileID.value else s.nextFileID;
            var (r, s') := AddFakeHashesEffect(s, body, now);
      && r == Failure(UnresolvableLocation)
      && id in s'.files && (b.fileID.None? ==> id !in s.files)
      && s'.files == s.files[id := s'.files[id]]
      && (b.fileID.None? ==>
            && s'.files[id] == ApplyBody(NewVideoLocal(b, now, relativePath), b, now, relativePath).(id := id)
            && s'.nextFileID == s.nextFileID + 1)
      && s'.places == s.places && s'.placeIndex == s.placeIndex && s'.folders == s.folders
      && s'.nameHashes == s.nameHashes
  {
    var b := body.value;
    var folder := s.folders[b.importFolderID.value];
    var file := if b.fileID.Some? then Some(s.files[b.fileID.value]) else None;
    var t := Target(file, None, Some(folder), relativePath);
    assert ResolveIdentity(s, b) == Success(t);
    SaveFileStores(s, b, now, t);
    CommitWithoutPlace(s, b, now, t);
  }

  // The registration, for every request

  /** What identity resolution settles on, when it succeeds: a linked
      location is linked to the target file (when every link resolves), and
      an unlinked location was found by path, so its import folder is known. */
  lemma ResolvedTargetShape(s: RepoState, b: FakeHash.Body)
    requires Consistent(s) && ResolveIdentity(s, b).Success?
    ensures var t := ResolveIdentity(s, b).value;
      && (t.place.Some? && t.place.value.videoLocalID == 0 ==> t.folder.Some?)
      && (LinksResolve(s) && t.place.Some? && t.place.value.videoLocalID != 0 ==>
            t.file.Some? && t.file.value.id == t.place.value.videoLocalID)
      && (b.fileID.Some? ==> t.file.Some? && t.file.value.id == b.fileID.value)
  {
    var file := if b.fileID.Some? then GetFileByID(s, b.fileID.value) else None;
    var place := if file.Some? then ChoosePlace(GetPlacesByVideoLocal(s, file.value.id)) else None;
    if place.None? {
      var folder := s.folders[b.importFolderID.value];
      assert ResolveIdentity(s, b) == ResolveByPath(s, b, file, folder);
      StoredPlaceByPath(s, TryGetRelativePath(folder, b.filePath.value).value, folder.id);
    }
  }

  /** The import folder is never looked up a second time in vain: the
      "unable to resolve the import folder" failure cannot happen. */
  lemma NeverUnresolvableImportFolder(s: RepoState, body: Option<FakeHash.Body>, now: FakeHash.DateTime)
    requires Consistent(s)
    ensures AddFakeHashesEffect(s, body, now).0 != Failure(UnresolvableImportFolder)
  {
    var (r, _) := AddFakeHashesEffect(s, body, now);
    if Validate(body).Failure? {
      assert r == Failure(Validate(body).error);
    } else {
      var b := body.value;
      var t := ResolveIdentity(s, b);
      if t.Failure? {
        ResolutionErrors(s, b);
        assert r == Failure(t.error);
      } else {
        assert AddFakeHashesEffect(s, body, now) == Commit(s, b, now, t.value);
        ResolvedTargetShape(s, b);
        CommitAnswer(s, b, now, t.value);
      }
    }
  }

  /** The ways identity resolution fails: an unknown file, no location
      without import folder and path, an unknown import folder, a refused
      path, or a location linked to another file. */
  lemma ResolutionErrors(s: RepoState, b: FakeHash.Body)
    requires Consistent(s) && ResolveIdentity(s, b).Failure?
    ensures ResolveIdentity(s, b).error in
      {FileNotFound(b.fileID.GetOr(0)), LocationNotFound, ImportFolderNotFound(b.importFolderID.GetOr(0)),
       InvalidFilePath(NotWithinImportFolder), InvalidFilePath(EmptyRelativePath), FileIDMismatch}
  {
    var file := if b.fileID.Some? then GetFileByID(s, b.fileID.value) else None;
    var place := if file.Some? then ChoosePlace(GetPlacesByVideoLocal(s, file.value.id)) else None;
    if !(b.fileID.Some? && file.None?) && place.None? && b.importFolderID.Some? && !IsNullOrWhiteSpace(b.filePath) {
      var folder := GetImportFolderByID(s, b.importFolderID.value);
      if folder.Some? {
        assert ResolveIdentity(s, b) == ResolveByPath(s, b, file, folder.value);
      }
    }
  }

  /** The answer of the writes: the file and the location, or "unable to
      resolve the location" when there is none. */
  lemma CommitAnswer(s: RepoState, b: FakeHash.Body, now: FakeHash.DateTime, t: Target)
    requires Consistent(s) && StoredTarget(s, t) && b.hashes.Some?
    requires t.place.Some? && t.place.value.videoLocalID == 0 ==> t.folder.Some?
    ensures Commit(s, b, now, t).0 ==
      if t.place.None? then Failure(UnresolvableLocation)
      else Success(FakeHash.Result(TargetFileID(s, t), t.place.value.id))
  {
    if t.place.None? {
      CommitWithoutPlace(s, b, now, t);
    } else {
      CommitWithPlace(s, b, now, t);
    }
  }

  /** What the writes do to the locations: see NoLocationCreated. */
  lemma CommitPlaces(s: RepoState, b: FakeHash.Body, now: FakeHash.DateTime, t: Target)
    requires Consistent(s) && StoredTarget(s, t) && b.hashes.Some?
    requires t.place.Some? && t.place.value.videoLocalID == 0 ==> t.folder.Some?
    ensures PlacesKept(s, Commit(s, b, now, t).1)
  {
    var (s1, v) := SaveFile(s, b, now, t);
    assert s1.places == s.places && s1.placeOrder == s.placeOrder && s1.placeIndex == s.placeIndex && s1.folders == s.folders;
    SavePlaceKeepsPlaces(s1, b, now, t, v);
  }

  /** The locations after `s'` compared with those in `s`: the same
      identifiers, order, index and import folders; linked ones unchanged,
      the others changed at most in their link and import folder type. */
  predicate PlacesKept(s: RepoState, s': RepoState) {
    && s'.places.Keys == s.places.Keys
    && s'.placeOrder == s.placeOrder && s'.placeIndex == s.placeIndex && s'.folders == s.folders
    && (forall id :: id in s.places && s.places[id].videoLocalID != 0 ==> s'.places[id] == s.places[id])
    && (forall id :: id in s.places ==>
          s'.places[id] == s.places[id].(videoLocalID := s'.places[id].videoLocalID,
                                         importFolderType := s'.places[id].importFolderType))
  }

  /** The second half of the writes keeps the locations: see PlacesKept. */
  lemma SavePlaceKeepsPlaces(s: RepoState, b: FakeHash.Body, now: FakeHash.DateTime, t: Target, v: VideoLocal)
    requires Consistent(s) && StoredTarget(s, t.(file := None))
    requires t.place.Some? && t.place.value.videoLocalID == 0 ==> t.folder.Some?
    ensures PlacesKept(s, SavePlace(s, b, now, t, v).1)
  {
    if t.place.Some? {
      SavePlaceWithPlace(s, b, now, t, v);
      var nameHashes := SavePlace(s, b, now, t, v).1.nameHashes;
      RelinkKeepsPlaces(s, LinkedPlace(t, v.id), nameHashes);
    }
  }

  /** No location is ever created or removed, a linked location is never
      changed, and an unlinked one changes only in its link and its import
      folder type. */
  lemma NoLocationCreated(s: RepoState, body: Option<FakeHash.Body>, now: FakeHash.DateTime)
    requires Consistent(s)
    ensures PlacesKept(s, AddFakeHashesEffect(s, body, now).1)
  {
    if Validate(body).Success? && ResolveIdentity(s, body.value).Success? {
      var b, t := body.value, ResolveIdentity(s, body.value).value;
      assert AddFakeHashesEffect(s, body, now) == Commit(s, b, now, t);
      ResolvedTargetShape(s, b);
      CommitPlaces(s, b, now, t);
    } else {
      assert AddFakeHashesEffect(s, body, now).1 == s;
    }
  }

  /** What the writes do to the invariants: see InvariantsPreserved. */
  lemma CommitInvariants(s: RepoState, b: FakeHash.Body, now: FakeHash.DateTime, t: Target)
    requires Consistent(s) && StoredTarget(s, t) && b.hashes.Some?
    requires t.place.Some? && t.place.value.videoLocalID == 0 ==> t.folder.Some?
    ensures Consistent(Commit(s, b, now, t).1)
    ensures LinksResolve(s) ==> LinksResolve(Commit(s, b, now, t).1)
  {
    var (s1, v) := SaveFile(s, b, now, t);
    SaveFileStores(s, b, now, t);
    assert Commit(s, b, now, t) == SavePlace(s1, b, now, t, v);
    assert LinksResolve(s) ==> LinksResolve(s1);
    if t.place.Some? {
      SavePlaceWithPlace(s1, b, now, t, v);
      PlaceReplaced(s1, LinkedPlace(t, v.id));
    }
  }

  /** Replacing a location by one with the same identifier and key keeps the
      invariants, and keeps every link resolving when its own link does. */
  lemma PlaceReplaced(s: RepoState, p: Place)
    requires Consistent(s) && p.id in s.places && PlaceKey(p) == PlaceKey(s.places[p.id])
    ensures Consistent(s.(places := s.places[p.id := p]))
    ensures LinksResolve(s) && (p.videoLocalID != 0 ==> p.videoLocalID in s.files) ==>
              LinksResolve(s.(places := s.places[p.id := p]))
  {
  }

  /** Storing a location again, changed at most in its link and import
      folder type, and only when it was not linked, keeps the locations. */
  lemma RelinkKeepsPlaces(s: RepoState, p: Place, nameHashes: seq<FileNameHash>)
    requires p.id in s.places
    requires p == s.places[p.id].(videoLocalID := p.videoLocalID, importFolderType := p.importFolderType)
    requires s.places[p.id].videoLocalID != 0 ==> p == s.places[p.id]
    ensures PlacesKept(s, s.(places := s.places[p.id := p], nameHashes := nameHashes))
  {
  }

  /** The repository's invariants hold after every request, and so does
      "every link resolves". */
  lemma InvariantsPreserved(s: RepoState, body: Option<FakeHash.Body>, now: FakeHash.DateTime)
    requires Consistent(s)
    ensures Consistent(AddFakeHashesEffect(s, body, now).1)
    ensures LinksResolve(s) ==> LinksResolve(AddFakeHashesEffect(s, body, now).1)
  {
    if Validate(body).Success? && ResolveIdentity(s, body.value).Success? {
      var b, t := body.value, ResolveIdentity(s, body.value).value;
      assert AddFakeHashesEffect(s, body, now) == Commit(s, b, now, t);
      ResolvedTargetShape(s, b);
      CommitInvariants(s, b, now, t);
    } else {
      assert AddFakeHashesEffect(s, body, now).1 == s;
    }
  }

  /** The writes for a target with a location, linked to the target file or
      not linked at all: the file record is stored, the location is linked to
      it, and the answer names both. */
  lemma CommitOutcome(s: RepoState, b: FakeHash.Body, now: FakeHash.DateTime, t: Target)
    requires Consistent(s) && StoredTarget(s, t) && b.hashes.Some? && t.place.Some?
    requires t.place.value.videoLocalID == 0 ==> t.folder.Some?
    requires t.place.value.videoLocalID != 0 ==> t.file.Some? && t.file.value.id == t.place.value.videoLocalID
    ensures var id, p, v := TargetFileID(s, t), t.place.value, SavedRecord(s, b, now, t);
            var (r, s') := Commit(s, b, now, t);
      && r == Success(FakeHash.Result(id, p.id))
      && s'.files == s.files[id := v]
      && s'.nextFileID == (if t.file.Some? then s.nextFileID else s.nextFileID + 1)
      && p.id in s'.places && s'.places[p.id].videoLocalID == id && s'.places[p.id].filePath == p.filePath
      && s'.nameHashes == FileNameHashesAfterSave(s.nameHashes, GetFileName(p.filePath), v, b.dateUpdated.GetOr(now))
  {
    CommitWithPlace(s, b, now, t);
  }

  /** After a successful request (when every link resolved before it): the
      answer names a stored file and a stored location linked to it, the
      file identifier given is the one answered, the stored hash is not
      blank, and the name-hash cache holds exactly one entry for the
      location's file name and the file's size, with the file's hash, and
      nothing else in it changed. */
  lemma SuccessfulRegistration(s: RepoState, body: Option<FakeHash.Body>, now: FakeHash.DateTime)
    requires Consistent(s) && LinksResolve(s) && AddFakeHashesEffect(s, body, now).0.Success?
    ensures var (r, s') := AddFakeHashesEffect(s, body, now);
            var b, fileID, placeID := body.value, r.value.fileID, r.value.fileLocationID;
      && fileID in s'.files && placeID in s'.places
      && s'.places[placeID].videoLocalID == fileID
      && (b.fileID.Some? ==> fileID == b.fileID.value)
      && var v, name := s'.files[fileID], GetFileName(s'.places[placeID].filePath);
         && !IsBlank(v.hash)
         && (!IsBlank(name) ==>
               Matching(s'.nameHashes, name, v.fileSize) == [FileNameHash(name, v.fileSize, v.hash, b.dateUpdated.GetOr(now))])
         && (forall n, z :: (n, z) != (name, v.fileSize) ==> Matching(s'.nameHashes, n, z) == Matching(s.nameHashes, n, z))
  {
    var b := body.value;
    var t := ResolveIdentity(s, b).value;
    assert AddFakeHashesEffect(s, body, now) == Commit(s, b, now, t);
    ResolvedTargetShape(s, b);
    assert t.place.Some?;
    CommitOutcome(s, b, now, t);
    var v, p := SavedRecord(s, b, now, t), t.place.value;
    var name := GetFileName(p.filePath);
    var h := NormalizeHash(b.hashes.value.ed2k);
    FakeHash.ValidBodyHashes(b);
    assert v.hash == h && h != [];
    assert !IsBlank(h) by { assert !IsWhiteSpace(h[0]); }
    if !IsBlank(name) {
      NameHashSaved(s.nameHashes, name, v, b.dateUpdated.GetOr(now));
    }
    forall n, z | (n, z) != (name, v.fileSize)
      ensures Matching(FileNameHashesAfterSave(s.nameHashes, name, v, b.dateUpdated.GetOr(now)), n, z) == Matching(s.nameHashes, n, z)
    {
      NameHashOthersUntouched(s.nameHashes, name, v, b.dateUpdated.GetOr(now), n, z);
    }
  }

  /** The writes store SavedRecord under TargetFileID, whether or not the
      location is then linked. */
  lemma CommitStoresFile(s: RepoState, b: FakeHash.Body, now: FakeHash.DateTime, t: Target)
    requires Consistent(s) && StoredTarget(s, t) && b.hashes.Some?
    ensures var s' := Commit(s, b, now, t).1;
      && s'.files == s.files[TargetFileID(s, t) := SavedRecord(s, b, now, t)]
      && s'.nextFileID == (if t.file.Some? then s.nextFileID else s.nextFileID + 1)
  {
    var (s1, v) := SaveFile(s, b, now, t);
    SaveFileStores(s, b, now, t);
    assert Commit(s, b, now, t) == SavePlace(s1, b, now, t, v);
  }

  /** The file record after a request that got past identity resolution:
      the four hashes normalised from the body, the body's hash source, size
      and update time (or now); an existing record keeps its creation and
      import times unless the body gives them, and its file name unless a
      relative path was computed; a new record is stored under a free
      identifier, is neither ignored nor a variation, and is named after the
      relative path. No other file record changes. */
  lemma FileRecordAfterRegistration(s: RepoState, body: Option<FakeHash.Body>, now: FakeHash.DateTime)
    requires Consistent(s) && Validate(body).Success? && ResolveIdentity(s, body.value).Success?
    ensures var b, t := body.value, ResolveIdentity(s, body.value).value;
            var id, s' := TargetFileID(s, t), AddFakeHashesEffect(s, body, now).1;
            var h := b.hashes.value;
      && id in s'.files && s'.files == s.files[id := s'.files[id]]
      && var v := s'.files[id];
         && v.id == id
         && v.hash == NormalizeHash(h.ed2k) && v.crc32 == NormalizeHash(h.crc32)
         && v.md5 == NormalizeHash(h.md5) && v.sha1 == NormalizeHash(h.sha1)
         && v.hashSource == b.hashSource && v.fileSize == b.fileSize
         && v.dateTimeUpdated == b.dateUpdated.GetOr(now)
         && (t.file.Some? ==>
               var was := s.files[id];
               && t.file.value == was
               && v.dateTimeCreated == b.dateCreated.GetOr(was.dateTimeCreated)
               && v.dateTimeImported == (if b.dateImported.Some? then b.dateImported else was.dateTimeImported)
               && v.fileName == (if IsBlank(t.relativePath) then was.fileName else GetFileName(t.relativePath))
               && v.isIgnored == was.isIgnored && v.isVariation == was.isVariation
               && s'.nextFileID == s.nextFileID)
         && (t.file.None? ==>
               && id !in s.files && s'.nextFileID == s.nextFileID + 1
               && v.dateTimeCreated == b.dateCreated.GetOr(now)
               && v.dateTimeImported == b.dateImported
               && v.fileName == GetFileName(t.relativePath)
               && !v.isIgnored && !v.isVariation)
  {
    var b, t := body.value, ResolveIdentity(s, body.value).value;
    assert AddFakeHashesEffect(s, body, now) == Commit(s, b, now, t);
    CommitStoresFile(s, b, now, t);
    SaveFileStores(s, b, now, t);
  }

  /** Registering a path that has no location twice, without a file
      identifier, stores two new file records that differ only in their
      identifiers (both requests fail, by UnplacedPathSavesFileThenFails). */
  lemma UnplacedPathTwiceDuplicatesFile(s: RepoState, body: Option<FakeHash.Body>, now: FakeHash.DateTime, relativePath: string)
    requires Consistent(s) && Validate(body).Success? && body.value.fileID.None?
    requires ByPathTo(s, body.value, relativePath, None)
    ensures var s2 := AddFakeHashesEffect(AddFakeHashesEffect(s, body, now).1, body, now).1;
      && s.nextFileID !in s.files && s.nextFileID + 1 !in s.files
      && s.nextFileID in s2.files && s.nextFileID + 1 in s2.files
      && s2.files[s.nextFileID + 1] == s2.files[s.nextFileID].(id := s.nextFileID + 1)
  {
    var s1 := AddFakeHashesEffect(s, body, now).1;
    UnplacedPathSavesFileThenFails(s, body, now, relativePath);
    StillUnplaced(s, body, now, relativePath);
    UnplacedPathSavesFileThenFails(s1, body, now, relativePath);
  }

  /** A path with no location still has none after it was registered. */
  lemma StillUnplaced(s: RepoState, body: Option<FakeHash.Body>, now: FakeHash.DateTime, relativePath: string)
    requires Consistent(s) && Validate(body).Success? && ByPathTo(s, body.value, relativePath, None)
    ensures Consistent(AddFakeHashesEffect(s, body, now).1)
    ensures ByPathTo(AddFakeHashesEffect(s, body, now).1, body.value, relativePath, None)
  {
    var b := body.value;
    var s1 := AddFakeHashesEffect(s, body, now).1;
    UnplacedPathSavesFileThenFails(s, body, now, relativePath);
    InvariantsPreserved(s, body, now);
    NoLocationCreated(s, body, now);
    assert s1.folders == s.folders && s1.places == s.places && s1.placeIndex == s.placeIndex;
    assert s1.placeOrder == s.placeOrder;
    var folderID := b.importFolderID.value;
    assert GetPlaceByFilePathAndImportFolderID(s1, relativePath, folderID)
        == GetPlaceByFilePathAndImportFolderID(s, relativePath, folderID);
    assert b.fileID.Some? ==> b.fileID.value in s1.files;
    assert b.fileID.Some? ==> GetPlacesByVideoLocal(s1, b.fileID.value) == GetPlacesByVideoLocal(s, b.fileID.value);
  }

  /** After a successful request by path without a file identifier, the
      location found is linked to the file answered, and the same path still
      finds it. */
  lemma RegisteredPathStaysLinked(s: RepoState, body: Option<FakeHash.Body>, now: FakeHash.DateTime, relativePath: string, p: Place)
    requires Consistent(s) && LinksResolve(s) && Validate(body).Success? && body.value.fileID.None?
    requires ByPathTo(s, body.value, relativePath, Some(p))
    ensures var (r1, s1) := AddFakeHashesEffect(s, body, now);
      && r1.Success? && r1.value.fileLocationID == p.id
      && Consistent(s1) && LinksResolve(s1) && p.id in s1.places
      && s1.places[p.id].videoLocalID == r1.value.fileID && r1.value.fileID in s1.files
      && ByPathTo(s1, body.value, relativePath, Some(s1.places[p.id]))
  {
    var b := body.value;
    var folderID := b.importFolderID.value;
    StoredPlaceByPath(s, relativePath, folderID);
    if p.videoLocalID != 0 {
      PathAdoptsLinkedFile(s, body, now, relativePath, p);
    } else {
      PathLinksUnlinkedPlace(s, body, now, relativePath, p);
    }
    SuccessfulRegistration(s, body, now);
    InvariantsPreserved(s, body, now);
    NoLocationCreated(s, body, now);
    var s1 := AddFakeHashesEffect(s, body, now).1;
    assert s1.folders == s.folders && s1.placeIndex == s.placeIndex;
    assert GetPlaceByFilePathAndImportFolderID(s1, relativePath, folderID) == Some(s1.places[p.id]);
  }

  /** Registering the same import folder and path again, without a file
      identifier, after a first request succeeded (when every link resolved
      before it), with any hashes: the answer is the same, no file record or
      location is added, and only the answered file changes: the second
      request's body is written over it. */
  lemma RepeatedRegistrationStable(s: RepoState, body: Option<FakeHash.Body>, now: FakeHash.DateTime,
                                   body2: Option<FakeHash.Body>, now2: FakeHash.DateTime, relativePath: string, p: Place)
    requires Consistent(s) && LinksResolve(s) && Validate(body).Success? && body.value.fileID.None?
    requires ByPathTo(s, body.value, relativePath, Some(p))
    requires Validate(body2).Success? && body2.value.fileID.None?
    requires body2.value.importFolderID == body.value.importFolderID && body2.value.filePath == body.value.filePath
    ensures Consistent(AddFakeHashesEffect(s, body, now).1)
    ensures AddFakeHashesEffect(s, body, now).0.Success?
    ensures var (r1, s1) := AddFakeHashesEffect(s, body, now);
            var (r2, s2) := AddFakeHashesEffect(s1, body2, now2);
            var id := r1.value.fileID;
      && r2 == r1 && id in s1.files
      && s2.files == s1.files[id := ApplyBody(s1.files[id], body2.value, now2, relativePath)]
      && s2.nextFileID == s1.nextFileID && s2.places == s1.places
  {
    var s1 := AddFakeHashesEffect(s, body, now).1;
    RegisteredPathStaysLinked(s, body, now, relativePath, p);
    ByPathToSameTarget(s1, body.value, body2.value, relativePath, Some(s1.places[p.id]));
    PathAdoptsLinkedFile(s1, body2, now2, relativePath, s1.places[p.id]);
  }

  /** Going by path depends only on the identifiers and the path a body names. */
  lemma ByPathToSameTarget(s: RepoState, b: FakeHash.Body, b2: FakeHash.Body, relativePath: string, found: Option<Place>)
    requires Consistent(s) && ByPathTo(s, b, relativePath, found)
    requires b2.fileID == b.fileID && b2.importFolderID == b.importFolderID && b2.filePath == b.filePath
    ensures ByPathTo(s, b2, relativePath, found)
  {
  }
}
