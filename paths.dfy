/** The parts of .NET's `System.IO.Path` that the registration code relies on,
    with the semantics .NET gives them on Linux: '/' is the only separator,
    names compare case-sensitively, and a path that is not rooted is taken
    relative to the root directory (the process's current directory is not
    modelled). */
module DotNetPath {

  const Separator: char := '/'

  /** A non-empty name with no separator in it: one step of a path. */
  predicate IsName(n: string) {
    n != [] && Separator !in n
  }

  /** A name that is neither "." nor "..". */
  predicate IsPlainName(n: string) {
    IsName(n) && n != "." && n != ".."
  }

  predicate AllNames(names: seq<string>) {
    forall i :: 0 <= i < |names| ==> IsName(names[i])
  }

  predicate AllPlainNames(names: seq<string>) {
    forall i :: 0 <= i < |names| ==> IsPlainName(names[i])
  }

  /** `Path.IsPathRooted`. */
  predicate IsPathRooted(p: string) {
    |p| > 0 && p[0] == Separator
  }

  predicate EndsInSeparator(p: string) {
    |p| > 0 && p[|p| - 1] == Separator
  }

  /** `Path.Combine(a, b)`: `b` itself when it is rooted or `a` is empty,
      otherwise `a` and `b` joined by one separator. */
  function Combine(a: string, b: string): (r: string)
    ensures IsPathRooted(b) || a == [] ==> r == b
    ensures !IsPathRooted(b) && a != [] && b != [] ==>
              r == (if EndsInSeparator(a) then a + b else a + [Separator] + b)
  {
    if IsPathRooted(b) || a == [] then b
    else if b == [] then a
    else if EndsInSeparator(a) then a + b
    else a + [Separator] + b
  }

  /** A combined path ends as its second part does. */
  lemma CombineEnd(a: string, b: string)
    requires a != [] && b != [] && !IsPathRooted(b)
    ensures EndsInSeparator(Combine(a, b)) == EndsInSeparator(b)
  {
    var c := Combine(a, b);
    assert c[|c| - 1] == b[|b| - 1];
  }

  /** The length of the name `p` starts with. */
  function NameLength(p: string): (n: nat)
    requires p != [] && p[0] != Separator
    ensures 0 < n <= |p|
    ensures Separator !in p[..n]
    ensures n < |p| ==> p[n] == Separator
  {
    if |p| == 1 || p[1] == Separator then 1 else 1 + NameLength(p[1..])
  }

  /** The names of a path, in order, ignoring empty ones (so repeated and
      trailing separators make no difference). */
  function Segments(p: string): (r: seq<string>)
    ensures AllNames(r)
    decreases |p|
  {
    if p == [] then []
    else if p[0] == Separator then Segments(p[1..])
    else
      var n := NameLength(p);
      [p[..n]] + Segments(p[n..])
  }

  /** Walks `names` after the already resolved `acc`: "." stays put, ".."
      goes up one level (and stays at the root when there is none). */
  function ResolveFrom(acc: seq<string>, names: seq<string>): (r: seq<string>)
    requires AllPlainNames(acc) && AllNames(names)
    ensures AllPlainNames(r)
    decreases |names|
  {
    if names == [] then acc
    else if names[0] == "." then ResolveFrom(acc, names[1..])
    else if names[0] == ".." then ResolveFrom(if acc == [] then [] else acc[..|acc| - 1], names[1..])
    else ResolveFrom(acc + [names[0]], names[1..])
  }

  /** The canonical names of a path: "." and ".." resolved. */
  function Resolve(names: seq<string>): (r: seq<string>)
    requires AllNames(names)
    ensures AllPlainNames(r)
  {
    ResolveFrom([], names)
  }

  /** The names joined by single separators. */
  function Join(names: seq<string>): string {
    if names == [] then []
    else if |names| == 1 then names[0]
    else names[0] + [Separator] + Join(names[1..])
  }

  /** `Path.GetFullPath`: the rooted path of the resolved names; a trailing
      separator on the input is kept. */
  function GetFullPath(p: string): (r: string)
    ensures IsPathRooted(r)
  {
    var names := Resolve(Segments(p));
    [Separator] + Join(names) + (if names != [] && EndsInSeparator(p) then [Separator] else [])
  }

  /** The length of the longest common prefix of two sequences of names. */
  function CommonPrefixLength(a: seq<string>, b: seq<string>): (n: nat)
    ensures n <= |a| && n <= |b|
    ensures a[..n] == b[..n]
    ensures n < |a| && n < |b| ==> a[n] != b[n]
  {
    if a == [] || b == [] || a[0] != b[0] then 0
    else
      var k := CommonPrefixLength(a[1..], b[1..]);
      assert a[..k + 1] == [a[0]] + a[1..][..k];
      assert b[..k + 1] == [b[0]] + b[1..][..k];
      k + 1
  }

  /** `k` parent steps. */
  function Parents(k: nat): (r: seq<string>)
    ensures |r| == k && forall i :: 0 <= i < k ==> r[i] == ".."
  {
    if k == 0 then [] else [".."] + Parents(k - 1)
  }

  /** `Path.GetRelativePath(relativeTo, path)`: the steps that lead from the
      first canonical path to the second, as many ".." as needed and then the
      remaining names; "." when the two are the same directory. A trailing
      separator on `path` is kept when some of its names remain. */
  function GetRelativePath(relativeTo: string, path: string): string {
    var from := Resolve(Segments(relativeTo));
    var to := Resolve(Segments(path));
    var c := CommonPrefixLength(from, to);
    var steps := Parents(|from| - c) + to[c..];
    if steps == [] then "."
    else Join(steps) + (if c < |to| && EndsInSeparator(path) then [Separator] else [])
  }

  /** `Path.GetFileName`: what follows the last separator. */
  function GetFileName(p: string): (r: string)
    ensures Separator !in r
    ensures |r| <= |p| && r == p[|p| - |r|..]
    ensures |r| < |p| ==> p[|p| - |r| - 1] == Separator
  {
    if p == [] || p[|p| - 1] == Separator then []
    else GetFileName(p[..|p| - 1]) + [p[|p| - 1]]
  }

  // Facts about the model

  /** A separator splits the names of a path in two. */
  lemma {:induction false} SegmentsSplit(a: string, b: string)
    ensures Segments(a + [Separator] + b) == Segments(a) + Segments(b)
    decreases |a|
  {
    var p := a + [Separator] + b;
    if a == [] {
      assert p[1..] == b;
    } else if a[0] == Separator {
      assert p[1..] == a[1..] + [Separator] + b;
      SegmentsSplit(a[1..], b);
    } else {
      var n := NameLength(a);
      assert p[..|a|] == a;
      NameLengthPrefix(a, p);
      assert p[..n] == a[..n];
      if n == |a| {
        assert p[n..] == [Separator] + b;
        assert (p[n..])[1..] == b;
        assert a[n..] == [];
      } else {
        assert p[n..] == a[n..] + [Separator] + b;
        SegmentsSplit(a[n..], b);
      }
    }
  }

  /** Extending a path does not change the length of its first name, unless
      the path is all one name and the extension starts with a separator. */
  lemma {:induction false} NameLengthPrefix(a: string, p: string)
    requires a != [] && a[0] != Separator
    requires a <= p && (|p| > |a| ==> p[|a|] == Separator)
    ensures NameLength(p) == NameLength(a)
    decreases |a|
  {
    if |a| > 1 && a[1] != Separator {
      NameLengthPrefix(a[1..], p[1..]);
    }
  }

  /** Joining names and splitting the result gives the names back. */
  lemma {:induction false} SegmentsOfJoin(names: seq<string>)
    requires AllNames(names)
    ensures Segments(Join(names)) == names
  {
    if names == [] {
    } else if |names| == 1 {
      SegmentsOfName(names[0]);
    } else {
      SegmentsSplit(names[0], Join(names[1..]));
      SegmentsOfName(names[0]);
      SegmentsOfJoin(names[1..]);
    }
  }

  /** A single name is its own only segment. */
  lemma SegmentsOfName(n: string)
    requires IsName(n)
    ensures Segments(n) == [n]
  {
    assert n[0] in n;
    NameLengthOfName(n);
    assert n[..|n|] == n;
    assert n[|n|..] == [];
    assert Segments(n) == [n[..|n|]] + Segments(n[|n|..]);
  }

  lemma {:induction false} NameLengthOfName(n: string)
    requires IsName(n)
    ensures NameLength(n) == |n|
  {
    if |n| > 1 {
      assert n[1] in n;
      NameLengthOfName(n[1..]);
    }
  }

  /** Joining a concatenation puts one separator between the two parts. */
  lemma {:induction false} JoinAppend(xs: seq<string>, ys: seq<string>)
    requires xs != [] && ys != []
    ensures Join(xs + ys) == Join(xs) + [Separator] + Join(ys)
  {
    if |xs| == 1 {
      assert (xs + ys)[1..] == ys;
    } else {
      assert (xs + ys)[1..] == xs[1..] + ys;
      JoinAppend(xs[1..], ys);
    }
  }

  /** Resolving plain names only appends them. */
  lemma {:induction false} ResolvePlain(acc: seq<string>, names: seq<string>)
    requires AllPlainNames(acc) && AllPlainNames(names)
    ensures ResolveFrom(acc, names) == acc + names
    decreases |names|
  {
    if names != [] {
      ResolvePlain(acc + [names[0]], names[1..]);
      assert acc + [names[0]] + names[1..] == acc + names;
    }
  }

  /** Plain names ahead of the rest are appended to what is already resolved. */
  lemma {:induction false} ResolvePlainPrefix(acc: seq<string>, plain: seq<string>, rest: seq<string>)
    requires AllPlainNames(acc) && AllPlainNames(plain) && AllNames(rest)
    ensures AllNames(plain + rest) && AllPlainNames(acc + plain)
    ensures ResolveFrom(acc, plain + rest) == ResolveFrom(acc + plain, rest)
    decreases |plain|
  {
    NamesAppend(plain, rest);
    PlainNamesAppend(acc, plain);
    if plain == [] {
      assert plain + rest == rest && acc + plain == acc;
    } else {
      assert (plain + rest)[0] == plain[0] && (plain + rest)[1..] == plain[1..] + rest;
      PlainNamesAppend(acc, [plain[0]]);
      ResolvePlainPrefix(acc + [plain[0]], plain[1..], rest);
      assert acc + [plain[0]] + plain[1..] == acc + plain;
    }
  }

  /** `k` parent steps climb `k` levels, and no higher than the root. */
  lemma {:induction false} ResolveParents(acc: seq<string>, k: nat, rest: seq<string>)
    requires AllPlainNames(acc) && AllNames(rest)
    ensures AllNames(Parents(k) + rest)
    ensures ResolveFrom(acc, Parents(k) + rest) == ResolveFrom(acc[..if k <= |acc| then |acc| - k else 0], rest)
    decreases k
  {
    NamesAppend(Parents(k), rest);
    if k == 0 {
      assert Parents(k) + rest == rest && acc[..|acc|] == acc;
    } else {
      var up := if acc == [] then [] else acc[..|acc| - 1];
      assert Parents(k) + rest == [".."] + (Parents(k - 1) + rest);
      ResolveParents(up, k - 1, rest);
      assert up[..if k - 1 <= |up| then |up| - (k - 1) else 0] == acc[..if k <= |acc| then |acc| - k else 0];
    }
  }

  /** Names followed by names are names. */
  lemma NamesAppend(a: seq<string>, b: seq<string>)
    requires AllNames(a) && AllNames(b)
    ensures AllNames(a + b)
  {
    forall i | 0 <= i < |a + b| ensures IsName((a + b)[i]) {
      if i >= |a| {
        assert (a + b)[i] == b[i - |a|];
      }
    }
  }

  /** Plain names followed by plain names are plain names. */
  lemma PlainNamesAppend(a: seq<string>, b: seq<string>)
    requires AllPlainNames(a) && AllPlainNames(b)
    ensures AllPlainNames(a + b)
  {
    forall i | 0 <= i < |a + b| ensures IsPlainName((a + b)[i]) {
      if i >= |a| {
        assert (a + b)[i] == b[i - |a|];
      }
    }
  }

  /** Plain names resolve to themselves. */
  lemma ResolveOfPlain(names: seq<string>)
    requires AllPlainNames(names)
    ensures Resolve(names) == names
  {
    ResolvePlain([], names);
    assert [] + names == names;
  }

  /** The names of a full path are its resolved names. */
  lemma SegmentsOfFullPath(p: string)
    ensures Segments(GetFullPath(p)) == Resolve(Segments(p))
  {
    var names := Resolve(Segments(p));
    var full := GetFullPath(p);
    var j := Join(names);
    SegmentsOfJoin(names);
    if names != [] && EndsInSeparator(p) {
      assert full == [Separator] + (j + [Separator] + []);
      SegmentsSplit(j, []);
      assert full[1..] == j + [Separator] + [];
    } else {
      assert full == [Separator] + j;
      assert full[1..] == j;
    }
  }

  /** Joined names form a path that neither starts nor ends with a separator. */
  lemma {:induction false} JoinEnds(names: seq<string>)
    requires AllNames(names) && names != []
    ensures Join(names) != [] && !IsPathRooted(Join(names)) && !EndsInSeparator(Join(names))
  {
    var n := names[0];
    assert n[0] in n && n[|n| - 1] in n;
    if |names| > 1 {
      JoinEnds(names[1..]);
      var rest := Join(names[1..]);
      assert Join(names) == n + [Separator] + rest;
      assert Join(names)[|Join(names)| - 1] == rest[|rest| - 1];
    }
  }

  /** A sequence of names shares all of itself with any extension of it. */
  lemma {:induction false} CommonPrefixOfExtension(a: seq<string>, b: seq<string>)
    ensures CommonPrefixLength(a, a + b) == |a|
  {
    if a != [] {
      assert (a + b)[0] == a[0] && (a + b)[1..] == a[1..] + b;
      CommonPrefixOfExtension(a[1..], b);
    }
  }

  /** Combining a path with a relative one joins their names. */
  lemma SegmentsOfCombine(a: string, b: string)
    requires a != [] && !IsPathRooted(b)
    ensures Segments(Combine(a, b)) == Segments(a) + Segments(b)
  {
    if b == [] {
      assert Segments(a) + [] == Segments(a);
    } else if EndsInSeparator(a) {
      var a0 := a[..|a| - 1];
      assert a == a0 + [Separator] + [];
      SegmentsSplit(a0, []);
      assert a + b == a0 + [Separator] + b;
      SegmentsSplit(a0, b);
    } else {
      SegmentsSplit(a, b);
    }
  }

  /** A rooted path of plain names is its own full path. */
  lemma FullPathOfPlainNames(names: seq<string>)
    requires AllPlainNames(names)
    ensures Segments([Separator] + Join(names)) == names
    ensures Resolve(Segments([Separator] + Join(names))) == names
    ensures GetFullPath([Separator] + Join(names)) == [Separator] + Join(names)
  {
    var p := [Separator] + Join(names);
    assert p[1..] == Join(names);
    SegmentsOfJoin(names);
    ResolveOfPlain(names);
    if names != [] {
      JoinEnds(names);
      assert p[|p| - 1] == Join(names)[|Join(names)| - 1];
    }
  }

  /** From one rooted path of plain names to another that leaves it at the
      first name: up to the root, then down the other path. */
  lemma RelativeToOtherBranch(a: seq<string>, b: seq<string>)
    requires AllPlainNames(a) && AllPlainNames(b) && a != [] && b != [] && a[0] != b[0]
    ensures GetRelativePath([Separator] + Join(a), [Separator] + Join(b)) == Join(Parents(|a|) + b)
  {
    FullPathOfPlainNames(a);
    FullPathOfPlainNames(b);
    JoinEnds(b);
    var p := [Separator] + Join(b);
    assert p[|p| - 1] == Join(b)[|Join(b)| - 1];
    assert CommonPrefixLength(a, b) == 0;
    assert b[0..] == b;
  }

  /** A directory relative to itself is ".". */
  lemma RelativeToSelf(p: string)
    ensures GetRelativePath(p, p) == "."
  {
    var names := Resolve(Segments(p));
    assert CommonPrefixLength(names, names) == |names|;
  }
}
