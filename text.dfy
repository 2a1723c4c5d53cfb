/** The parts of .NET's string library that the registration code relies on:
    `char.IsWhiteSpace`, `string.IsNullOrWhiteSpace`, `Trim`,
    `ToUpperInvariant` and an ordinal case-insensitive `StartsWith`.
    Case mapping is modelled on ASCII letters only. */
module DotNetText {
  import opened Wrappers

  /** `char.IsWhiteSpace`: the characters Unicode classes as white space. */
  predicate IsWhiteSpace(c: char) {
    || ('\t' <= c <= '\r')
    || c == ' '
    || c == '\U{0085}'
    || c == '\U{00A0}'
    || c == '\U{1680}'
    || ('\U{2000}' <= c <= '\U{200A}')
    || c == '\U{2028}'
    || c == '\U{2029}'
    || c == '\U{202F}'
    || c == '\U{205F}'
    || c == '\U{3000}'
  }

  /** Every character is white space (the empty string included). */
  predicate IsBlank(s: string) {
    forall i :: 0 <= i < |s| ==> IsWhiteSpace(s[i])
  }

  /** `string.IsNullOrWhiteSpace`. */
  predicate IsNullOrWhiteSpace(s: Option<string>) {
    s.None? || IsBlank(s.value)
  }

  /** A string with no white space at either end. */
  predicate IsTrimmed(s: string) {
    s == [] || (!IsWhiteSpace(s[0]) && !IsWhiteSpace(s[|s| - 1]))
  }

  /** `TrimStart()`: drops the leading white space. */
  function TrimStart(s: string): (r: string)
    ensures |r| <= |s| && r == s[|s| - |r|..]
    ensures IsBlank(s[..|s| - |r|])
    ensures r == [] || !IsWhiteSpace(r[0])
  {
    if s == [] || !IsWhiteSpace(s[0]) then s else TrimStart(s[1..])
  }

  /** `TrimEnd()`: drops the trailing white space. */
  function TrimEnd(s: string): (r: string)
    ensures |r| <= |s| && r == s[..|r|]
    ensures IsBlank(s[|r|..])
    ensures r == [] || !IsWhiteSpace(r[|r| - 1])
  {
    if s == [] || !IsWhiteSpace(s[|s| - 1]) then s else TrimEnd(s[..|s| - 1])
  }

  /** `s` is `r` with only white space before position `i` and after `r`. */
  predicate SurroundedAt(s: string, r: string, i: int) {
    0 <= i <= |s| - |r| && IsBlank(s[..i]) && r == s[i..i + |r|] && IsBlank(s[i + |r|..])
  }

  /** `Trim()`: the longest infix with no white space at either end that
      leaves only white space around it. */
  function Trim(s: string): (r: string)
    ensures IsTrimmed(r)
    ensures r == [] <==> IsBlank(s)
    ensures |r| <= |s|
    ensures exists i :: SurroundedAt(s, r, i)
  {
    var u := TrimStart(s);
    var t := TrimEnd(u);
    TrimFacts(s, u, t);
    t
  }

  /** What trimming the start of `s` to `u` and then the end of `u` to `t`
      leaves. */
  lemma TrimFacts(s: string, u: string, t: string)
    requires |u| <= |s| && u == s[|s| - |u|..] && IsBlank(s[..|s| - |u|]) && (u == [] || !IsWhiteSpace(u[0]))
    requires |t| <= |u| && t == u[..|t|] && IsBlank(u[|t|..]) && (t == [] || !IsWhiteSpace(t[|t| - 1]))
    ensures IsTrimmed(t) && (t == [] <==> IsBlank(s)) && |t| <= |s|
    ensures SurroundedAt(s, t, |s| - |u|)
  {
    TrimmedEnds(u, t);
    SurroundedFrom(s, u, t);
    SurroundedBlank(s, t, |s| - |u|);
  }


  /** A blank-prefixed suffix `u` of `s`, and a blank-suffixed prefix `t` of
      `u`: `t` sits in `s` with only white space around it. */
  lemma SurroundedFrom(s: string, u: string, t: string)
    requires |u| <= |s| && u == s[|s| - |u|..] && IsBlank(s[..|s| - |u|])
    requires |t| <= |u| && t == u[..|t|] && IsBlank(u[|t|..])
    ensures SurroundedAt(s, t, |s| - |u|)
  {
    SuffixSlices(s, |s| - |u|, |t|);
  }

  /** Trimming the end of a string whose start is trimmed leaves both ends trimmed. */
  lemma TrimmedEnds(u: string, t: string)
    requires u == [] || !IsWhiteSpace(u[0])
    requires |t| <= |u| && t == u[..|t|] && (t == [] || !IsWhiteSpace(t[|t| - 1]))
    ensures IsTrimmed(t)
  {
    assert t != [] ==> t[0] == u[0];
  }

  /** Slicing a suffix, and then slicing that again. */
  lemma SuffixSlices<T>(s: seq<T>, i: nat, n: nat)
    requires i + n <= |s|
    ensures s[i..i + n] == s[i..][..n] && s[i + n..] == s[i..][n..]
  {
  }

  /** A trimmed infix surrounded by white space is empty exactly when the
      whole string is blank. */
  lemma SurroundedBlank(s: string, r: string, i: int)
    requires SurroundedAt(s, r, i) && IsTrimmed(r)
    ensures r == [] <==> IsBlank(s)
  {
    if r == [] {
      forall k | 0 <= k < |s| ensures IsWhiteSpace(s[k]) {
        if k < i {
          assert s[..i][k] == s[k];
        } else {
          assert s[i..][k - i] == s[k];
        }
      }
    } else {
      assert r[0] == s[i];
    }
  }

  /** `char.ToUpperInvariant` on ASCII: 'a'..'z' become 'A'..'Z'. */
  function ToUpperChar(c: char): (u: char)
    ensures IsWhiteSpace(u) <==> IsWhiteSpace(c)
    ensures !('a' <= u <= 'z')
    ensures !('a' <= c <= 'z') ==> u == c
  {
    if 'a' <= c <= 'z' then (c as int - 32) as char else c
  }

  /** `ToUpperInvariant()`: every character mapped by ToUpperChar. */
  function ToUpperInvariant(s: string): (r: string)
    ensures |r| == |s|
    ensures forall i :: 0 <= i < |s| ==> r[i] == ToUpperChar(s[i])
  {
    if s == [] then [] else [ToUpperChar(s[0])] + ToUpperInvariant(s[1..])
  }

  /** No ASCII lower-case letter occurs. */
  predicate IsUpper(s: string) {
    forall i :: 0 <= i < |s| ==> !('a' <= s[i] <= 'z')
  }

  /** `s.StartsWith(prefix, StringComparison.OrdinalIgnoreCase)`: the first
      |prefix| characters of `s` equal `prefix` once both are upper-cased. */
  predicate StartsWithIgnoreCase(s: string, prefix: string) {
    |prefix| <= |s| && ToUpperInvariant(s[..|prefix|]) == ToUpperInvariant(prefix)
  }

  /** Upper-casing maps an upper-case string to itself. */
  lemma {:induction false} ToUpperInvariantOfUpper(s: string)
    requires IsUpper(s)
    ensures ToUpperInvariant(s) == s
  {
    var r := ToUpperInvariant(s);
    forall i | 0 <= i < |s| ensures r[i] == s[i] {}
  }

  /** Upper-casing keeps a string trimmed and leaves no lower-case letter. */
  lemma UpperOfTrimmed(s: string)
    requires IsTrimmed(s)
    ensures IsTrimmed(ToUpperInvariant(s)) && IsUpper(ToUpperInvariant(s))
  {
    var r := ToUpperInvariant(s);
    if s != [] {
      assert r[0] == ToUpperChar(s[0]) && r[|r| - 1] == ToUpperChar(s[|s| - 1]);
    }
  }

  /** Trimming white space from around a trimmed non-empty string gives
      that string back. */
  lemma TrimOfPadded(w1: string, c: string, w2: string)
    requires IsBlank(w1) && IsBlank(w2) && c != [] && IsTrimmed(c)
    ensures Trim(w1 + c + w2) == c
  {
    assert w1 + c + w2 == w1 + (c + w2);
    TrimStartOfPadded(w1, c + w2);
    TrimEndOfPadded(c, w2);
  }

  lemma {:induction false} TrimStartOfPadded(w: string, x: string)
    requires IsBlank(w) && x != [] && !IsWhiteSpace(x[0])
    ensures TrimStart(w + x) == x
    decreases |w|
  {
    if w == [] {
      assert w + x == x;
    } else {
      assert (w + x)[1..] == w[1..] + x;
      TrimStartOfPadded(w[1..], x);
    }
  }

  lemma {:induction false} TrimEndOfPadded(x: string, w: string)
    requires IsBlank(w) && x != [] && !IsWhiteSpace(x[|x| - 1])
    ensures TrimEnd(x + w) == x
    decreases |w|
  {
    if w == [] {
      assert x + w == x;
    } else {
      assert (x + w)[..|x + w| - 1] == x + w[..|w| - 1];
      TrimEndOfPadded(x, w[..|w| - 1]);
    }
  }

  /** Trimming a string with no white space at either end changes nothing. */
  lemma TrimOfTrimmed(s: string)
    requires IsTrimmed(s)
    ensures Trim(s) == s
  {
  }

  /** An exact prefix is also a case-insensitive prefix. */
  lemma PrefixStartsWithIgnoreCase(s: string, prefix: string)
    requires prefix <= s
    ensures StartsWithIgnoreCase(s, prefix)
  {
    assert s[..|prefix|] == prefix;
  }

  /** A string starts, ignoring case, with any variant of its beginning that
      differs only in case. */
  lemma CaseVariantStartsWith(p: string, m: string, n: string, rest: string)
    requires ToUpperInvariant(m) == ToUpperInvariant(n)
    ensures StartsWithIgnoreCase(p + m + rest, p + n)
  {
    var s, prefix := p + m + rest, p + n;
    assert |m| == |n|;
    assert s[..|prefix|] == p + m;
    var u, v := ToUpperInvariant(p + m), ToUpperInvariant(prefix);
    forall i | 0 <= i < |prefix| ensures u[i] == v[i] {
      if i >= |p| {
        assert ToUpperInvariant(m)[i - |p|] == ToUpperInvariant(n)[i - |p|];
      }
    }
  }
}
