/** The parts of .NET's `System.IO.Path` (Windows flavour) that the cache relies on. */
module Paths {
  import opened Wrappers

  predicate IsDirectorySeparator(c: char) { c == '\\' || c == '/' }

  predicate HasSeparator(s: string) {
    exists i :: 0 <= i < |s| && IsDirectorySeparator(s[i])
  }

  predicate HasDot(s: string) {
    exists i :: 0 <= i < |s| && s[i] == '.'
  }

  predicate IsDriveLetter(c: char) { ('a' <= c <= 'z') || ('A' <= c <= 'Z') }

  /** `Path.IsPathRooted`: a leading separator or a drive designator such as `C:`. */
  predicate IsPathRooted(p: string) {
    (|p| >= 1 && IsDirectorySeparator(p[0])) || (|p| >= 2 && IsDriveLetter(p[0]) && p[1] == ':')
  }

  /** Position just after the last directory separator in `p[..end]`, or 0. */
  function NameStart(p: string, end: nat): (k: nat)
    requires end <= |p|
    ensures k <= end
    ensures k > 0 ==> IsDirectorySeparator(p[k - 1])
    ensures forall i :: k <= i < end ==> !IsDirectorySeparator(p[i])
  {
    if end == 0 then 0
    else if IsDirectorySeparator(p[end - 1]) then end
    else NameStart(p, end - 1)
  }

  /** `Path.GetFileName`: everything after the last separator (drive-relative roots aside). */
  function GetFileName(p: string): (r: string)
    ensures EndsWithName(p, r)
    ensures !HasSeparator(r)
  {
    p[NameStart(p, |p|)..]
  }

  predicate EndsWithName(p: string, r: string) {
    |r| <= |p| && p[|p| - |r|..] == r
  }

  /** The file name is the whole separator-free tail: the path either is its file name or has a
      separator right before it. */
  lemma FileNameIsLastSegment(p: string)
    ensures |GetFileName(p)| == |p| || IsDirectorySeparator(p[|p| - |GetFileName(p)| - 1])
  {
    var k := NameStart(p, |p|);
    assert |GetFileName(p)| == |p| - k;
  }

  /** Index of the last '.' in `s[..end]`, if any. */
  function LastDot(s: string, end: nat): (r: Option<nat>)
    requires end <= |s|
    ensures r.Some? ==> r.value < end && s[r.value] == '.'
    ensures r.Some? ==> forall i :: r.value < i < end ==> s[i] != '.'
    ensures r.None? ==> forall i :: 0 <= i < end ==> s[i] != '.'
  {
    if end == 0 then None
    else if s[end - 1] == '.' then Some(end - 1)
    else LastDot(s, end - 1)
  }

  /** `Path.GetExtension`: from the last '.' of the file name to the end, or "" when there is
      no '.' in the file name or it is the final character. */
  function GetExtension(p: string): (r: string)
    ensures r != [] ==> |r| >= 2 && r[0] == '.' && EndsWithName(p, r)
    ensures r != [] ==> !HasSeparator(r) && !HasDot(r[1..])
  {
    var name := GetFileName(p);
    match LastDot(name, |name|)
    case None => ""
    case Some(i) =>
      if i == |name| - 1 then ""
      else
        var ext := name[i..];
        assert forall j :: 0 <= j < |ext[1..]| ==> ext[1..][j] == name[i + 1 + j];
        assert forall j :: 0 <= j < |ext| ==> ext[j] == name[i + j];
        ext
  }

  /** `Path.GetFileNameWithoutExtension`: the file name up to its last '.'. */
  function GetFileNameWithoutExtension(p: string): (r: string)
    ensures !HasSeparator(r)
  {
    var name := GetFileName(p);
    match LastDot(name, |name|)
    case None => name
    case Some(i) => name[..i]
  }

  /** A path has an extension exactly when its file name has a '.' that is not its last
      character; the extension is then the end of the file name. */
  lemma ExtensionPresent(p: string)
    ensures GetExtension(p) != [] <==> HasDot(GetFileName(p)) && GetFileName(p)[|GetFileName(p)| - 1] != '.'
    ensures GetExtension(p) != [] ==> EndsWithName(GetFileName(p), GetExtension(p))
  {
    var name := GetFileName(p);
    match LastDot(name, |name|)
    case None =>
      assert !HasDot(name);
    case Some(i) =>
      assert HasDot(name);
  }

  /** The name without extension and the extension make up the file name again; when the name
      ends in its only trailing '.', the extension is empty and that dot is what is dropped. */
  lemma StemAndExtension(p: string)
    ensures GetExtension(p) != [] || !HasDot(GetFileName(p)) ==>
              GetFileNameWithoutExtension(p) + GetExtension(p) == GetFileName(p)
    ensures GetExtension(p) == [] && HasDot(GetFileName(p)) ==>
              GetFileNameWithoutExtension(p) + "." == GetFileName(p)
  {
    var name := GetFileName(p);
    match LastDot(name, |name|)
    case None =>
      assert !HasDot(name);
    case Some(i) =>
      assert HasDot(name);
      assert name[..i] + name[i..] == name;
      if i == |name| - 1 {
        assert name[i..] == ".";
      }
  }

  /** `Path.Combine(a, b)` for two parts. */
  function Combine(a: string, b: string): (r: string)
    ensures IsPathRooted(b) || a == [] ==> r == b
    ensures b != [] && !IsPathRooted(b) && a != [] ==>
              EndsWithName(r, b) && |r| > |b| && IsDirectorySeparator(r[|r| - |b| - 1])
  {
    if IsPathRooted(b) || a == [] then b
    else if b == [] then a
    else if IsDirectorySeparator(a[|a| - 1]) then a + b
    else a + "\\" + b
  }

  /** Combining a directory with a bare file name and taking the file name back gives the name. */
  lemma FileNameOfCombine(dir: string, name: string)
    requires name != [] && !HasSeparator(name)
    ensures GetFileName(Combine(dir, name)) == name
  {
    var r := Combine(dir, name);
    if IsPathRooted(name) || dir == [] {
      assert NameStart(r, |r|) == 0 by { NoSeparatorStart(r, |r|); }
    } else {
      var k := |r| - |name|;
      assert r[k..] == name;
      assert forall i :: k <= i < |r| ==> r[i] == name[i - k];
      NameStartOfTail(r, k);
    }
  }

  /** A name without separators matches itself entirely. */
  lemma NoSeparatorStart(p: string, end: nat)
    requires end <= |p|
    requires forall i :: 0 <= i < end ==> !IsDirectorySeparator(p[i])
    ensures NameStart(p, end) == 0
  {
  }

  /** A separator right before a separator-free tail fixes where the file name starts. */
  lemma NameStartOfTail(p: string, k: nat)
    requires 0 < k <= |p| && IsDirectorySeparator(p[k - 1])
    requires forall i :: k <= i < |p| ==> !IsDirectorySeparator(p[i])
    ensures NameStart(p, |p|) == k
  {
    var e := |p|;
    while e > k
      invariant k <= e <= |p|
      invariant NameStart(p, e) == NameStart(p, |p|)
    {
      e := e - 1;
    }
  }

  /** The file stored for an image id, named id plus an extension as `GetExtension` returns it,
      gives the id back as its name without extension. */
  lemma StemOfCombine(dir: string, id: string, ext: string)
    requires id != [] && !HasSeparator(id) && !HasDot(id)
    requires ext == [] || (ext[0] == '.' && !HasSeparator(ext) && !HasDot(ext[1..]))
    ensures GetFileNameWithoutExtension(Combine(dir, id + ext)) == id
    ensures GetFileName(Combine(dir, id + ext)) == id + ext
  {
    var name := id + ext;
    assert !HasSeparator(name) by {
      forall i | 0 <= i < |name| ensures !IsDirectorySeparator(name[i]) {
        if i < |id| { assert name[i] == id[i]; } else { assert name[i] == ext[i - |id|]; }
      }
    }
    FileNameOfCombine(dir, name);
    var ld := LastDot(name, |name|);
    if ext == [] {
      assert name == id;
      assert ld.None?;
    } else {
      assert name[|id|] == '.';
      forall i | |id| < i < |name| ensures name[i] != '.' {
        assert name[i] == ext[1..][i - |id| - 1];
      }
      LastDotIs(name, |id|);
      assert name[..|id|] == id;
    }
  }

  lemma LastDotIs(s: string, k: nat)
    requires k < |s| && s[k] == '.'
    requires forall i :: k < i < |s| ==> s[i] != '.'
    ensures LastDot(s, |s|) == Some(k)
  {
    var e := |s|;
    while e > k + 1
      invariant k + 1 <= e <= |s|
      invariant LastDot(s, e) == LastDot(s, |s|)
    {
      e := e - 1;
    }
  }
}
