/** `ValidationService`: the checks on image ids, image URLs and cache file paths that keep
    untrusted text away from the file system and the network. */
module Validation {
  import opened Wrappers
  import opened Text
  import Paths

  /** 50 MiB, the largest image the downloader accepts. */
  const MaxImageSize: nat := 52_428_800

  const MaxImageIdLength: nat := 50

  /** Windows `MAX_PATH`. */
  const MaxPathLength: nat := 260

  const AllowedDomains: seq<string> := ["aiwp.me"]

  /** The class `[a-zA-Z0-9_-]` of the id pattern: ASCII only. */
  predicate IsIdChar(c: char) {
    ('a' <= c <= 'z') || ('A' <= c <= 'Z') || ('0' <= c <= '9') || c == '_' || c == '-'
  }

  predicate AllIdChars(s: string) {
    forall i :: 0 <= i < |s| ==> IsIdChar(s[i])
  }

  /** `Regex.IsMatch(s, "^[a-zA-Z0-9_-]+$")` as .NET evaluates it: without `RegexOptions.Multiline`,
      `$` matches at the very end and also just before a final '\n'. */
  predicate IdPatternMatches(s: string) {
    (s != [] && AllIdChars(s))
    || (|s| > 1 && s[|s| - 1] == '\n' && AllIdChars(s[..|s| - 1]))
  }

  /** `IsValidImageId` exactly as written: the whitespace check, the length check, the pattern. */
  predicate IsValidImageIdAsWritten(id: string) {
    if IsNullOrWhiteSpace(id) then false
    else if |id| > MaxImageIdLength || |id| == 0 then false
    else IdPatternMatches(id)
  }

  /** The check the pattern's documentation and test suite describe: 1 to 50 characters, each a
      letter, digit, '-' or '_'. */
  predicate IsValidImageId(id: string) {
    0 < |id| <= MaxImageIdLength && AllIdChars(id)
  }

  /** The written check accepts an id with a trailing newline: "abc\n" passes. */
  lemma TrailingNewlineAccepted()
    ensures IsValidImageIdAsWritten("abc\n")
    ensures !IsValidImageId("abc\n")
  {
    var s := "abc\n";
    assert s[..|s| - 1] == "abc";
    assert !IsDotNetWhiteSpace(s[0]);
    assert !IsIdChar(s[3]);
  }

  /** Away from that one case the written check and the intended one agree. */
  lemma AsWrittenAgreesWithoutTrailingNewline(id: string)
    requires id == [] || id[|id| - 1] != '\n'
    ensures IsValidImageIdAsWritten(id) <==> IsValidImageId(id)
  {
    if IsValidImageId(id) {
      assert !IsDotNetWhiteSpace(id[0]);
    }
  }

  /** Every id the intended check accepts is accepted as written too: the fix only narrows. */
  lemma CorrectedIsNarrower(id: string)
    ensures IsValidImageId(id) ==> IsValidImageIdAsWritten(id)
  {
    if IsValidImageId(id) {
      assert !IsDotNetWhiteSpace(id[0]);
    }
  }

  /** A valid id cannot reach outside the cache directory or name a second extension. */
  lemma ValidIdIsPlainName(id: string)
    requires IsValidImageId(id)
    ensures !Paths.HasSeparator(id) && !Paths.HasDot(id) && !Paths.IsPathRooted(id)
    ensures forall i :: 0 <= i < |id| ==> id[i] != ':' && id[i] != '*' && id[i] != '?'
  {
  }

  /** The ids of the test suite: accepted and rejected ones. */
  lemma ImageIdExamples()
    ensures IsValidImageId("00123") && IsValidImageId("HNVOO3GJH7") && IsValidImageId("Test-Image_1")
    ensures !IsValidImageId("") && !IsValidImageId("12 34") && !IsValidImageId("12\n34")
    ensures !IsValidImageId("test/path") && !IsValidImageId("1' OR '1'='1")
    ensures !IsValidImageId("١٢٣")
  {
    assert !IsIdChar("12 34"[2]);
    assert !IsIdChar("12\n34"[2]);
    assert !IsIdChar("test/path"[4]);
    assert !IsIdChar("1' OR '1'='1"[1]);
    assert !IsIdChar("١٢٣"[0]);
  }

  /** What `Uri.TryCreate(url, UriKind.Absolute, ...)` yields: the scheme (lower case, as `Uri`
      normalises it) and the host. */
  datatype Uri = Uri(scheme: string, host: string)

  /** The host test for one allowed domain: the domain itself or any subdomain of it. */
  predicate HostMatches(host: string, domain: string) {
    EqualsIgnoreCase(host, domain) || EndsWithIgnoreCase(host, "." + domain)
  }

  /** The `foreach` over the allowed domains, returning on the first match. */
  function HostAllowed(host: string, domains: seq<string>): (b: bool)
    ensures b <==> exists i :: 0 <= i < |domains| && HostMatches(host, domains[i])
  {
    if domains == [] then false
    else if HostMatches(host, domains[0]) then true
    else
      var b := HostAllowed(host, domains[1..]);
      assert forall i :: 1 <= i < |domains| ==> domains[i] == domains[1..][i - 1];
      b
  }

  /** `IsValidImageUrl`; `parse` stands for `Uri.TryCreate`. */
  predicate IsValidImageUrl(url: string, parse: string -> Option<Uri>) {
    if IsNullOrWhiteSpace(url) then false
    else match parse(url)
      case None => false
      case Some(uri) =>
        if uri.scheme != "http" && uri.scheme != "https" then false
        else HostAllowed(uri.host, AllowedDomains)
  }

  /** A URL passes exactly when it parses as an http(s) URL on aiwp.me or one of its subdomains. */
  lemma ValidImageUrlMeans(url: string, parse: string -> Option<Uri>)
    ensures IsValidImageUrl(url, parse) <==>
              !IsNullOrWhiteSpace(url) && parse(url).Some?
              && (parse(url).value.scheme == "http" || parse(url).value.scheme == "https")
              && HostMatches(parse(url).value.host, "aiwp.me")
  {
  }

  /** The domain itself, a subdomain and an upper-case spelling are admitted. */
  lemma HostsAdmitted()
    ensures HostMatches("aiwp.me", "aiwp.me") && HostMatches("www.aiwp.me", "aiwp.me")
    ensures HostMatches("AIWP.ME", "aiwp.me")
  {
  }

  /** Look-alike and internal hosts from the test suite are refused. */
  lemma HostsRefused()
    ensures !HostMatches("aiwp.net", "aiwp.me") && !HostMatches("aiwpme.com", "aiwp.me")
    ensures !HostMatches("notaiwp.me", "aiwp.me") && !HostMatches("evil.com", "aiwp.me")
    ensures !HostMatches("localhost", "aiwp.me") && !HostMatches("169.254.169.254", "aiwp.me")
    ensures !HostMatches("aiwp.me.evil.com", "aiwp.me")
  {
    assert UpperAscii("aiwp.net"[0]) != UpperAscii(".aiwp.me"[0]);
    assert UpperAscii("aiwp.net"[7]) != UpperAscii("aiwp.me"[6]);
    assert UpperAscii("aiwpme.com"[9]) != UpperAscii(".aiwp.me"[7]);
    assert "notaiwp.me"[2..] == "taiwp.me";
    assert UpperAscii("taiwp.me"[0]) != UpperAscii(".aiwp.me"[0]);
    assert "evil.com"[1..] == "vil.com";
    assert UpperAscii("evil.com"[0]) != UpperAscii(".aiwp.me"[0]);
    assert "localhost"[1..] == "ocalhost";
    assert UpperAscii("ocalhost"[0]) != UpperAscii(".aiwp.me"[0]);
    assert "169.254.169.254"[7..] == ".169.254";
    assert UpperAscii(".169.254"[1]) != UpperAscii(".aiwp.me"[1]);
    assert "aiwp.me.evil.com"[8..] == "evil.com";
    assert UpperAscii("evil.com"[7]) != UpperAscii(".aiwp.me"[7]);
  }

  /** Only http and https are admitted, whatever the host. */
  lemma OnlyWebSchemes(url: string, parse: string -> Option<Uri>)
    requires parse(url).Some? && parse(url).value.scheme !in {"http", "https"}
    ensures !IsValidImageUrl(url, parse)
  {
  }

  /** The pattern `\.\.[/\\]`: a parent-directory step followed by a separator. */
  predicate HasTraversal(p: string) {
    exists i :: 0 <= i && i + 2 < |p| && p[i] == '.' && p[i + 1] == '.' && Paths.IsDirectorySeparator(p[i + 2])
  }

  predicate ContainsAny(s: string, chars: set<char>) {
    exists i :: 0 <= i < |s| && s[i] in chars
  }

  /** `Path.GetInvalidPathChars()` on Windows: '|' and the control characters U+0000..U+001F. */
  function WindowsInvalidPathChars(): set<char> {
    {'|'} + ControlChars()
  }

  function ControlChar(n: int): char
    requires 0 <= n < 32
  {
    n as char
  }

  /** U+0000..U+001F. */
  function ControlChars(): set<char> {
    set n: int | 0 <= n < 32 :: ControlChar(n)
  }

  /** `Path.GetInvalidFileNameChars()` on Windows. */
  function WindowsInvalidFileNameChars(): set<char> {
    {'"', '<', '>', '|', ':', '*', '?', '\\', '/'} + ControlChars()
  }

  /** `IsValidFilePath`. The character sets stand for `GetInvalidPathChars` and
      `GetInvalidFileNameChars`, and `fullPath` for `Path.GetFullPath`, `None` when it throws. */
  predicate IsValidFilePath(path: string, invalidPathChars: set<char>, invalidNameChars: set<char>,
                            fullPath: string -> Option<string>) {
    if IsNullOrWhiteSpace(path) then false
    else if HasTraversal(path) then false
    else if |path| > MaxPathLength then false
    else if ContainsAny(path, invalidPathChars) then false
    else
      var name := Paths.GetFileName(path);
      if name != [] && ContainsAny(name, invalidNameChars) then false
      else match fullPath(path)
        case None => false
        case Some(full) => full != []
  }

  /** An accepted path is non-blank, at most 260 characters, free of `..\` and `../`, and free of
      the forbidden characters, in the whole path and in its file name. */
  lemma ValidFilePathMeans(path: string, pc: set<char>, nc: set<char>, full: string -> Option<string>)
    requires IsValidFilePath(path, pc, nc, full)
    ensures !IsNullOrWhiteSpace(path) && |path| <= MaxPathLength && !HasTraversal(path)
    ensures forall i :: 0 <= i < |path| ==> path[i] !in pc
    ensures forall i :: 0 <= i < |Paths.GetFileName(path)| ==> Paths.GetFileName(path)[i] !in nc
  {
  }

  /** Characters that are in neither Windows set and are not a '.' or a separator. */
  predicate IsPlainPathChar(c: char) {
    ('a' <= c <= 'z') || ('A' <= c <= 'Z') || ('0' <= c <= '9') || c == '_' || c == '-'
  }

  /** A path made of plain names joined by separators, with single dots only, passes with
      the Windows character sets whenever `GetFullPath` succeeds on it. */
  lemma PlainPathAccepted(path: string, full: string -> Option<string>)
    requires 0 < |path| <= MaxPathLength
    requires IsPlainPathChar(path[0]) || Paths.IsDirectorySeparator(path[0])
    requires forall i :: 0 <= i < |path| ==>
               IsPlainPathChar(path[i]) || path[i] == '.' || Paths.IsDirectorySeparator(path[i])
    requires forall i :: 0 < i < |path| && path[i] == '.' ==> path[i - 1] != '.'
    requires full(path).Some? && full(path).value != []
    ensures IsValidFilePath(path, WindowsInvalidPathChars(), WindowsInvalidFileNameChars(), full)
  {
    assert !IsDotNetWhiteSpace(path[0]);
    assert !HasTraversal(path) by {
      forall i | 0 <= i && i + 2 < |path| ensures !(path[i] == '.' && path[i + 1] == '.') {
      }
    }
    assert !ContainsAny(path, WindowsInvalidPathChars()) by {
      forall i | 0 <= i < |path| ensures path[i] !in WindowsInvalidPathChars() {
        assert path[i] as int >= 32;
      }
    }
    var name := Paths.GetFileName(path);
    assert !ContainsAny(name, WindowsInvalidFileNameChars()) by {
      forall i | 0 <= i < |name| ensures name[i] !in WindowsInvalidFileNameChars() {
        assert name[i] == path[|path| - |name| + i];
        assert !Paths.IsDirectorySeparator(name[i]);
        assert name[i] as int >= 32;
      }
    }
  }

  /** The UNC path of the test suite passes. */
  lemma UncPathAccepted(full: string -> Option<string>)
    requires forall p :: full(p).Some? && full(p).value != []
    ensures IsValidFilePath("\\\\server\\share\\image.jpg", WindowsInvalidPathChars(), WindowsInvalidFileNameChars(), full)
  {
    PlainPathAccepted("\\\\server\\share\\image.jpg", full);
  }

  /** The relative path of the test suite passes. */
  lemma RelativePathAccepted(full: string -> Option<string>)
    requires forall p :: full(p).Some? && full(p).value != []
    ensures IsValidFilePath("images\\wallpaper.jpg", WindowsInvalidPathChars(), WindowsInvalidFileNameChars(), full)
  {
    PlainPathAccepted("images\\wallpaper.jpg", full);
  }

  /** A parent-directory step is refused whatever the character sets. */
  lemma TraversalRefused(pc: set<char>, nc: set<char>, full: string -> Option<string>)
    ensures !IsValidFilePath("C:\\Cache\\..\\secret.txt", pc, nc, full)
  {
    var trav := "C:\\Cache\\..\\secret.txt";
    assert !IsDotNetWhiteSpace(trav[0]);
    assert trav[9] == '.' && trav[10] == '.' && trav[11] == '\\';
  }

  /** A '<' in the file name is refused by the Windows file-name set. */
  lemma AngleBracketRefused(full: string -> Option<string>)
    ensures !IsValidFilePath("C:\\Cache\\image<>.jpg", WindowsInvalidPathChars(), WindowsInvalidFileNameChars(), full)
  {
    var lt := "C:\\Cache\\image<>.jpg";
    assert !IsDotNetWhiteSpace(lt[0]);
    assert Paths.GetFileName(lt) == "image<>.jpg" by {
      Paths.NameStartOfTail(lt, 9);
    }
    assert Paths.GetFileName(lt)[5] == '<';
  }

  /** Anything longer than `MAX_PATH` is refused. */
  lemma LongPathRefused(path: string, pc: set<char>, nc: set<char>, full: string -> Option<string>)
    requires |path| > MaxPathLength
    ensures !IsValidFilePath(path, pc, nc, full)
  {
  }
}
