/** String helpers with the .NET and Python semantics the core relies on.
    Comparisons are ordinal; case folding covers ASCII letters only. */
module Text {
  import opened Wrappers

  predicate EndsWith(s: string, suffix: string) {
    |suffix| <= |s| && s[|s| - |suffix|..] == suffix
  }

  function UpperAscii(c: char): (u: char)
    ensures 'a' <= c <= 'z' ==> u as int == c as int - 32
    ensures !('a' <= c <= 'z') ==> u == c
  {
    if 'a' <= c <= 'z' then (c as int - 32) as char else c
  }

  predicate StartsWith(s: string, prefix: string) {
    |prefix| <= |s| && s[..|prefix|] == prefix
  }

  function LowerAscii(c: char): (l: char)
    ensures 'A' <= c <= 'Z' ==> l as int == c as int + 32
    ensures !('A' <= c <= 'Z') ==> l == c
  {
    if 'A' <= c <= 'Z' then (c as int + 32) as char else c
  }

  /** Python `s.lower()`, folding ASCII letters only. */
  function Lower(s: string): (r: string)
    ensures |r| == |s|
  {
    if s == [] then [] else [LowerAscii(s[0])] + Lower(s[1..])
  }

  /** `string.Equals(a, b, StringComparison.OrdinalIgnoreCase)` restricted to ASCII folding. */
  predicate EqualsIgnoreCase(a: string, b: string) {
    |a| == |b| && forall i :: 0 <= i < |a| ==> UpperAscii(a[i]) == UpperAscii(b[i])
  }

  /** `s.EndsWith(suffix, StringComparison.OrdinalIgnoreCase)`. */
  predicate EndsWithIgnoreCase(s: string, suffix: string) {
    |suffix| <= |s| && EqualsIgnoreCase(s[|s| - |suffix|..], suffix)
  }

  predicate OccursAt(s: string, sub: string, i: nat) {
    i + |sub| <= |s| && s[i..i + |sub|] == sub
  }

  /** `s.IndexOf(sub)` searching from position `from`: the first occurrence, or `None`. */
  function IndexOfFrom(s: string, sub: string, from: nat): (r: Option<nat>)
    requires from <= |s|
    ensures r.Some? ==> from <= r.value && OccursAt(s, sub, r.value)
    ensures r.Some? ==> forall j :: from <= j < r.value ==> !OccursAt(s, sub, j)
    ensures r.None? ==> forall j :: from <= j <= |s| ==> !OccursAt(s, sub, j)
    decreases |s| - from
  {
    if OccursAt(s, sub, from) then Some(from)
    else if from == |s| then None
    else IndexOfFrom(s, sub, from + 1)
  }

  function IndexOf(s: string, sub: string): (r: Option<nat>)
    ensures r.Some? ==> OccursAt(s, sub, r.value)
    ensures r.Some? ==> forall j :: 0 <= j < r.value ==> !OccursAt(s, sub, j)
    ensures r.None? <==> forall j :: 0 <= j <= |s| ==> !OccursAt(s, sub, j)
  {
    IndexOfFrom(s, sub, 0)
  }

  /** .NET `char.IsWhiteSpace`: the Unicode space separators, line and paragraph separators,
      and U+0009..U+000D, U+0085, U+00A0. */
  predicate IsDotNetWhiteSpace(c: char) {
    var n := c as int;
    (0x09 <= n <= 0x0D) || n == 0x20 || n == 0x85 || n == 0xA0 || n == 0x1680
    || (0x2000 <= n <= 0x200A) || n == 0x2028 || n == 0x2029 || n == 0x202F
    || n == 0x205F || n == 0x3000
  }

  /** `string.IsNullOrWhiteSpace`, with `null` represented by the empty string. */
  predicate IsNullOrWhiteSpace(s: string) {
    forall i :: 0 <= i < |s| ==> IsDotNetWhiteSpace(s[i])
  }

  /** Python `str.isspace` for one character: the .NET set plus the separators U+001C..U+001F. */
  predicate IsPythonSpace(c: char) {
    IsDotNetWhiteSpace(c) || (0x1C <= c as int <= 0x1F)
  }

  predicate AllPythonSpace(s: string) {
    forall i :: 0 <= i < |s| ==> IsPythonSpace(s[i])
  }

  /** Number of leading Python whitespace characters. */
  function LeadingSpace(s: string): (n: nat)
    ensures n <= |s|
    ensures AllPythonSpace(s[..n])
    ensures n < |s| ==> !IsPythonSpace(s[n])
  {
    if s == [] || !IsPythonSpace(s[0]) then 0
    else
      var m := LeadingSpace(s[1..]);
      assert s[1..][..m] == s[1..m + 1];
      1 + m
  }

  /** Number of trailing Python whitespace characters. */
  function TrailingSpace(s: string): (n: nat)
    ensures n <= |s|
    ensures AllPythonSpace(s[|s| - n..])
    ensures n < |s| ==> !IsPythonSpace(s[|s| - n - 1])
  {
    if s == [] || !IsPythonSpace(s[|s| - 1]) then 0
    else
      var m := TrailingSpace(s[..|s| - 1]);
      assert s[..|s| - 1][|s| - 1 - m..] == s[|s| - 1 - m..|s| - 1];
      1 + m
  }

  /** The leading whitespace ends at the first character that is not whitespace. */
  lemma {:induction false} LeadingSpaceIs(s: string, k: nat)
    requires k <= |s| && forall j :: 0 <= j < k ==> IsPythonSpace(s[j])
    requires k < |s| ==> !IsPythonSpace(s[k])
    ensures LeadingSpace(s) == k
  {
    if k > 0 {
      LeadingSpaceIs(s[1..], k - 1);
    }
  }

  /** The trailing whitespace starts after the last character that is not whitespace. */
  lemma {:induction false} TrailingSpaceIs(s: string, k: nat)
    requires k <= |s| && forall j :: |s| - k <= j < |s| ==> IsPythonSpace(s[j])
    requires k < |s| ==> !IsPythonSpace(s[|s| - k - 1])
    ensures TrailingSpace(s) == k
  {
    if k > 0 {
      TrailingSpaceIs(s[..|s| - 1], k - 1);
    }
  }

  /** Python `s.strip()` with no argument. */
  function Strip(s: string): (r: string)
    ensures exists a, b ::
              0 <= a <= b <= |s| && r == s[a..b] && AllPythonSpace(s[..a]) && AllPythonSpace(s[b..])
    ensures r != [] ==> !IsPythonSpace(r[0]) && !IsPythonSpace(r[|r| - 1])
    ensures r == [] <==> AllPythonSpace(s)
  {
    var a := LeadingSpace(s);
    var rest := s[a..];
    var t := TrailingSpace(rest);
    var b := |s| - t;
    assert rest[..|rest| - t] == s[a..b];
    assert AllPythonSpace(s[b..]) by {
      assert s[b..] == rest[|rest| - t..];
    }
    assert a == |s| ==> AllPythonSpace(s) by {
      if a == |s| {
        assert s[..a] == s;
      }
    }
    assert rest != [] ==> rest[0] == s[a];
    rest[..|rest| - t]
  }

  /** `strip` leaves exactly a core with no whitespace at either end, whatever whitespace
      surrounds it. */
  lemma StripCore(s: string, a: nat, b: nat)
    requires a <= b <= |s| && AllPythonSpace(s[..a]) && AllPythonSpace(s[b..])
    requires a < b ==> !IsPythonSpace(s[a]) && !IsPythonSpace(s[b - 1])
    ensures Strip(s) == s[a..b]
  {
    if a == b {
      forall i | 0 <= i < |s| ensures IsPythonSpace(s[i]) {
        if i < a {
          assert s[i] == s[..a][i];
        } else {
          assert s[i] == s[b..][i - b];
        }
      }
    } else {
      forall j | 0 <= j < a ensures IsPythonSpace(s[j]) {
        assert s[j] == s[..a][j];
      }
      LeadingSpaceIs(s, a);
      var rest := s[a..];
      forall j | |rest| - (|s| - b) <= j < |rest| ensures IsPythonSpace(rest[j]) {
        assert rest[j] == s[b..][j + a - b];
      }
      TrailingSpaceIs(rest, |s| - b);
      assert rest[..|rest| - (|s| - b)] == s[a..b];
    }
  }

  /** `TrimStart(c)`: drops the leading run of `c`. */
  function TrimStart(s: string, c: char): (r: string)
    ensures |r| <= |s| && r == s[|s| - |r|..]
    ensures r == [] || r[0] != c
    ensures forall i :: 0 <= i < |s| - |r| ==> s[i] == c
  {
    if s != [] && s[0] == c then TrimStart(s[1..], c) else s
  }
}
