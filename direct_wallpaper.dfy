/** The id extraction of the direct command-line entry point: a `wallpaper0-changer:` link
    becomes the image id the wallpaper is fetched by. */
module DirectWallpaper {
  import opened Wrappers
  import opened Text

  const ProtocolPrefix: string := "wallpaper0-changer:"
  const DefaultExtension: string := ".jpg"

  /** The extensions the pattern `\.(jpg|png|jpeg)` names. */
  const Extensions: seq<string> := [".jpg", ".png", ".jpeg"]

  /** The id ends in one of the extensions, ignoring case. Python's case-insensitive matching
      folds no character other than the ASCII capitals onto the letters of these extensions. */
  predicate EndsWithExtension(s: string) {
    EndsWithIgnoreCase(s, ".jpg") || EndsWithIgnoreCase(s, ".png") || EndsWithIgnoreCase(s, ".jpeg")
  }

  /** `re.search(r'\.(jpg|png|jpeg)$', s, re.IGNORECASE)`: without `re.MULTILINE`, `$` matches at
      the end of the text and also just before a final newline. */
  predicate MatchesExtensionPattern(s: string) {
    EndsWithExtension(s) || (s != [] && s[|s| - 1] == '\n' && EndsWithExtension(s[..|s| - 1]))
  }

  /** Text with no whitespace at either end, as `strip` leaves it. */
  predicate Trimmed(s: string) {
    s == [] || (!IsPythonSpace(s[0]) && !IsPythonSpace(s[|s| - 1]))
  }

  /** `extract_image_id_from_url`: `None` for a missing or empty argument; otherwise the text
      without a leading protocol prefix, stripped, with ".jpg" appended unless it already ends
      in a known extension. */
  function ExtractImageId(url: Option<string>): (r: Option<string>)
    ensures r.None? <==> url.None? || url.value == []
    ensures r.Some? ==> EndsWithExtension(r.value)
  {
    if url.None? || url.value == [] then None
    else
      var rest := if StartsWith(url.value, ProtocolPrefix) then url.value[|ProtocolPrefix|..] else url.value;
      var stripped := Strip(rest);
      var id := if MatchesExtensionPattern(stripped) then stripped else stripped + DefaultExtension;
      StrippedPattern(stripped);
      AppendedExtension(stripped);
      if id != [] then Some(id) else None
  }

  /** After `strip`, the pattern's allowance for a final newline never applies: it matches
      exactly the ids that end in an extension. */
  lemma StrippedPattern(s: string)
    requires Trimmed(s)
    ensures MatchesExtensionPattern(s) <==> EndsWithExtension(s)
  {
    if s != [] {
      assert IsPythonSpace('\n');
    }
  }

  lemma AppendedExtension(s: string)
    ensures EndsWithExtension(s + DefaultExtension)
  {
    var t := s + DefaultExtension;
    assert t[|t| - 4..] == DefaultExtension;
  }

  /** `strip` removes exactly the whitespace around a trimmed core. */
  lemma StripPadded(before: string, id: string, after: string)
    requires AllPythonSpace(before) && AllPythonSpace(after) && Trimmed(id)
    ensures Strip(before + id + after) == id
  {
    var s := before + id + after;
    assert s[..|before|] == before && s[|before| + |id|..] == after && s[|before|..|before| + |id|] == id;
    StripCore(s, |before|, |before| + |id|);
  }

  /** A link whose id, between any surrounding whitespace, already ends in a known extension
      gives back that id unchanged. */
  lemma KnownExtensionKept(before: string, id: string, after: string)
    requires AllPythonSpace(before) && AllPythonSpace(after) && Trimmed(id)
    requires EndsWithExtension(id)
    ensures ExtractImageId(Some(ProtocolPrefix + before + id + after)) == Some(id)
  {
    var url := ProtocolPrefix + before + id + after;
    assert url[..|ProtocolPrefix|] == ProtocolPrefix;
    assert url[|ProtocolPrefix|..] == before + id + after;
    StripPadded(before, id, after);
    StrippedPattern(id);
  }

  /** Any other id, the empty one included, gets ".jpg" appended. */
  lemma OtherIdGetsJpg(before: string, id: string, after: string)
    requires AllPythonSpace(before) && AllPythonSpace(after) && Trimmed(id)
    requires !EndsWithExtension(id)
    ensures ExtractImageId(Some(ProtocolPrefix + before + id + after)) == Some(id + DefaultExtension)
  {
    var url := ProtocolPrefix + before + id + after;
    assert url[..|ProtocolPrefix|] == ProtocolPrefix;
    assert url[|ProtocolPrefix|..] == before + id + after;
    StripPadded(before, id, after);
    StrippedPattern(id);
  }

  /** Without the prefix, the same holds of the argument itself. */
  lemma UnprefixedId(before: string, id: string, after: string)
    requires AllPythonSpace(before) && AllPythonSpace(after) && Trimmed(id)
    requires before + id + after != [] && !StartsWith(before + id + after, ProtocolPrefix)
    ensures ExtractImageId(Some(before + id + after)) ==
            Some(if EndsWithExtension(id) then id else id + DefaultExtension)
  {
    StripPadded(before, id, after);
    StrippedPattern(id);
  }

  /** An id whose last character is not a 'g' of either case ends in no known extension. */
  lemma NotEndingInG(s: string)
    requires s != [] && UpperAscii(s[|s| - 1]) != 'G'
    ensures !EndsWithExtension(s)
  {
    assert forall e :: e in [".jpg", ".png", ".jpeg"] && EndsWithIgnoreCase(s, e) ==>
      UpperAscii(s[|s| - 1]) == UpperAscii(e[|e| - 1]);
  }

  /** The prefix is removed once: a doubled prefix leaves the second one as the id. */
  lemma PrefixRemovedOnce()
    ensures ExtractImageId(Some(ProtocolPrefix + ProtocolPrefix)) == Some(ProtocolPrefix + DefaultExtension)
  {
    NotEndingInG(ProtocolPrefix);
    assert ProtocolPrefix + ProtocolPrefix == ProtocolPrefix + "" + ProtocolPrefix + "";
    OtherIdGetsJpg("", ProtocolPrefix, "");
  }

  /** The bare prefix yields ".jpg". */
  lemma BarePrefix()
    ensures ExtractImageId(Some(ProtocolPrefix)) == Some(".jpg")
  {
    assert ProtocolPrefix == ProtocolPrefix + "" + "" + "";
    OtherIdGetsJpg("", "", "");
  }

  /** An unprefixed, trimmed id without a known extension gets ".jpg" appended. */
  lemma UnprefixedGetsJpg(id: string)
    requires id != [] && Trimmed(id) && !StartsWith(id, ProtocolPrefix) && !EndsWithExtension(id)
    ensures ExtractImageId(Some(id)) == Some(id + DefaultExtension)
  {
    assert id == "" + id + "";
    UnprefixedId("", id, "");
  }

  /** An unrecognised extension is kept, with ".jpg" after it. */
  lemma UnknownExtensionExample()
    ensures ExtractImageId(Some("a.gif")) == Some("a.gif" + ".jpg")
  {
    var id := "a.gif";
    assert id[0] == 'a' && id[|id| - 1] == 'f' && !IsPythonSpace('a') && !IsPythonSpace('f');
    assert Trimmed(id) && !StartsWith(id, ProtocolPrefix);
    NotEndingInG(id);
    UnprefixedGetsJpg(id);
  }

  /** A recognised extension in capitals is kept, and the whitespace around the id is dropped. */
  lemma CapitalExtensionExample()
    ensures ExtractImageId(Some(ProtocolPrefix + " abc.PNG\n")) == Some("abc.PNG")
  {
    assert ProtocolPrefix + " abc.PNG\n" == ProtocolPrefix + " " + "abc.PNG" + "\n";
    var id := "abc.PNG";
    assert id[3..] == ".PNG";
    assert UpperAscii('n') == 'N' && UpperAscii('p') == 'P' && UpperAscii('g') == 'G';
    assert EndsWithIgnoreCase(id, ".png");
    KnownExtensionKept(" ", "abc.PNG", "\n");
  }
}
