/** The protocol handler of the main window: a `wallpaper0-changer:` link names an image id; the
    window asks the image service for the image's details, downloads the image into its cache
    directory under the id and applies it. The details response, the image bytes and the result
    of applying the wallpaper are given; the file write goes to a `Volume`. */
module Form1 {
  import opened Wrappers
  import opened Text
  import opened Errors
  import opened FileSystem
  import Json
  import Paths

  const ProtocolPrefix: string := "wallpaper0-changer:"
  const DefaultExtension: string := ".jpg"

  /** The separators `Split('&', '?', '#', ' ')` cuts at. */
  predicate IsTerminator(c: char) {
    c == '&' || c == '?' || c == '#' || c == ' '
  }

  /** `s.Split('&', '?', '#', ' ')[0]`: the text before the first separator, all of it when there
      is none. */
  function FirstSegment(s: string): (r: string)
    ensures StartsWith(s, r)
    ensures forall i :: 0 <= i < |r| ==> !IsTerminator(r[i])
    ensures |r| < |s| ==> IsTerminator(s[|r|])
  {
    if s == [] || IsTerminator(s[0]) then []
    else
      var t := FirstSegment(s[1..]);
      assert s[..|t| + 1] == [s[0]] + s[1..][..|t|];
      [s[0]] + t
  }

  /** The first segment is the only prefix that holds no separator and ends at one or at the end. */
  lemma {:induction false} FirstSegmentUnique(s: string, p: string)
    requires StartsWith(s, p)
    requires forall i :: 0 <= i < |p| ==> !IsTerminator(p[i])
    requires |p| < |s| ==> IsTerminator(s[|p|])
    ensures FirstSegment(s) == p
  {
    if p != [] {
      assert s[0] == p[0];
      assert StartsWith(s[1..], p[1..]) by { assert s[1..][..|p| - 1] == p[1..]; }
      assert |p| < |s| ==> s[1..][|p| - 1] == s[|p|];
      FirstSegmentUnique(s[1..], p[1..]);
      assert p == [p[0]] + p[1..];
    }
  }

  /** An id followed by a separator and anything else is cut back to the id. */
  lemma CutAtTerminator(id: string, c: char, tail: string)
    requires forall i :: 0 <= i < |id| ==> !IsTerminator(id[i])
    requires IsTerminator(c)
    ensures FirstSegment(id + [c] + tail) == id
  {
    var s := id + [c] + tail;
    assert s[..|id|] == id && s[|id|] == c;
    FirstSegmentUnique(s, id);
  }

  /** `ProcessProtocolUrl`'s id: at the start of the link, the prefix is followed by the id
      verbatim; anywhere else, the id is what follows the first occurrence of the prefix, cut at
      the first separator; without the prefix there is no id and no download. */
  function ProtocolImageId(url: string): (r: Option<string>)
    ensures r.None? <==> forall j :: 0 <= j <= |url| ==> !OccursAt(url, ProtocolPrefix, j)
  {
    if StartsWith(url, ProtocolPrefix) then
      assert OccursAt(url, ProtocolPrefix, 0);
      Some(url[|ProtocolPrefix|..])
    else
      match IndexOf(url, ProtocolPrefix)
      case None => None
      case Some(i) => Some(FirstSegment(url[i + |ProtocolPrefix|..]))
  }

  /** At the start of the link, the rest is the id, separators and all. */
  lemma LeadingPrefixVerbatim(id: string)
    ensures ProtocolImageId(ProtocolPrefix + id) == Some(id)
  {
    var url := ProtocolPrefix + id;
    assert url[..|ProtocolPrefix|] == ProtocolPrefix;
    assert url[|ProtocolPrefix|..] == id;
  }

  /** After text that holds no earlier occurrence of the prefix, the id is the first segment of
      what follows the prefix. */
  lemma EmbeddedPrefixCut(before: string, rest: string)
    requires before != []
    requires forall j :: 0 <= j < |before| ==> !OccursAt(before + ProtocolPrefix + rest, ProtocolPrefix, j)
    ensures ProtocolImageId(before + ProtocolPrefix + rest) == Some(FirstSegment(rest))
  {
    var url := before + ProtocolPrefix + rest;
    assert url[|before|..|before| + |ProtocolPrefix|] == ProtocolPrefix;
    assert OccursAt(url, ProtocolPrefix, |before|);
    assert !OccursAt(url, ProtocolPrefix, 0);
    assert IndexOf(url, ProtocolPrefix) == Some(|before|);
    assert url[|before| + |ProtocolPrefix|..] == rest;
  }

  /** A browser-style link: the query text after the id is dropped. */
  lemma EmbeddedIdExample(before: string, id: string, tail: string)
    requires before != []
    requires forall j :: 0 <= j < |before| ==> !OccursAt(before + ProtocolPrefix + id + "&" + tail, ProtocolPrefix, j)
    requires forall i :: 0 <= i < |id| ==> !IsTerminator(id[i])
    ensures ProtocolImageId(before + ProtocolPrefix + id + "&" + tail) == Some(id)
  {
    assert before + ProtocolPrefix + id + "&" + tail == before + ProtocolPrefix + (id + ['&'] + tail);
    EmbeddedPrefixCut(before, id + ['&'] + tail);
    CutAtTerminator(id, '&', tail);
  }

  /** `GetImageUrl` on the details response: the first of `path`, `url`, `thumbnailUrl` that the
      object defines decides; a `null` value or no such property gives "". Parsing failures and
      non-string values throw. */
  function GetImageUrl(doc: Json.Document): (r: Result<string, Exception>)
    ensures r.Failure? <==> Json.UrlProperty(doc).Failure?
  {
    match Json.UrlProperty(doc)
    case Failure(e) => Failure(e)
    case Success(v) => Success(if v.Some? then v.value else "")
  }

  /** The first URL property present gives its text, or "" when it is `null`. */
  lemma GetImageUrlFirstPresent(doc: Json.Document, i: nat)
    requires doc.Object? && i < |Json.UrlFields| && Json.UrlFields[i] in doc.properties
    requires forall j :: 0 <= j < i ==> Json.UrlFields[j] !in doc.properties
    ensures doc.properties[Json.UrlFields[i]].JString? ==>
              GetImageUrl(doc) == Success(doc.properties[Json.UrlFields[i]].text)
    ensures doc.properties[Json.UrlFields[i]].JNull? ==> GetImageUrl(doc) == Success("")
    ensures doc.properties[Json.UrlFields[i]].JOther? ==> GetImageUrl(doc).Failure?
  {
    Json.FirstPresentDecides(doc, i);
  }

  /** An object with none of the URL properties gives "". */
  lemma GetImageUrlNone(doc: Json.Document)
    requires doc.Object? && forall j :: 0 <= j < |Json.UrlFields| ==> Json.UrlFields[j] !in doc.properties
    ensures GetImageUrl(doc) == Success("")
  {
    Json.NoUrlFieldReadsNull(doc);
  }

  /** The extension the downloaded file gets: the image URL's, or ".jpg" when it has none. */
  function ImageExtension(imageUrl: string): (r: string)
    ensures |r| >= 2 && r[0] == '.' && !Paths.HasSeparator(r) && !Paths.HasDot(r[1..])
    ensures r == DefaultExtension || Paths.EndsWithName(imageUrl, r)
  {
    var ext := Paths.GetExtension(imageUrl);
    if ext == [] then
      assert !Paths.HasDot(DefaultExtension[1..]) by { assert DefaultExtension[1..] == "jpg"; }
      DefaultExtension
    else ext
  }

  /** `DownloadImage`'s file name: the cache directory joined with the id and the extension. */
  function LocalPath(cacheDir: string, imageUrl: string, imageId: string): string {
    Paths.Combine(cacheDir, imageId + ImageExtension(imageUrl))
  }

  /** An id without separators is the stored file's name, followed by the extension; an id
      without dots besides is its name without extension. */
  lemma LocalPathNames(cacheDir: string, imageUrl: string, imageId: string)
    requires imageId != [] && !Paths.HasSeparator(imageId)
    ensures Paths.GetFileName(LocalPath(cacheDir, imageUrl, imageId)) == imageId + ImageExtension(imageUrl)
    ensures !Paths.HasDot(imageId) ==>
              Paths.GetFileNameWithoutExtension(LocalPath(cacheDir, imageUrl, imageId)) == imageId
  {
    var ext := ImageExtension(imageUrl);
    var name := imageId + ext;
    assert !Paths.HasSeparator(name) by {
      forall i | 0 <= i < |name| ensures !Paths.IsDirectorySeparator(name[i]) {
        if i < |imageId| { assert name[i] == imageId[i]; } else { assert name[i] == ext[i - |imageId|]; }
      }
    }
    Paths.FileNameOfCombine(cacheDir, name);
    if !Paths.HasDot(imageId) {
      Paths.StemOfCombine(cacheDir, imageId, ImageExtension(imageUrl));
    }
  }

  /** What one protocol request comes to. */
  datatype Outcome =
    | InvalidUrl
      /** The details gave an empty URL: nothing is downloaded. */
    | NoImageUrl
      /** An exception reached the handler. */
    | Failed(error: Exception)
      /** The image was written to `path`; `isSet` is whether applying it succeeded. */
    | Applied(path: string, isSet: bool)

  /** `DownloadAndSetWallpaper` for the given details response, image download and result of
      applying the wallpaper; a write to a locked file throws. */
  function Planned(cacheDir: string, imageId: string, details: Result<Json.Document, Exception>,
                   image: Result<seq<Byte>, Exception>, locked: set<string>, applies: bool): Outcome
  {
    if details.Failure? then Failed(details.error)
    else match GetImageUrl(details.value)
      case Failure(e) => Failed(e)
      case Success(imageUrl) =>
        if imageUrl == [] then NoImageUrl
        else if image.Failure? then Failed(image.error)
        else
          var path := LocalPath(cacheDir, imageUrl, imageId);
          if path in locked then Failed(OtherException) else Applied(path, applies)
  }

  /** The file the request writes, when it writes one. */
  function PlannedFile(cacheDir: string, imageId: string, details: Result<Json.Document, Exception>,
                       image: Result<seq<Byte>, Exception>, now: Time): Option<DiskFile>
  {
    if details.Failure? || image.Failure? then None
    else match GetImageUrl(details.value)
      case Failure(_) => None
      case Success(imageUrl) =>
        if imageUrl == [] then None
        else Some(DiskFile(LocalPath(cacheDir, imageUrl, imageId), |image.value|, now, now, Image(image.value)))
  }

  /** An image is applied exactly when the details gave a non-empty URL, the image arrived and its
      file could be written, and then it was written under the id in the cache directory. */
  lemma AppliedExactlyWhenWritten(cacheDir: string, imageId: string, details: Result<Json.Document, Exception>,
                                  image: Result<seq<Byte>, Exception>, locked: set<string>, applies: bool, now: Time)
    ensures Planned(cacheDir, imageId, details, image, locked, applies).Applied? <==>
              PlannedFile(cacheDir, imageId, details, image, now).Some? &&
              PlannedFile(cacheDir, imageId, details, image, now).value.path !in locked
    ensures Planned(cacheDir, imageId, details, image, locked, applies).Applied? ==>
              details.Success? && GetImageUrl(details.value).Success? && GetImageUrl(details.value).value != [] &&
              Planned(cacheDir, imageId, details, image, locked, applies) ==
                Applied(LocalPath(cacheDir, GetImageUrl(details.value).value, imageId), applies) &&
              PlannedFile(cacheDir, imageId, details, image, now).value.data == Image(image.value)
  {
  }

  /** An empty image URL stops the request before the image is fetched. */
  lemma EmptyUrlStops(cacheDir: string, imageId: string, doc: Json.Document,
                      image: Result<seq<Byte>, Exception>, locked: set<string>, applies: bool, now: Time)
    requires GetImageUrl(doc) == Success("")
    ensures Planned(cacheDir, imageId, Success(doc), image, locked, applies) == NoImageUrl
    ensures PlannedFile(cacheDir, imageId, Success(doc), image, now).None?
  {
  }

  /** The main window: its cache directory and the volume the downloads go to. */
  class MainForm {
    const cacheDir: string
    const volume: Volume

    constructor(cacheDir: string, volume: Volume)
      ensures this.cacheDir == cacheDir && this.volume == volume
    {
      this.cacheDir := cacheDir;
      this.volume := volume;
    }

    /** `DownloadAndSetWallpaper`. */
    method DownloadAndSetWallpaper(imageId: string, details: Result<Json.Document, Exception>,
                                   image: Result<seq<Byte>, Exception>, applies: bool, now: Time)
      returns (outcome: Outcome)
      requires volume.Valid()
      modifies volume
      ensures volume.Valid() && volume.listable == old(volume.listable)
      ensures outcome == Planned(cacheDir, imageId, details, image, volume.locked, applies)
      ensures volume.files ==
                if outcome.Applied? then Put(old(volume.files), PlannedFile(cacheDir, imageId, details, image, now).value)
                else old(volume.files)
    {
      if details.Failure? {
        return Failed(details.error);
      }
      var url := GetImageUrl(details.value);
      if url.Failure? {
        return Failed(url.error);
      }
      var imageUrl := url.value;
      if imageUrl == [] {
        return NoImageUrl;
      }
      if image.Failure? {
        return Failed(image.error);
      }
      var path := LocalPath(cacheDir, imageUrl, imageId);
      var written := volume.Write(DiskFile(path, |image.value|, now, now, Image(image.value)));
      if !written {
        return Failed(OtherException);
      }
      outcome := Applied(path, applies);
    }

    /** `ProcessProtocolUrl`: a link without the prefix is refused and nothing is fetched or
        written; otherwise the request for its id proceeds. */
    method ProcessProtocolUrl(url: string, details: Result<Json.Document, Exception>,
                              image: Result<seq<Byte>, Exception>, applies: bool, now: Time)
      returns (outcome: Outcome)
      requires volume.Valid()
      modifies volume
      ensures volume.Valid() && volume.listable == old(volume.listable)
      ensures ProtocolImageId(url).None? ==> outcome == InvalidUrl && volume.files == old(volume.files)
      ensures ProtocolImageId(url).Some? ==>
                outcome == Planned(cacheDir, ProtocolImageId(url).value, details, image, volume.locked, applies)
      ensures ProtocolImageId(url).Some? ==>
                volume.files ==
                  if outcome.Applied? then
                    Put(old(volume.files), PlannedFile(cacheDir, ProtocolImageId(url).value, details, image, now).value)
                  else old(volume.files)
    {
      var id := ProtocolImageId(url);
      if id.None? {
        return InvalidUrl;
      }
      outcome := DownloadAndSetWallpaper(id.value, details, image, applies, now);
    }
  }
}
