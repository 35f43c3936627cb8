/** The legacy Python `ImageCacheManager`: a directory of downloaded images and thumbnails with a
    `metadata` dict (name -> size, created, last accessed, type), an `lru_cache` OrderedDict
    (name -> last accessed, oldest first) and a JSON metadata file in the same directory.
    Names are file names within the cache directory; instants are ticks. */
module LegacyCache {
  import opened Wrappers
  import opened FileSystem
  import opened PyDict
  import opened Text
  import Sorting
  import Paths

  /** The default `metadata_file`, stored inside the cache directory. */
  const MetadataFile := "cache_metadata.json"
  const ThumbPrefix := "thumb_"
  const ImageExtensions: seq<string> := [".jpg", ".jpeg", ".png", ".gif", ".bmp", ".webp"]
  const BytesPerMegabyte := 1024 * 1024

  /** The `type` field: `'image'` or `'thumbnail'`. */
  datatype Kind = ImageEntry | ThumbnailEntry

  datatype Meta = Meta(size: nat, created: Time, lastAccessed: Time, kind: Kind)

  type Metadata = seq<Entry<Meta>>
  type Lru = seq<Entry<Time>>

  /** What `_load_metadata` makes of the metadata file: a dict of complete entries, or a file
      on which it raises (malformed JSON, a document that is not a dict, an entry that cannot be
      indexed or has no `last_accessed`). Entries lacking only `size` or `type` have no form
      here. */
  datatype Stored = Unparsable | Saved(entries: Metadata)

  /** The manager's state together with the directory it manages. */
  datatype Cache = Cache(metadata: Metadata, lru: Lru, files: seq<DiskFile>, stored: Stored)

  // ---------------------------------------------------------------------------------------------
  // File names

  /** `str.rfind(c)`: the last index of `c`, or -1. */
  function RFind(s: string, c: char): (i: int)
    ensures -1 <= i < |s|
    ensures i >= 0 ==> s[i] == c
    ensures forall j :: i < j < |s| ==> s[j] != c
  {
    if s == [] then -1 else if s[|s| - 1] == c then |s| - 1 else RFind(s[..|s| - 1], c)
  }

  predicate AllDots(s: string) {
    forall i :: 0 <= i < |s| ==> s[i] == '.'
  }

  /** The extension `os.path.splitext` splits off, with both Windows separators: from the last dot,
      when that dot follows the last separator and the name before it is not only dots;
      otherwise nothing. */
  function SplitExt(p: string): (ext: string)
    ensures ext == [] || (ext[0] == '.' && EndsWith(p, ext))
  {
    var sep := if RFind(p, '\\') < RFind(p, '/') then RFind(p, '/') else RFind(p, '\\');
    var dot := RFind(p, '.');
    if dot > sep && !AllDots(p[sep + 1..dot]) then p[dot..] else ""
  }

  /** `_is_image_file`. */
  predicate IsImageFile(name: string) {
    SplitExt(Lower(name)) in ImageExtensions
  }

  /** The `type` an adopted orphan is given. */
  function KindOf(name: string): Kind {
    if StartsWith(name, ThumbPrefix) then ThumbnailEntry else ImageEntry
  }

  predicate NoSeparator(s: string) {
    forall i :: 0 <= i < |s| ==> s[i] != '\\' && s[i] != '/'
  }

  /** A name without separators has the extension after its last dot, unless only dots precede
      that dot. */
  lemma SplitExtOfName(stem: string, tail: string)
    requires NoSeparator(stem) && NoSeparator(tail) && '.' !in tail
    ensures SplitExt(stem + "." + tail) == if AllDots(stem) then "" else "." + tail
  {
    var p := stem + "." + tail;
    forall j | 0 <= j < |p|
      ensures p[j] != '\\' && p[j] != '/'
      ensures j > |stem| ==> p[j] != '.'
    {
      if j < |stem| {
        assert p[j] == stem[j];
      } else if j > |stem| {
        assert p[j] == tail[j - |stem| - 1];
      }
    }
    var dot := RFind(p, '.');
    assert p[|stem|] == '.';
    assert RFind(p, '\\') == -1 && RFind(p, '/') == -1;
    assert p[0..dot] == stem;
    assert p[dot..] == "." + tail;
  }

  lemma {:induction false} LowerFacts(s: string)
    ensures forall i :: 0 <= i < |s| ==> Lower(s)[i] == LowerAscii(s[i])
  {
    if s != [] {
      LowerFacts(s[1..]);
    }
  }

  lemma {:induction false} LowerAppend(a: string, b: string)
    ensures Lower(a + b) == Lower(a) + Lower(b)
  {
    if a != [] {
      LowerAppend(a[1..], b);
      assert (a + b)[1..] == a[1..] + b && (a + b)[0] == a[0];
      assert Lower(a + b) == [LowerAscii(a[0])] + Lower(a[1..] + b);
    } else {
      assert a + b == b;
    }
  }

  /** Lower-casing keeps dots and separators where they are. */
  lemma LowerKeepsPunctuation(s: string)
    ensures NoSeparator(s) ==> NoSeparator(Lower(s))
    ensures AllDots(Lower(s)) <==> AllDots(s)
    ensures '.' in Lower(s) <==> '.' in s
  {
    LowerFacts(s);
    var l := Lower(s);
    if !AllDots(s) {
      var i :| 0 <= i < |s| && s[i] != '.';
      assert l[i] != '.';
    }
    if '.' in l {
      var i :| 0 <= i < |l| && l[i] == '.';
      assert s[i] == '.';
    }
    if '.' in s {
      var i :| 0 <= i < |s| && s[i] == '.';
      assert l[i] == '.';
    }
  }

  /** For a file name `stem.tail` without separators and with no dot in `tail`: it is an image file
      exactly when the stem is not only dots (`splitext` skips leading dots) and the lower-cased
      `.tail` is one of the six listed extensions. */
  lemma ImageFileByExtension(name: string, stem: string, tail: string)
    requires name == stem + "." + tail
    requires NoSeparator(stem) && NoSeparator(tail) && '.' !in tail
    ensures IsImageFile(name) <==> !AllDots(stem) && "." + Lower(tail) in ImageExtensions
  {
    var ls, lt := Lower(stem), Lower(tail);
    var l := Lower(name);
    assert l == ls + "." + lt by {
      LowerAppend(stem, "." + tail);
      LowerAppend(".", tail);
      assert Lower(".") == ".";
      assert stem + "." + tail == stem + ("." + tail);
    }
    assert NoSeparator(ls) && NoSeparator(lt) && '.' !in lt && (AllDots(ls) <==> AllDots(stem)) by {
      LowerKeepsPunctuation(stem);
      LowerKeepsPunctuation(tail);
    }
    SplitExtOfName(ls, lt);
  }

  /** A name without any dot is never an image file: every listed extension starts with one. */
  lemma NoDotIsNotImage(name: string)
    requires '.' !in name
    ensures !IsImageFile(name)
  {
    LowerKeepsPunctuation(name);
  }

  /** Every image file's lower-cased name ends in one of the listed extensions. */
  lemma ImageFileHasListedExtension(name: string)
    requires IsImageFile(name)
    ensures exists e :: e in ImageExtensions && EndsWith(Lower(name), e)
  {
    assert SplitExt(Lower(name)) in ImageExtensions;
  }

  /** Upper-case extensions count. */
  lemma UpperCaseExtensionIsImage()
    ensures IsImageFile("A.JPG")
  {
    assert Lower("JPG") == "jpg";
    assert "." + "jpg" == ImageExtensions[0];
    assert "A"[0] != '.';
    ImageFileByExtension("A.JPG", "A", "JPG");
  }

  /** A name that is only an extension has none. */
  lemma BareExtensionIsNotImage()
    ensures !IsImageFile(".jpg")
  {
    ImageFileByExtension(".jpg", "", "jpg");
  }

  /** Only the last extension counts. */
  lemma TrailingExtensionCounts()
    ensures !IsImageFile("a.jpg.c")
  {
    assert Lower("c") == "c";
    assert "a.jpg"[0] != '.';
    assert |"." + "c"| == 2;
    assert forall e :: e in ImageExtensions ==> |e| >= 4;
    ImageFileByExtension("a.jpg.c", "a.jpg", "c");
  }

  /** Adopted orphans are thumbnails exactly when their name starts with `thumb_`. */
  lemma KindExamples()
    ensures KindOf("thumb_x.webp") == ThumbnailEntry && KindOf("A.JPG") == ImageEntry
  {
    assert StartsWith("thumb_x.webp", ThumbPrefix);
    assert "A.JPG"[0] != ThumbPrefix[0];
  }

  // ---------------------------------------------------------------------------------------------
  // The two maps and the metadata file

  /** The maps are dictionaries, hold the same names, and the directory lists each file once. */
  predicate Sound(c: Cache) {
    DistinctPaths(c.files) && Distinct(c.metadata) && Distinct(c.lru)
    && KeySet(c.metadata) == KeySet(c.lru)
    && (c.stored.Saved? ==> Distinct(c.stored.entries))
  }

  /** `sum(data['size'] for data in metadata.values())`. */
  function TotalSize(m: Metadata): nat {
    if m == [] then 0 else m[0].value.size + TotalSize(m[1..])
  }

  /** Deleting an entry takes its size off the total. */
  lemma {:induction false} TotalSizeDelete(m: Metadata, k: string)
    requires Distinct(m) && Get(m, k).Some?
    ensures TotalSize(Delete(m, k)) + Get(m, k).value.size == TotalSize(m)
  {
    if m[0].key == k {
      DeleteAbsent(m[1..], k);
    } else {
      TotalSizeDelete(m[1..], k);
    }
  }

  /** An empty key set is an empty dictionary. */
  lemma NoKeysEmpty<V>(d: seq<Entry<V>>)
    requires KeySet(d) == {}
    ensures d == []
  {
  }

  /** The listing entry for the metadata file; its size is not modelled. */
  function MetadataFileAt(now: Time): DiskFile {
    DiskFile(MetadataFile, 0, now, now, Opaque)
  }

  /** `_save_metadata`: the metadata file now holds the current metadata, unless it cannot be
      opened for writing, which is logged and changes nothing. */
  function AfterSave(c: Cache, locked: set<string>, now: Time): Cache {
    if MetadataFile in locked then c
    else c.(files := Put(c.files, MetadataFileAt(now)), stored := Saved(c.metadata))
  }

  lemma SaveSound(c: Cache, locked: set<string>, now: Time)
    requires Sound(c)
    ensures Sound(AfterSave(c, locked, now))
  {
    PutDistinct(c.files, MetadataFileAt(now));
  }

  /** The LRU order the loader starts from: each name with its `last_accessed`, in dict order. */
  function AccessTimes(m: Metadata): (r: Lru)
    ensures Keys(r) == Keys(m)
  {
    if m == [] then [] else [Entry(m[0].key, m[0].value.lastAccessed)] + AccessTimes(m[1..])
  }

  lemma {:induction false} AccessTimesAppend(m: Metadata, e: Entry<Meta>)
    ensures AccessTimes(m + [e]) == AccessTimes(m) + [Entry(e.key, e.value.lastAccessed)]
  {
    if m == [] {
      assert m + [e] == [e];
    } else {
      AccessTimesAppend(m[1..], e);
      assert (m + [e])[1..] == m[1..] + [e] && (m + [e])[0] == m[0];
    }
  }

  function ByTime(e: Entry<Time>): int {
    e.value
  }

  /** `_load_metadata`, run on the empty maps `__init__` starts with: without a metadata file
      nothing happens; an unreadable one leaves both maps empty; otherwise `metadata` is what the
      file holds and `lru_cache` is its names stably sorted by last access. */
  function Loaded(c: Cache): Cache {
    if MetadataFile !in PathSet(c.files) then c
    else match c.stored
      case Unparsable => c.(metadata := [], lru := [])
      case Saved(m) => c.(metadata := m, lru := Sorting.SortBy(AccessTimes(m), ByTime))
  }

  /** Loading keeps the maps sound and, from a readable file, orders the LRU oldest first. */
  lemma LoadedSound(c: Cache)
    requires Sound(c) && c.metadata == [] && c.lru == []
    ensures Sound(Loaded(c))
    ensures c.stored.Saved? && MetadataFile in PathSet(c.files) ==> Sorting.SortedBy(Loaded(c).lru, ByTime)
  {
    if MetadataFile in PathSet(c.files) && c.stored.Saved? {
      SortedAccessOrder(c.stored.entries);
    }
  }

  /** The LRU order loaded from saved metadata `m`: a dictionary with the same names, oldest
      access first. */
  lemma SortedAccessOrder(m: Metadata)
    requires Distinct(m)
    ensures var r := Sorting.SortBy(AccessTimes(m), ByTime);
      Distinct(r) && KeySet(r) == KeySet(m) && Sorting.SortedBy(r, ByTime)
  {
    var a := AccessTimes(m);
    var r := Sorting.SortBy(a, ByTime);
    SameKeyOrder(a, m);
    DistinctIndices(a);
    var key := (e: Entry<Time>) => e.key;
    assert Sorting.DistinctBy(a, key);
    Sorting.SortByDistinct(a, ByTime, key);
    assert forall i, j :: 0 <= i < j < |r| ==> r[i].key != r[j].key by {
      assert Sorting.DistinctBy(r, key);
    }
    DistinctIndices(r);
    Sorting.SortByPermutes(a, ByTime);
    assert forall e :: e in r <==> e in a by {
      forall e ensures e in r <==> e in a {
        assert e in r <==> e in multiset(r);
        assert e in a <==> e in multiset(a);
      }
    }
    SameEntriesSameKeys(r, a);
    Sorting.SortBySorted(a, ByTime);
  }

  /** A saved metadata file loads back as the metadata that was saved. */
  lemma SaveThenLoad(c: Cache, locked: set<string>, now: Time)
    requires MetadataFile !in locked
    ensures Loaded(AfterSave(c, locked, now).(metadata := [], lru := [])).metadata == c.metadata
  {
    PutFacts(c.files, MetadataFileAt(now));
  }

  // ---------------------------------------------------------------------------------------------
  // _enforce_cache_size_limit

  /** Dropping a name from both maps and deleting its file. */
  function Evict(c: Cache, name: string): Cache {
    c.(metadata := Delete(c.metadata, name), lru := Delete(c.lru, name), files := RemovePaths(c.files, {name}))
  }

  lemma EvictSound(c: Cache, name: string)
    requires Sound(c)
    ensures Sound(Evict(c, name))
  {
    DeleteDistinct(c.metadata, name);
    DeleteDistinct(c.lru, name);
    SameKeysDelete(c.metadata, c.lru, name);
    RemovePathsDistinct(c.files, {name});
  }

  /** The eviction loop over the snapshot `order` of LRU names, having freed `removed` of the
      `need`ed bytes: it stops once enough is freed; skips the metadata file and names whose file
      is gone; and otherwise reads the entry's size and deletes the file, where a missing entry
      (`KeyError`) or a failed deletion ends enforcement with what was done so far. */
  function Sweep(order: seq<string>, c: Cache, locked: set<string>, need: int, removed: nat): Cache
    decreases |order|
  {
    if order == [] || removed >= need then c
    else if order[0] == MetadataFile || order[0] !in PathSet(c.files) then Sweep(order[1..], c, locked, need, removed)
    else match Get(c.metadata, order[0])
      case None => c
      case Some(m) =>
        if order[0] in locked then c
        else Sweep(order[1..], Evict(c, order[0]), locked, need, removed + m.size)
  }

  /** One turn of the sweep at name `n`: the state after it, the bytes freed so far and whether
      the sweep ends there. */
  datatype Turn = Turn(cache: Cache, removed: nat, stop: bool)

  function SweepTurn(n: string, c: Cache, locked: set<string>, need: int, removed: nat): Turn {
    if removed >= need then Turn(c, removed, true)
    else if n == MetadataFile || n !in PathSet(c.files) then Turn(c, removed, false)
    else match Get(c.metadata, n)
      case None => Turn(c, removed, true)
      case Some(m) => if n in locked then Turn(c, removed, true) else Turn(Evict(c, n), removed + m.size, false)
  }

  /** The sweep is its turns, taken from the front until one ends it. */
  lemma SweepByTurns(order: seq<string>, c: Cache, locked: set<string>, need: int, removed: nat)
    requires order != []
    ensures var t := SweepTurn(order[0], c, locked, need, removed);
      Sweep(order, c, locked, need, removed) == if t.stop then t.cache else Sweep(order[1..], t.cache, locked, need, t.removed)
  {
  }

  /** The whole method: nothing happens within the limit; otherwise the sweep over the LRU order
      must free the excess. */
  function Enforced(c: Cache, locked: set<string>, maxBytes: int): Cache {
    if TotalSize(c.metadata) <= maxBytes then c
    else Sweep(Keys(c.lru), c, locked, TotalSize(c.metadata) - maxBytes, 0)
  }

  lemma {:induction false} SweepSound(order: seq<string>, c: Cache, locked: set<string>, need: int, removed: nat)
    requires Sound(c)
    ensures Sound(Sweep(order, c, locked, need, removed))
    decreases |order|
  {
    if order != [] && removed < need && order[0] != MetadataFile && order[0] in PathSet(c.files) {
      if Get(c.metadata, order[0]).Some? && order[0] !in locked {
        EvictSound(c, order[0]);
        SweepSound(order[1..], Evict(c, order[0]), locked, need, removed + Get(c.metadata, order[0]).value.size);
      }
    } else if order != [] && removed < need {
      SweepSound(order[1..], c, locked, need, removed);
    }
  }

  /** The sweep only removes: the names dropped from `metadata` are exactly the files it deleted,
      the metadata file among neither, and the stored file content is untouched. */
  lemma {:induction false} SweepRemovesTogether(order: seq<string>, c: Cache, locked: set<string>, need: int, removed: nat)
    ensures var r := Sweep(order, c, locked, need, removed);
      KeySet(r.metadata) <= KeySet(c.metadata) && PathSet(r.files) <= PathSet(c.files)
      && KeySet(c.metadata) - KeySet(r.metadata) == PathSet(c.files) - PathSet(r.files)
      && (MetadataFile in PathSet(c.files) ==> MetadataFile in PathSet(r.files))
      && r.stored == c.stored
    decreases |order|
  {
    if order != [] && removed < need {
      var n := order[0];
      if n == MetadataFile || n !in PathSet(c.files) {
        SweepRemovesTogether(order[1..], c, locked, need, removed);
      } else if Get(c.metadata, n).Some? && n !in locked {
        var e := Evict(c, n);
        GetFacts(c.metadata, n);
        KeySetDelete(c.metadata, n);
        PathSetRemove(c.files, {n});
        var sz := Get(c.metadata, n).value.size;
        SweepRemovesTogether(order[1..], e, locked, need, removed + sz);
        var r := Sweep(order[1..], e, locked, need, removed + sz);
        assert Sweep(order, c, locked, need, removed) == r;
        assert KeySet(c.metadata) - KeySet(r.metadata) == (KeySet(e.metadata) - KeySet(r.metadata)) + {n};
        assert PathSet(c.files) - PathSet(r.files) == (PathSet(e.files) - PathSet(r.files)) + {n};
      }
    }
  }

  /** An entry whose file is missing is skipped: it stays in both maps with its values. */
  lemma {:induction false} SweepSkipsMissing(order: seq<string>, c: Cache, locked: set<string>, need: int, removed: nat, name: string)
    requires name !in PathSet(c.files)
    ensures var r := Sweep(order, c, locked, need, removed);
      Get(r.metadata, name) == Get(c.metadata, name) && Get(r.lru, name) == Get(c.lru, name)
      && name !in PathSet(r.files)
    decreases |order|
  {
    if order != [] && removed < need {
      var n := order[0];
      if n == MetadataFile || n !in PathSet(c.files) {
        SweepSkipsMissing(order[1..], c, locked, need, removed, name);
      } else if Get(c.metadata, n).Some? && n !in locked {
        var sz := Get(c.metadata, n).value.size;
        GetDelete(c.metadata, n, name);
        GetDelete(c.lru, n, name);
        PathSetRemove(c.files, {n});
        SweepSkipsMissing(order[1..], Evict(c, n), locked, need, removed + sz, name);
      }
    }
  }

  /** Every name in the LRU order has its file, which can be deleted: the ordinary case. */
  predicate Evictable(c: Cache, locked: set<string>) {
    forall k :: k in KeySet(c.lru) ==> k in PathSet(c.files) && k !in locked && k != MetadataFile
  }

  /** With every file evictable, the sweep removes the oldest names: what remains of the LRU order
      is a suffix of it, and either the total fits or nothing is left. */
  lemma {:induction false} SweepFromFront(c: Cache, locked: set<string>, need: int, removed: nat, total: int, maxBytes: int)
    requires Sound(c) && Evictable(c, locked)
    requires TotalSize(c.metadata) + removed == total && need == total - maxBytes
    ensures var r := Sweep(Keys(c.lru), c, locked, need, removed);
      (exists k :: 0 <= k <= |c.lru| && r.lru == c.lru[k..])
      && (TotalSize(r.metadata) <= maxBytes || (r.lru == [] && r.metadata == []))
    decreases |c.lru|
  {
    var r := Sweep(Keys(c.lru), c, locked, need, removed);
    if c.lru == [] {
      assert r.lru == c.lru[0..];
      NoKeysEmpty(c.metadata);
    } else if removed >= need {
      assert r.lru == c.lru[0..];
    } else {
      var n := c.lru[0].key;
      assert n in KeySet(c.lru);
      GetFacts(c.metadata, n);
      var sz := Get(c.metadata, n).value.size;
      var e := Evict(c, n);
      assert Keys(c.lru)[0] == n && Keys(c.lru)[1..] == Keys(c.lru[1..]);
      assert r == Sweep(Keys(c.lru[1..]), e, locked, need, removed + sz);
      DeleteFirst(c.lru);
      assert e.lru == c.lru[1..];
      EvictSound(c, n);
      assert Evictable(e, locked) by {
        KeySetDelete(c.lru, n);
        PathSetRemove(c.files, {n});
      }
      TotalSizeDelete(c.metadata, n);
      SweepFromFront(e, locked, need, removed + sz, total, maxBytes);
      var k :| 0 <= k <= |e.lru| && r.lru == e.lru[k..];
      assert r.lru == c.lru[k + 1..];
    }
  }

  /** Enforcement within the limit changes nothing; above it, with every file evictable, the
      oldest entries go first and the cache ends within the limit or empty. */
  lemma EnforcedFits(c: Cache, locked: set<string>, maxBytes: int)
    requires Sound(c)
    ensures TotalSize(c.metadata) <= maxBytes ==> Enforced(c, locked, maxBytes) == c
    ensures Evictable(c, locked) ==> var r := Enforced(c, locked, maxBytes);
      (exists k :: 0 <= k <= |c.lru| && r.lru == c.lru[k..])
      && (TotalSize(r.metadata) <= maxBytes || (r.lru == [] && r.metadata == []))
  {
    if TotalSize(c.metadata) > maxBytes && Evictable(c, locked) {
      SweepFromFront(c, locked, TotalSize(c.metadata) - maxBytes, 0, TotalSize(c.metadata), maxBytes);
    } else if TotalSize(c.metadata) <= maxBytes {
      assert c.lru == c.lru[0..];
    }
  }

  /** The sweep evicts in LRU order: once it has evicted a name, every earlier name whose file it
      could delete is gone as well. */
  lemma {:induction false} SweepEvictsInOrder(order: seq<string>, c: Cache, locked: set<string>, need: int, removed: nat, i: nat, j: nat)
    requires i < j < |order| && order[i] !in order[..i] && order[j] !in order[..j]
    requires order[i] in PathSet(c.files) && order[i] !in locked && order[i] != MetadataFile
    requires order[i] in KeySet(c.metadata) && order[j] in KeySet(c.metadata)
    ensures order[j] !in KeySet(Sweep(order, c, locked, need, removed).metadata)
            ==> order[i] !in KeySet(Sweep(order, c, locked, need, removed).metadata)
    decreases |order|
  {
    var h, t := order[0], order[1..];
    if removed < need {
      assert h in order[..j];
      if h == MetadataFile || h !in PathSet(c.files) {
        assert i > 0;
        InOrderTail(order, i, j);
        SweepEvictsInOrder(t, c, locked, need, removed, i - 1, j - 1);
      } else if Get(c.metadata, h).Some? && h !in locked {
        var e := Evict(c, h);
        var sz := Get(c.metadata, h).value.size;
        assert Sweep(order, c, locked, need, removed) == Sweep(t, e, locked, need, removed + sz);
        if i == 0 {
          KeySetDelete(c.metadata, h);
          SweepRemovesTogether(t, e, locked, need, removed + sz);
        } else {
          assert h in order[..i];
          InOrderTail(order, i, j);
          EvictOther(c, h, order[i]);
          EvictOther(c, h, order[j]);
          SweepEvictsInOrder(t, e, locked, need, removed + sz, i - 1, j - 1);
        }
      }
    }
  }

  /** Evicting one name keeps every other name's file and entry. */
  lemma EvictOther(c: Cache, h: string, x: string)
    requires x != h
    ensures x in PathSet(Evict(c, h).files) <==> x in PathSet(c.files)
    ensures x in KeySet(Evict(c, h).metadata) <==> x in KeySet(c.metadata)
  {
    PathSetRemove(c.files, {h});
    KeySetDelete(c.metadata, h);
  }

  lemma InOrderTail(order: seq<string>, i: nat, j: nat)
    requires 0 < i < j < |order| && order[i] !in order[..i] && order[j] !in order[..j]
    ensures order[1..][i - 1] == order[i] && order[1..][j - 1] == order[j]
    ensures order[i] !in order[1..][..i - 1] && order[j] !in order[1..][..j - 1]
  {
    assert order[1..][..i - 1] == order[1..i];
    assert order[1..][..j - 1] == order[1..j];
    assert forall x :: x in order[1..i] ==> x in order[..i];
    assert forall x :: x in order[1..j] ==> x in order[..j];
  }

  // ---------------------------------------------------------------------------------------------
  // _validate_cache

  /** A listed file other than the metadata file whose name `metadata` does not hold. */
  predicate Orphan(f: DiskFile, known: set<string>) {
    f.path != MetadataFile && f.path !in known
  }

  /** The orphans the loop adopts, and those it deletes. */
  function ImageOrphans(listing: seq<DiskFile>, known: set<string>): set<string> {
    if listing == [] then {}
    else (if Orphan(listing[0], known) && IsImageFile(listing[0].path) then {listing[0].path} else {})
         + ImageOrphans(listing[1..], known)
  }

  function OtherOrphans(listing: seq<DiskFile>, known: set<string>): set<string> {
    if listing == [] then {}
    else (if Orphan(listing[0], known) && !IsImageFile(listing[0].path) then {listing[0].path} else {})
         + OtherOrphans(listing[1..], known)
  }

  /** Some orphan that is not an image cannot be deleted. */
  predicate Blocked(listing: seq<DiskFile>, known: set<string>, locked: set<string>) {
    listing != []
    && ((Orphan(listing[0], known) && !IsImageFile(listing[0].path) && listing[0].path in locked)
        || Blocked(listing[1..], known, locked))
  }

  /** The entry an adopted orphan gets: its size, and the present instant as both times. */
  function Adopted(c: Cache, f: DiskFile, now: Time): Cache {
    c.(metadata := Assign(c.metadata, f.path, Meta(f.size, now, now, KindOf(f.path))),
       lru := Assign(c.lru, f.path, now))
  }

  /** The orphan loop over the directory listing (set iteration order is taken to be listing
      order): image orphans are adopted, other orphans deleted. A deletion that fails raises and
      ends validation with what was done so far; the flag says so. */
  function Adopt(listing: seq<DiskFile>, c: Cache, known: set<string>, locked: set<string>, now: Time): (Cache, bool)
    decreases |listing|
  {
    if listing == [] then (c, false)
    else
      var f := listing[0];
      if !Orphan(f, known) then Adopt(listing[1..], c, known, locked, now)
      else if IsImageFile(f.path) then Adopt(listing[1..], Adopted(c, f, now), known, locked, now)
      else if f.path in locked then (c, true)
      else Adopt(listing[1..], c.(files := RemovePaths(c.files, {f.path})), known, locked, now)
  }

  /** The missing-file loop over the names `metadata` held: each one without a file (among the
      `present` names) is dropped from both maps. */
  function DropMissing(names: seq<string>, c: Cache, present: set<string>): Cache
    decreases |names|
  {
    if names == [] then c
    else if names[0] in present then DropMissing(names[1..], c, present)
    else DropMissing(names[1..], Forget(c, names[0]), present)
  }

  /** A name dropped from both maps. */
  function Forget(c: Cache, name: string): Cache {
    c.(metadata := Delete(c.metadata, name), lru := Delete(c.lru, name))
  }

  lemma ForgetSound(c: Cache, name: string)
    requires Sound(c)
    ensures Sound(Forget(c, name))
  {
    DeleteDistinct(c.metadata, name);
    DeleteDistinct(c.lru, name);
    SameKeysDelete(c.metadata, c.lru, name);
  }

  /** Both loops of `_validate_cache`, over the listing it starts from. */
  function Reconciled(c: Cache, locked: set<string>, now: Time): (Cache, bool) {
    var known := KeySet(c.metadata);
    var (a, aborted) := Adopt(c.files, c, known, locked, now);
    if aborted then (a, true)
    else (DropMissing(Keys(c.metadata), a, PathSet(c.files) - {MetadataFile}), false)
  }

  /** `_validate_cache`: nothing happens when the directory cannot be listed; a failed deletion
      ends it after the orphans handled so far; otherwise the reconciled maps are cut down to the
      limit and saved. */
  function Validated(c: Cache, listable: bool, locked: set<string>, now: Time, maxBytes: int): Cache {
    if !listable then c
    else
      var (r, aborted) := Reconciled(c, locked, now);
      if aborted then r else AfterSave(Enforced(r, locked, maxBytes), locked, now)
  }

  /** The orphan loop stops early exactly when some orphan is neither an image nor deletable. */
  lemma {:induction false} AdoptAborts(listing: seq<DiskFile>, c: Cache, known: set<string>, locked: set<string>, now: Time)
    ensures Adopt(listing, c, known, locked, now).1 <==> Blocked(listing, known, locked)
    decreases |listing|
  {
    if listing != [] {
      var f := listing[0];
      if !Orphan(f, known) {
        AdoptAborts(listing[1..], c, known, locked, now);
      } else if IsImageFile(f.path) {
        AdoptAborts(listing[1..], Adopted(c, f, now), known, locked, now);
      } else if f.path !in locked {
        AdoptAborts(listing[1..], c.(files := RemovePaths(c.files, {f.path})), known, locked, now);
      }
    }
  }

  /** A completed orphan loop has added exactly the image orphans to both maps, deleted exactly
      the other orphans, and left the metadata file's content alone. */
  lemma {:induction false} AdoptChanges(listing: seq<DiskFile>, c: Cache, known: set<string>, locked: set<string>, now: Time)
    ensures var (r, aborted) := Adopt(listing, c, known, locked, now);
      r.stored == c.stored
      && (!aborted ==>
        KeySet(r.metadata) == KeySet(c.metadata) + ImageOrphans(listing, known)
        && KeySet(r.lru) == KeySet(c.lru) + ImageOrphans(listing, known)
        && PathSet(r.files) == PathSet(c.files) - OtherOrphans(listing, known))
    decreases |listing|
  {
    if listing != [] {
      var f := listing[0];
      if !Orphan(f, known) {
        AdoptChanges(listing[1..], c, known, locked, now);
      } else if IsImageFile(f.path) {
        AssignFacts(c.metadata, f.path, Meta(f.size, now, now, KindOf(f.path)));
        AssignFacts(c.lru, f.path, now);
        AdoptChanges(listing[1..], Adopted(c, f, now), known, locked, now);
      } else if f.path !in locked {
        PathSetRemove(c.files, {f.path});
        AdoptChanges(listing[1..], c.(files := RemovePaths(c.files, {f.path})), known, locked, now);
      }
    }
  }

  /** An adopted orphan's entry holds its size and the present instant; every other name keeps
      its entry. */
  lemma {:induction false} AdoptEntries(listing: seq<DiskFile>, c: Cache, known: set<string>, locked: set<string>, now: Time, k: string)
    requires DistinctPaths(listing)
    ensures var (r, aborted) := Adopt(listing, c, known, locked, now);
      (k !in ImageOrphans(listing, known) ==> Get(r.metadata, k) == Get(c.metadata, k) && Get(r.lru, k) == Get(c.lru, k))
      && (forall f :: f in listing && f.path == k && Orphan(f, known) && IsImageFile(k) && !aborted ==>
            Get(r.metadata, k) == Some(Meta(f.size, now, now, KindOf(k))) && Get(r.lru, k) == Some(now))
  {
    if k !in ImageOrphans(listing, known) {
      AdoptKeeps(listing, c, known, locked, now, k);
    }
    forall f | f in listing && f.path == k && Orphan(f, known) && IsImageFile(k) && !Adopt(listing, c, known, locked, now).1
      ensures Get(Adopt(listing, c, known, locked, now).0.metadata, k) == Some(Meta(f.size, now, now, KindOf(k)))
      ensures Get(Adopt(listing, c, known, locked, now).0.lru, k) == Some(now)
    {
      AdoptSets(listing, c, known, locked, now, f);
    }
  }

  /** A name that is not an image orphan keeps its entries through the orphan loop. */
  lemma {:induction false} AdoptKeeps(listing: seq<DiskFile>, c: Cache, known: set<string>, locked: set<string>, now: Time, k: string)
    requires k !in ImageOrphans(listing, known)
    ensures Get(Adopt(listing, c, known, locked, now).0.metadata, k) == Get(c.metadata, k)
    ensures Get(Adopt(listing, c, known, locked, now).0.lru, k) == Get(c.lru, k)
    decreases |listing|
  {
    if listing != [] {
      var f := listing[0];
      var t := listing[1..];
      if !Orphan(f, known) {
        AdoptKeeps(t, c, known, locked, now, k);
      } else if IsImageFile(f.path) {
        GetAssign(c.metadata, f.path, Meta(f.size, now, now, KindOf(f.path)), k);
        GetAssign(c.lru, f.path, now, k);
        AdoptKeeps(t, Adopted(c, f, now), known, locked, now, k);
      } else if f.path !in locked {
        AdoptKeeps(t, c.(files := RemovePaths(c.files, {f.path})), known, locked, now, k);
      }
    }
  }

  /** An image orphan of a completed loop ends with its size and the present instant. */
  lemma {:induction false} AdoptSets(listing: seq<DiskFile>, c: Cache, known: set<string>, locked: set<string>, now: Time, g: DiskFile)
    requires DistinctPaths(listing) && g in listing && Orphan(g, known) && IsImageFile(g.path)
    requires !Adopt(listing, c, known, locked, now).1
    ensures Get(Adopt(listing, c, known, locked, now).0.metadata, g.path) == Some(Meta(g.size, now, now, KindOf(g.path)))
    ensures Get(Adopt(listing, c, known, locked, now).0.lru, g.path) == Some(now)
    decreases |listing|
  {
    var f := listing[0];
    var t := listing[1..];
    if g == f {
      var a := Adopted(c, f, now);
      GetAssign(c.metadata, f.path, Meta(f.size, now, now, KindOf(f.path)), f.path);
      GetAssign(c.lru, f.path, now, f.path);
      OrphansListed(t, known);
      AdoptKeeps(t, a, known, locked, now, f.path);
    } else {
      assert g in t;
      if !Orphan(f, known) {
        AdoptSets(t, c, known, locked, now, g);
      } else if IsImageFile(f.path) {
        AdoptSets(t, Adopted(c, f, now), known, locked, now, g);
      } else if f.path !in locked {
        AdoptSets(t, c.(files := RemovePaths(c.files, {f.path})), known, locked, now, g);
      }
    }
  }

  /** Orphans are listed files, each of its kind. */
  lemma {:induction false} OrphansListed(listing: seq<DiskFile>, known: set<string>)
    ensures ImageOrphans(listing, known) <= PathSet(listing) && OtherOrphans(listing, known) <= PathSet(listing)
    ensures forall x :: x in ImageOrphans(listing, known) ==> IsImageFile(x)
    ensures forall x :: x in OtherOrphans(listing, known) ==> !IsImageFile(x)
    decreases |listing|
  {
    if listing != [] {
      OrphansListed(listing[1..], known);
    }
  }

  /** The two kinds of orphans together are every listed name that is neither known nor the
      metadata file. */
  lemma {:induction false} OrphansCover(listing: seq<DiskFile>, known: set<string>, x: string)
    ensures x in ImageOrphans(listing, known) || x in OtherOrphans(listing, known)
            <==> x in PathSet(listing) && x != MetadataFile && x !in known
    decreases |listing|
  {
    if listing != [] {
      OrphansCover(listing[1..], known, x);
    }
  }

  lemma AdoptedSound(c: Cache, f: DiskFile, now: Time)
    requires Sound(c)
    ensures Sound(Adopted(c, f, now))
  {
    var m := Meta(f.size, now, now, KindOf(f.path));
    AssignDistinct(c.metadata, f.path, m);
    AssignDistinct(c.lru, f.path, now);
    SameKeysAssign(c.metadata, c.lru, f.path, m, now);
  }

  lemma {:induction false} AdoptSound(listing: seq<DiskFile>, c: Cache, known: set<string>, locked: set<string>, now: Time)
    requires Sound(c)
    ensures Sound(Adopt(listing, c, known, locked, now).0)
    decreases |listing|
  {
    if listing != [] {
      var f := listing[0];
      if !Orphan(f, known) {
        AdoptSound(listing[1..], c, known, locked, now);
      } else if IsImageFile(f.path) {
        AdoptedSound(c, f, now);
        AdoptSound(listing[1..], Adopted(c, f, now), known, locked, now);
      } else if f.path !in locked {
        RemovePathsDistinct(c.files, {f.path});
        AdoptSound(listing[1..], c.(files := RemovePaths(c.files, {f.path})), known, locked, now);
      }
    }
  }

  /** The missing-file loop drops exactly the listed names that are not present, from both maps,
      and touches nothing else. */
  lemma {:induction false} DropMissingEntries(names: seq<string>, c: Cache, present: set<string>, k: string)
    ensures var r := DropMissing(names, c, present);
      r.files == c.files && r.stored == c.stored
      && Get(r.metadata, k) == (if k in names && k !in present then None else Get(c.metadata, k))
      && Get(r.lru, k) == (if k in names && k !in present then None else Get(c.lru, k))
    decreases |names|
  {
    if names != [] {
      var n := names[0];
      if n in present {
        DropMissingEntries(names[1..], c, present, k);
      } else {
        GetDelete(c.metadata, n, k);
        GetDelete(c.lru, n, k);
        DropMissingEntries(names[1..], Forget(c, n), present, k);
      }
    }
  }

  lemma {:induction false} DropMissingSound(names: seq<string>, c: Cache, present: set<string>)
    requires Sound(c)
    ensures Sound(DropMissing(names, c, present))
    decreases |names|
  {
    if names != [] {
      var n := names[0];
      if n in present {
        DropMissingSound(names[1..], c, present);
      } else {
        ForgetSound(c, n);
        DropMissingSound(names[1..], Forget(c, n), present);
      }
    }
  }

  /** The two loops keep the maps sound, and stop early exactly when a non-image orphan cannot be
      deleted. */
  lemma ReconciledSound(c: Cache, locked: set<string>, now: Time)
    requires Sound(c)
    ensures Sound(Reconciled(c, locked, now).0)
    ensures Reconciled(c, locked, now).1 <==> Blocked(c.files, KeySet(c.metadata), locked)
  {
    var known := KeySet(c.metadata);
    AdoptSound(c.files, c, known, locked, now);
    AdoptAborts(c.files, c, known, locked, now);
    var a := Adopt(c.files, c, known, locked, now).0;
    DropMissingSound(Keys(c.metadata), a, PathSet(c.files) - {MetadataFile});
  }

  /** After both loops the maps and the directory agree: a name has an entry exactly when it has a
      file, the metadata file aside. Entries with a file keep their values, entries without one
      are gone, image orphans are adopted and other orphans deleted. */
  lemma ReconciledEntries(c: Cache, locked: set<string>, now: Time, k: string)
    requires Sound(c) && !Blocked(c.files, KeySet(c.metadata), locked)
    ensures var r := Reconciled(c, locked, now).0;
      (k in KeySet(r.metadata) <==> k in PathSet(r.files) && k != MetadataFile)
      && (k in KeySet(c.metadata) && k in PathSet(c.files) && k != MetadataFile ==>
            Get(r.metadata, k) == Get(c.metadata, k) && Get(r.lru, k) == Get(c.lru, k))
      && (k in KeySet(c.metadata) && k !in PathSet(c.files) ==> k !in KeySet(r.metadata))
      && (forall f :: f in c.files && f.path == k && Orphan(f, KeySet(c.metadata)) && IsImageFile(k) ==>
            Get(r.metadata, k) == Some(Meta(f.size, now, now, KindOf(k))) && Get(r.lru, k) == Some(now))
      && (k in OtherOrphans(c.files, KeySet(c.metadata)) ==> k !in PathSet(r.files))
  {
    var known := KeySet(c.metadata);
    var present := PathSet(c.files) - {MetadataFile};
    AdoptAborts(c.files, c, known, locked, now);
    AdoptChanges(c.files, c, known, locked, now);
    AdoptEntries(c.files, c, known, locked, now, k);
    var a := Adopt(c.files, c, known, locked, now).0;
    var r := DropMissing(Keys(c.metadata), a, present);
    assert Reconciled(c, locked, now).0 == r;
    DropMissingEntries(Keys(c.metadata), a, present, k);
    KeysMembers(c.metadata);
    GetFacts(r.metadata, k);
    GetFacts(a.metadata, k);
    GetFacts(c.metadata, k);
    OrphansListed(c.files, known);
    OrphansCover(c.files, known, k);
  }

  /** The maps name exactly the files of the directory other than the metadata file. */
  predicate Consistent(c: Cache) {
    KeySet(c.metadata) == PathSet(c.files) - {MetadataFile}
  }

  lemma EnforcedSound(c: Cache, locked: set<string>, maxBytes: int)
    requires Sound(c)
    ensures Sound(Enforced(c, locked, maxBytes))
  {
    if TotalSize(c.metadata) > maxBytes {
      SweepSound(Keys(c.lru), c, locked, TotalSize(c.metadata) - maxBytes, 0);
    }
  }

  /** Enforcement deletes a file together with its entry, so maps and directory stay in step. */
  lemma EnforcedConsistent(c: Cache, locked: set<string>, maxBytes: int)
    requires Consistent(c)
    ensures Consistent(Enforced(c, locked, maxBytes))
  {
    if TotalSize(c.metadata) > maxBytes {
      SweepRemovesTogether(Keys(c.lru), c, locked, TotalSize(c.metadata) - maxBytes, 0);
    }
  }

  lemma SaveConsistent(c: Cache, locked: set<string>, now: Time)
    requires Consistent(c)
    ensures Consistent(AfterSave(c, locked, now))
  {
    PutFacts(c.files, MetadataFileAt(now));
  }

  /** Validation keeps the maps sound and, when it runs to the end, leaves them naming exactly the
      files of the directory. */
  lemma ValidatedSound(c: Cache, listable: bool, locked: set<string>, now: Time, maxBytes: int)
    requires Sound(c)
    ensures Sound(Validated(c, listable, locked, now, maxBytes))
    ensures listable && !Blocked(c.files, KeySet(c.metadata), locked) ==> Consistent(Validated(c, listable, locked, now, maxBytes))
  {
    if listable {
      ReconciledSound(c, locked, now);
      var r := Reconciled(c, locked, now).0;
      if !Blocked(c.files, KeySet(c.metadata), locked) {
        EnforcedSound(r, locked, maxBytes);
        SaveSound(Enforced(r, locked, maxBytes), locked, now);
        forall k ensures k in KeySet(r.metadata) <==> k in PathSet(r.files) - {MetadataFile} {
          ReconciledEntries(c, locked, now, k);
        }
        EnforcedConsistent(r, locked, maxBytes);
        SaveConsistent(Enforced(r, locked, maxBytes), locked, now);
      }
    }
  }

  // ---------------------------------------------------------------------------------------------
  // _update_access_time, get_image_path, get_thumbnail_path

  /** The LRU length at which every tenth access saves the metadata. */
  const SaveEvery := 10

  /** `_update_access_time`: a name `metadata` holds gets the present instant as its last access
      and moves to the end of the LRU order; whenever the LRU map's length is then a multiple of
      ten, the metadata is saved. Any other name changes nothing. */
  function Touched(c: Cache, name: string, locked: set<string>, now: Time): Cache {
    match Get(c.metadata, name)
      case None => c
      case Some(m) =>
        var t := Accessed(c, name, m.(lastAccessed := now), now);
        if |t.lru| % SaveEvery == 0 then AfterSave(t, locked, now) else t
  }

  /** The two map updates of an access: the entry gets its new value where it stands, and the
      name moves to the end of the LRU order. */
  function Accessed(c: Cache, name: string, m: Meta, now: Time): Cache {
    c.(metadata := Assign(c.metadata, name, m), lru := Assign(Delete(c.lru, name), name, now))
  }

  lemma AccessedSound(c: Cache, name: string, m: Meta, now: Time)
    requires Sound(c) && name in KeySet(c.metadata)
    ensures var t := Accessed(c, name, m, now);
      Sound(t) && KeySet(t.metadata) == KeySet(c.metadata) && t.files == c.files
  {
    var d := Delete(c.lru, name);
    AssignDistinct(c.metadata, name, m);
    DeleteDistinct(c.lru, name);
    AssignDistinct(d, name, now);
    AssignFacts(c.metadata, name, m);
    AssignFacts(d, name, now);
    KeySetDelete(c.lru, name);
  }

  /** A touched name ends the LRU order with the present instant, after the others in their old
      order; its entry records the access and keeps its place, size, creation time and type; no
      other entry changes and no file but the metadata file is written. */
  lemma TouchedMovesToEnd(c: Cache, name: string, locked: set<string>, now: Time, other: string)
    requires Sound(c) && Get(c.metadata, name).Some? && other != name
    ensures var r := Touched(c, name, locked, now);
      r.lru == Delete(c.lru, name) + [Entry(name, now)]
      && Keys(r.metadata) == Keys(c.metadata)
      && Get(r.metadata, name) == Some(Get(c.metadata, name).value.(lastAccessed := now))
      && Get(r.metadata, other) == Get(c.metadata, other) && Get(r.lru, other) == Get(c.lru, other)
      && (other != MetadataFile ==> (other in PathSet(r.files) <==> other in PathSet(c.files)))
  {
    GetFacts(c.metadata, name);
    var m := Get(c.metadata, name).value;
    var d := Delete(c.lru, name);
    KeySetDelete(c.lru, name);
    AssignPosition(d, name, now);
    AssignPosition(c.metadata, name, m.(lastAccessed := now));
    GetAssign(c.metadata, name, m.(lastAccessed := now), name);
    GetAssign(c.metadata, name, m.(lastAccessed := now), other);
    GetAssign(d, name, now, other);
    GetDelete(c.lru, name, other);
    PutFacts(c.files, MetadataFileAt(now));
  }

  /** Touching a name without an entry changes nothing. */
  lemma TouchedAbsent(c: Cache, name: string, locked: set<string>, now: Time)
    requires name !in KeySet(c.metadata)
    ensures Touched(c, name, locked, now) == c
  {
    GetFacts(c.metadata, name);
  }

  lemma TouchedSound(c: Cache, name: string, locked: set<string>, now: Time)
    requires Sound(c)
    ensures Sound(Touched(c, name, locked, now))
    ensures Consistent(c) ==> Consistent(Touched(c, name, locked, now))
  {
    var g := Get(c.metadata, name);
    if g.Some? {
      GetFacts(c.metadata, name);
      var t := Accessed(c, name, g.value.(lastAccessed := now), now);
      AccessedSound(c, name, g.value.(lastAccessed := now), now);
      SaveSound(t, locked, now);
      if Consistent(c) {
        SaveConsistent(t, locked, now);
      }
    }
  }

  /** `get_image_path` for the file `name` of the cache directory `dir`: when the file exists its
      path comes back and its access is recorded; otherwise nothing and no change. */
  function Lookup(c: Cache, dir: string, name: string, locked: set<string>, now: Time): (Option<string>, Cache) {
    if name in PathSet(c.files) then (Some(Paths.Combine(dir, name)), Touched(c, name, locked, now))
    else (None, c)
  }

  /** A hit is the directory joined with the name and records the access; a miss changes
      nothing. */
  lemma LookupFacts(c: Cache, dir: string, name: string, locked: set<string>, now: Time)
    requires Sound(c)
    ensures var (p, r) := Lookup(c, dir, name, locked, now);
      (p.Some? <==> name in PathSet(c.files))
      && (p.Some? ==> p.value == Paths.Combine(dir, name) && r == Touched(c, name, locked, now))
      && (p.None? ==> r == c)
      && Sound(r)
  {
    TouchedSound(c, name, locked, now);
  }

  // ---------------------------------------------------------------------------------------------
  // download_image, download_thumbnail

  /** The entry of a fresh download: created and last accessed now. */
  function FreshMeta(size: nat, kind: Kind, now: Time): Meta {
    Meta(size, now, now, kind)
  }

  /** Recording a download, as the LRU map should see it: the name goes to the end of the order
      even when a stale entry for it is still there. */
  function Record(c: Cache, name: string, size: nat, kind: Kind, now: Time): Cache {
    c.(metadata := Assign(c.metadata, name, FreshMeta(size, kind, now)),
       lru := Assign(Delete(c.lru, name), name, now))
  }

  /** Recording a download as `download_image` writes it, by plain assignment: a stale entry keeps
      its old place in the LRU order. */
  function RecordAsWritten(c: Cache, name: string, size: nat, kind: Kind, now: Time): Cache {
    c.(metadata := Assign(c.metadata, name, FreshMeta(size, kind, now)),
       lru := Assign(c.lru, name, now))
  }

  /** After the body arrived: it is written to the file `name` (a file that cannot be opened raises
      and the download gives nothing), the entry is recorded, the metadata saved and the limit
      enforced. */
  function Saving(c: Cache, name: string, kind: Kind, bytes: seq<Byte>, locked: set<string>, maxBytes: int, now: Time): Option<Cache> {
    if name in locked then None
    else
      var w := c.(files := Put(c.files, DiskFile(name, |bytes|, now, now, Image(bytes))));
      Some(Enforced(AfterSave(Record(w, name, |bytes|, kind, now), locked, now), locked, maxBytes))
  }

  /** `download_image` (`kind` image, `name` the id) and `download_thumbnail` (`kind` thumbnail,
      `name` the `thumb_` id, `body` the compressed bytes): a cached file is returned as
      `get_image_path` returns it; a failed request (`body` none) or an unwritable file gives
      nothing and changes nothing; otherwise the stored file's path. */
  function Fetched(c: Cache, dir: string, name: string, kind: Kind, body: Option<seq<Byte>>,
                   locked: set<string>, maxBytes: int, now: Time): (Option<string>, Cache)
  {
    if name in PathSet(c.files) then Lookup(c, dir, name, locked, now)
    else if body.None? then (None, c)
    else match SavingAsWritten(c, name, kind, body.value, locked, maxBytes, now)
      case None => (None, c)
      case Some(r) => (Some(Paths.Combine(dir, name)), r)
  }

  /** `Saving` as `download_image` is written, with `RecordAsWritten`: what the downloads do. */
  function SavingAsWritten(c: Cache, name: string, kind: Kind, bytes: seq<Byte>, locked: set<string>, maxBytes: int, now: Time): Option<Cache> {
    if name in locked then None
    else
      var w := c.(files := Put(c.files, DiskFile(name, |bytes|, now, now, Image(bytes))));
      Some(Enforced(AfterSave(RecordAsWritten(w, name, |bytes|, kind, now), locked, now), locked, maxBytes))
  }

  /** A recorded download is the newest name: last in the LRU order, with its size, its type and
      the present instant as both creation and last access; no other entry changes. */
  lemma RecordPlacesLast(c: Cache, name: string, size: nat, kind: Kind, now: Time, other: string)
    requires Sound(c) && other != name
    ensures var r := Record(c, name, size, kind, now);
      r.lru == Delete(c.lru, name) + [Entry(name, now)]
      && Get(r.metadata, name) == Some(Meta(size, now, now, kind))
      && Get(r.metadata, other) == Get(c.metadata, other) && Get(r.lru, other) == Get(c.lru, other)
      && Sound(r)
  {
    var d := Delete(c.lru, name);
    KeySetDelete(c.lru, name);
    AssignPosition(d, name, now);
    GetAssign(c.metadata, name, FreshMeta(size, kind, now), name);
    GetAssign(c.metadata, name, FreshMeta(size, kind, now), other);
    GetAssign(d, name, now, other);
    GetDelete(c.lru, name, other);
    RecordSound(c, name, size, kind, now);
  }

  lemma RecordSound(c: Cache, name: string, size: nat, kind: Kind, now: Time)
    requires Sound(c)
    ensures Sound(Record(c, name, size, kind, now))
    ensures Consistent(c) && name in PathSet(c.files) && name != MetadataFile ==> Consistent(Record(c, name, size, kind, now))
  {
    var d := Delete(c.lru, name);
    KeySetDelete(c.lru, name);
    AssignDistinct(c.metadata, name, FreshMeta(size, kind, now));
    DeleteDistinct(c.lru, name);
    AssignDistinct(d, name, now);
    AssignFacts(c.metadata, name, FreshMeta(size, kind, now));
    AssignFacts(d, name, now);
  }

  /** Recording as written keeps the maps sound too, and consistent with a directory that holds
      the file. */
  lemma RecordAsWrittenSound(c: Cache, name: string, size: nat, kind: Kind, now: Time)
    requires Sound(c)
    ensures Sound(RecordAsWritten(c, name, size, kind, now))
    ensures Consistent(c) && name in PathSet(c.files) && name != MetadataFile ==> Consistent(RecordAsWritten(c, name, size, kind, now))
  {
    AssignDistinct(c.metadata, name, FreshMeta(size, kind, now));
    AssignDistinct(c.lru, name, now);
    AssignFacts(c.metadata, name, FreshMeta(size, kind, now));
    AssignFacts(c.lru, name, now);
  }

  /** With the download recorded last, enforcement evicts it only after every older entry whose
      file it could delete. */
  lemma NewestEvictedLast(c: Cache, name: string, kind: Kind, bytes: seq<Byte>, locked: set<string>, maxBytes: int, now: Time, other: string)
    requires Sound(c) && name !in locked
    requires other in KeySet(c.lru) && other != name && other != MetadataFile
    requires other in PathSet(c.files) && other !in locked
    ensures var r := Saving(c, name, kind, bytes, locked, maxBytes, now).value;
      name !in KeySet(r.metadata) ==> other !in KeySet(r.metadata)
  {
    var f := DiskFile(name, |bytes|, now, now, Image(bytes));
    var w := c.(files := Put(c.files, f));
    var s0 := Record(w, name, |bytes|, kind, now);
    var s := AfterSave(s0, locked, now);
    var d := Delete(c.lru, name);
    assert Sound(s) && s.lru == d + [Entry(name, now)] by {
      PutDistinct(c.files, f);
      RecordPlacesLast(w, name, |bytes|, kind, now, other);
      SaveSound(s0, locked, now);
    }
    assert other in KeySet(d) by {
      KeySetDelete(c.lru, name);
    }
    assert name in KeySet(s.metadata) && other in KeySet(s.metadata) by {
      AssignFacts(w.metadata, name, FreshMeta(|bytes|, kind, now));
    }
    assert other in PathSet(s.files) by {
      PutFacts(c.files, f);
      PutFacts(w.files, MetadataFileAt(now));
    }
    var r := Enforced(s, locked, maxBytes);
    assert Saving(c, name, kind, bytes, locked, maxBytes, now) == Some(r);
    if TotalSize(s.metadata) > maxBytes {
      LastEvictedLast(s, d, name, now, locked, TotalSize(s.metadata) - maxBytes, other);
    }
  }

  /** In a sweep over an LRU order that ends with `name`, `name` goes only after `other`. */
  lemma LastEvictedLast(s: Cache, d: Lru, name: string, now: Time, locked: set<string>, need: int, other: string)
    requires Sound(s) && s.lru == d + [Entry(name, now)] && other in KeySet(d)
    requires name in KeySet(s.metadata) && other in KeySet(s.metadata)
    requires other in PathSet(s.files) && other !in locked && other != MetadataFile
    ensures var r := Sweep(Keys(s.lru), s, locked, need, 0);
      name !in KeySet(r.metadata) ==> other !in KeySet(r.metadata)
  {
    var i := KeyIndex(d, other);
    KeysAppend(d, [Entry(name, now)]);
    var order := Keys(s.lru);
    assert order == Keys(d) + [name];
    var j := |order| - 1;
    FirstOccurrence(s.lru, i);
    FirstOccurrence(s.lru, j);
    SweepEvictsInOrder(order, s, locked, need, 0, i, j);
  }

  /** As written, a name whose file vanished while its entry stayed at the front of the LRU order
      is downloaded again, keeps that place and, when the download takes the cache over its limit,
      is the first to be evicted: `download_image` then returns the path of a file it has just
      deleted, while every older entry stays. */
  lemma AsWrittenEvictsFreshDownload(c: Cache, name: string, kind: Kind, bytes: seq<Byte>, locked: set<string>, maxBytes: int, now: Time)
    requires Sound(c) && c.lru != [] && c.lru[0].key == name
    requires name !in PathSet(c.files) && name !in locked && name != MetadataFile
    requires TotalSize(RecordAsWritten(c, name, |bytes|, kind, now).metadata) > maxBytes
    ensures var r := SavingAsWritten(c, name, kind, bytes, locked, maxBytes, now).value;
      name !in KeySet(r.metadata) && name !in PathSet(r.files)
  {
    var f := DiskFile(name, |bytes|, now, now, Image(bytes));
    var w := c.(files := Put(c.files, f));
    var s := AfterSave(RecordAsWritten(w, name, |bytes|, kind, now), locked, now);
    var need := TotalSize(s.metadata) - maxBytes;
    assert Keys(s.lru)[0] == name by {
      assert name in KeySet(c.lru);
      AssignPosition(c.lru, name, now);
      KeysIndex(c.lru, 0);
    }
    assert name in PathSet(s.files) by {
      PutFacts(c.files, f);
      PutFacts(w.files, MetadataFileAt(now));
    }
    assert Get(s.metadata, name).Some? by {
      GetAssign(c.metadata, name, FreshMeta(|bytes|, kind, now), name);
    }
    var e := Evict(s, name);
    var sz := Get(s.metadata, name).value.size;
    var order := Keys(s.lru);
    assert SavingAsWritten(c, name, kind, bytes, locked, maxBytes, now).value
        == Sweep(order, s, locked, need, 0) == Sweep(order[1..], e, locked, need, sz);
    KeySetDelete(s.metadata, name);
    PathSetRemove(s.files, {name});
    SweepRemovesTogether(order[1..], e, locked, need, sz);
  }

  /** The outcome of a download: a hit is the lookup; a failed request or an unwritable file gives
      nothing and changes nothing; a stored download gives the directory joined with the name. The
      maps stay sound either way. */
  lemma FetchedFacts(c: Cache, dir: string, name: string, kind: Kind, body: Option<seq<Byte>>,
                     locked: set<string>, maxBytes: int, now: Time)
    requires Sound(c)
    ensures var (p, r) := Fetched(c, dir, name, kind, body, locked, maxBytes, now);
      Sound(r)
      && (name in PathSet(c.files) ==> (p, r) == Lookup(c, dir, name, locked, now))
      && (name !in PathSet(c.files) && (body.None? || name in locked) ==> p.None? && r == c)
      && (name !in PathSet(c.files) && body.Some? && name !in locked ==> p == Some(Paths.Combine(dir, name)))
  {
    if name in PathSet(c.files) {
      LookupFacts(c, dir, name, locked, now);
    } else if body.Some? && name !in locked {
      var bytes := body.value;
      var w := c.(files := Put(c.files, DiskFile(name, |bytes|, now, now, Image(bytes))));
      PutDistinct(c.files, DiskFile(name, |bytes|, now, now, Image(bytes)));
      RecordAsWrittenSound(w, name, |bytes|, kind, now);
      var s0 := RecordAsWritten(w, name, |bytes|, kind, now);
      SaveSound(s0, locked, now);
      EnforcedSound(AfterSave(s0, locked, now), locked, maxBytes);
    }
  }

  // ---------------------------------------------------------------------------------------------
  // clear_cache, get_cache_stats

  /** Some listed file other than the metadata file cannot be deleted. */
  predicate Stuck(listing: seq<DiskFile>, locked: set<string>) {
    listing != [] && ((listing[0].path != MetadataFile && listing[0].path in locked) || Stuck(listing[1..], locked))
  }

  /** The deletion loop of `clear_cache` over the listing, the metadata file aside; a deletion that
      fails raises and ends the operation (the flag). */
  function ClearFrom(listing: seq<DiskFile>, c: Cache, locked: set<string>): (Cache, bool)
    decreases |listing|
  {
    if listing == [] then (c, false)
    else if listing[0].path == MetadataFile then ClearFrom(listing[1..], c, locked)
    else if listing[0].path in locked then (c, true)
    else ClearFrom(listing[1..], c.(files := RemovePaths(c.files, {listing[0].path})), locked)
  }

  /** `clear_cache`: nothing happens when the directory cannot be listed; after a failed deletion
      the maps are untouched; otherwise both maps are emptied and saved. */
  function Cleared(c: Cache, listable: bool, locked: set<string>, now: Time): Cache {
    if !listable then c
    else
      var (r, aborted) := ClearFrom(c.files, c, locked);
      if aborted then r else AfterSave(r.(metadata := [], lru := []), locked, now)
  }

  /** The deletion loop only deletes, stops early exactly when a file is stuck, and otherwise
      leaves no listed file but the metadata file. */
  lemma {:induction false} ClearFromFacts(listing: seq<DiskFile>, c: Cache, locked: set<string>, x: string)
    ensures var (r, aborted) := ClearFrom(listing, c, locked);
      (aborted <==> Stuck(listing, locked))
      && r.metadata == c.metadata && r.lru == c.lru && r.stored == c.stored
      && (DistinctPaths(c.files) ==> DistinctPaths(r.files))
      && (x in PathSet(r.files) ==> x in PathSet(c.files))
      && (x == MetadataFile && x in PathSet(c.files) ==> x in PathSet(r.files))
      && (!aborted && x in PathSet(listing) && x != MetadataFile ==> x !in PathSet(r.files))
    decreases |listing|
  {
    if listing != [] {
      var p := listing[0].path;
      if p == MetadataFile {
        ClearFromFacts(listing[1..], c, locked, x);
      } else if p !in locked {
        var d := c.(files := RemovePaths(c.files, {p}));
        PathSetRemove(c.files, {p});
        if DistinctPaths(c.files) {
          RemovePathsDistinct(c.files, {p});
        }
        ClearFromFacts(listing[1..], d, locked, x);
      }
    }
  }

  /** A completed `clear_cache` leaves both maps empty, the metadata file (written when it can be)
      and no other file; one that stops early leaves the maps as they were. */
  lemma ClearedFacts(c: Cache, listable: bool, locked: set<string>, now: Time, x: string)
    requires Sound(c)
    ensures var r := Cleared(c, listable, locked, now);
      Sound(r) && (x in PathSet(r.files) ==> x in PathSet(c.files) || x == MetadataFile)
      && (listable && !Stuck(c.files, locked) ==>
            r.metadata == [] && r.lru == [] && (x in PathSet(r.files) ==> x == MetadataFile)
            && (MetadataFile !in locked ==> MetadataFile in PathSet(r.files) && r.stored == Saved([]))
            && (MetadataFile in PathSet(c.files) ==> MetadataFile in PathSet(r.files)))
      && (listable && Stuck(c.files, locked) ==> r.metadata == c.metadata && r.lru == c.lru)
  {
    if listable {
      ClearFromFacts(c.files, c, locked, x);
      ClearFromFacts(c.files, c, locked, MetadataFile);
      var (r, aborted) := ClearFrom(c.files, c, locked);
      if !aborted {
        var e := r.(metadata := [], lru := []);
        PutFacts(e.files, MetadataFileAt(now));
        PutDistinct(e.files, MetadataFileAt(now));
        if x in PathSet(c.files) && x != MetadataFile {
          PathSetMembers(c.files);
        }
      }
    }
  }

  /** The integer fields of `get_cache_stats`. */
  datatype CacheStats = CacheStats(totalSizeBytes: nat, imageCount: nat, thumbnailCount: nat, totalItems: nat)

  function CountKind(m: Metadata, kind: Kind): nat {
    if m == [] then 0 else (if m[0].value.kind == kind then 1 else 0) + CountKind(m[1..], kind)
  }

  lemma {:induction false} KindsPartition(m: Metadata)
    ensures CountKind(m, ImageEntry) + CountKind(m, ThumbnailEntry) == |m|
  {
    if m != [] {
      KindsPartition(m[1..]);
    }
  }

  /** `get_cache_stats`: every entry is counted as an image or a thumbnail, and the total size is
      the sum of the entries' sizes. */
  function Stats(m: Metadata): (s: CacheStats)
    ensures s.imageCount + s.thumbnailCount == s.totalItems == |m|
    ensures s.totalSizeBytes == TotalSize(m)
  {
    KindsPartition(m);
    CacheStats(TotalSize(m), CountKind(m, ImageEntry), CountKind(m, ThumbnailEntry), |m|)
  }
}
