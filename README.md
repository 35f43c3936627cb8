# wallpaper0-changer: image retrieval and caching, modelled in Dafny

wallpaper0-changer sets the Windows desktop wallpaper from images of the aiwp.me catalogue. A
`wallpaper0-changer:<id>` link, a timer or the user names an image id. The application then:

- validates the id;
- asks the catalogue for the image's details and picks its URL;
- downloads the image in chunks, with a size cap and retries;
- stores it in a cache directory and hands the file to the system;
- trims the cache back to the configured size, evicting the least recently used files first.

This project models that core, written in C# (`WallpaperChanger/Services`, `DownloadProgress`,
`AppSettings` and the protocol handler of `Form1`). It also models the earlier Python code that
does the same job: the `ImageCacheManager` with its metadata dictionary, LRU order and metadata
file, and the id extraction of `direct_wallpaper.py`. It proves properties of the model.

One module per component, each in a file of its own:

| modules | what they model |
|---|---|
| `Validation`, `Errors`, `ErrorMessages` | validation, the exception type and the user-facing messages |
| `Progress` | the progress model |
| `Configuration` | the settings |
| `Cache` | the access-time cache and its eviction; `Eviction` and `Sorting` hold the eviction order |
| `Downloader`, `Retry`, `Http` | downloading, with its retries |
| `Api`, `Json` | the catalogue client |
| `Wallpaper` | the wallpaper service |
| `Scheduler` | the scheduler |
| `Form1` | the protocol handler |
| `LegacyCache`, `LegacyManager`, `PyDict` | the Python cache manager, on insertion-ordered dictionaries |
| `DirectWallpaper` | the Python id extraction |
| `FileSystem`, `Paths`, `Text`, `Numbers`, `Wrappers` | shared helpers below all of these |

How the model treats the outside world:

- **Files and directories.** A directory is a `FileSystem.Volume`: an ordered listing of files, a set of locked names whose deletion or write throws, and whether it can be listed at all.
- **Their own classes.** Objects whose fields the code updates are Dafny classes: `CacheManager`, `ImageDownloader`, `ApiClient`, `ConfigurationService`, `WallpaperService`, `SchedulerService`, `ImageCacheManager`, `MainForm`, `WallpaperException`.
- **Pure code.** Switch expressions and parsing are functions.
- **Outside inputs are parameters.** This covers:
  - the clock;
  - HTTP responses, given per URL and attempt;
  - the result of the wallpaper system call;
  - URL parsing;
  - the random choices.
- **Instants** are integer ticks.
- **64- and 32-bit C# arithmetic** is written out where it can wrap: the cleanup's byte limit and its excess over the cache size (`long`), the progress percentage (`long`, then an `int` cast) and the timer interval (`int`).

## Model

| member | source | states |
|---|---|---|
| Validation.IsValidImageIdAsWritten | WallpaperChanger/Services/ValidationService.cs:35-45 | the id check as the services run it: a blank id or one longer than 50 fails, then the pattern decides under .NET's `$`, which also matches before a final newline |
| Validation.IsValidImageId | WallpaperChanger/Services/ValidationService.cs:35-45 | the id check as intended: 1 to 50 characters, each from `[a-zA-Z0-9_-]` |
| Validation.TrailingNewlineAccepted | WallpaperChanger/Services/ValidationService.cs:35-44 | the id check as written accepts "abc\n", because `$` in `^[a-zA-Z0-9_-]+$` also matches before a final newline; the intended check refuses it |
| Validation.AsWrittenAgreesWithoutTrailingNewline | WallpaperChanger/Services/ValidationService.cs:35-44 | for every id not ending in '\n', the id check as written and the intended one (1 to 50 characters from `[a-zA-Z0-9_-]`) agree in both directions |
| Validation.CorrectedIsNarrower | WallpaperChanger/Services/ValidationService.cs:35-44 | every id the intended check accepts is accepted as written too |
| Validation.ValidIdIsPlainName | WallpaperChanger/Services/ValidationService.cs:16 | a valid id holds no separator, no dot, no drive colon and no wildcard, and is not rooted, so it cannot leave the cache directory |
| Validation.ImageIdExamples | WallpaperChanger.Tests/Services/ValidationServiceTests.cs:23-130 | the ids of the test suite: "00123", "HNVOO3GJH7" and "Test-Image_1" are accepted; "", "12 34", "12\n34", "test/path", an SQL injection and Arabic digits are refused |
| Validation.HostAllowed | WallpaperChanger/Services/ValidationService.cs:70-79 | the loop over the allowed domains is true exactly when some domain matches the host |
| Validation.IsValidImageUrl | WallpaperChanger/Services/ValidationService.cs:58-80 | the URL check: not blank, parses as an absolute URI, scheme http or https, host allowed; `Validation.ValidImageUrlMeans` spells out what it accepts |
| Validation.ValidImageUrlMeans | WallpaperChanger/Services/ValidationService.cs:58-80 | a URL passes exactly when it is not blank, parses, has scheme http or https, and its host is aiwp.me or ends in ".aiwp.me", ignoring case |
| Validation.HostsAdmitted | WallpaperChanger.Tests/Services/ValidationServiceTests.cs:137-153 | "aiwp.me", "www.aiwp.me" and "AIWP.ME" match the allowed domain |
| Validation.HostsRefused | WallpaperChanger.Tests/Services/ValidationServiceTests.cs:165-224 | look-alike and internal hosts (aiwp.net, aiwpme.com, notaiwp.me, evil.com, localhost, 169.254.169.254, aiwp.me.evil.com) do not match |
| Validation.OnlyWebSchemes | WallpaperChanger/Services/ValidationService.cs:66-67 | a URL whose scheme is neither http nor https is refused whatever its host |
| Validation.IsValidFilePath | WallpaperChanger/Services/ValidationService.cs:94-130 | the path check: not blank, at most 260 characters, no traversal, no invalid path or name character, and `GetFullPath` succeeds; `Validation.ValidFilePathMeans` spells out what it accepts |
| Validation.ValidFilePathMeans | WallpaperChanger/Services/ValidationService.cs:94-130 | an accepted path is not blank, has at most 260 characters and no `..\` or `../`, and neither the path nor its file name holds a forbidden character |
| Validation.PlainPathAccepted | WallpaperChanger/Services/ValidationService.cs:94-130 | a path of plain names, separators and single dots passes with the Windows character sets whenever `GetFullPath` succeeds on it |
| Validation.UncPathAccepted | WallpaperChanger.Tests/Services/ValidationServiceTests.cs:309-319 | the UNC path `\\server\share\image.jpg` passes |
| Validation.RelativePathAccepted | WallpaperChanger.Tests/Services/ValidationServiceTests.cs:382-392 | the relative path `images\wallpaper.jpg` passes |
| Validation.TraversalRefused | WallpaperChanger/Services/ValidationService.cs:100-101 | `C:\Cache\..\secret.txt` is refused whatever the character sets |
| Validation.AngleBracketRefused | WallpaperChanger/Services/ValidationService.cs:115-120 | `C:\Cache\image<>.jpg` is refused by the file-name check |
| Validation.LongPathRefused | WallpaperChanger/Services/ValidationService.cs:104-105 | any path longer than 260 characters is refused |
| Errors.Fault.WithContext | WallpaperChanger/Exceptions/WallpaperException.cs:51-55 | setting a context entry keeps code and message, maps the key to the value, keeps every other entry, and adds exactly that key |
| Errors.NewFault | WallpaperChanger/Exceptions/WallpaperException.cs:24-29 | a new exception has the given code and message and an empty context |
| Errors.DecimalString | WallpaperChanger/Services/ImageDownloader.cs:114 | the decimal rendering interpolation uses is never empty, and holds only digits for a non-negative number |
| Errors.WallpaperException.constructor | WallpaperChanger/Exceptions/WallpaperException.cs:24-29 | the first constructor stores code and message and allocates a fresh, empty context dictionary |
| Errors.WallpaperException.WithContextMap | WallpaperChanger/Exceptions/WallpaperException.cs:38-43 | the second constructor keeps the caller's dictionary object itself |
| Errors.WallpaperException.WithContext | WallpaperChanger/Exceptions/WallpaperException.cs:51-55 | sets one entry of the shared dictionary and returns the same exception |
| Errors.WallpaperException.Snapshot | WallpaperChanger/Exceptions/WallpaperException.cs:11-16 | the exception's value is its code, its message and the current contents of its dictionary |
| Errors.SharedContext | WallpaperChanger/Exceptions/WallpaperException.cs:38-43 | two exceptions built over one dictionary both see a context entry added through one of them |
| Errors.ChainedContexts | WallpaperChanger/Exceptions/WallpaperException.cs:51-55 | chaining `WithContext` on the class gives the same value as chaining it on `Fault` |
| ErrorMessages.UserFriendlyMessage | WallpaperChanger/Services/ErrorMessageService.cs:15-31 | every code except `Unknown` gets its fixed text; `Unknown` gets "An unexpected error occurred: " followed by the exception's message |
| ErrorMessages.WithSuggestion | WallpaperChanger/Services/ErrorMessageService.cs:38-46 | the detailed message starts with the base message; it equals the base message exactly when the suggestion is empty, and otherwise continues with "\n\nSuggestion: " and the suggestion |
| ErrorMessages.RecoverySuggestion | WallpaperChanger/Services/ErrorMessageService.cs:48-61 | the suggestion for each named code, the empty string for the rest; `ErrorMessages.NoSuggestionFor` and the two `CodesSuggest` lemmas say which codes get one |
| ErrorMessages.DetailedMessage | WallpaperChanger/Services/ErrorMessageService.cs:38-46 | the friendly message, followed by the separator and the suggestion when there is one |
| ErrorMessages.NoSuggestionFor | WallpaperChanger/Services/ErrorMessageService.cs:48-61 | `InvalidImageId`, `InvalidImage`, `ConfigurationError` and `Unknown` get no suggestion, so their detailed message is the friendly one |
| ErrorMessages.TransferCodesSuggest | WallpaperChanger/Services/ErrorMessageService.cs:52-56 | `NetworkError`, `DownloadFailed`, `Timeout` and `FileTooLarge` each get a suggestion |
| ErrorMessages.ServiceCodesSuggest | WallpaperChanger/Services/ErrorMessageService.cs:53-58 | `ApiError`, `CacheError` and `SystemApiError` each get a suggestion |
| ErrorMessages.FixedMessageIgnoresDetails | WallpaperChanger/Services/ErrorMessageService.cs:15-46 | for a code with a fixed text, both messages depend on the code alone, not on the exception's message or context |
| Numbers.WrapInt64 | WallpaperChanger/Models/DownloadProgress.cs:21 | the `long` product is the exact product reduced modulo 2^64 into the signed range, and equals it when no overflow happens |
| Numbers.WrapInt32 | WallpaperChanger/Models/DownloadProgress.cs:21 | the `(int)` cast keeps the value modulo 2^32 in the signed range, and keeps it unchanged when it fits |
| Numbers.TruncDiv | WallpaperChanger/Models/DownloadProgress.cs:21 | C# division: the magnitude is the quotient of the magnitudes, the sign is negative only for operands of opposite sign, and it is Dafny's division for non-negative operands |
| Numbers.Pow2 | WallpaperChanger/Services/ImageDownloader.cs:43 | `Math.Pow(2, n)` as a whole number of at least 1 |
| Paths.GetFileName | WallpaperChanger/Services/CacheManager.cs:174 | the file name is a separator-free tail of the path |
| Paths.FileNameIsLastSegment | WallpaperChanger/Services/CacheManager.cs:174 | that tail is the longest one: the file name is the whole path or a separator comes right before it |
| Paths.GetExtension | WallpaperChanger/Services/ImageDownloader.cs:120 | a non-empty extension is a tail of the path of at least two characters, starting with its only '.', with no separator |
| Paths.ExtensionPresent | WallpaperChanger/Services/ImageDownloader.cs:120 | a path has an extension exactly when its file name holds a '.' that is not the name's last character, and the extension is then the end of the file name |
| Paths.GetFileNameWithoutExtension | WallpaperChanger/Services/CacheManager.cs:180 | the stem holds no separator |
| Paths.StemAndExtension | WallpaperChanger/Services/CacheManager.cs:180 | the stem followed by the extension is the file name; when the name ends in a '.', the extension is empty and the stem is the name without that final '.' |
| Paths.Combine | WallpaperChanger/Services/CacheManager.cs:46 | a rooted second part, or an empty first part, gives the second part; otherwise the result ends in the second part, preceded by a separator |
| Paths.FileNameOfCombine | WallpaperChanger/Services/CacheManager.cs:46 | combining a directory with a bare file name and taking the file name back gives that name |
| Paths.StemOfCombine | WallpaperChanger/Services/CacheManager.cs:180 | the file stored for an id, combined into the directory, gives back the id as its stem and id plus extension as its name |
| Text.Lower | image_cache_manager.py:156 | lowering keeps the length (ASCII letters folded) |
| Text.IndexOf | WallpaperChanger/Form1.cs:109 | the index found is the first occurrence; no index is found exactly when the text occurs nowhere |
| Text.Strip | direct_wallpaper.py:38 | the result is a slice with only whitespace cut from either end, has no whitespace at either end, and is empty exactly when the text is all whitespace |
| Text.StripCore | direct_wallpaper.py:38 | a core with no whitespace at either end, padded with whitespace, strips to exactly that core |
| Text.TrimStart | WallpaperChanger/Services/ApiClient.cs:123 | `TrimStart('.')` drops exactly the leading run of dots: the rest is a suffix that does not start with one |
| Progress.ProgressPercentage | WallpaperChanger/Models/DownloadProgress.cs:19-21 | the documented percentage: between 0 and 100, 0 with no total, the floor of received/total in hundredths within the total, and 100 once complete |
| Progress.IsComplete | WallpaperChanger/Models/DownloadProgress.cs:26 | complete means something was announced and at least that much arrived |
| Progress.ProgressPercentageAsWritten | WallpaperChanger/Models/DownloadProgress.cs:21 | the percentage as computed: a wrapping `long` product, a truncating division and a 32-bit cast; the lemmas below compare it with the documented percentage |
| Progress.NoTotalMeansZero | WallpaperChanger/Models/DownloadProgress.cs:21-26 | with no positive total, both readings are 0 and the download is not complete |
| Progress.AsWrittenWithinAnnounced | WallpaperChanger/Models/DownloadProgress.cs:21 | while received is within the total and the product does not overflow, the property as written is the floor of received/total in hundredths and agrees with the documented one |
| Progress.CompleteReadsFull | WallpaperChanger/Models/DownloadProgress.cs:21-26 | a complete download reads at least 100 percent as written, while nothing wraps |
| Progress.OverReceiptExceedsHundred | WallpaperChanger/Models/DownloadProgress.cs:21 | 2 bytes received out of 1 announced read 200 percent as written, and 100 as documented |
| Progress.CompleteReadsZero | WallpaperChanger/Models/DownloadProgress.cs:21-26 | a complete download of 2^31 bytes out of 1 announced reads 0 percent as written, because the `(int)` cast wraps |
| Retry.FinalAttempt | WallpaperChanger/Services/ImageDownloader.cs:38-47 | the attempt whose outcome the policy hands back is within the retry budget, every earlier outcome was handled, and it is unhandled unless it is the last one allowed |
| Retry.FinalFrom | WallpaperChanger/Services/ImageDownloader.cs:38-47 | from attempt `j` on, the same characterisation of the attempt handed back |
| Retry.Delays | WallpaperChanger/Services/ImageDownloader.cs:43 | one wait per retry |
| Retry.DelayOfRetry | WallpaperChanger/Services/ImageDownloader.cs:43 | retry `r` waits `2^r` seconds |
| Retry.TotalDelay | WallpaperChanger/Services/ApiClient.cs:44 | `n` retries wait `2^(n+1) - 2` seconds in all |
| Retry.Execute | WallpaperChanger/Services/ApiClient.cs:39-48 | the loop makes exactly one attempt more than the final attempt's number, hands back that attempt's outcome, and waits `2^r` before each retry `r` |
| Retry.FinalIsFirstStop | WallpaperChanger/Services/ImageDownloader.cs:38-47 | an attempt preceded only by handled outcomes, at which the policy stops, is the final one |
| Retry.ContinuesPast | WallpaperChanger/Services/ImageDownloader.cs:38-47 | a handled outcome before the last allowed attempt is followed by another attempt |
| Retry.StopsAt | WallpaperChanger/Services/ImageDownloader.cs:38-47 | an attempt not after the final one, at which the policy stops, is the final one |
| Retry.NoRetriesOneAttempt | WallpaperChanger/Services/ImageDownloader.cs:42 | with zero retries configured one attempt is made |
| Retry.UnhandledNotRetried | WallpaperChanger/Services/ImageDownloader.cs:39-40 | an outcome the policy does not handle is handed back at once |
| Json.FirstPresent | WallpaperChanger/Services/ApiClient.cs:92-103 | reference definition: the index of the first listed property the object defines, none exactly when it defines none of them |
| Json.ChosenField | WallpaperChanger/Services/ApiClient.cs:92-103 | the `TryGetProperty` chain: "path", else "url", else "thumbnailUrl", the first the object defines |
| Json.ChosenIsFirstPresent | WallpaperChanger/Services/ApiClient.cs:92-103 | the `TryGetProperty` chain picks exactly the first of `path`, `url`, `thumbnailUrl` that is present |
| Json.UrlProperty | WallpaperChanger/Services/ApiClient.cs:86-103 | a body that does not parse throws a `JsonException`, a root that is not an object another exception, and nothing else fails |
| Json.FirstPresentDecides | WallpaperChanger/Services/ApiClient.cs:92-103 | the first URL property present decides, whatever its value: later properties are not read |
| Json.NoUrlFieldReadsNull | WallpaperChanger/Services/ApiClient.cs:89-105 | an object with none of the three properties reads as a null URL |
| Eviction.FreedMonotone | WallpaperChanger/Services/CacheManager.cs:122-147 | the bytes freed never decrease along the sweep |
| Eviction.FreedStops | WallpaperChanger/Services/CacheManager.cs:128-129 | once enough is freed, nothing further is removed |
| Eviction.EvictedBeforeKept | WallpaperChanger/Services/CacheManager.cs:119-147 | removal follows the order: every removed candidate comes before every removable candidate that was kept |
| Eviction.FreedEnoughOrAll | WallpaperChanger/Services/CacheManager.cs:122-147 | the sweep frees what it needs or removes every removable candidate |
| Eviction.LastEvictionNeeded | WallpaperChanger/Services/CacheManager.cs:128-136 | each removal was needed: without it the sweep would still be short |
| Eviction.EvictedIndices | WallpaperChanger/Services/CacheManager.cs:122-147 | the positions of the removed candidates are positions among those considered |
| Eviction.EvictedIndicesEvicted | WallpaperChanger/Services/CacheManager.cs:122-147 | every listed position is a candidate the sweep removed |
| Eviction.EvictedIndicesComplete | WallpaperChanger/Services/CacheManager.cs:122-147 | every candidate the sweep removed is listed |
| Eviction.EvictedIndicesIncreasing | WallpaperChanger/Services/CacheManager.cs:122-147 | the listed positions increase strictly, so each removed candidate is listed once |
| Eviction.FreedIsEvictedSize | WallpaperChanger/Services/CacheManager.cs:136 | the running count of freed bytes equals the sizes of the removed candidates added up over their list |
| Eviction.NothingNeeded | image_cache_manager.py:179-180 | with nothing to free, nothing is removed |
| Sorting.InsertPermutes | WallpaperChanger/Services/CacheManager.cs:120 | insertion adds exactly the one element |
| Sorting.InsertSorted | WallpaperChanger/Services/CacheManager.cs:120 | insertion into an ordered list keeps it ordered, and its first key is the smaller of the two |
| Sorting.InsertWithKey | WallpaperChanger/Services/CacheManager.cs:120 | insertion puts the element before the elements with an equal key; the elements of every other key keep their order |
| Sorting.SortBySorted | WallpaperChanger/Services/CacheManager.cs:120 | `OrderBy` yields a list ordered by key |
| Sorting.SortByPermutes | WallpaperChanger/Services/CacheManager.cs:120 | `OrderBy` keeps exactly the same elements (as a multiset) |
| Sorting.SortByStable | WallpaperChanger/Services/CacheManager.cs:120 | `OrderBy` is stable: elements with equal keys keep their relative order |
| Sorting.SortBySortedIdentity | WallpaperChanger/Services/CacheManager.cs:120 | an already ordered list is left as it is |
| Sorting.SortByLength | WallpaperChanger/Services/CacheManager.cs:120 | sorting keeps the length |
| Sorting.InsertDistinct | WallpaperChanger/Services/CacheManager.cs:120 | insertion of an element with a new projection keeps the projection injective |
| Sorting.SortByDistinct | WallpaperChanger/Services/CacheManager.cs:120 | sorting keeps an injective projection (such as the image id) injective |
| Sorting.SumByAppend | WallpaperChanger/Services/CacheManager.cs:223 | a sum over a list grows by the measure of an appended element |
| Sorting.InsertSum | WallpaperChanger/Services/CacheManager.cs:120 | insertion adds the inserted element's measure to a sum |
| Sorting.SortBySum | WallpaperChanger/Services/CacheManager.cs:120 | sorting does not change the total size of the images |
| FileSystem.Find | WallpaperChanger/Services/CacheManager.cs:133 | what is found at a path is a file with that path |
| FileSystem.FindFacts | WallpaperChanger/Services/CacheManager.cs:133 | `File.Exists`: a path is found exactly when it is listed, and what is found is a listed file |
| FileSystem.RemovePaths | WallpaperChanger/Services/CacheManager.cs:135 | deletion never lengthens the listing |
| FileSystem.RemovePathsFacts | WallpaperChanger/Services/CacheManager.cs:135 | deletion keeps exactly the files whose path is not deleted, and drops exactly the deleted paths |
| FileSystem.PathSetRemove | WallpaperChanger/Services/CacheManager.cs:261 | deleting files removes exactly their paths from the listing |
| FileSystem.RemovePathsDistinct | WallpaperChanger/Services/CacheManager.cs:135 | deletion keeps every path listed at most once |
| FileSystem.Put | WallpaperChanger/Services/ImageDownloader.cs:128 | a write never shortens the listing and leaves it non-empty |
| FileSystem.PutFacts | WallpaperChanger/Services/ImageDownloader.cs:128 | a write adds its path and leaves every file at another path as it was |
| FileSystem.PutDistinct | WallpaperChanger/Services/ImageDownloader.cs:128 | a write keeps every path listed at most once |
| FileSystem.PutFind | WallpaperChanger/Services/ImageDownloader.cs:128 | after a write, the file at that path has the written size and content |
| FileSystem.Volume.Delete | WallpaperChanger/Services/CacheManager.cs:135 | `File.Delete` succeeds exactly when the file is not locked, and then removes that path and nothing else; on failure the directory is unchanged |
| FileSystem.Volume.Write | WallpaperChanger/Services/ImageDownloader.cs:128 | `File.WriteAllBytesAsync` succeeds exactly when the file is not locked, and then writes that file and nothing else; on failure the directory is unchanged |
| Cache.Entry | WallpaperChanger/Services/CacheManager.cs:179-191 | a history entry carries the file's path, size and creation time, its stem as the id, and the recorded access time when there is one, the file's own otherwise |
| Cache.FindUnique | WallpaperChanger/Services/CacheManager.cs:133 | with distinct paths, the file listed at a path is the one found there |
| Cache.FindAfterRemove | WallpaperChanger/Services/CacheManager.cs:135 | deleting other paths does not change what is found at a path |
| Cache.RemoveTwice | WallpaperChanger/Services/CacheManager.cs:126-147 | deleting two groups in turn is deleting their union |
| Cache.RemoveNothing | WallpaperChanger/Services/CacheManager.cs:126-147 | deleting nothing leaves the listing as it is |
| Cache.ImageBytesRemoveOne | WallpaperChanger/Services/CacheManager.cs:135-136 | deleting one image lowers the cache size by exactly that file's size |
| Cache.RemovePathsAbsent | WallpaperChanger/Services/CacheManager.cs:135 | deleting paths that are not listed changes nothing |
| Cache.ImageBytesPutIndex | WallpaperChanger/Services/CacheManager.cs:223 | writing the access-time index does not change the size of the cache |
| Cache.IndexPathIsIndex | WallpaperChanger/Services/CacheManager.cs:308 | the index is written where the size and history computations skip it |
| Cache.SaveLoadRoundTrip | WallpaperChanger/Services/CacheManager.cs:279-316 | the access times read back after a successful save are exactly the ones saved |
| Cache.ImageBytesWithIndex | WallpaperChanger/Services/CacheManager.cs:304-316 | saving the access times, successfully or not, leaves the cache size unchanged |
| Cache.HistoryHolds | WallpaperChanger/Services/CacheManager.cs:169-193 | every history entry names a listed image, not the index, with the size that file has |
| Cache.HistoryPaths | WallpaperChanger/Services/CacheManager.cs:169-193 | every history entry's path is listed |
| Cache.HistoryDistinct | WallpaperChanger/Services/CacheManager.cs:169-193 | no two history entries share a path |
| Cache.HistorySize | WallpaperChanger/Services/CacheManager.cs:161-243 | the history's sizes add up to the cache size that `GetCacheSize` reports |
| Cache.HistoryCoversImages | WallpaperChanger/Services/CacheManager.cs:171-193 | every listed image other than the index has its entry in the history |
| Cache.LruOrderFacts | WallpaperChanger/Services/CacheManager.cs:117-120 | the cleanup order is ordered by access time, holds exactly the history's entries, no path twice, each entry backed by its file, and its sizes add up to the cache size |
| Cache.LruVictimsFirst | WallpaperChanger/Services/CacheManager.cs:119-147 | a removed image was accessed no later than any deletable image that was kept |
| Cache.AllRemovedFreesEverything | WallpaperChanger/Services/CacheManager.cs:126-137 | when every image up to a point is removed, the bytes freed are their total size |
| Cache.CleanupMeetsLimit | WallpaperChanger/Services/CacheManager.cs:107-147 | over a non-negative limit, with the images totalling at most `long.MaxValue` bytes and every image deletable, the sweep frees enough to bring the cache within the limit |
| Cache.SweepFreed | WallpaperChanger/Services/CacheManager.cs:122-147 | the bytes the cleanup loop counts are the bytes the shared eviction sweep frees |
| Cache.SweepRemoves | WallpaperChanger/Services/CacheManager.cs:133-138 | an image the sweep removes has its path deleted and its access time dropped |
| Cache.SweepOnlyRemoves | WallpaperChanger/Services/CacheManager.cs:133-138 | only paths of images the sweep removes are deleted |
| Cache.SweepStable | WallpaperChanger/Services/CacheManager.cs:128-129 | once enough is freed the loop ends: the rest of the order changes nothing |
| Cache.StillThere | WallpaperChanger/Services/CacheManager.cs:133 | an image not yet reached is still on disk with its size when the loop reaches it |
| Cache.CleanupStep | WallpaperChanger/Services/CacheManager.cs:133-135 | the image the loop reaches still exists, and deleting it adds its path to those deleted |
| Cache.SweptBytes | WallpaperChanger/Services/CacheManager.cs:122-147 | the cache size after the loop plus the bytes it counted is the size before |
| Cache.CleanupFreesSweep | WallpaperChanger/Services/CacheManager.cs:101-151 | over the limit, the cleanup lowers the cache size by exactly the bytes it counts as freed |
| Cache.CleanupReachesLimit | WallpaperChanger/Services/CacheManager.cs:101-151 | with a non-negative limit, the images within `long.MaxValue` bytes and every image deletable, the cache is within the limit after the cleanup |
| Cache.NegativeLimitEmptiesCache | WallpaperChanger/Services/CacheManager.cs:101-151 | a negative limit whose excess `currentSize - maxSizeBytes` still fits a `long`, with every image deletable, removes every image |
| Cache.NegativeLimitSweepsAll | WallpaperChanger/Services/CacheManager.cs:122-147 | a negative limit whose excess still fits a `long` makes the sweep free the whole cache size |
| Cache.BytesToRemove | WallpaperChanger/Services/CacheManager.cs:122 | the excess over the limit is the exact difference when that fits a `long`, and when it overflows it is the difference minus 2^64, which is negative |
| Cache.SweepNothingNeeded | WallpaperChanger/Services/CacheManager.cs:126-130 | when nothing needs to be freed the loop deletes, counts and forgets nothing |
| Cache.WrappedExcessDeletesNothing | WallpaperChanger/Services/CacheManager.cs:122-147 | when the excess overflows a `long` it wraps negative: no image is deleted, the access times stay, only the index is rewritten and the cache size is unchanged |
| Cache.SweptIdsGone | WallpaperChanger/Services/CacheManager.cs:138 | a removed image has no access time left afterwards |
| Cache.CacheManager.constructor | WallpaperChanger/Services/CacheManager.cs:23-33 | a new manager holds the configured directory and the access times read from its index |
| Cache.CacheManager.LoadAccessTimes | WallpaperChanger/Services/CacheManager.cs:279-302 | the times read from the index are merged over those already held, read entries winning; the directory is not changed |
| Cache.CacheManager.SaveAccessTimes | WallpaperChanger/Services/CacheManager.cs:304-316 | the index file is written with the current access times unless it is locked, and nothing else changes |
| Cache.CacheManager.GetCachedImagePath | WallpaperChanger/Services/CacheManager.cs:38-54 | an id the check as written refuses throws `InvalidImageId` (so "abc\n" gets through); otherwise the result is the directory combined with id plus extension, which throws `CacheError` exactly when that path is not valid |
| Cache.CacheManager.IsCached | WallpaperChanger/Services/CacheManager.cs:76-88 | some file of the directory matches `<id>.*`; a directory that cannot be listed reads as not cached |
| Cache.CacheManager.GetExistingCachedImagePath | WallpaperChanger/Services/CacheManager.cs:59-71 | a path is returned exactly when the image is cached, and it is a listed file matching `{id}.*` |
| Cache.CacheManager.UpdateAccessTime | WallpaperChanger/Services/CacheManager.cs:93-96 | the id's access time becomes now and no other entry changes |
| Cache.CacheManager.GetCacheSize | WallpaperChanger/Services/CacheManager.cs:213-243 | the total size of the listed files other than the index, and 0 when the directory cannot be listed |
| Cache.CacheManager.GetCacheHistory | WallpaperChanger/Services/CacheManager.cs:161-208 | one entry per listed image other than the index, in listing order; an empty list when the directory cannot be listed |
| Cache.CacheManager.CleanupCache | WallpaperChanger/Services/CacheManager.cs:101-156 | within the `long` limit nothing changes; otherwise, for the excess computed as a wrapping `long`, exactly the images the LRU sweep removes are deleted, their access times dropped, and the index saved |
| Cache.CacheManager.EvictOldest | WallpaperChanger/Services/CacheManager.cs:117-147 | sweeps the history sorted by access time: returns the bytes freed and deletes exactly the swept paths and ids |
| Cache.CacheManager.EvictInOrder | WallpaperChanger/Services/CacheManager.cs:122-147 | the loop over a given order deletes exactly the images the sweep removes and counts their bytes |
| Cache.CacheManager.ClearCache | WallpaperChanger/Services/CacheManager.cs:248-277 | every listed file that can be deleted is deleted (the index too), the count is the number of files deleted, the access times are cleared, and only locked files remain |
| Cache.DeleteEach | WallpaperChanger/Services/CacheManager.cs:257-268 | the loop deletes every unlocked file and counts the deletions |
| Cache.SumImageBytes | WallpaperChanger/Services/CacheManager.cs:217-236 | the loop adds up the sizes of every file but the index |
| Cache.CollectHistory | WallpaperChanger/Services/CacheManager.cs:169-199 | the loop builds the history entry by entry, skipping the index |
| Cache.HistorySnoc | WallpaperChanger/Services/CacheManager.cs:171-193 | one more listed file adds its entry at the end of the history, unless it is the index |
| Cache.FirstMatch | WallpaperChanger/Services/CacheManager.cs:63-64 | `FirstOrDefault` over `{id}.*`: the first matching listed file, none exactly when no file matches |
| Cache.PathSetAppend | WallpaperChanger/Services/CacheManager.cs:171 | a listing grown by one file gains exactly its path |
| Cache.ClearStep | WallpaperChanger/Services/CacheManager.cs:257-268 | one turn of the clearing loop: a locked file is kept, another is deleted and counted |
| Cache.OnlyLockedRemain | WallpaperChanger/Services/CacheManager.cs:257-268 | after deleting every unlocked file only locked files remain |
| Cache.RemoveOneShorter | WallpaperChanger/Services/CacheManager.cs:261-262 | deleting one listed file shortens the listing by one |
| Cache.NotInPrefix | WallpaperChanger/Services/CacheManager.cs:257 | with distinct paths, a file's path does not appear before it in the listing |
| Downloader.MaxSizeInMbRendered | WallpaperChanger/Services/ImageDownloader.cs:114 | the size limit is rendered as "50" megabytes in the messages |
| Downloader.StreamStep | WallpaperChanger/Services/ImageDownloader.cs:198-220 | one read of the loop: the chunk is added and reported, and a total over the limit raises `FileTooLarge` with the bytes read, after the report |
| Downloader.ThenThen | WallpaperChanger/Services/ImageDownloader.cs:204-211 | reports made in turn accumulate in order |
| Downloader.Classify | WallpaperChanger/Services/ImageDownloader.cs:141-169 | a `WallpaperException` passes through as it is; a caller's cancellation becomes `DownloadFailed`, any other cancellation `Timeout`, a network failure `NetworkError`, anything else `DownloadFailed`, each with the image id as context |
| Downloader.Transient | WallpaperChanger/Services/ImageDownloader.cs:38-40 | the policy retries exactly `HttpRequestException` and `TaskCanceledException` |
| Downloader.Fetch | WallpaperChanger/Services/ImageDownloader.cs:172-225 | one download attempt: a refused request, a non-2xx status, an announced length over 50 MiB, or the stream read |
| Downloader.Stream | WallpaperChanger/Services/ImageDownloader.cs:191-223 | the read loop from a given point: each chunk is added and reported, a total over the limit raises, the end of the stream returns the bytes |
| Downloader.Stored | WallpaperChanger/Services/ImageDownloader.cs:110-139 | the `try` block after the download: classify a failure, check the size, compute the path, write the bytes and stamp the access time |
| Downloader.FaultsAsChained | WallpaperChanger/Services/ImageDownloader.cs:60-70 | the faults of the model are the ones the source builds with its chained `WithContext` calls |
| Downloader.StoredExtension | WallpaperChanger/Services/ImageDownloader.cs:120-124 | the URL's extension, or ".jpg" when it has none; never empty |
| Downloader.StreamResult | WallpaperChanger/Services/ImageDownloader.cs:191-223 | the read succeeds exactly when the stream ends and the bytes fit the limit, and then returns exactly the bytes received; more bytes than the limit, or a failing stream after them, fails with `FileTooLarge` |
| Downloader.StreamReports | WallpaperChanger/Services/ImageDownloader.cs:198-211 | progress is reported only with a listener and a known length, once per chunk, each report carrying the bytes received so far and the announced length |
| Downloader.FetchWithinCap | WallpaperChanger/Services/ImageDownloader.cs:214-219 | a completed download never holds more than the size limit |
| Downloader.FetchSucceeds | WallpaperChanger/Services/ImageDownloader.cs:172-225 | one download succeeds exactly when the server answers 2xx, announces no length over the limit, and the stream ends within the limit; it returns the bytes sent |
| Downloader.DeclaredLengthChecked | WallpaperChanger/Services/ImageDownloader.cs:182-189 | an announced length over the limit fails with `FileTooLarge` before anything is read |
| Downloader.RetriedBytes | WallpaperChanger/Services/ImageDownloader.cs:105-108 | a successful retried download returns the bytes of the final attempt, within the limit |
| Downloader.TooLargeNotRetried | WallpaperChanger/Services/ImageDownloader.cs:38-40 | a size failure is a `WallpaperException`, which the policy does not retry |
| Downloader.StoredFailureLeavesCache | WallpaperChanger/Services/ImageDownloader.cs:105-139 | a failed download or save leaves the files and access times as they were |
| Downloader.StoredSuccessWrites | WallpaperChanger/Services/ImageDownloader.cs:127-139 | a successful store returns the cache path, writes the downloaded bytes there and stamps the access time |
| Downloader.SizeCheckUnreachable | WallpaperChanger/Services/ImageDownloader.cs:111-117 | the size check after the download never fires: the stream's own check already refused such data |
| Downloader.ImageDownloader.constructor | WallpaperChanger/Services/ImageDownloader.cs:20-48 | the downloader holds the cache manager, the URL parser and the configured retry count |
| Downloader.ImageDownloader.Planned | WallpaperChanger/Services/ImageDownloader.cs:53-170 | the whole call: the argument checks as written, then the cache lookup and the download |
| Downloader.ImageDownloader.Refusal | WallpaperChanger/Services/ImageDownloader.cs:60-70 | the exception the argument checks throw: `InvalidImage` for an untrusted URL, else `InvalidImageId` for an id the check as written refuses |
| Downloader.ImageDownloader.Obtained | WallpaperChanger/Services/ImageDownloader.cs:72-139 | past the checks: a usable cached file, or the `try` block |
| Downloader.ImageDownloader.InvalidInputsRefused | WallpaperChanger/Services/ImageDownloader.cs:60-70 | an untrusted URL throws `InvalidImage`, else an id the check as written refuses throws `InvalidImageId`; nothing is downloaded or changed |
| Downloader.ImageDownloader.ValidInputsObtained | WallpaperChanger/Services/ImageDownloader.cs:72-139 | with valid inputs the plan is the cache lookup followed, on a miss, by the download |
| Downloader.ImageDownloader.CacheHitSkipsDownload | WallpaperChanger/Services/ImageDownloader.cs:73-93 | a cached image whose file exists is returned at once with its access time updated and no download |
| Downloader.ImageDownloader.FailureLeavesCache | WallpaperChanger/Services/ImageDownloader.cs:53-170 | whatever fails, the cache's files and access times are unchanged |
| Downloader.ImageDownloader.SuccessIsCached | WallpaperChanger/Services/ImageDownloader.cs:53-170 | a success returns the cache path for the id and extension, from valid inputs, which is then on disk, with the access time stamped |
| Downloader.ImageDownloader.DownloadTaken | WallpaperChanger/Services/ImageDownloader.cs:96-139 | whenever anything was fetched, the inputs were valid and the outcome is the download stored in the cache |
| Downloader.ImageDownloader.DownloadImage | WallpaperChanger/Services/ImageDownloader.cs:53-170 | the result, the new cache, the progress reports and the attempts are those of the download plan, with `2^r` seconds waited before each retry |
| Downloader.ImageDownloader.Obtain | WallpaperChanger/Services/ImageDownloader.cs:72-139 | the same, once the inputs are valid |
| Downloader.ImageDownloader.Lookup | WallpaperChanger/Services/ImageDownloader.cs:73-94 | the cache lookup: a hit is returned with the access time updated, a miss goes to the download |
| Downloader.ImageDownloader.DownloadAndStore | WallpaperChanger/Services/ImageDownloader.cs:96-139 | the download with retries followed by the store, with one attempt at least |
| Downloader.ImageDownloader.StoreDownload | WallpaperChanger/Services/ImageDownloader.cs:110-139 | a failed download is classified; otherwise the path is computed, the bytes written and the access time updated, each step's failure stopping there |
| Downloader.ImageDownloader.Save | WallpaperChanger/Services/ImageDownloader.cs:128-130 | the bytes are written at the path unless it is locked, and then the access time is stamped; nothing else changes |
| Downloader.ImageDownloader.DownloadWithProgress | WallpaperChanger/Services/ImageDownloader.cs:172-225 | one download attempt's result and reports are those of the reference definition |
| Downloader.ImageDownloader.ReadBody | WallpaperChanger/Services/ImageDownloader.cs:191-223 | the read loop's result and reports are those of the stream definition |
| Downloader.ImageDownloader.FetchWithRetry | WallpaperChanger/Services/ImageDownloader.cs:105-108 | the policy makes the final attempt's number plus one attempts, returns that attempt's result, collects every attempt's reports and waits `2^r` before retry `r` |
| Api.Caught | WallpaperChanger/Services/ApiClient.cs:135-159 | a `WallpaperException` passes through; a timeout becomes `Timeout`, a network failure `NetworkError`, malformed JSON `ApiError`, anything else `Unknown`, each with the image id as its only context |
| Api.FaultsAsChained | WallpaperChanger/Services/ApiClient.cs:58-60 | the faults of the model are those the source builds with its chained `WithContext` calls |
| Api.FormatIsExtension | WallpaperChanger/Services/ApiClient.cs:123 | the format is the URL's extension without its dot, empty when there is none |
| Api.InterpretSuccess | WallpaperChanger/Services/ApiClient.cs:77-132 | details are returned only for a 2xx answer whose first URL property is a non-empty trusted URL; they carry the id, that URL and its format |
| Api.Interpret | WallpaperChanger/Services/ApiClient.cs:77-159 | the `try` block on the final attempt's outcome: an exception is caught and wrapped, a failing status is `ApiError`, otherwise the details are read from the body |
| Api.ApiClient.constructor | WallpaperChanger/Services/ApiClient.cs:29-49 | the client keeps the URL parser, the configured retry count and the API timeout |
| Api.ApiClient.Planned | WallpaperChanger/Services/ApiClient.cs:54-160 | the whole call: an id the check as written refuses throws before any request; otherwise the final attempt's outcome, interpreted, and the number of requests |
| Api.ApiClient.InvalidIdNoRequest | WallpaperChanger/Services/ApiClient.cs:56-60 | an id the check as written refuses throws `InvalidImageId` before any request |
| Api.ApiClient.RetriesOnlyHandled | WallpaperChanger/Services/ApiClient.cs:39-48 | between 1 and `MaxRetries + 1` requests are made; every one but the last failed in a way the policy handles, and the last one too only when the retries ran out |
| Api.ApiClient.TimeoutNotRetried | WallpaperChanger/Services/ApiClient.cs:135-139 | a timeout is not handled by the policy: one request, and the error is `Timeout` |
| Api.ApiClient.FailingStatusExhaustsRetries | WallpaperChanger/Services/ApiClient.cs:77-82 | a server that keeps answering with a failing status gets `MaxRetries + 1` requests, and the last status is reported as `ApiError` with the numeric status code |
| Api.ApiClient.NetworkFailureExhaustsRetries | WallpaperChanger/Services/ApiClient.cs:140-144 | a network that keeps failing gets `MaxRetries + 1` requests and yields `NetworkError` |
| Api.ApiClient.SuccessDetails | WallpaperChanger/Services/ApiClient.cs:54-133 | success implies an id the check as written accepts and details read from the final request's answer |
| Api.ApiClient.BadUrlIsApiError | WallpaperChanger/Services/ApiClient.cs:105-117 | a missing, empty or untrusted URL in a successful answer yields `ApiError` |
| Api.ApiClient.GetImageDetails | WallpaperChanger/Services/ApiClient.cs:54-160 | the result and the number of requests are those of the plan, with `2^r` seconds waited before retry `r` |
| Configuration.DefaultDirectoryNotBlank | WallpaperChanger/Services/ConfigurationService.cs:132-136 | the default cache directory is never blank, so validation can always fall back to it |
| Configuration.ValidatedInRange | WallpaperChanger/Services/ConfigurationService.cs:146-178 | after validation the size is at least 10 MB, the download timeout within 10-300 s, the API timeout within 5-120 s, the retries within 0-10, and the cache directory is not blank |
| Configuration.ValidatedReplacesOnlyOutOfRange | WallpaperChanger/Services/ConfigurationService.cs:146-178 | each value is kept, or replaced by its default exactly because it was out of range; every other setting is untouched |
| Configuration.InRangeUnchanged | WallpaperChanger/Services/ConfigurationService.cs:146-178 | settings already in range are left as they are |
| Configuration.ValidatedIdempotent | WallpaperChanger/Services/ConfigurationService.cs:146-178 | validating twice is validating once |
| Configuration.DefaultsValid | WallpaperChanger/Services/ConfigurationService.cs:128-144 | the defaults are 500 MB, no start with Windows, notifications on, 60 s, 3 retries and 30 s, and they pass validation unchanged |
| Configuration.Defaults | WallpaperChanger/Services/ConfigurationService.cs:128-144 | the default settings: 500 MB, 60 s download timeout, 3 retries, 30 s API timeout, the cache under the local application data |
| Configuration.Validated | WallpaperChanger/Services/ConfigurationService.cs:146-178 | each out-of-range field replaced by its default, the others kept |
| Configuration.Loaded | WallpaperChanger/Services/ConfigurationService.cs:87-126 | loading: a missing file gives the defaults and saves them, an unreadable one keeps the settings and fails, a malformed one gives the defaults, a readable one its settings validated |
| Configuration.LoadedInRangeOrFails | WallpaperChanger/Services/ConfigurationService.cs:87-126 | loading either yields settings in range or throws `ConfigurationError`; a missing, malformed or null file yields the defaults |
| Configuration.NegativeValuesReplaced | WallpaperChanger/Services/ConfigurationService.cs:109-111 | a stored file with negative values loads with each replaced by its default |
| Configuration.SaveLoadRoundTrip | WallpaperChanger/Services/ConfigurationService.cs:60-126 | loading what was saved yields the validated settings, and settings in range come back exactly |
| Configuration.AppSettings.constructor | WallpaperChanger/Models/AppSettings.cs:6-42 | a settings object holds the given values |
| Configuration.ConfigurationService.constructor | WallpaperChanger/Services/ConfigurationService.cs:20-32 | a new service holds fresh default settings and keeps its file at `WallpaperChanger/appsettings.json` under the application data folder |
| Configuration.ConfigurationService.ValidateSettings | WallpaperChanger/Services/ConfigurationService.cs:146-178 | the settings object is updated in place to its validated value |
| Configuration.ConfigurationService.SaveSettings | WallpaperChanger/Services/ConfigurationService.cs:60-82 | the file holds the current settings, or, when it cannot be written, is unchanged and `ConfigurationError` is thrown |
| Configuration.ConfigurationService.LoadSettings | WallpaperChanger/Services/ConfigurationService.cs:87-126 | the new settings, the file and the error are those of the loading plan: defaults saved for a missing file or malformed JSON, defaults for a null document, validated settings otherwise, and an error when reading or the fallback save fails |
| Wallpaper.AppliedOutcomes | WallpaperChanger/Services/WallpaperService.cs:102-145 | `SetWallpaper` never returns false: a missing file throws `InvalidImage` without calling the system, a zero result or an exception of the call throws `SystemApiError`, and it succeeds exactly when the file exists and the call returns non-zero |
| Wallpaper.Applied | WallpaperChanger/Services/WallpaperService.cs:102-145 | `SetWallpaper`: a missing file is `InvalidImage`, a call that throws or returns 0 is `SystemApiError`, otherwise true |
| Wallpaper.CleanupLimitAsWritten | WallpaperChanger/Services/WallpaperService.cs:81 | the byte limit `MaxCacheSizeMb * 1024 * 1024` in wrapping `long` arithmetic, which the service uses |
| Wallpaper.CleanupLimit | WallpaperChanger/Services/WallpaperService.cs:81 | the byte limit the setting means, in unbounded arithmetic: the corrected half of the wrap-around finding |
| Wallpaper.LimitWrapsAsWritten | WallpaperChanger/Services/WallpaperService.cs:81 | a size setting that passes validation, 2^43 MB, makes the `long` limit wrap to the most negative value |
| Wallpaper.WrappedLimitKeepsCache | WallpaperChanger/Services/WallpaperService.cs:81-82 | with that limit the excess `currentSize - long.MinValue` wraps negative, so the cleanup deletes nothing, keeps the access times and only rewrites the index, however large the cache |
| Wallpaper.WrappedLimitEmptiesCache | WallpaperChanger/Services/WallpaperService.cs:81-82 | a setting of 2^44 - 1 MB also passes validation, its limit wraps to -1 MiB, and the cleanup then deletes every image however small the cache is |
| Wallpaper.CleanupLimitIsConfigured | WallpaperChanger/Services/WallpaperService.cs:81 | the intended limit is the setting times 1 MiB, at least 10 MiB for valid settings, and equals the computed one whenever the product fits a `long` |
| Wallpaper.CleanupKeepsConfiguredSize | WallpaperChanger/Services/WallpaperService.cs:80-82 | with the intended limit, the images within `long.MaxValue` bytes and every image deletable, the cleanup leaves at most the configured size |
| Wallpaper.CleanupOnlyAfterApply | WallpaperChanger/Services/WallpaperService.cs:63-85 | after a download, the result is never false; a failure leaves the cache as the download left it; a download failure is passed on; and success (with the cleanup, its excess wrapping as a `long`) happens exactly when the downloaded file exists and the system call succeeds |
| Wallpaper.DownloadStep | WallpaperChanger/Services/WallpaperService.cs:63-67 | the download step's path and cache are those of the download plan |
| Wallpaper.WallpaperService.constructor | WallpaperChanger/Services/WallpaperService.cs:30-42 | the service holds its API client, downloader, cache manager and configuration |
| Wallpaper.WallpaperService.SetWallpaper | WallpaperChanger/Services/WallpaperService.cs:102-145 | the outcome is the one the system call decides for a file that exists or not |
| Wallpaper.WallpaperService.SetWallpaperFromId | WallpaperChanger/Services/WallpaperService.cs:47-97 | a details failure is passed on with nothing changed; otherwise the outcome and the cache are the download's, then the apply step's and, on success, the cleanup's with the limit and the excess over it computed in wrapping `long` arithmetic; the result is never false |
| Wallpaper.WallpaperService.DownloadAndApply | WallpaperChanger/Services/WallpaperService.cs:62-85 | download, apply and cleanup in turn, as planned, the cleanup limit and the excess over it wrapping as a `long` |
| Wallpaper.WallpaperService.ApplyDownloaded | WallpaperChanger/Services/WallpaperService.cs:69-85 | the downloaded file is applied, and only on success the cache is cleaned with the limit `MaxCacheSizeMb * 1024 * 1024` computed as a wrapping `long`, and the excess over it wrapping too |
| Scheduler.DisabledLeavesNoTimer | WallpaperChanger/Services/SchedulerService.cs:38-46 | a disabled scheduler starts no timer, has no next rotation, and only the stop's null is announced |
| Scheduler.EnabledStartsClampedTimer | WallpaperChanger/Services/SchedulerService.cs:48-59 | an enabled scheduler runs a timer of the interval (raised to at least 1 minute) and announces the next rotation that many minutes from now |
| Scheduler.StartedTimerBounds | WallpaperChanger/Services/SchedulerService.cs:38-62 | a running timer's interval lies between one minute and `Int32.MaxValue` milliseconds; a timer runs exactly when the scheduler is enabled and nothing threw, and exactly when a next rotation is set, which is the last value announced |
| Scheduler.OverlongIntervalThrows | WallpaperChanger/Services/SchedulerService.cs:51-53 | an interval of 35792 minutes is more milliseconds than a `Timer` accepts: the constructor throws and no timer runs |
| Scheduler.Started | WallpaperChanger/Services/SchedulerService.cs:38-62 | `Start`: stop first; disabled leaves no timer; otherwise an interval of at least one minute, and a timer refused beyond `Int32.MaxValue` milliseconds |
| Scheduler.ElapsedKeepsInterval | WallpaperChanger/Services/SchedulerService.cs:98-101 | after a tick the next rotation is one interval, in minutes, after the tick |
| Scheduler.SourceOf | WallpaperChanger/Services/SchedulerService.cs:112 | an override source wins over the configured one |
| Scheduler.Eligible | WallpaperChanger/Services/SchedulerService.cs:119 | the valid images are exactly the history entries whose file exists |
| Scheduler.NonEmpty | WallpaperChanger/Services/SchedulerService.cs:146 | an id is used exactly when it is neither null nor empty |
| Scheduler.Target | WallpaperChanger/Services/SchedulerService.cs:115-149 | the id a rotation applies: a random eligible history entry, or the catalogue's random id; none when there is nothing to pick, the call fails or the id is empty |
| Scheduler.HistoryTargetIsEligible | WallpaperChanger/Services/SchedulerService.cs:115-130 | from history, no valid image means no rotation; a chosen id belongs to a history image whose file exists; and it is the picked valid image's id |
| Scheduler.ApiTarget | WallpaperChanger/Services/SchedulerService.cs:131-144 | from the API, rotation happens exactly when the random id call returns a non-empty id, which is then used, and the history plays no part |
| Scheduler.TargetNotEmpty | WallpaperChanger/Services/SchedulerService.cs:146-149 | the wallpaper is never asked for the empty id |
| Scheduler.HistoryAllEligible | WallpaperChanger/Services/SchedulerService.cs:117-119 | the history read from the directory only names files that exist, so the filter keeps it whole |
| Scheduler.AllPresentKept | WallpaperChanger/Services/SchedulerService.cs:119 | a filter that every element passes keeps the list as it is |
| Scheduler.Apply | WallpaperChanger/Services/SchedulerService.cs:148 | the wallpaper call never answers false |
| Scheduler.SchedulerService.constructor | WallpaperChanger/Services/SchedulerService.cs:24-36 | a new scheduler shares the services it is given, with no timer, no next rotation and nothing announced |
| Scheduler.SchedulerService.Stop | WallpaperChanger/Services/SchedulerService.cs:64-71 | the timer is gone, there is no next rotation, and null is announced |
| Scheduler.SchedulerService.Start | WallpaperChanger/Services/SchedulerService.cs:38-62 | the timer, next rotation, announcements and exception are those the start plan gives for the current settings |
| Scheduler.SchedulerService.UpdateConfiguration | WallpaperChanger/Services/SchedulerService.cs:73-88 | the three settings are updated; when the save fails it throws before the timer is touched; otherwise the settings are saved and the scheduler is started when enabled and stopped when not |
| Scheduler.SchedulerService.Rotate | WallpaperChanger/Services/SchedulerService.cs:110-150 | the id asked for is the target the source, the history, the random pick and the API answer determine; no target leaves the cache unchanged; the wallpaper call never answers false |
| Scheduler.SchedulerService.ForceRotation | WallpaperChanger/Services/SchedulerService.cs:152-156 | a manual rotation is a rotation with the given override source |
| Scheduler.SchedulerService.OnTimerElapsed | WallpaperChanger/Services/SchedulerService.cs:90-108 | a tick rotates from the configured source; unless the rotation threw, a running timer sets and announces the next rotation one interval after the tick; the timer itself stays |
| PyDict.GetFacts | image_cache_manager.py:244 | `in` on the dict holds exactly when `get` finds the key |
| PyDict.AssignFacts | image_cache_manager.py:123-129 | `d[k] = v` adds the key, maps it to the value and leaves every other key's value |
| PyDict.AssignPosition | image_cache_manager.py:298 | a new key is appended last; assigning to a present key keeps the key order as it was |
| PyDict.AssignDistinct | image_cache_manager.py:298 | assignment never duplicates a key |
| PyDict.DeleteFacts | image_cache_manager.py:138-140 | `del d[k]` removes that key and leaves every other key's value and entry |
| PyDict.DeleteDistinct | image_cache_manager.py:193-194 | deletion never duplicates a key |
| PyDict.DeleteAbsent | image_cache_manager.py:249-250 | deleting an absent key leaves the dict as it is |
| PyDict.DistinctIndices | image_cache_manager.py:57 | no key at two positions, stated both ways |
| PyDict.FirstOccurrence | image_cache_manager.py:178 | in the key list of a dict, every key is at its first occurrence |
| LegacyCache.RFind | image_cache_manager.py:156 | the index is -1 or holds the character, and no later position does: it is the last occurrence |
| LegacyCache.SplitExt | image_cache_manager.py:156 | the extension is empty or a dot-led suffix of the name |
| LegacyCache.SplitExtOfName | image_cache_manager.py:156 | for a separator-free name, `splitext` gives the text from the last dot, or nothing when only dots come before it |
| LegacyCache.LowerFacts | image_cache_manager.py:156 | lowering maps each character through the ASCII lower-case mapping, position by position |
| LegacyCache.LowerAppend | image_cache_manager.py:156 | lowering distributes over concatenation |
| LegacyCache.LowerKeepsPunctuation | image_cache_manager.py:156 | lowering neither adds nor removes separators or dots |
| LegacyCache.ImageFileByExtension | image_cache_manager.py:153-157 | a name is an image exactly when something other than dots precedes its last dot and the lowered text after it is a listed extension |
| LegacyCache.NoDotIsNotImage | image_cache_manager.py:153-157 | a name without a dot is never an image |
| LegacyCache.ImageFileHasListedExtension | image_cache_manager.py:153-157 | an image name, lowered, ends in one of the six listed extensions |
| LegacyCache.UpperCaseExtensionIsImage | image_cache_manager.py:156 | the check ignores case: "A.JPG" is an image |
| LegacyCache.BareExtensionIsNotImage | image_cache_manager.py:156 | a dot file such as ".jpg" has no extension and is not an image |
| LegacyCache.IsImageFile | image_cache_manager.py:153-157 | `_is_image_file`: the lower-cased `splitext` extension is one of the image extensions |
| LegacyCache.TrailingExtensionCounts | image_cache_manager.py:156 | only the last extension counts: "a.jpg.c" is not an image |
| LegacyCache.KindExamples | image_cache_manager.py:127 | orphans named with the thumbnail prefix are recorded as thumbnails, others as images |
| LegacyCache.TotalSizeDelete | image_cache_manager.py:165 | removing one entry lowers the summed size by exactly that entry's size |
| LegacyCache.NoKeysEmpty | image_cache_manager.py:54-57 | a dictionary without keys is empty |
| LegacyCache.SaveSound | image_cache_manager.py:90-97 | saving keeps the cache's bookkeeping sound: no duplicate names, and the metadata and the LRU order have the same keys |
| LegacyCache.AccessTimes | image_cache_manager.py:78-79 | the LRU built from the metadata has the metadata's keys, in the same order |
| LegacyCache.AccessTimesAppend | image_cache_manager.py:78-79 | one more metadata entry adds one LRU entry with its last-access time |
| LegacyCache.Loaded | image_cache_manager.py:69-88 | `_load_metadata` on empty maps: no file changes nothing, an unreadable file leaves both maps empty, a readable one gives its metadata and the names stably sorted by last access |
| LegacyCache.LoadedSound | image_cache_manager.py:69-88 | loading into an empty state keeps it sound, and a metadata file that was read gives an LRU sorted by last access, oldest first |
| LegacyCache.SortedAccessOrder | image_cache_manager.py:77-84 | the LRU order loaded from saved metadata is a dictionary over the same names, sorted by last access, oldest first |
| LegacyCache.SaveThenLoad | image_cache_manager.py:69-97 | when the file can be written, loading what was saved gives back the metadata |
| LegacyCache.EvictSound | image_cache_manager.py:186-194 | removing one file with its metadata and LRU entry keeps the state sound |
| LegacyCache.SweepByTurns | image_cache_manager.py:178-196 | the eviction loop is one turn per LRU name, stopping once enough bytes are removed |
| LegacyCache.Sweep | image_cache_manager.py:178-196 | the eviction loop over a snapshot of the LRU names: stop once enough is freed, skip the metadata file and missing files, end on a missing entry or a failed deletion |
| LegacyCache.SweepSound | image_cache_manager.py:178-196 | the eviction loop keeps the state sound |
| LegacyCache.SweepRemovesTogether | image_cache_manager.py:178-196 | the loop removes a name from the metadata exactly when it removes its file, never the metadata file, and leaves the stored file alone |
| LegacyCache.SweepSkipsMissing | image_cache_manager.py:187 | a name whose file is absent keeps its metadata and LRU entry |
| LegacyCache.SweepFromFront | image_cache_manager.py:159-200 | when every tracked file can be removed, the loop drops a prefix of the LRU order and ends within the limit or with nothing left |
| LegacyCache.EnforcedFits | image_cache_manager.py:165-169 | a cache within the limit is left as it is; otherwise the oldest entries go first until it fits or is empty |
| LegacyCache.Enforced | image_cache_manager.py:159-200 | `_enforce_cache_size_limit`: nothing within the limit, otherwise the sweep has to free the excess |
| LegacyCache.SweepEvictsInOrder | image_cache_manager.py:178-196 | of two names the loop can remove, the later one in the LRU order is evicted only if the earlier one is too |
| LegacyCache.EvictOther | image_cache_manager.py:189-194 | evicting one name leaves every other name's file and metadata |
| LegacyCache.InOrderTail | image_cache_manager.py:178 | two first occurrences keep their order in the tail of the name list |
| LegacyCache.OrphansListed | image_cache_manager.py:116-133 | the orphans adopted are listed image files, the orphans deleted are listed non-image files |
| LegacyCache.OrphansCover | image_cache_manager.py:106-118 | every listed name other than the metadata file and the known names is an orphan of one kind or the other |
| LegacyCache.AdoptedSound | image_cache_manager.py:123-129 | adopting one orphan keeps the state sound |
| LegacyCache.AdoptSound | image_cache_manager.py:116-133 | the orphan pass keeps the state sound |
| LegacyCache.AdoptAborts | image_cache_manager.py:131-132 | the orphan pass stops with an exception exactly when it meets a non-image orphan whose file cannot be removed |
| LegacyCache.AdoptChanges | image_cache_manager.py:116-133 | when it completes, the image orphans gain metadata and LRU entries and the other orphans' files are removed |
| LegacyCache.AdoptKeeps | image_cache_manager.py:116-133 | a name that is no image orphan keeps its metadata and LRU entry through the orphan pass |
| LegacyCache.AdoptSets | image_cache_manager.py:122-129 | a completed pass records each image orphan with its file size, the current instant twice and its kind, and stamps it in the LRU |
| LegacyCache.AdoptEntries | image_cache_manager.py:116-133 | each name's metadata after the orphan pass: unchanged unless it is an image orphan, the fresh record if it is |
| LegacyCache.ForgetSound | image_cache_manager.py:138-140 | dropping a missing file's metadata and LRU entry keeps the state sound |
| LegacyCache.DropMissingEntries | image_cache_manager.py:136-141 | exactly the names known but not on disk lose their metadata and LRU entry; the files stay |
| LegacyCache.DropMissingSound | image_cache_manager.py:136-141 | the missing-file pass keeps the state sound |
| LegacyCache.ReconciledSound | image_cache_manager.py:104-141 | reconciling keeps the state sound, and it throws exactly when a non-image orphan cannot be removed |
| LegacyCache.ReconciledEntries | image_cache_manager.py:104-141 | after a completed reconciliation a name has metadata exactly when its file is there; known files keep theirs, missing ones lose it, image orphans are recorded and other orphans are deleted |
| LegacyCache.EnforcedSound | image_cache_manager.py:159-200 | enforcing the limit keeps the state sound |
| LegacyCache.EnforcedConsistent | image_cache_manager.py:159-200 | enforcing the limit keeps the metadata in step with the files on disk |
| LegacyCache.SaveConsistent | image_cache_manager.py:90-97 | saving keeps the metadata in step with the files on disk |
| LegacyCache.ValidatedSound | image_cache_manager.py:99-151 | validation keeps the state sound, and when the directory can be listed and no orphan is stuck, it leaves the metadata naming exactly the files besides the metadata file |
| LegacyCache.Validated | image_cache_manager.py:99-151 | `_validate_cache`: nothing when the directory cannot be listed; a failed deletion ends it; otherwise the reconciled maps are cut to the limit and saved |
| LegacyCache.AccessedSound | image_cache_manager.py:244-251 | restamping a tracked name keeps the state sound and the names and files the same |
| LegacyCache.TouchedMovesToEnd | image_cache_manager.py:236-258 | an access moves the name to the end of the LRU order with the new time, restamps its metadata, and leaves other names and files alone |
| LegacyCache.TouchedAbsent | image_cache_manager.py:244 | an access to an untracked name changes nothing |
| LegacyCache.TouchedSound | image_cache_manager.py:236-258 | an access keeps the state sound and the metadata in step with the files |
| LegacyCache.Touched | image_cache_manager.py:236-258 | `_update_access_time`: a tracked name gets the present instant and moves to the end of the LRU order, with a save whenever the LRU length is a multiple of ten; anything else changes nothing |
| LegacyCache.LookupFacts | image_cache_manager.py:202-217 | a path comes back exactly when the file is there, joined to the cache directory, and then the access is recorded; otherwise nothing changes |
| LegacyCache.Record | image_cache_manager.py:290-298 | the corrected record of a download: fresh metadata, and the name moved to the end of the LRU order even when a stale entry is there |
| LegacyCache.Saving | image_cache_manager.py:281-304 | after the body arrived, corrected: the file is written unless locked, then recorded with the corrected record, saved, and the limit enforced |
| LegacyCache.RecordPlacesLast | image_cache_manager.py:290-298 | the corrected record of a download puts its name last in the LRU order and leaves other names alone |
| LegacyCache.RecordSound | image_cache_manager.py:290-298 | the corrected record keeps the state sound, and in step with the files once the file is written |
| LegacyCache.RecordAsWritten | image_cache_manager.py:290-298 | the record of a download as written: fresh metadata, and the LRU entry assigned where it stands |
| LegacyCache.RecordAsWrittenSound | image_cache_manager.py:290-298 | the record as written, by plain assignment, keeps the state sound too, and in step with the files once the file is written |
| LegacyCache.NewestEvictedLast | image_cache_manager.py:297-304 | with the download placed last, it is evicted only after every other removable tracked file |
| LegacyCache.LastEvictedLast | image_cache_manager.py:178-196 | the last name in the LRU order is evicted only after every other removable name |
| LegacyCache.AsWrittenEvictsFreshDownload | image_cache_manager.py:298 | as written, re-downloading a name that still sits first in the LRU keeps it first, so a cache over the limit evicts the file it just downloaded |
| LegacyCache.SavingAsWritten | image_cache_manager.py:281-304 | after the body arrived, as written: the file is written unless locked, then recorded as written, saved, and the limit enforced |
| LegacyCache.Fetched | image_cache_manager.py:260-310 | `download_image` and `download_thumbnail`: a cached file as `get_image_path` returns it; a failed request or an unwritable file gives nothing; otherwise the stored file's path, with the state as written |
| LegacyCache.FetchedFacts | image_cache_manager.py:260-310 | a cached name is looked up; a failed request or a file that cannot be written gives no path and no change; otherwise the path in the cache directory comes back |
| LegacyCache.ClearFromFacts | image_cache_manager.py:475-481 | the deletion loop throws exactly when a listed file other than the metadata file cannot be removed; it removes every other listed file, keeps the metadata file and does not touch the dictionaries |
| LegacyCache.ClearedFacts | image_cache_manager.py:471-492 | clearing leaves only the metadata file, empty dictionaries and an empty saved file; when a removal throws, the dictionaries stay as they were |
| LegacyCache.Cleared | image_cache_manager.py:471-492 | `clear_cache`: nothing when the directory cannot be listed; every listed file but the metadata file is deleted, and a failed deletion ends it with the maps untouched; otherwise both maps are emptied and saved |
| LegacyCache.KindsPartition | image_cache_manager.py:503-504 | every entry is an image or a thumbnail |
| LegacyCache.Stats | image_cache_manager.py:494-516 | the image and thumbnail counts add up to the number of entries, and the size is the entries' total |
| LegacyManager.CollectAccessTimes | image_cache_manager.py:78-79 | the loop builds the LRU from the metadata, name by name |
| LegacyManager.ImageCacheManager.constructor | image_cache_manager.py:26-67 | the limit is the megabytes times 1024 * 1024, and the state is the persisted file loaded and then validated |
| LegacyManager.ImageCacheManager.LoadMetadata | image_cache_manager.py:69-88 | the state becomes the loaded one and the disk is untouched |
| LegacyManager.ImageCacheManager.SaveMetadata | image_cache_manager.py:90-97 | the state becomes the saved one |
| LegacyManager.ImageCacheManager.ValidateCache | image_cache_manager.py:99-151 | the state becomes the validated one |
| LegacyManager.ImageCacheManager.EnforceCacheSizeLimit | image_cache_manager.py:159-200 | the state becomes the one with the limit enforced |
| LegacyManager.ImageCacheManager.SweepName | image_cache_manager.py:179-194 | one loop turn: the state, bytes removed and whether to stop are the turn's |
| LegacyManager.ImageCacheManager.UpdateAccessTime | image_cache_manager.py:236-258 | the state becomes the accessed one |
| LegacyManager.ImageCacheManager.GetImagePath | image_cache_manager.py:202-217 | the path and the state are the lookup's |
| LegacyManager.ImageCacheManager.GetThumbnailPath | image_cache_manager.py:219-234 | the path and the state are the lookup's for the thumbnail name |
| LegacyManager.ImageCacheManager.CachedFile | image_cache_manager.py:202-217 | the lookup both path getters share: an existing file gets its access recorded and its path returned, otherwise nothing |
| LegacyManager.ImageCacheManager.Store | image_cache_manager.py:281-304 | writing succeeds exactly when the file is not locked, and the state is the saved download's as written: the LRU entry is assigned in place, so a stale entry keeps its position |
| LegacyManager.ImageCacheManager.Download | image_cache_manager.py:260-310 | the download both public methods share: the path and the state are the download's, recorded as written |
| LegacyManager.ImageCacheManager.DownloadImage | image_cache_manager.py:260-310 | the path and the state are the image download's, recorded as written |
| LegacyManager.ImageCacheManager.DownloadThumbnail | image_cache_manager.py:312-373 | the path and the state are the thumbnail download's, under the thumbnail name, recorded as written |
| LegacyManager.ImageCacheManager.ClearCache | image_cache_manager.py:471-492 | the state becomes the cleared one |
| LegacyManager.ImageCacheManager.GetCacheStats | image_cache_manager.py:494-516 | the statistics are those of the current metadata |
| DirectWallpaper.ExtractImageId | direct_wallpaper.py:20-44 | no id exactly when the argument is missing or empty; any id ends in `.jpg`, `.png` or `.jpeg`, ignoring case |
| DirectWallpaper.StrippedPattern | direct_wallpaper.py:38-41 | after `strip`, the pattern's allowance for a final newline never applies: it matches exactly the ids ending in an extension |
| DirectWallpaper.AppendedExtension | direct_wallpaper.py:41-42 | appending ".jpg" always gives a recognised extension |
| DirectWallpaper.StripPadded | direct_wallpaper.py:38 | `strip` removes exactly the whitespace around a trimmed id |
| DirectWallpaper.KnownExtensionKept | direct_wallpaper.py:34-44 | a prefixed link whose id ends in a recognised extension gives that id, without the surrounding whitespace |
| DirectWallpaper.OtherIdGetsJpg | direct_wallpaper.py:34-44 | any other prefixed id, the empty one included, gets ".jpg" appended |
| DirectWallpaper.UnprefixedId | direct_wallpaper.py:34-44 | an argument without the prefix is treated the same way |
| DirectWallpaper.NotEndingInG | direct_wallpaper.py:41 | an id whose last character is no `g` of either case has no recognised extension |
| DirectWallpaper.PrefixRemovedOnce | direct_wallpaper.py:34-35 | only one prefix is removed: a doubled prefix leaves the second as the id |
| DirectWallpaper.BarePrefix | direct_wallpaper.py:34-44 | the bare prefix yields ".jpg", not `None` |
| DirectWallpaper.UnprefixedGetsJpg | direct_wallpaper.py:41-42 | a trimmed unprefixed id without a recognised extension gets ".jpg" appended |
| DirectWallpaper.UnknownExtensionExample | direct_wallpaper.py:41-42 | "a.gif" becomes "a.gif.jpg" |
| DirectWallpaper.CapitalExtensionExample | direct_wallpaper.py:34-42 | a capitalised extension is recognised, and the space and newline around the id are removed |
| Form1.FirstSegment | WallpaperChanger/Form1.cs:113 | the piece is a prefix of the text free of `&`, `?`, `#` and space, ending at the first of them or at the end |
| Form1.FirstSegmentUnique | WallpaperChanger/Form1.cs:113 | any prefix with those properties is the first piece |
| Form1.CutAtTerminator | WallpaperChanger/Form1.cs:113 | an id followed by a separator is cut back to the id |
| Form1.ProtocolImageId | WallpaperChanger/Form1.cs:96-120 | there is no id exactly when the prefix occurs nowhere in the link |
| Form1.LeadingPrefixVerbatim | WallpaperChanger/Form1.cs:101-104 | with the prefix at the start, the id is the rest of the link, uncut |
| Form1.EmbeddedPrefixCut | WallpaperChanger/Form1.cs:107-113 | with the prefix first found later, the id is the text after it up to the first separator |
| Form1.EmbeddedIdExample | WallpaperChanger/Form1.cs:107-113 | a browser link with a query after the id gives just the id |
| Form1.GetImageUrl | WallpaperChanger/Form1.cs:161-192 | fails exactly when `Json.UrlProperty` fails: a body that does not parse, a root that is not an object, or a first present URL field that is neither a string nor null; a null or absent field reads as "" |
| Form1.GetImageUrlFirstPresent | WallpaperChanger/Form1.cs:173-184 | the first of `path`, `url` and `thumbnailUrl` that is present decides: its text, the empty string for null, an exception otherwise |
| Form1.GetImageUrlNone | WallpaperChanger/Form1.cs:186-191 | with none of the three fields, the URL is the empty string |
| Form1.ImageExtension | WallpaperChanger/Form1.cs:197-201 | the extension is a dot and at least one more character, without separators or further dots; it is ".jpg" or ends the URL |
| Form1.LocalPath | WallpaperChanger/Form1.cs:194-203 | the file `DownloadImage` writes: the cache directory joined with the id and the extension |
| Form1.LocalPathNames | WallpaperChanger/Form1.cs:203 | the file's name is the id followed by the extension, and for a dot-free id its stem is the id |
| Form1.Planned | WallpaperChanger/Form1.cs:128-159 | `DownloadAndSetWallpaper`: a failed details request or URL read, an empty URL, a failed download or a locked file ends it; otherwise the file is written and applied |
| Form1.AppliedExactlyWhenWritten | WallpaperChanger/Form1.cs:128-159 | the wallpaper is applied exactly when the details gave a non-empty URL, the image arrived and its file could be written; then the bytes are written at the local path and the applied path is that path |
| Form1.EmptyUrlStops | WallpaperChanger/Form1.cs:136-140 | an empty URL ends the request before any download or write |
| Form1.MainForm.constructor | WallpaperChanger/Form1.cs:32-46 | the form keeps the cache directory and volume it is given |
| Form1.MainForm.DownloadAndSetWallpaper | WallpaperChanger/Form1.cs:128-159 | the outcome is the planned one, and the image file is written exactly when the outcome is applied |
| Form1.MainForm.ProcessProtocolUrl | WallpaperChanger/Form1.cs:96-126 | a link without the prefix is refused with nothing written; otherwise the outcome and the written file are those planned for its id |


## Left out

- Asynchrony, `SemaphoreSlim`, cancellation tokens and timer threads: each operation runs to completion, one after another. A timer is the interval it was started with, and a tick is a call to `OnTimerElapsed`.
- Logging (`IAppLogger`, `FileLogger`, Python `logging`): it changes no state that the model tracks.
- HTTP transport (`HttpClient`, `requests`): each attempt's response is a given value, looked up by URL and attempt number. Retry delays are computed as `2^n` seconds and recorded, never slept.
- JSON libraries: a details response is a `Json.Document`, and a settings file is what deserialising it yields. The Python metadata file is the `Stored` value that `json.load` would give; its byte size is not modelled.
- Image compression in PIL (`_compress_image`, `compress_existing_thumbnails` and the compression step of `download_thumbnail`): `DownloadThumbnail` takes the compressed bytes as a parameter.
- The system wallpaper call (`SystemParametersInfo`): in the wallpaper service its integer result or exception is a parameter of `Wallpaper.Applied`. `Form1`'s own `SetWallpaper` (WallpaperChanger/Form1.cs:215-225) is modelled as a boolean parameter of `Form1.Planned`, so a throw from that call is not expressed there. It would reach the catch at Form1.cs:155-158 and change only the notification text, which is not modelled.
- URL and path parsing by the platform (`Uri.TryCreate`, `Path.GetFullPath`, the illegal-character sets): these are parameters.
- Random choices: the history index and the result of `GetRandomImageIdAsync` are parameters. That method is only declared in `IApiClient.cs`.
- Clocks: `DateTime.Now`, `DateTime.UtcNow` and `datetime.now()` are a `now` parameter in integer ticks. ISO-format timestamps compare as their instants do.
- One `now` per operation: the Python code reads the clock several times within one operation, and the model uses a single instant for all of them.
- Paths.GetFileName: it takes everything after the last separator and ignores the path root, which `Path.GetFileName` never cuts into. So `C:file` gives `C:file` where .NET gives `file`. The cache applies it only to paths listed from its own directory, which are fully qualified.
- Validation.IsValidFilePath: its file-name check uses `Paths.GetFileName` too, so for a drive-relative path such as `C:image.jpg` the check also sees the drive's `:`. The source checks only `image.jpg`.
- `DateTime` range limits: adding minutes is unbounded, so `DateTime.MaxValue` overflow is not modelled.
- Directory creation (`Directory.CreateDirectory`, `os.makedirs`): the directory is taken to exist.
- File names compare exactly. Windows's case-insensitive names are not modelled.
- Writes are atomic: a write either stores the whole content or throws. The partial file a failed streamed write can leave behind is not modelled.
- Python set iteration order: the orphaned and missing files of `_validate_cache` are visited in listing order. That order decides only which exception is met first.
- `os.path.join` is `Paths.Combine`. Names containing separators are not given special meaning.
- Case folding: Python's `lower()` and `re.IGNORECASE`, and the .NET host comparison with `StringComparison.OrdinalIgnoreCase` (WallpaperChanger/Services/ValidationService.cs:71-72), are modelled for ASCII letters only. The allowed host `aiwp.me` is plain ASCII.
- .NET `StartsWith(string)` and `IndexOf(string)` (WallpaperChanger/Form1.cs:101, 109) compare with the current culture by default. The model compares ordinally. `Contains(string)` (Form1.cs:107) is ordinal in .NET as well, so there the model matches the source exactly.
- Float fields: the megabyte values of `get_cache_stats` (image_cache_manager.py:508, 512) are left out; the integer fields are modelled.
- `metadata_file` is fixed at its default name, and `cache_dir` is a parameter of the constructor.
- Python `cleanup` (image_cache_manager.py:518-525) only saves the metadata, which is `SaveMetadata`.
- `ProcessCommandLineArgument` (WallpaperChanger/Form1.cs:51-57) only forwards a non-empty argument to `ProcessProtocolUrl`.
- `Form1` notifications, its tray icon and `ShowNotification` are not modelled. Neither is the fetch of the details URL (WallpaperChanger/Form1.cs:21, 165-166): the details response and the image bytes are parameters.
- `SchedulerService.Dispose` (WallpaperChanger/Services/SchedulerService.cs:158-161) only stops the timer, which `Stop` models.
- Settings fields: `AppSettings.cs` declares only seven properties. `SchedulerService.cs` reads three more, which `Configuration.Settings` adds: `IsSchedulerEnabled`, default false; `SchedulerIntervalMinutes`, default 0; `RotationSource`, default API.
- Scheduler.Apply: states only that the wallpaper service stays valid and never answers false. How the call changes the cache is stated by `Wallpaper.WallpaperService.SetWallpaperFromId`, and repeating it through the scheduler's frames is not done.
- Scheduler.SchedulerService.Rotate: states which id is asked for, and that the answer is never false. It does not restate the wallpaper service's effect on the cache when an id is asked for, for the same reason.
- LegacyManager.ImageCacheManager.LoadMetadata: requires empty dictionaries, which is how the constructor, its only caller, reaches it.
- LegacyCache.Loaded: a metadata file with an entry that has `last_accessed` but lacks `size` or `type` is treated like an unreadable file, so both maps start empty. Python loads such an entry and keeps it; its missing `size` later raises a `KeyError` inside `_enforce_cache_size_limit`, which catches it. The model's entries always carry all four fields, and a partial entry would need every operation on the metadata to handle the missing fields.
- LegacyManager.ImageCacheManager.constructor: loads through `LegacyCache.Loaded`, so a metadata file with entries lacking `size` or `type` starts from empty maps, where Python keeps those entries.
- LegacyManager.ImageCacheManager.LoadMetadata: its state is `LegacyCache.Loaded`'s, with the same treatment of entries lacking `size` or `type`.
- Cache.CacheManager.GetCacheSize: the total is an unbounded sum, where the source adds in `long`. It could wrap only above `long.MaxValue` bytes (8 EiB) of images, and the same holds for the running `bytesRemoved`, so the cleanup lemmas that need the total in range require it.
- LegacyManager.ImageCacheManager.constructor: requires the persisted entries to have distinct names, as any dict that `json.load` returns does.
- Test expectations that contradict the code follow the code, in each of these cases:
  - the two files a 700 KB cleanup deletes (WallpaperChanger.Tests/Services/CacheManagerTests.cs:119-145);
  - the access-time file left by `ClearCacheAsync` (CacheManagerTests.cs:253-254);
  - `ApiError` for an untrusted URL (WallpaperChanger.Tests/Services/ApiClientTests.cs:111-112);
  - the unset `FileSize` (ApiClientTests.cs:83).
- `api_client.py`, `wallpaper_manager.py`, `gui.py`, `main.py`, the UI controls and `Program.cs` are not part of this model: they are the user interface and process plumbing around the core.

## Findings

In each row the services keep the code's behaviour: the C# cache manager, downloader, API client and wallpaper service and the Python cache manager call the as-written definitions, so their contracts state what the code does. Each corrected definition sits beside its as-written one, and the intended property is proved about it.

| source | as written | input that shows it | evidently intended | confidence | as-written member | corrected member |
|---|---|---|---|---|---|---|
| WallpaperChanger/Services/ValidationService.cs:16 | the id pattern ends in `$`, which in .NET also matches just before a final newline | `"abc\n"` is accepted as an image id | 1 to 50 characters, each a letter, digit, `-` or `_`, as the documentation and tests describe; the two checks agree on every id not ending in a newline | not executed | Validation.TrailingNewlineAccepted | Validation.AsWrittenAgreesWithoutTrailingNewline |
| WallpaperChanger/Models/DownloadProgress.cs:21 | the percentage is `(int)((received * 100) / total)` in 64-bit arithmetic with a 32-bit cast | 2 of 1 bytes reads 200; a complete download of 2147483648 of 1 bytes reads 0 | a percentage between 0 and 100 that reads 100 once the download is complete | not executed | Progress.CompleteReadsZero | Progress.ProgressPercentage |
| WallpaperChanger/Services/WallpaperService.cs:81 | the byte limit `MaxCacheSizeMb * 1024 * 1024` is computed in `long`, which wraps | a setting of 2^44 - 1 MB passes validation; the limit wraps to -1 MiB and the cleanup deletes every image. At 2^43 MB the limit wraps to `long.MinValue` and the excess wraps too, so nothing is ever deleted | the configured size in bytes, under which the cleanup keeps the cache | not executed | Wallpaper.WrappedLimitEmptiesCache | Wallpaper.CleanupKeepsConfiguredSize |
| image_cache_manager.py:298 | a download sets `lru_cache[image_id] = now`, and assigning to a present key keeps its place in the `OrderedDict` | a name still in the LRU order but whose file is gone, first in that order, re-downloaded into a cache over the limit, is evicted at once | the new download goes to the end of the LRU order, as `_update_access_time` does, so it is evicted only after every older entry | not executed | LegacyCache.AsWrittenEvictsFreshDownload | LegacyCache.NewestEvictedLast |
