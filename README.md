# SmoothSlideshow core, modelled in Dafny

SmoothSlideshow is a Qt image viewer with two parts:

- **A thumbnail browser.** It shows a grid of pages. A background `ThumbnailLoader` fills the grid. The loader works on the visible page first. It keeps a disk cache of thumbnails, records it in `cache_metadata.json`, and trims it in least-recently-used order.
- **A slideshow.** It cross-fades between full images. A background `ImageCacheLoader` prefetches those images through a short FIFO queue.

`ConfigManager` holds the settings. It validates them when it loads `config.json`.

## Modules

Each class that updates its fields in place is a Dafny `class` with the same fields. Its methods carry `modifies`. Each method is proved against a specification function, and lemmas prove what the source promises about that function.

| Module | File | Contents |
|---|---|---|
| `Wrappers`, `Media`, `Json`, `Sorting` | `common.dfy` | `Option`; image sizes; the part of `QJsonObject` that load and save use; a total preorder and a sort specification. |
| `ThumbnailCache` | `thumbnail_cache.dfy` | Cache file paths; metadata JSON encode and decode; byte totals; the LRU eviction function and its lemmas. |
| `ThumbnailScheduler` | `thumbnail_scheduler.dfy` | The priority order of `process()` (current page first); one visit, which is a hit or a regeneration; the walk over the order, which stops on abort or a restart condition. |
| `ThumbnailWorker` | `thumbnail_loader.dfy` | `class ThumbnailLoader` with its shared fields, its metadata map, and the cache directory as a map from file to size. |
| `Prefetch` | `prefetch.dfy` | `class ImageCacheLoader`: the request queue, its drop rule, and `run()`. |
| `Config` | `config.dfy` | `class ConfigManager`: defaults, load with per-field checks, save, setters. |
| `Slideshow` | `slideshow.dfy` | `class SlideshowWidget`: start, stop, pause and resume; next and previous; matching arrived images against the awaited ones; the fade step. |
| `Grid` | `grid.dfy` | `class MainWindow`: pagination geometry, page display, thumbnail placement, page navigation, folder population. |

Some inputs come from outside the model. Each is a parameter of the member that uses it:

- file existence, modification times and image decoding: `World`, `Reader`;
- SHA-256: `Layout.sha256`;
- the folder scan and `std::shuffle`;
- whether a file can be opened or removed;
- the clock value `now`;
- the values other threads write while the worker walks: `live: nat -> Live`;
- the interruption checks of `run()`: `interrupt: nat -> bool`.

## Behaviour worth noting

Each point below is what the code does, and the model does the same.

- **Prefetch queue size.** `requestImage` drops the oldest request only when the queue already holds more than five (`src/ImageCacheLoader.cpp:9`). So a sixth request is kept, and the queue can hold six (`Prefetch.SixthRequestIsKept`).
- **Metadata on a failed save.** A regenerated thumbnail's metadata entry is recorded whatever `img.save` returns (`src/ThumbnailLoader.cpp:145-151`). Its size is then the size of whatever file is at that path, or 0.
- **Eviction ties.** `cleanCache` sorts by last access alone (`src/ThumbnailLoader.cpp:231`). The order among entries with equal access times is not fixed, so the model proves the LRU property for any order sorted by access time (`ThumbnailCache.EvictLru`).

## Model

| member | source | states |
|---|---|---|
| ThumbnailCache.FromHexToHex | src/ThumbnailLoader.cpp:177-180 | Decoding the lower-case hex text of a digest gives the digest back, so the text loses no information. |
| ThumbnailCache.CacheFilePath | src/ThumbnailLoader.cpp:177-180 | The cache path is the cache directory, "/", 64 hex characters, then ".thumb": its length is the directory's length plus 71. |
| ThumbnailCache.CacheFilePathInjective | src/ThumbnailLoader.cpp:177-180 | Two digests give the same cache file path if and only if they are equal. |
| ThumbnailCache.CachePathIsNotMetadataPath | src/ThumbnailLoader.cpp:17-18 | No image's thumbnail file can coincide with cache_metadata.json in the same directory. |
| ThumbnailCache.TruncateToInt | src/ThumbnailLoader.cpp:190-192 | The (qint64) cast of a double rounds toward zero: it is below x by less than 1 for x >= 0, and above x by less than 1 for x < 0. |
| ThumbnailCache.DecodeEncodeEntry | src/ThumbnailLoader.cpp:188-206 | Reading back the JSON object that save writes for an entry gives the same four fields. |
| ThumbnailCache.EncodeAll | src/ThumbnailLoader.cpp:200-208 | The saved root object has exactly the metadata's keys. |
| ThumbnailCache.DecodeAll | src/ThumbnailLoader.cpp:186-195 | The decoded metadata has exactly the root object's keys. |
| ThumbnailCache.LoadedFrom | src/ThumbnailLoader.cpp:182-197 | An unopenable file leaves the metadata unchanged. Otherwise the keys become the old keys plus the file's keys, and every key not in the file keeps its entry. |
| ThumbnailCache.SaveLoadRoundTrip | src/ThumbnailLoader.cpp:182-214 | Loading what save wrote, into an empty map, restores the metadata exactly. |
| ThumbnailCache.SaveLoadOver | src/ThumbnailLoader.cpp:182-214 | Loading a saved file over existing metadata gives the old map overridden by the saved one. |
| ThumbnailCache.TotalBytesRemove | src/ThumbnailLoader.cpp:242-243 | Removing an entry takes exactly its size off the total. |
| ThumbnailCache.TotalBytesAdd | src/ThumbnailLoader.cpp:223-225 | Adding a new entry adds exactly its size to the total. |
| ThumbnailCache.Restrict | src/ThumbnailLoader.cpp:223-226 | The part of a map already summed (or, for load, already read) holds exactly the keys in both the map and the given set. |
| ThumbnailCache.EvictStep | src/ThumbnailLoader.cpp:235-245 | One cleanup step above 90 % handles the next item in either of two ways. If its file can be removed, the entry, its file and its bytes go. If not, the item is skipped and nothing changes. |
| ThumbnailCache.EvictOnlyRemoves | src/ThumbnailLoader.cpp:235-245 | Cleanup only removes: every entry and file that remains is unchanged. Every file that is gone belonged to an entry that is gone. |
| ThumbnailCache.EvictAccounting | src/ThumbnailLoader.cpp:220-245 | The running byte count always equals the true total of the remaining entries. |
| ThumbnailCache.AllRemovableAfterRemove | src/ThumbnailLoader.cpp:241-243 | When every entry's file is removable, that stays true after one entry and its file are removed. |
| ThumbnailCache.EvictReachesTarget | src/ThumbnailLoader.cpp:235-245 | When every file can be removed, cleanup stops at or below 90 % of the budget, or once every listed item has been removed. |
| ThumbnailCache.EvictKeepsAllWhenNothingRemoved | src/ThumbnailLoader.cpp:235-245 | When cleanup removes no entry, the total and the files are untouched too. |
| ThumbnailCache.EvictStopsAtTarget | src/ThumbnailLoader.cpp:235-245 | Cleanup stops as soon as the target is met. When it removes something, every listed entry after the last removed one is kept. Putting that last one back would take the total above 90 % of the budget. So the walk ended at the first removal that reached the target, or at the end of the list. |
| ThumbnailCache.EvictWithinBudget | src/ThumbnailLoader.cpp:216-246 | Starting from the full LRU list of all entries, every file removable and a non-negative budget, cleanup ends within 90 % of the budget. |
| ThumbnailCache.LruHeadOldest | src/ThumbnailLoader.cpp:230-233 | The first item of the sorted list has the oldest last access of all entries. |
| ThumbnailCache.LruOrderTail | src/ThumbnailLoader.cpp:235-243 | After the oldest entry is removed, the rest of the list is the LRU list of the remaining entries. |
| ThumbnailCache.EvictLru | src/ThumbnailLoader.cpp:230-245 | An entry that cleanup removed was accessed no later than any entry it kept. |
| ThumbnailScheduler.WindowEnd | src/ThumbnailLoader.cpp:78 | The end of the current-page window never exceeds the number of paths. |
| ThumbnailScheduler.Range | src/ThumbnailLoader.cpp:82 | The ascending integers lo..hi-1, one per position. |
| ThumbnailScheduler.OutsideShape | src/ThumbnailLoader.cpp:85-87 | The low-priority part is strictly ascending and holds only indices below n that lie outside the window. |
| ThumbnailScheduler.RangeCount | src/ThumbnailLoader.cpp:82 | Each integer occurs once in lo..hi-1 if it is in range, and otherwise not at all. |
| ThumbnailScheduler.OutsideCount | src/ThumbnailLoader.cpp:85-87 | Each index below n and outside the window occurs exactly once in the low-priority part. No other integer occurs. |
| ThumbnailScheduler.PriorityOrderIsPermutation | src/ThumbnailLoader.cpp:76-87 | For a non-negative page and page size, the priority order is a permutation of 0..n-1. |
| ThumbnailScheduler.PriorityOrderIndices | src/ThumbnailLoader.cpp:76-87 | The priority order has n elements, all valid indices, with no repeats. |
| ThumbnailScheduler.PriorityOrderWindowFirst | src/ThumbnailLoader.cpp:76-87 | Every index of the current page comes before every other index. |
| ThumbnailScheduler.BuildPriorityOrder | src/ThumbnailLoader.cpp:76-87 | The two loops build exactly the priority order. |
| ThumbnailScheduler.VisitSkipsMissingSource | src/ThumbnailLoader.cpp:104-106 | A source file that no longer exists is skipped: no signal and no change to the cache. |
| ThumbnailScheduler.VisitTouchesOnlyItsPath | src/ThumbnailLoader.cpp:102-158 | A visit changes only the metadata entry of its own path and that path's thumbnail file. It adds an entry only when it regenerates. A signal it sends carries its own index and path. |
| ThumbnailScheduler.VisitHit | src/ThumbnailLoader.cpp:108-129 | On a hit (metadata present, same modification time, thumbnail file present) that decodes, the cached thumbnail is emitted. Only the entry's last-access time changes. |
| ThumbnailScheduler.VisitRegenerates | src/ThumbnailLoader.cpp:131-158 | On a miss whose source decodes, the thumbnail is saved, emitted and recorded with the source's modification time, the current time, its path and its file size. |
| ThumbnailScheduler.RegeneratedThenHit | src/ThumbnailLoader.cpp:108-158 | Once a saved thumbnail has been regenerated, visiting the same unchanged source again is a hit, not a second regeneration. |
| ThumbnailScheduler.ChangedSourceIsMiss | src/ThumbnailLoader.cpp:111-115 | A source whose modification time differs from the recorded one is never a hit. |
| ThumbnailScheduler.RestartIgnoresPageSizeAndSameLengthList | src/ThumbnailLoader.cpp:92-100 | The walk goes on exactly while not aborted and the page is unchanged. A new page size, or a new list of the same length, does not stop it. |
| ThumbnailScheduler.StopIndex | src/ThumbnailLoader.cpp:91-100 | The walk stops at the first check that finds an abort or a restart, or at the end of the order. |
| ThumbnailScheduler.WalkedEmissions | src/ThumbnailLoader.cpp:91-159 | Every signal of the walk carries the index and path of an index visited in the walk. |
| ThumbnailScheduler.WalkedWindowFirst | src/ThumbnailLoader.cpp:76-159 | Signals for the current page come before every signal for other pages. |
| ThumbnailScheduler.WalkedEmitsOnce | src/ThumbnailLoader.cpp:91-159 | One pass emits each index at most once. |
| ThumbnailScheduler.WalkedFrame | src/ThumbnailLoader.cpp:91-159 | The metadata entry of a path the walk has not visited is unchanged. |
| ThumbnailWorker.SortedIsLru | src/ThumbnailLoader.cpp:221-233 | Any sort by last access of the collected list is an LRU order of the metadata. |
| ThumbnailWorker.MergeEntries | src/ThumbnailLoader.cpp:187-195 | The load loop stores every decoded entry of the file over the existing map. |
| ThumbnailWorker.EncodeEntries | src/ThumbnailLoader.cpp:200-208 | The save loop builds exactly the encoded object of the metadata. |
| ThumbnailWorker.CollectEntries | src/ThumbnailLoader.cpp:220-226 | The cleanup loop sums exactly the metadata's total size. It lists every key once, with its last-access time. |
| ThumbnailWorker.AccessLeIsTotalPreorder | src/ThumbnailLoader.cpp:231-233 | The comparison by last access is a total preorder, so sorting by it is well defined. |
| ThumbnailWorker.ThumbnailLoader.constructor | src/ThumbnailLoader.cpp:14-26 | The loader starts not aborted, with no paths, page 0 and 20 per page, and with the metadata as loaded from the record. |
| ThumbnailWorker.ThumbnailLoader.Stop | src/ThumbnailLoader.cpp:33-37 | Sets the abort flag and nothing else. |
| ThumbnailWorker.ThumbnailLoader.SetPaths | src/ThumbnailLoader.cpp:39-43 | Replaces the path list and nothing else. |
| ThumbnailWorker.ThumbnailLoader.UpdatePriority | src/ThumbnailLoader.cpp:45-50 | Replaces the page and the page size and nothing else. |
| ThumbnailWorker.ThumbnailLoader.VisitIndex | src/ThumbnailLoader.cpp:102-158 | Updates the metadata and the cache directory as one visit does. It returns that visit's signal. |
| ThumbnailWorker.ThumbnailLoader.RunPass | src/ThumbnailLoader.cpp:54-164 | A pass has three outcomes. It stops at once when aborted. It does nothing without paths. Otherwise it snapshots the paths, walks the priority order of all n indices up to the first stop, and leaves the cache as that walk leaves it. |
| ThumbnailWorker.ThumbnailLoader.Walk | src/ThumbnailLoader.cpp:91-164 | The loop visits exactly the order's prefix up to the stop index. Its signals and cache state are those of that walk. |
| ThumbnailWorker.ThumbnailLoader.LoadCacheMetadata | src/ThumbnailLoader.cpp:182-197 | The metadata becomes what the record loads over the old metadata. |
| ThumbnailWorker.ThumbnailLoader.SaveCacheMetadata | src/ThumbnailLoader.cpp:199-214 | The record becomes the encoded metadata when the file opens for writing. Otherwise it stays as it was. |
| ThumbnailWorker.ThumbnailLoader.CleanCache | src/ThumbnailLoader.cpp:216-246 | At most the budget, nothing changes. Above it, the cache becomes the eviction of an LRU list of the old metadata, with the true total. |
| ThumbnailWorker.ThumbnailLoader.EvictOldest | src/ThumbnailLoader.cpp:235-245 | The removal loop leaves the metadata and files exactly as the eviction function does. |
| ThumbnailWorker.ThumbnailLoader.ClearCache | src/ThumbnailLoader.cpp:248-261 | Every metadata entry is gone. Every removable file in the directory is gone and the others are untouched. The record is rewritten as empty when it opens. |
| ThumbnailWorker.ThumbnailLoader.Shutdown | src/ThumbnailLoader.cpp:28-31 | The destructor aborts the worker and saves the unchanged metadata. |
| ThumbnailWorker.ClearedRecordLoadsEmpty | src/ThumbnailLoader.cpp:258-259 | Loading the record written by clearCache adds nothing to any metadata. |
| Prefetch.Submit | src/ImageCacheLoader.cpp:4-13 | The new request goes last. Exactly one request is dropped from the front if and only if the queue held more than five. The others keep their order. |
| Prefetch.SubmitAllBounded | src/ImageCacheLoader.cpp:8-11 | A queue of at most six never grows past six, whatever is requested. |
| Prefetch.SubmitIsSuffix | src/ImageCacheLoader.cpp:8-11 | After one request the queue is a suffix of the old queue followed by the request. |
| Prefetch.SubmitAllKeepsOrder | src/ImageCacheLoader.cpp:4-13 | After any series of requests, the queue is the latest requests in the order made. |
| Prefetch.SubmitAllEndsWithLast | src/ImageCacheLoader.cpp:11 | The most recent request is never dropped. |
| Prefetch.SixthRequestIsKept | src/ImageCacheLoader.cpp:9 | A sixth request joins five without a drop. Only a seventh pushes out the oldest. |
| Prefetch.LoadedAll | src/ImageCacheLoader.cpp:28-37 | Serving requests sends at most one signal per request. |
| Prefetch.LoadedAllPaths | src/ImageCacheLoader.cpp:28-37 | Every imageLoaded signal carries the path of a served request. |
| Prefetch.Served | src/ImageCacheLoader.cpp:15-25 | run serves requests until the first interruption check that is set, or until the queue is empty. |
| Prefetch.ImageCacheLoader.constructor | src/ImageCacheLoader.h:15-17 | The queue starts empty. |
| Prefetch.ImageCacheLoader.RequestImage | src/ImageCacheLoader.cpp:4-13 | The queue becomes the submitted queue. A queue of at most six stays at most six. |
| Prefetch.ImageCacheLoader.TakeNext | src/ImageCacheLoader.cpp:19-26 | Takes the oldest request, or nothing from an empty queue. |
| Prefetch.ImageCacheLoader.Run | src/ImageCacheLoader.cpp:15-40 | run takes the oldest requests up to the stop point, leaves the rest queued, and emits the signals of those that decode, in order. |
| Config.MergeAbsentKeys | src/ConfigManager.cpp:35-52 | A missing key leaves its setting as it was. The exception is last_folder, which becomes empty. |
| Config.MergeRefusesOutOfRange | src/ConfigManager.cpp:38-52 | A duration of 0.1 or less is refused and the old value kept. So is a negative transition time, or a cache size below 1 MB. |
| Config.MergeWrongTypes | src/ConfigManager.cpp:36-52 | A present value of the wrong type has field-specific effects. As a transition time it reads as 0 and is accepted. As a duration or a cache size it is refused. As a flag it reads as false. |
| Config.SaveLoadRoundTrip | src/ConfigManager.cpp:25-70 | Save then load restores the folder and the flags. It restores each number that passes its check. A number that fails keeps the value held before the load. |
| Config.SaveLoadRestores | src/ConfigManager.cpp:25-70 | Settings whose numbers pass their checks come back exactly, whatever was loaded before. |
| Config.ReadFlag | src/ConfigManager.cpp:36 | A flag is taken from the file only when its key is present. |
| Config.ReadNumber | src/ConfigManager.cpp:38-41 | A number is taken from the file only when its key is present and it passes its check. |
| Config.ConfigManager.constructor | src/ConfigManager.cpp:12-23 | The settings start at the defaults: duration 3 s, transition 0.5 s, recursive, looping, in order, 512 MB. |
| Config.ConfigManager.Load | src/ConfigManager.cpp:25-53 | The settings become the file's values merged over the current ones. An unopenable file changes nothing. |
| Config.ConfigManager.Save | src/ConfigManager.cpp:55-70 | The file becomes the encoded settings if it opens for writing. The settings do not change. |
| Config.ConfigManager.SetLastFolder | src/ConfigManager.cpp:74 | Stores the folder unchecked and changes nothing else. |
| Config.ConfigManager.SetRecursive | src/ConfigManager.cpp:77 | Stores the flag and changes nothing else. |
| Config.ConfigManager.SetSlideDuration | src/ConfigManager.cpp:80 | Stores the duration without load's check and changes nothing else. |
| Config.ConfigManager.SetTransitionTime | src/ConfigManager.cpp:83 | Stores the time without load's check and changes nothing else. |
| Config.ConfigManager.SetRandomOrder | src/ConfigManager.cpp:86 | Stores the flag and changes nothing else. |
| Config.ConfigManager.SetContinuousLoop | src/ConfigManager.cpp:89 | Stores the flag and changes nothing else. |
| Config.ConfigManager.SetCacheMaxSizeMB | src/ConfigManager.cpp:92 | Stores the size without load's check and changes nothing else. |
| Slideshow.StartIndex | src/SlideshowWidget.cpp:36-39 | The first image is the requested index when it is valid, and otherwise index 0. |
| Slideshow.NextTarget | src/SlideshowWidget.cpp:87-95 | Next moves one forward. Past the last image there is a target if and only if continuous loop is on, and that target is 0. |
| Slideshow.PrevTarget | src/SlideshowWidget.cpp:102-106 | Previous moves one back, and from the first image (or before it) goes to the last. |
| Slideshow.ImageLoadedAgreesWhereDefined | src/SlideshowWidget.cpp:120-136 | With both indices valid, the bounds-checked match agrees with the code as written. With the current index out of range and no image shown, the code as written reads outside the list. |
| Slideshow.AnimationStep | src/SlideshowWidget.cpp:144-147 | Each 16 ms frame advances the opacity by 0.016 / transition time. A non-positive transition time gives one full step. |
| Slideshow.TransitionCompletes | src/SlideshowWidget.cpp:138-166 | With a positive step and no other event between frames, a started fade stays in progress for some number of frames and then ends. At that point the opacity is 1, the awaited index and image are current, and no index is awaited. |
| Slideshow.FadeEndsWithin | src/SlideshowWidget.cpp:143-162 | If n + 1 steps take the opacity to 1, the fade ends within n + 1 frames, with the awaited image current. |
| Slideshow.SlideshowWidget.constructor | src/SlideshowWidget.cpp:6-23 | The widget starts with no paths, indices -1, no images, stopped, unpaused, not fading, opacity 0, timers off, and an empty prefetch queue. |
| Slideshow.SlideshowWidget.SetImagePaths | src/SlideshowWidget.cpp:29-31 | Replaces the path list and nothing else. |
| Slideshow.SlideshowWidget.StartSlideshow | src/SlideshowWidget.cpp:33-55 | Without paths, nothing happens. Otherwise it starts at the checked index with no images, running and unpaused, requests that image, and starts the slide timer. |
| Slideshow.SlideshowWidget.StopSlideshow | src/SlideshowWidget.cpp:57-63 | Clears running and stops both timers. Nothing else changes. |
| Slideshow.SlideshowWidget.Pause | src/SlideshowWidget.cpp:65-69 | Sets paused and stops both timers. Nothing else changes. |
| Slideshow.SlideshowWidget.Resume | src/SlideshowWidget.cpp:71-82 | When paused, it unpauses and restarts the animation timer during a fade, and the slide timer otherwise. It does nothing when not paused. |
| Slideshow.SlideshowWidget.TransitionToImage | src/SlideshowWidget.cpp:110-118 | For a valid index, it sets only the awaited index and submits that path to the prefetch queue. The next image already held is kept. An invalid index changes nothing. |
| Slideshow.SlideshowWidget.NextSlide | src/SlideshowWidget.cpp:84-98 | Acts only when running, unpaused and with paths. Past the end without looping it stops the slideshow. Otherwise it requests the next target and awaits it. |
| Slideshow.SlideshowWidget.PrevSlide | src/SlideshowWidget.cpp:100-108 | With paths, it requests the previous target and awaits it, without the running check that next has. |
| Slideshow.SlideshowWidget.OnImageLoaded | src/SlideshowWidget.cpp:120-136 | Shows the current image, starts the fade at opacity 0, or ignores the arrival, as the match decides. The image fills the current slot exactly when that slot is empty and the path is the current one. Otherwise it fills the next slot and starts the fade exactly when the path is the awaited one. No slot receives an image whose path is not its own. The paths and both indices never change. |
| Slideshow.SlideshowWidget.UpdateAnimation | src/SlideshowWidget.cpp:138-166 | Outside a fade, it stops the animation timer. During one, it advances the opacity. On reaching 1, the next image becomes current, and the slide timer restarts when the slideshow is running and not paused. The new state is Frame of the old one with AnimationStep's step. |
| Slideshow.PrevSlideBeforeStart | src/SlideshowWidget.cpp:100-136 | Pressing Left before the slideshow starts, then receiving the requested image, hits the unchecked read in the code as written. The corrected match starts a transition. |
| Grid.Fit | src/MainWindow.cpp:267-268 | qMax(1, extent / cell): at least one cell, and as many whole cells as fit. |
| Grid.Columns | src/MainWindow.cpp:257-267 | There is always at least one column. |
| Grid.Rows | src/MainWindow.cpp:257-268 | There is always at least one row. |
| Grid.PageCount | src/MainWindow.cpp:271-275 | The page count is 0 if and only if there are no images. Otherwise it is the least number of pages that holds them all. |
| Grid.CeilingBounds | src/MainWindow.cpp:274 | (n + perPage - 1) / perPage is the ceiling of n / perPage. |
| Grid.Clamp | src/MainWindow.cpp:287-288 | A page past the end goes to the last page, and a negative page goes to 0. A page in range stays. |
| Grid.PageOfIndex | src/MainWindow.cpp:292-293 | Index i is on page p if and only if p == i / perPage. |
| Grid.VisibleRange | src/MainWindow.cpp:292-293 | Every valid page shows a non-empty range of at most perPage images. The last page ends at the last image. |
| Grid.PageTiles | src/MainWindow.cpp:296-310 | One tile per visible image, in order, each with its path and global index and no icon yet. |
| Grid.BuildTiles | src/MainWindow.cpp:296-310 | The placeholder loop builds exactly the page's tiles. |
| Grid.ThumbnailRow | src/MainWindow.cpp:320-347 | A thumbnail lands only on a tile of the current page, at row index - start. |
| Grid.ThumbnailRowFindsTile | src/MainWindow.cpp:320-347 | The row chosen holds the tile with that global index. Every tile with that index is found. |
| Grid.CodeUnitLeIsTotalPreorder | src/MainWindow.cpp:242 | The string order of std::sort is a total preorder. |
| Grid.Arranged | src/MainWindow.cpp:238-243 | The displayed list is a permutation of the scanned files. It is sorted when random order is off. |
| Grid.MainWindow.constructor | src/MainWindow.cpp:14-16 | The window starts on page 0 of 0, with 20 per page and no paths. |
| Grid.MainWindow.CalculatePagination | src/MainWindow.cpp:254-276 | Columns, rows, per-page count and page count follow the geometry. |
| Grid.MainWindow.DisplayCurrentPage | src/MainWindow.cpp:278-318 | An empty list shows no tiles, the label "0 / 0", and leaves the loader alone. Otherwise it clamps the page, shows the page's tiles and label, and gives the loader the paths and the new priority. |
| Grid.MainWindow.OnThumbnailReady | src/MainWindow.cpp:320-347 | The thumbnail goes into the matching tile of the current page. Nothing else changes. |
| Grid.MainWindow.NextPage | src/MainWindow.cpp:362-367 | Moves to the next page only when one exists, and then shows it: label, tiles and loader priority are those of the new page, and the loader's cache is untouched. On the last page nothing changes. Paths, page count, page size and grid never change, and the page stays in range. |
| Grid.MainWindow.PrevPage | src/MainWindow.cpp:369-374 | Moves to the previous page only when one exists, and then shows it: label, tiles and loader priority are those of the new page, and the loader's cache is untouched. On the first page nothing changes. Paths, page count, page size and grid never change, and the page stays in range. |
| Grid.MainWindow.PopulateThumbnails | src/MainWindow.cpp:219-252 | A missing folder clears the list and the grid and keeps the rest: shown list, page, page count, page size, grid shape and label, the loader and the slideshow. Otherwise it shows the arranged scan as ShowImages does. |
| Grid.MainWindow.ShowImages | src/MainWindow.cpp:245-251 | Stores the paths in the grid and in the slideshow, which changes only its path list. It lays the grid out, sets page 0, and for a non-empty list shows page 1 of the page count, its tiles and the loader priority. An empty list leaves the loader untouched. The loader's cache is never touched. |
| Grid.MainWindow.InvokeClearCache | src/MainWindow.cpp:439-446 | Once confirmed, the worker's clearCache runs exactly when its name is invokable on the worker. It then empties the metadata, removes the removable files and rewrites the record. Otherwise the worker is untouched. |
| Grid.MainWindow.ClearCacheAsWritten | src/MainWindow.cpp:439-446 | With the worker's invokable names as declared, the button leaves the worker untouched even when confirmed. |
| Grid.MainWindow.ClearCache | src/MainWindow.cpp:439-446 | With clearCache invokable, a confirmed click empties the metadata, removes the removable files and rewrites the record. A declined one changes nothing. |

## Left out

- Threads, mutexes, condition-variable waits and the queued `invokeMethod` calls. Each thread's steps are sequential methods. The values other threads write mid-walk come from the `live` oracle, one snapshot per check.
- Fresh paths between passes. `RunPass` models one turn of the `forever` loop. The loop's repetition and its one-second wait are left out.
- The periodic `cleanCache` call. It is queued to the worker's own thread, which is still looping, so it is modelled only as a method that can be called.
- Slideshow.TransitionCompletes: it covers frames with nothing in between. A second arrival of the awaited path during a fade sets the opacity back to 0 (`src/SlideshowWidget.cpp:130-133`), and pause and stop halt the animation timer (`src/SlideshowWidget.cpp:58-60`, `66-68`). The model has those events as separate methods, and the lemma says nothing about runs that include them.
- The Clear-cache button's call never reaches the worker. `ThumbnailLoader::clearCache` is a private member function (`src/ThumbnailLoader.h:39`), not a slot and not `Q_INVOKABLE`. So the by-name `QMetaObject::invokeMethod` at `src/MainWindow.cpp:444` finds no such method and returns false (see "## Findings"). `ThumbnailWorker.ThumbnailLoader.ClearCache` models the body at `src/ThumbnailLoader.cpp:248-261` as if it could be called. `requestClear` (`src/ThumbnailLoader.h:27`) is declared but never defined, and `m_pendingClear` is never used, so neither is modelled. Even as a slot, a queued call would wait behind the still-looping `process()`, and that wait is not modelled.
- Only files inside the cache directory are modelled as removable. `cleanCache` and `clearCache` pass `QFile::remove` whatever path a loaded record names (`src/ThumbnailLoader.cpp:241`). A tampered `cache_metadata.json` naming a file outside the directory, or the record itself, makes the code delete that file, and the model does not.
- Image decoding, `QImageReader` scaling, `QImage::save`, SHA-256, `QFileInfo`, `QDirIterator` and `std::shuffle`. They are oracle parameters, so their own behaviour is not modelled.
- `mkpath` for the cache and configuration directories, the `cacheCleared` signal and its message box, and all widget layout, painting, resizing and key handling.
- Floating point. Doubles are exact reals, and `maxBytes * 0.9` is 9/10 of the budget, so rounding at the boundary is not modelled.
- ThumbnailCache.TruncateToInt: the 64-bit range of that cast is not modelled.
- ThumbnailCache.DecodeEncodeEntry: it does not model the loss of precision when an `int64` above 2^53 becomes a double.
- Grid.MainWindow.DisplayCurrentPage: it does not model 32-bit overflow of `page * perPage`, because integers are unbounded.
- Grid.MainWindow.CalculatePagination: it does not model 32-bit overflow of `cols * rows`, because integers are unbounded.
- Grid.CodeUnitLe: it compares Dafny characters, not UTF-16 code units after `QString` conversion. Locale-aware comparison is not involved, because `QString::operator<` is not locale-aware.
- Slideshow.SlideshowWidget.UpdateAnimation: it does not model timer intervals and real time. Each call is one 16 ms frame, and the opacity is an exact real.
- The unused `pagePaths` loop in `displayCurrentPage`, because it computes nothing that is used.
- The slideshow's view size. It is fixed at construction, so resizing does not change the prefetch target.
- Tile labels. They carry the full path rather than `QFileInfo::fileName()`, because the split is a string operation outside the core.
- The instability of `std::sort` among equal strings or equal access times. The model's contracts hold for every sorted permutation.
- `main.cpp`, the settings dialog and the theme code, which are not part of this model.

## Findings

| source | as written | input that shows it | evidently intended | confidence | as-written member | corrected member |
|---|---|---|---|---|---|---|
| src/SlideshowWidget.cpp:120-136 | `onImageLoaded` first compares `path` with `m_paths[m_currentIndex]`, with no bounds check on `m_currentIndex`. | Paths set and the slideshow not started, so `m_currentIndex == -1`. Left is pressed, so `prevSlide` requests the last image. When that image arrives, line 123 reads `m_paths[-1]`. | Compare only when the index is within the list, then go on to the next-index check. | not executed; the read is out of range by inspection, and the input needs the slideshow page shown before start | Slideshow.ImageLoadedAsWritten, Slideshow.PrevSlideBeforeStart | Slideshow.ImageLoadedMatch, Slideshow.ImageLoadedAgreesWhereDefined |
| src/MainWindow.cpp:439-446 | After confirmation, the button calls `QMetaObject::invokeMethod(m_thumbLoader, "clearCache", Qt::QueuedConnection)`. `clearCache` is declared in the worker's `private:` section (`src/ThumbnailLoader.h:39`), not as a slot or `Q_INVOKABLE`. | Click Clear Cache and answer Yes. The by-name lookup finds no invokable `clearCache`, so no call is queued and the thumbnails and metadata stay. | Declare `clearCache` a slot (or `Q_INVOKABLE`) so that a confirmed click clears the cache. | not executed; by reading Qt's by-name invocation rules | Grid.MainWindow.ClearCacheAsWritten | Grid.MainWindow.ClearCache |
