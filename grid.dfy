/**
 * MainWindow: the paged thumbnail grid. It sizes the grid from the list
 * widget, keeps the current page in range, lays out one page of tiles,
 * tells the thumbnail loader which page is visible, and places the
 * thumbnails that arrive.
 */
module Grid {
  import opened Wrappers
  import opened Media
  import opened Sorting
  import ThumbnailScheduler
  import ThumbnailWorker
  import Slideshow
  import Config
  import Json

  /** The list widget's width and height and its grid cell size, as Qt reports them. */
  datatype Geometry = Geometry(width: int, height: int, cellWidth: int, cellHeight: int)

  /** Before the widget is shown its size is meaningless; 800 x 600 is assumed instead. */
  function UsableWidth(w: int): int { if w < 100 then 800 else w }
  function UsableHeight(h: int): int { if h < 100 then 600 else h }

  /** A cell size that is not positive falls back to 170 x 180. */
  function CellWidth(itemW: int): int { if itemW <= 0 then 170 else itemW }
  function CellHeight(itemH: int): int { if itemH <= 0 then 180 else itemH }

  /** qMax(1, extent / cell): as many cells as fit, but at least one. */
  function Fit(extent: int, cell: int): (k: int)
    requires extent >= 0 && cell > 0
    ensures k >= 1
    ensures k == 1 || k * cell <= extent
    ensures extent < (k + 1) * cell
  {
    var q := extent / cell;
    assert extent == q * cell + extent % cell;
    if q < 1 then 1 else q
  }

  /** The columns and rows calculatePagination derives from a geometry. */
  function Columns(g: Geometry): (c: int)
    ensures c >= 1
  {
    Fit(UsableWidth(g.width), CellWidth(g.cellWidth))
  }

  function Rows(g: Geometry): (r: int)
    ensures r >= 1
  {
    Fit(UsableHeight(g.height), CellHeight(g.cellHeight))
  }

  /** The number of pages: none for an empty list, else n / perPage rounded up. */
  function PageCount(n: nat, perPage: int): (p: int)
    requires perPage >= 1
    ensures p >= 0
    ensures p == 0 <==> n == 0
    ensures n > 0 ==> (p - 1) * perPage < n <= p * perPage
  {
    if n == 0 then 0
    else
      CeilingBounds(n, perPage);
      (n + perPage - 1) / perPage
  }

  lemma CeilingBounds(n: nat, perPage: int)
    requires n > 0 && perPage >= 1
    ensures var p := (n + perPage - 1) / perPage; p >= 1 && (p - 1) * perPage < n <= p * perPage
  {
    var m := n + perPage - 1;
    var p := m / perPage;
    assert m == p * perPage + m % perPage;
    assert (p - 1) * perPage == p * perPage - perPage;
  }

  /** displayCurrentPage's clamp: into [0, total) when there is a page, unchanged when already there. */
  function Clamp(page: int, total: int): (c: int)
    ensures c >= 0
    ensures total >= 1 ==> c < total
    ensures 0 <= page < total ==> c == page
    ensures page >= total && total >= 1 ==> c == total - 1
    ensures page < 0 ==> c == 0
  {
    var c := if page >= total then total - 1 else page;
    if c < 0 then 0 else c
  }

  lemma MulMonotone(a: int, b: int, c: int)
    requires a <= b && c >= 0
    ensures a * c <= b * c
  {
  }

  /**
   * The pages partition the indices: index i is on page p exactly when
   * p = i / perPage.
   */
  lemma PageOfIndex(i: nat, perPage: int, page: int)
    requires perPage >= 1
    ensures ThumbnailScheduler.WindowStart(page, perPage) <= i < ThumbnailScheduler.WindowStart(page, perPage) + perPage
      <==> page == i / perPage
  {
    var q := i / perPage;
    assert i == q * perPage + i % perPage;
    if page < q {
      MulMonotone(page + 1, q, perPage);
    } else if page > q {
      MulMonotone(q + 1, page, perPage);
    }
  }

  /**
   * On a non-empty list, any page in range shows a non-empty run of at most
   * perPage indices of the list, and the last page shows the last index.
   */
  lemma VisibleRange(n: nat, perPage: int, page: int)
    requires n > 0 && perPage >= 1 && 0 <= page < PageCount(n, perPage)
    ensures var s := ThumbnailScheduler.WindowStart(page, perPage);
      var e := ThumbnailScheduler.WindowEnd(n, page, perPage);
      0 <= s < e <= n && e - s <= perPage
    ensures page == PageCount(n, perPage) - 1 ==> ThumbnailScheduler.WindowEnd(n, page, perPage) == n
  {
    var p := PageCount(n, perPage);
    MulMonotone(page, p - 1, perPage);
    assert page * perPage >= 0;
    if page == p - 1 {
      assert (page + 1) * perPage == p * perPage;
    }
  }

  /** One list item: the file it names, its global index, and its icon (None is the black placeholder). */
  datatype Tile = Tile(path: string, index: int, icon: Option<Image>)

  /** The items displayCurrentPage lays out for the indices [start, end). */
  function PageTiles(paths: seq<string>, start: int, end: int): (t: seq<Tile>)
    requires 0 <= start <= end <= |paths|
    ensures |t| == end - start
    ensures forall r :: 0 <= r < |t| ==> t[r] == Tile(paths[start + r], start + r, None)
  {
    seq(end - start, r requires 0 <= r < end - start => Tile(paths[start + r], start + r, None))
  }

  /** The placeholder loop of displayCurrentPage. */
  method BuildTiles(paths: seq<string>, start: int, end: int) returns (items: seq<Tile>)
    requires 0 <= start <= end <= |paths|
    ensures items == PageTiles(paths, start, end)
  {
    items := [];
    var i := start;
    while i < end
      invariant start <= i <= end
      invariant items == PageTiles(paths, start, i)
    {
      items := items + [Tile(paths[i], i, None)];
      i := i + 1;
    }
  }

  /**
   * onThumbnailReady's check: the row of the current page index falls on,
   * if it is on the page and that row has an item.
   */
  function ThumbnailRow(index: int, page: int, perPage: int, count: int): (row: Option<int>)
    ensures row.Some? ==> 0 <= row.value < count && row.value < perPage
    ensures row.Some? ==> row.value == index - ThumbnailScheduler.WindowStart(page, perPage)
  {
    var start := ThumbnailScheduler.WindowStart(page, perPage);
    if index >= start && index < start + perPage && index - start < count then Some(index - start)
    else None
  }

  /**
   * On a page laid out by displayCurrentPage, a thumbnail is placed exactly
   * on the item that carries its index, and on no other.
   */
  lemma ThumbnailRowFindsTile(paths: seq<string>, page: int, perPage: int, index: int)
    requires perPage >= 1 && page >= 0
    requires ThumbnailScheduler.WindowStart(page, perPage) <= ThumbnailScheduler.WindowEnd(|paths|, page, perPage)
    ensures var tiles := PageTiles(paths, ThumbnailScheduler.WindowStart(page, perPage), ThumbnailScheduler.WindowEnd(|paths|, page, perPage));
      && (ThumbnailRow(index, page, perPage, |tiles|).Some? ==>
            tiles[ThumbnailRow(index, page, perPage, |tiles|).value].index == index)
      && (forall r :: 0 <= r < |tiles| && tiles[r].index == index ==> ThumbnailRow(index, page, perPage, |tiles|) == Some(r))
  {
    assert page * perPage >= 0;
  }

  /** QString's ordering: lexicographic by character, a proper prefix first. */
  predicate CodeUnitLe(a: string, b: string)
    decreases |a|
  {
    if a == [] then true
    else if b == [] then false
    else if a[0] != b[0] then a[0] < b[0]
    else CodeUnitLe(a[1..], b[1..])
  }

  lemma {:induction false} CodeUnitLeTotal(a: string, b: string)
    ensures CodeUnitLe(a, b) || CodeUnitLe(b, a)
    decreases |a|
  {
    if a != [] && b != [] && a[0] == b[0] {
      CodeUnitLeTotal(a[1..], b[1..]);
    }
  }

  lemma {:induction false} CodeUnitLeTransitive(a: string, b: string, c: string)
    requires CodeUnitLe(a, b) && CodeUnitLe(b, c)
    ensures CodeUnitLe(a, c)
    decreases |a|
  {
    if a != [] && b != [] && c != [] && a[0] == b[0] && b[0] == c[0] {
      CodeUnitLeTransitive(a[1..], b[1..], c[1..]);
    }
  }

  /** QStringList::sort() can be modelled by a sort over this ordering. */
  lemma CodeUnitLeIsTotalPreorder()
    ensures TotalPreorder(CodeUnitLe)
  {
    forall a, b ensures CodeUnitLe(a, b) || CodeUnitLe(b, a) {
      CodeUnitLeTotal(a, b);
    }
    forall a, b, c | CodeUnitLe(a, b) && CodeUnitLe(b, c) ensures CodeUnitLe(a, c) {
      CodeUnitLeTransitive(a, b, c);
    }
  }

  /** The list populateThumbnails shows: shuffled in random mode, sorted otherwise. */
  function Arranged(found: seq<string>, randomOrder: bool, shuffle: seq<string> -> seq<string>): (r: seq<string>)
    requires forall s :: multiset(shuffle(s)) == multiset(s)
    ensures multiset(r) == multiset(found)
    ensures !randomOrder ==> SortedBy(r, CodeUnitLe)
  {
    CodeUnitLeIsTotalPreorder();
    if randomOrder then shuffle(found) else InsertionSort(found, CodeUnitLe)
  }

  /**
   * The names a queued QMetaObject::invokeMethod finds on the worker: its
   * slots and signals. clearCache is a private member function, so it is
   * not among them.
   */
  const LoaderInvokable: set<string> := {"process", "cleanCache", "thumbnailReady", "cacheCleared"}

  class MainWindow {
    /** m_allImagePaths and m_displayImagePaths. */
    var allPaths: seq<string>
    var displayPaths: seq<string>
    var currentPage: int
    var totalPages: int
    var thumbsPerPage: int
    var cols: int
    var rows: int
    /** The items of m_listWidget, in row order. */
    var tiles: seq<Tile>
    /** The "Page %1/%2" label. */
    var pageLabel: (int, int)
    const thumbLoader: ThumbnailWorker.ThumbnailLoader
    const slideshow: Slideshow.SlideshowWidget
    const config: Config.ConfigManager

    /** The page size is positive and the page count matches the list. */
    predicate Paged()
      reads this
    {
      thumbsPerPage >= 1 && totalPages == PageCount(|displayPaths|, thumbsPerPage)
    }

    /** The current page is a page of the list. */
    predicate PageInRange()
      reads this
    {
      0 <= currentPage && (displayPaths != [] ==> currentPage < totalPages)
    }

    /**
     * The label, the tiles and the worker's priority all show the current
     * page of the displayed list.
     */
    predicate ShowsPage()
      reads this, thumbLoader
    {
      && pageLabel == (currentPage + 1, totalPages)
      && 0 <= currentPage && thumbsPerPage >= 1
      && ThumbnailScheduler.WindowStart(currentPage, thumbsPerPage) <= ThumbnailScheduler.WindowEnd(|displayPaths|, currentPage, thumbsPerPage) <= |displayPaths|
      && tiles == PageTiles(displayPaths, ThumbnailScheduler.WindowStart(currentPage, thumbsPerPage),
           ThumbnailScheduler.WindowEnd(|displayPaths|, currentPage, thumbsPerPage))
      && thumbLoader.paths == displayPaths
      && thumbLoader.currentPage == currentPage && thumbLoader.thumbsPerPage == thumbsPerPage
    }

    /** The constructor's defaults: page 0 of 0, 20 per page, nothing listed. */
    constructor (loader: ThumbnailWorker.ThumbnailLoader, show: Slideshow.SlideshowWidget, cfg: Config.ConfigManager)
      ensures currentPage == 0 && totalPages == 0 && thumbsPerPage == 20
      ensures allPaths == [] && displayPaths == [] && tiles == []
      ensures thumbLoader == loader && slideshow == show && config == cfg
      ensures Paged() && PageInRange()
    {
      allPaths := [];
      displayPaths := [];
      currentPage := 0;
      totalPages := 0;
      thumbsPerPage := 20;
      cols := 1;
      rows := 1;
      tiles := [];
      pageLabel := (0, 0);
      thumbLoader := loader;
      slideshow := show;
      config := cfg;
    }

    /** calculatePagination: the grid shape from the geometry, and the page count from it. */
    method CalculatePagination(g: Geometry)
      modifies this
      ensures cols == Columns(g) && rows == Rows(g) && thumbsPerPage == cols * rows
      ensures totalPages == PageCount(|displayPaths|, thumbsPerPage) && Paged()
      ensures allPaths == old(allPaths) && displayPaths == old(displayPaths) && currentPage == old(currentPage)
      ensures tiles == old(tiles) && pageLabel == old(pageLabel)
    {
      var w := g.width;
      var h := g.height;
      if w < 100 { w := 800; }
      if h < 100 { h := 600; }
      var itemW := g.cellWidth;
      var itemH := g.cellHeight;
      if itemW <= 0 { itemW := 170; }
      if itemH <= 0 { itemH := 180; }
      cols := if w / itemW < 1 then 1 else w / itemW;
      rows := if h / itemH < 1 then 1 else h / itemH;
      thumbsPerPage := cols * rows;
      if |displayPaths| == 0 {
        totalPages := 0;
      } else {
        totalPages := (|displayPaths| + thumbsPerPage - 1) / thumbsPerPage;
      }
    }

    /**
     * displayCurrentPage: on an empty list only the label changes; otherwise
     * the page is clamped into range, its items are laid out with
     * placeholders, and the loader gets the list and the visible page.
     */
    method DisplayCurrentPage()
      requires Paged()
      modifies this, thumbLoader
      ensures allPaths == old(allPaths) && displayPaths == old(displayPaths)
      ensures totalPages == old(totalPages) && thumbsPerPage == old(thumbsPerPage)
      ensures cols == old(cols) && rows == old(rows)
      ensures displayPaths == [] ==>
        && tiles == [] && pageLabel == (0, 0) && currentPage == old(currentPage)
        && unchanged(thumbLoader)
      ensures displayPaths != [] ==>
        && currentPage == Clamp(old(currentPage), totalPages)
        && ThumbnailScheduler.WindowStart(currentPage, thumbsPerPage) < ThumbnailScheduler.WindowEnd(|displayPaths|, currentPage, thumbsPerPage)
        && ShowsPage()
        && thumbLoader.abort == old(thumbLoader.abort)
        && thumbLoader.metadata == old(thumbLoader.metadata) && thumbLoader.thumbs == old(thumbLoader.thumbs)
        && thumbLoader.record == old(thumbLoader.record)
      ensures Paged()
      ensures old(currentPage) >= 0 ==> PageInRange()
    {
      tiles := [];
      if |displayPaths| == 0 {
        pageLabel := (0, 0);
        return;
      }
      if currentPage >= totalPages { currentPage := totalPages - 1; }
      if currentPage < 0 { currentPage := 0; }
      pageLabel := (currentPage + 1, totalPages);
      var startIdx := currentPage * thumbsPerPage;
      var endIdx := if startIdx + thumbsPerPage < |displayPaths| then startIdx + thumbsPerPage else |displayPaths|;
      VisibleRange(|displayPaths|, thumbsPerPage, currentPage);
      tiles := BuildTiles(displayPaths, startIdx, endIdx);
      thumbLoader.SetPaths(displayPaths);
      thumbLoader.UpdatePriority(currentPage, thumbsPerPage);
    }

    /**
     * onThumbnailReady(index, path, image): the icon of the row index falls
     * on is replaced, when there is one; path is not consulted.
     */
    method OnThumbnailReady(index: int, path: string, image: Image)
      modifies this
      ensures match ThumbnailRow(index, currentPage, thumbsPerPage, |old(tiles)|)
        case Some(r) => tiles == old(tiles)[r := old(tiles)[r].(icon := Some(image))]
        case None => tiles == old(tiles)
      ensures allPaths == old(allPaths) && displayPaths == old(displayPaths) && currentPage == old(currentPage)
      ensures totalPages == old(totalPages) && thumbsPerPage == old(thumbsPerPage)
      ensures cols == old(cols) && rows == old(rows) && pageLabel == old(pageLabel)
    {
      var startIdx := currentPage * thumbsPerPage;
      var endIdx := startIdx + thumbsPerPage;
      if index >= startIdx && index < endIdx {
        var localRow := index - startIdx;
        if localRow < |tiles| {
          tiles := tiles[localRow := tiles[localRow].(icon := Some(image))];
        }
      }
    }

    /** nextPage: forward only when not already on the last page. */
    method NextPage()
      requires Paged()
      modifies this, thumbLoader
      ensures Paged()
      ensures allPaths == old(allPaths) && displayPaths == old(displayPaths)
      ensures totalPages == old(totalPages) && thumbsPerPage == old(thumbsPerPage)
      ensures cols == old(cols) && rows == old(rows)
      ensures old(currentPage) < old(totalPages) - 1 && old(PageInRange()) ==> currentPage == old(currentPage) + 1
      ensures old(currentPage) < old(totalPages) - 1 && displayPaths != [] ==>
        && currentPage == Clamp(old(currentPage) + 1, totalPages)
        && ShowsPage()
        && thumbLoader.abort == old(thumbLoader.abort)
        && thumbLoader.metadata == old(thumbLoader.metadata) && thumbLoader.thumbs == old(thumbLoader.thumbs)
        && thumbLoader.record == old(thumbLoader.record)
      ensures old(currentPage) >= old(totalPages) - 1 ==> currentPage == old(currentPage) && tiles == old(tiles) && pageLabel == old(pageLabel) && unchanged(thumbLoader)
      ensures old(PageInRange()) ==> PageInRange()
    {
      if currentPage < totalPages - 1 {
        currentPage := currentPage + 1;
        DisplayCurrentPage();
      }
    }

    /** prevPage: back only when not already on the first page. */
    method PrevPage()
      requires Paged()
      modifies this, thumbLoader
      ensures Paged()
      ensures allPaths == old(allPaths) && displayPaths == old(displayPaths)
      ensures totalPages == old(totalPages) && thumbsPerPage == old(thumbsPerPage)
      ensures cols == old(cols) && rows == old(rows)
      ensures old(currentPage) > 0 && old(PageInRange()) ==> currentPage == old(currentPage) - 1
      ensures old(currentPage) > 0 && displayPaths != [] ==>
        && currentPage == Clamp(old(currentPage) - 1, totalPages)
        && ShowsPage()
        && thumbLoader.abort == old(thumbLoader.abort)
        && thumbLoader.metadata == old(thumbLoader.metadata) && thumbLoader.thumbs == old(thumbLoader.thumbs)
        && thumbLoader.record == old(thumbLoader.record)
      ensures old(currentPage) <= 0 ==> currentPage == old(currentPage) && tiles == old(tiles) && pageLabel == old(pageLabel) && unchanged(thumbLoader)
      ensures old(PageInRange()) ==> PageInRange()
    {
      if currentPage > 0 {
        currentPage := currentPage - 1;
        DisplayCurrentPage();
      }
    }

    /**
     * populateThumbnails: the list is cleared; without an existing folder
     * nothing else happens. Otherwise the images found are shuffled or
     * sorted (see Arranged), handed to the slideshow, and page 0 is shown.
     */
    method PopulateThumbnails(g: Geometry, folderExists: string -> bool,
                              scan: (string, bool) -> seq<string>, shuffle: seq<string> -> seq<string>)
      requires forall s :: multiset(shuffle(s)) == multiset(s)
      modifies this, thumbLoader, slideshow
      ensures var folder := config.lastFolder;
        folder == "" || !folderExists(folder) ==>
          && tiles == [] && allPaths == [] && displayPaths == old(displayPaths)
          && currentPage == old(currentPage) && totalPages == old(totalPages) && thumbsPerPage == old(thumbsPerPage)
          && pageLabel == old(pageLabel) && cols == old(cols) && rows == old(rows)
          && unchanged(thumbLoader) && unchanged(slideshow)
      ensures var folder := config.lastFolder;
        folder != "" && folderExists(folder) ==>
          && displayPaths == Arranged(scan(folder, config.recursive), config.randomOrder, shuffle)
          && Shown(g)
          && slideshow.State() == old(slideshow.State()).(paths := displayPaths)
          && (displayPaths == [] ==> unchanged(thumbLoader))
          && thumbLoader.abort == old(thumbLoader.abort)
          && thumbLoader.metadata == old(thumbLoader.metadata) && thumbLoader.thumbs == old(thumbLoader.thumbs)
          && thumbLoader.record == old(thumbLoader.record)
    {
      tiles := [];
      allPaths := [];
      var folder := config.lastFolder;
      var recursive := config.recursive;
      if folder == "" || !folderExists(folder) {
        return;
      }
      var found := scan(folder, recursive);
      ShowImages(g, Arranged(found, config.randomOrder, shuffle));
    }

    /**
     * The state populateThumbnails leaves: both lists equal, the slideshow
     * holding the same list, page 0 current, and (for a non-empty list) the
     * first page labelled, laid out and sent to the loader.
     */
    predicate Shown(g: Geometry)
      reads this, thumbLoader, slideshow
    {
      && allPaths == displayPaths && slideshow.paths == displayPaths
      && cols == Columns(g) && rows == Rows(g) && thumbsPerPage == cols * rows
      && Paged() && PageInRange() && currentPage == 0
      && tiles == PageTiles(displayPaths, 0, ThumbnailScheduler.WindowEnd(|displayPaths|, 0, thumbsPerPage))
      && (displayPaths == [] ==> pageLabel == (0, 0))
      && (displayPaths != [] ==> ShowsPage() && pageLabel == (1, totalPages))
    }

    /** The second half of populateThumbnails, once the list is arranged. */
    method ShowImages(g: Geometry, arranged: seq<string>)
      modifies this, thumbLoader, slideshow
      ensures displayPaths == arranged && Shown(g)
      ensures slideshow.State() == old(slideshow.State()).(paths := arranged)
      ensures arranged == [] ==> unchanged(thumbLoader)
      ensures thumbLoader.abort == old(thumbLoader.abort)
      ensures thumbLoader.metadata == old(thumbLoader.metadata) && thumbLoader.thumbs == old(thumbLoader.thumbs)
      ensures thumbLoader.record == old(thumbLoader.record)
    {
      allPaths := arranged;
      displayPaths := allPaths;
      slideshow.SetImagePaths(displayPaths);
      currentPage := 0;
      CalculatePagination(g);
      DisplayCurrentPage();
    }

    /**
     * clearCache: once confirmed, invoke "clearCache" on the worker by name,
     * which runs it only when the worker's meta-object lists that name.
     */
    method InvokeClearCache(confirmed: bool, invokable: set<string>, removable: string -> bool, writable: bool)
      modifies thumbLoader
      ensures confirmed && "clearCache" in invokable ==>
        && thumbLoader.metadata == map[]
        && thumbLoader.thumbs == (map f | f in old(thumbLoader.thumbs) && !removable(f) :: old(thumbLoader.thumbs)[f])
        && thumbLoader.record == (if writable then Json.Written(map[])
                                  else if removable(thumbLoader.layout.MetadataPath()) then Json.Unopenable
                                  else old(thumbLoader.record))
        && thumbLoader.Schedule() == old(thumbLoader.Schedule())
      ensures !(confirmed && "clearCache" in invokable) ==> unchanged(thumbLoader)
    {
      if confirmed && "clearCache" in invokable {
        thumbLoader.ClearCache(removable, writable);
      }
    }

    /** clearCache as written: the lookup fails, so the cache is never cleared. */
    method ClearCacheAsWritten(confirmed: bool, removable: string -> bool, writable: bool)
      modifies thumbLoader
      ensures unchanged(thumbLoader)
    {
      InvokeClearCache(confirmed, LoaderInvokable, removable, writable);
    }

    /**
     * clearCache as intended, with the worker's clearCache declared a slot:
     * once confirmed, it runs, emptying the metadata, removing the removable
     * cache files and rewriting the record; declined, nothing changes.
     */
    method ClearCache(confirmed: bool, removable: string -> bool, writable: bool)
      modifies thumbLoader
      ensures confirmed ==>
        && thumbLoader.metadata == map[]
        && thumbLoader.thumbs == (map f | f in old(thumbLoader.thumbs) && !removable(f) :: old(thumbLoader.thumbs)[f])
        && thumbLoader.record == (if writable then Json.Written(map[])
                                  else if removable(thumbLoader.layout.MetadataPath()) then Json.Unopenable
                                  else old(thumbLoader.record))
        && thumbLoader.Schedule() == old(thumbLoader.Schedule())
      ensures !confirmed ==> unchanged(thumbLoader)
    {
      InvokeClearCache(confirmed, LoaderInvokable + {"clearCache"}, removable, writable);
    }
  }
}
