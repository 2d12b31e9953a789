/**
 The pure part of the reel feed: the static catalog of reels, the category
 filter, the fixed-size pager built on JavaScript's `Array.prototype.slice`,
 the lookup of the selected reel, the rule that decides whether the modal
 player is shown, and the aspect ratio a card gets from its grid position.
 */
module ReelFeed {
  import opened Wrappers

  /** One entry of the catalog. `videoUrl` is the URL of the bundled asset. */
  datatype Reel = Reel(id: int, category: string, title: string, views: string, videoUrl: string)

  /** The filter buttons, in display order; the first is the "no filter" sentinel. */
  const ALL := "All"
  const CATEGORIES: seq<string> := [ALL, "Cinematic", "Drone Shots", "Events", "Reels"]

  /** Page size of the grid. */
  const ITEMS_PER_PAGE := 12

  /** The Cinematic run of the catalog. */
  const CINEMATIC_REELS: seq<Reel> := [
    Reel(1, "Cinematic", "Cinematic Vision I", "1.2M", "Videos/Cinematic/Cinematic1.mp4"),
    Reel(2, "Cinematic", "Cinematic Vision II", "980K", "Videos/Cinematic/Cinematic2.mp4"),
    Reel(3, "Cinematic", "Cinematic Vision III", "1.5M", "Videos/Cinematic/Cinematic3.mp4"),
    Reel(4, "Cinematic", "Cinematic Vision IV", "2.1M", "Videos/Cinematic/Cinematic4.mp4"),
    Reel(5, "Cinematic", "Cinematic Masterpiece", "3.4M", "Videos/Cinematic/cinematic.mp4")
  ]

  /** The Drone Shots run of the catalog. */
  const DRONE_REELS: seq<Reel> := [
    Reel(6, "Drone Shots", "Drone Event Coverage", "890K", "Videos/Drone Shots/Drone-Event.mp4"),
    Reel(7, "Drone Shots", "Aerial Perspective I", "750K", "Videos/Drone Shots/Drone1.mp4"),
    Reel(8, "Drone Shots", "Aerial Perspective II", "620K", "Videos/Drone Shots/Drone2.mp4"),
    Reel(9, "Drone Shots", "Aerial Perspective III", "1.1M", "Videos/Drone Shots/Drone3.mp4")
  ]

  /** The Events run of the catalog. */
  const EVENT_REELS: seq<Reel> := [
    Reel(10, "Events", "Event Highlights I", "2.8M", "Videos/Events/Event1.mp4"),
    Reel(11, "Events", "Event Highlights II", "1.9M", "Videos/Events/Event2.mp4"),
    Reel(12, "Events", "Event Highlights III", "2.3M", "Videos/Events/Event3.mp4")
  ]

  /** The Reels run of the catalog. */
  const SHORT_REELS: seq<Reel> := [
    Reel(13, "Reels", "Creative Reel I", "4.5M", "Videos/Reels/Reel1.mp4"),
    Reel(14, "Reels", "Creative Reel II", "3.2M", "Videos/Reels/Reel2.mp4"),
    Reel(15, "Reels", "Creative Reel III", "2.7M", "Videos/Reels/Reel3.mp4"),
    Reel(16, "Reels", "Creative Reel IV", "5.1M", "Videos/Reels/Reel4.mp4"),
    Reel(17, "Reels", "Creative Reel V", "3.8M", "Videos/Reels/Reel5.mp4"),
    Reel(18, "Reels", "Creative Reel VI", "4.2M", "Videos/Reels/Reel6.mp4"),
    Reel(19, "Reels", "Creative Reel VII", "3.5M", "Videos/Reels/Reel7.mp4")
  ]

  /** The static catalog, in display order: one run per category. */
  const CATALOG: seq<Reel> := CINEMATIC_REELS + DRONE_REELS + EVENT_REELS + SHORT_REELS

  /* ---------------------------------------------------------------------- */
  /* Order: a is obtained from b by deleting elements.                       */
  /* ---------------------------------------------------------------------- */

  ghost predicate Subsequence<T>(a: seq<T>, b: seq<T>)
    decreases |b|
  {
    if a == [] then true
    else if b == [] then false
    else (a[0] == b[0] && Subsequence(a[1..], b[1..])) || Subsequence(a, b[1..])
  }

  lemma {:induction false} SubsequenceReflexive<T>(s: seq<T>)
    ensures Subsequence(s, s)
    decreases |s|
  {
    if s != [] {
      SubsequenceReflexive(s[1..]);
    }
  }

  /* ---------------------------------------------------------------------- */
  /* Category filter                                                         */
  /* ---------------------------------------------------------------------- */

  /** `s.filter(r => r.category === cat)`: the reels of one category, in order. */
  function FilterBy(s: seq<Reel>, cat: string): (r: seq<Reel>)
    ensures forall x :: x in r <==> x in s && x.category == cat
    ensures |r| <= |s|
  {
    if s == [] then []
    else (if s[0].category == cat then [s[0]] else []) + FilterBy(s[1..], cat)
  }

  /** The filter distributes over concatenation: each reel is kept or dropped on
      its own, independently of its neighbours, and the order is preserved. */
  lemma {:induction false} FilterByConcat(a: seq<Reel>, b: seq<Reel>, cat: string)
    ensures FilterBy(a + b, cat) == FilterBy(a, cat) + FilterBy(b, cat)
    decreases |a|
  {
    if a == [] {
      assert a + b == b;
    } else {
      assert (a + b)[0] == a[0];
      assert (a + b)[1..] == a[1..] + b;
      FilterByConcat(a[1..], b, cat);
      var head := if a[0].category == cat then [a[0]] else [];
      calc {
        FilterBy(a + b, cat);
        head + FilterBy(a[1..] + b, cat);
        head + (FilterBy(a[1..], cat) + FilterBy(b, cat));
        (head + FilterBy(a[1..], cat)) + FilterBy(b, cat);
        FilterBy(a, cat) + FilterBy(b, cat);
      }
    }
  }

  /** The filtered reels appear in the catalog in the same relative order. */
  lemma {:induction false} FilterByIsSubsequence(s: seq<Reel>, cat: string)
    ensures Subsequence(FilterBy(s, cat), s)
    decreases |s|
  {
    if s != [] {
      FilterByIsSubsequence(s[1..], cat);
      var rest := FilterBy(s[1..], cat);
      if s[0].category == cat {
        assert FilterBy(s, cat) == [s[0]] + rest;
        assert ([s[0]] + rest)[1..] == rest;
      } else {
        assert FilterBy(s, cat) == rest;
      }
    }
  }

  /** A run whose reels all share the category is kept whole. */
  lemma {:induction false} FilterByKeepsAll(s: seq<Reel>, cat: string)
    requires forall x :: x in s ==> x.category == cat
    ensures FilterBy(s, cat) == s
    decreases |s|
  {
    if s != [] {
      FilterByKeepsAll(s[1..], cat);
    }
  }

  /** A run with no reel of the category is dropped entirely. */
  lemma {:induction false} FilterByDropsAll(s: seq<Reel>, cat: string)
    requires forall x :: x in s ==> x.category != cat
    ensures FilterBy(s, cat) == []
    decreases |s|
  {
    if s != [] {
      FilterByDropsAll(s[1..], cat);
    }
  }

  /** `activeCategory === "All" ? reels : reels.filter(...)`. */
  function Filter(catalog: seq<Reel>, cat: string): (r: seq<Reel>)
    ensures cat == ALL ==> r == catalog
    ensures cat != ALL ==> forall x :: x in r <==> x in catalog && x.category == cat
    ensures Subsequence(r, catalog)
  {
    if cat == ALL then
      SubsequenceReflexive(catalog);
      catalog
    else
      FilterByIsSubsequence(catalog, cat);
      FilterBy(catalog, cat)
  }

  /* ---------------------------------------------------------------------- */
  /* Pager                                                                   */
  /* ---------------------------------------------------------------------- */

  function Min(a: int, b: int): int { if a <= b then a else b }

  /** `Math.ceil(n / ITEMS_PER_PAGE)`; no lower bound of 1, so 0 items give 0 pages. */
  function TotalPages(n: nat): (t: nat)
    ensures (t - 1) * ITEMS_PER_PAGE < n <= t * ITEMS_PER_PAGE
    ensures t == 0 <==> n == 0
  {
    (n + ITEMS_PER_PAGE - 1) / ITEMS_PER_PAGE
  }

  /** How `slice` resolves an index against a length: negative indices count
      from the end, and every index is clamped into `[0, len]`. */
  function RelativeIndex(i: int, len: nat): (r: nat)
    ensures r <= len
    ensures 0 <= i <= len ==> r == i
  {
    if i < 0 then (if len + i < 0 then 0 else len + i)
    else if i > len then len
    else i
  }

  /** `s.slice(start, end)`: for in-range indices it is the native
      subsequence, and it never holds more than the span between the indices. */
  function Slice<T>(s: seq<T>, start: int, end: int): (r: seq<T>)
    ensures forall x :: x in r ==> x in s
    ensures start <= end ==> |r| <= end - start
    ensures 0 <= start <= end <= |s| ==> r == s[start..end]
    ensures 0 <= end <= start ==> r == []
  {
    var from := RelativeIndex(start, |s|);
    var to := RelativeIndex(end, |s|);
    if from < to then s[from..to] else []
  }

  /** `filtered.slice((page - 1) * ITEMS_PER_PAGE, page * ITEMS_PER_PAGE)`:
      whatever page is asked for, negative ones included, at most a page's
      worth of the list's own items comes back. */
  function Page<T>(s: seq<T>, page: int): (r: seq<T>)
    ensures |r| <= ITEMS_PER_PAGE
    ensures forall x :: x in r ==> x in s
  {
    Slice(s, (page - 1) * ITEMS_PER_PAGE, page * ITEMS_PER_PAGE)
  }

  /** A page in `[1, TotalPages]` is the run of items it numbers, and is never empty. */
  lemma PageInRange<T>(s: seq<T>, page: int)
    requires 1 <= page <= TotalPages(|s|)
    ensures (page - 1) * ITEMS_PER_PAGE < |s|
    ensures Page(s, page) == s[(page - 1) * ITEMS_PER_PAGE .. Min(page * ITEMS_PER_PAGE, |s|)]
    ensures |Page(s, page)| == Min(ITEMS_PER_PAGE, |s| - (page - 1) * ITEMS_PER_PAGE) > 0
  {
    var t := TotalPages(|s|);
    assert (page - 1) * ITEMS_PER_PAGE <= (t - 1) * ITEMS_PER_PAGE;
  }

  /** Pages past the last one, and page 0, are empty. */
  lemma PageOutOfRange<T>(s: seq<T>, page: int)
    requires page == 0 || page > TotalPages(|s|)
    ensures Page(s, page) == []
  {
    if page > 0 {
      var t := TotalPages(|s|);
      assert (page - 1) * ITEMS_PER_PAGE >= t * ITEMS_PER_PAGE;
    }
  }

  /** Pages `p, p + 1, ..., TotalPages` laid end to end. */
  function PagesFrom<T>(s: seq<T>, p: nat): seq<T>
    decreases TotalPages(|s|) + 1 - p
  {
    if p == 0 || p > TotalPages(|s|) then [] else Page(s, p) + PagesFrom(s, p + 1)
  }

  lemma {:induction false} PagesFromIsSuffix<T>(s: seq<T>, p: nat)
    requires 1 <= p <= TotalPages(|s|) + 1
    ensures PagesFrom(s, p) == s[Min((p - 1) * ITEMS_PER_PAGE, |s|)..]
    decreases TotalPages(|s|) + 1 - p
  {
    var t := TotalPages(|s|);
    if p > t {
      assert (p - 1) * ITEMS_PER_PAGE == t * ITEMS_PER_PAGE >= |s|;
      assert PagesFrom(s, p) == [];
    } else {
      PageInRange(s, p);
      PagesFromIsSuffix(s, p + 1);
      var lo, hi := (p - 1) * ITEMS_PER_PAGE, p * ITEMS_PER_PAGE;
      assert s[lo..] == s[lo..Min(hi, |s|)] + s[Min(hi, |s|)..];
    }
  }

  /** Concatenating pages `1..TotalPages` gives back the whole sequence: every
      item is on exactly one page, in order, with no gaps and no repeats. */
  lemma PagesReassemble<T>(s: seq<T>)
    ensures PagesFrom(s, 1) == s
  {
    PagesFromIsSuffix(s, 1);
  }

  /* ---------------------------------------------------------------------- */
  /* Selection                                                               */
  /* ---------------------------------------------------------------------- */

  /** `reels.find(r => r.id === selected)`: the first reel whose id equals the
      selection, or nothing (always nothing when the selection is null). */
  function Find(s: seq<Reel>, selected: Option<int>): (r: Option<Reel>)
    ensures r.Some? ==> r.value in s && selected == Some(r.value.id)
    ensures r.None? <==> forall x :: x in s ==> selected != Some(x.id)
  {
    if s == [] then None
    else if selected == Some(s[0].id) then Some(s[0])
    else Find(s[1..], selected)
  }

  /** `find` stops at the first match: a reel preceded by no other reel with
      the selected id is the one returned. */
  lemma {:induction false} FindReturnsFirst(s: seq<Reel>, selected: Option<int>, i: nat)
    requires i < |s| && selected == Some(s[i].id)
    requires forall j :: 0 <= j < i ==> selected != Some(s[j].id)
    ensures Find(s, selected) == Some(s[i])
  {
    if i > 0 {
      FindReturnsFirst(s[1..], selected, i - 1);
    }
  }

  /** `selectedReel && selectedReelData`: JavaScript truthiness, so a null or a
      zero selection keeps the modal closed, as does an id with no reel. */
  predicate ModalShown(catalog: seq<Reel>, selected: Option<int>)
    ensures ModalShown(catalog, selected) <==>
              selected.Some? && selected.value != 0 && exists x :: x in catalog && x.id == selected.value
  {
    selected.Some? && selected.value != 0 && Find(catalog, selected).Some?
  }

  /* ---------------------------------------------------------------------- */
  /* Card layout                                                             */
  /* ---------------------------------------------------------------------- */

  const ASPECT_RATIOS: seq<string> := ["3/4", "4/5", "1/1"]

  /** The aspect ratio of the card at grid position `index`. */
  function AspectRatio(index: nat): (r: string)
    ensures r == ASPECT_RATIOS[index % 3]
  {
    if index % 3 == 0 then "3/4" else if index % 3 == 1 then "4/5" else "1/1"
  }

  /** Ratios repeat every three cards. */
  lemma AspectRatioCycles(index: nat)
    ensures AspectRatio(index + 3) == AspectRatio(index)
    ensures AspectRatio(index) in ASPECT_RATIOS
  {
  }

  /* ---------------------------------------------------------------------- */
  /* Facts about the catalog itself                                          */
  /* ---------------------------------------------------------------------- */

  /** The catalog's ids are 1, 2, ..., 19 in order, hence pairwise distinct. */
  lemma CatalogIds()
    ensures |CATALOG| == 19
    ensures forall i :: 0 <= i < |CATALOG| ==> CATALOG[i].id == i + 1
  {
  }

  /** No two reels share an id, so an id identifies at most one reel. */
  lemma CatalogIdsDistinct()
    ensures forall i, j :: 0 <= i < |CATALOG| && 0 <= j < |CATALOG| && CATALOG[i].id == CATALOG[j].id ==> i == j
  {
    CatalogIds();
  }

  /** Every reel has a video, so every card previews and the modal always
      offers the mute button. */
  lemma CatalogHasVideos()
    ensures forall x :: x in CATALOG ==> x.videoUrl != ""
  {
  }

  /** Every reel's category is one of the filter buttons other than "All". */
  lemma CatalogCategoriesListed()
    ensures forall x :: x in CATALOG ==> x.category in CATEGORIES[1..]
  {
  }

  /** Looking an id up in the catalog yields the reel with that id, if any. */
  lemma LookupById(id: int)
    ensures Find(CATALOG, Some(id)) == if 1 <= id <= |CATALOG| then Some(CATALOG[id - 1]) else None
  {
    CatalogIds();
    if 1 <= id <= |CATALOG| {
      FindReturnsFirst(CATALOG, Some(id), id - 1);
    } else {
      assert forall x :: x in CATALOG ==> 1 <= x.id <= 19;
    }
  }

  /** Since no catalog id is 0, the modal is shown exactly when the selection
      resolves to a reel. */
  lemma ModalShownIffResolves(selected: Option<int>)
    ensures ModalShown(CATALOG, selected) <==> Find(CATALOG, selected).Some?
    ensures ModalShown(CATALOG, selected) <==> selected.Some? && 1 <= selected.value <= 19
  {
    CatalogIds();
    if selected.Some? {
      LookupById(selected.value);
    }
  }

  ghost predicate OfCategory(s: seq<Reel>, cat: string)
  {
    forall x :: x in s ==> x.category == cat
  }

  /** A run of one category is kept whole by its own filter and dropped by any other. */
  lemma FilterRun(run: seq<Reel>, runCategory: string, cat: string)
    requires OfCategory(run, runCategory)
    ensures FilterBy(run, cat) == if cat == runCategory then run else []
  {
    if cat == runCategory {
      FilterByKeepsAll(run, cat);
    } else {
      FilterByDropsAll(run, cat);
    }
  }

  /** Filtering four consecutive single-category runs keeps the runs of the category. */
  lemma FilterFourRuns(a: seq<Reel>, b: seq<Reel>, c: seq<Reel>, d: seq<Reel>,
                       ca: string, cb: string, cc: string, cd: string, cat: string)
    requires OfCategory(a, ca) && OfCategory(b, cb) && OfCategory(c, cc) && OfCategory(d, cd)
    ensures FilterBy(a + b + c + d, cat) == (if cat == ca then a else []) + (if cat == cb then b else [])
                                            + (if cat == cc then c else []) + (if cat == cd then d else [])
  {
    FilterByConcat(a + b + c, d, cat);
    FilterByConcat(a + b, c, cat);
    FilterByConcat(a, b, cat);
    FilterRun(a, ca, cat);
    FilterRun(b, cb, cat);
    FilterRun(c, cc, cat);
    FilterRun(d, cd, cat);
  }

  /** Each of the catalog's four runs holds reels of a single category. */
  lemma RunsOfOneCategory()
    ensures OfCategory(CINEMATIC_REELS, "Cinematic") && OfCategory(DRONE_REELS, "Drone Shots")
    ensures OfCategory(EVENT_REELS, "Events") && OfCategory(SHORT_REELS, "Reels")
  {
  }

  /** Filtering the catalog by any category string keeps exactly the run of
      that category (and nothing for a string that names no category). */
  lemma FilterCatalog(cat: string)
    ensures FilterBy(CATALOG, cat) == (if cat == "Cinematic" then CINEMATIC_REELS else [])
                                      + (if cat == "Drone Shots" then DRONE_REELS else [])
                                      + (if cat == "Events" then EVENT_REELS else [])
                                      + (if cat == "Reels" then SHORT_REELS else [])
  {
    RunsOfOneCategory();
    FilterFourRuns(CINEMATIC_REELS, DRONE_REELS, EVENT_REELS, SHORT_REELS,
                   "Cinematic", "Drone Shots", "Events", "Reels", cat);
  }

  /** Every filter button leads to a non-empty grid: "All" spreads over two
      pages, every other category fits on one. */
  lemma CategoryPageCounts(cat: string)
    requires cat in CATEGORIES
    ensures TotalPages(|Filter(CATALOG, cat)|) == if cat == ALL then 2 else 1
  {
    if cat != ALL {
      FilterCatalog(cat);
      var r := FilterBy(CATALOG, cat);
      if cat == "Cinematic" {
        assert r == CINEMATIC_REELS + [] + [] + [];
      } else if cat == "Drone Shots" {
        assert r == [] + DRONE_REELS + [] + [];
      } else if cat == "Events" {
        assert r == [] + [] + EVENT_REELS + [];
      } else {
        assert r == [] + [] + [] + SHORT_REELS;
      }
    }
  }
}
