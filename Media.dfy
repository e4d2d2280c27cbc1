/** The media catalogue of `src/types/media.ts` and the query logic of
    `mediaApi.getAll` and `mediaApi.search` in `src/api/media-api.ts`:
    filter by type, filter by title, paginate. Titles are compared after
    lower-casing ASCII letters. */
module Media {
  import opened Options
  import opened JsString
  import opened Lists

  datatype TrackFormat = SRT | VTT | ASS

  datatype SubtitleTrack = SubtitleTrack(id: string, language: string, languageCode: string,
                                         format: TrackFormat, fileUrl: Option<string>, addedAt: string)

  datatype Episode = Episode(id: string, number: int, title: string, duration: string,
                             thumbnailUrl: Option<string>, subtitles: seq<SubtitleTrack>)

  datatype Season = Season(id: string, number: int, title: string, episodes: seq<Episode>)

  /** `Movie | Series`, told apart by their `type` field. */
  datatype MediaItem =
    | Movie(id: string, title: string, year: int, duration: string, posterUrl: Option<string>,
            backdropUrl: Option<string>, description: Option<string>, subtitles: seq<SubtitleTrack>)
    | Series(id: string, title: string, year: int, posterUrl: Option<string>,
             backdropUrl: Option<string>, description: Option<string>, seasons: seq<Season>)

  /** The `type` argument of `getAll`: `'movie'`, `'series'` or `'all'`. */
  datatype TypeChoice = Movies | AllSeries | AllTypes

  /** The item's type is the one the choice names. */
  predicate OfType(m: MediaItem, choice: TypeChoice) {
    match choice
    case Movies => m.Movie?
    case AllSeries => m.Series?
    case AllTypes => true
  }

  /** `item.title.toLowerCase().includes(query.toLowerCase())`. */
  predicate TitleMatches(m: MediaItem, query: string) {
    Includes(Lower(m.title), Lower(query))
  }

  /** `items.filter(item => item.type === type)`. */
  function KeepType(items: seq<MediaItem>, choice: TypeChoice): seq<MediaItem> {
    if items == [] then []
    else (if OfType(items[0], choice) then [items[0]] else []) + KeepType(items[1..], choice)
  }

  /** `items.filter(item => item.title.toLowerCase().includes(query))`. */
  function KeepTitle(items: seq<MediaItem>, query: string): seq<MediaItem> {
    if items == [] then []
    else (if TitleMatches(items[0], query) then [items[0]] else []) + KeepTitle(items[1..], query)
  }

  /** Both filters of `getAll`: the type filter only for a given type other
      than `'all'`, the title filter only for a non-empty search. */
  function Filtered(items: seq<MediaItem>, choice: Option<TypeChoice>, search: Option<string>): seq<MediaItem> {
    var byType := if choice.Some? && choice.value != AllTypes then KeepType(items, choice.value) else items;
    if search.Some? && search.value != [] then KeepTitle(byType, search.value) else byType
  }

  /** `xs.slice(start, end)`. */
  function Slice<T>(xs: seq<T>, start: int, end: int): seq<T> {
    var s, e := Relative(|xs|, start), Relative(|xs|, end);
    if s < e then xs[s..e] else []
  }

  /** What `getAll` resolves to. */
  datatype Page = Page(items: seq<MediaItem>, total: nat)

  /** The body of `getAll(page, limit, type, search)` over the catalogue `items`. */
  function Query(items: seq<MediaItem>, page: int, limit: int, choice: Option<TypeChoice>, search: Option<string>): Page {
    var filtered := Filtered(items, choice, search);
    var startIndex := PageStart(page, limit);
    Page(Slice(filtered, startIndex, startIndex + limit), |filtered|)
  }

  /** `(page - 1) * limit`: where a page starts; from page 1 on, with a
      non-negative limit, never before the first item. */
  function PageStart(page: int, limit: int): (start: int)
    ensures page >= 1 && limit >= 0 ==> start >= 0
  {
    (page - 1) * limit
  }

  /** The mock catalogue `getAll` and `search` read. */
  const SampleMedia: seq<MediaItem> := [
    Movie("movie-1", "Inception", 2010, "2h 28m",
          Some("https://images.unsplash.com/photo-1440404653325-ab127d49abc1?w=400&q=80"),
          Some("https://images.unsplash.com/photo-1489599849927-2ee91cede3ba?w=1200&q=80"),
          Some("A thief who steals corporate secrets through dream-sharing technology is given the task of planting an idea into the mind of a CEO."),
          [SubtitleTrack("sub-1", "English", "en", SRT, None, "2024-01-15"),
           SubtitleTrack("sub-2", "Spanish", "es", SRT, None, "2024-01-16")]),
    Movie("movie-2", "Interstellar", 2014, "2h 49m",
          Some("https://images.unsplash.com/photo-1534447677768-be436bb09401?w=400&q=80"),
          Some("https://images.unsplash.com/photo-1462331940025-496dfbfc7564?w=1200&q=80"),
          Some("A team of explorers travel through a wormhole in space in an attempt to ensure humanity's survival."),
          [SubtitleTrack("sub-3", "English", "en", VTT, None, "2024-02-10")]),
    Series("series-1", "Breaking Bad", 2008,
           Some("https://images.unsplash.com/photo-1504384308090-c894fdcc538d?w=400&q=80"),
           Some("https://images.unsplash.com/photo-1517604931442-7e0c8ed2963c?w=1200&q=80"),
           Some("A high school chemistry teacher diagnosed with lung cancer turns to manufacturing methamphetamine."),
           [Season("season-1", 1, "Season 1",
                   [Episode("ep-1-1", 1, "Pilot", "58m", None,
                            [SubtitleTrack("sub-4", "English", "en", SRT, None, "2024-01-20")]),
                    Episode("ep-1-2", 2, "Cat's in the Bag...", "48m", None, [])])])
  ]

  /** `mediaApi.getAll(page, limit, type, search)` (the defaults being
      `page = 1` and `limit = 10`). */
  function GetAll(page: int, limit: int, choice: Option<TypeChoice>, search: Option<string>): Page {
    Query(SampleMedia, page, limit, choice, search)
  }

  /** The catalogue without filters, on the first page of ten, is the whole
      catalogue of three items. */
  lemma GetAllDefault()
    ensures GetAll(1, 10, None, None) == Page(SampleMedia, 3)
  {
  }

  /** Asking for series only gives the one series. */
  lemma GetAllSeries()
    ensures GetAll(1, 10, Some(AllSeries), None).items == [SampleMedia[2]]
  {
  }

  /** `mediaApi.search(query)` over the catalogue `items`. */
  function Search(items: seq<MediaItem>, query: string): seq<MediaItem> {
    KeepTitle(items, query)
  }

  /** The type filter keeps exactly the items of that type, in order. */
  lemma {:induction false} KeepTypeSpec(items: seq<MediaItem>, choice: TypeChoice)
    ensures var r := KeepType(items, choice);
      |r| <= |items| && (forall m :: m in r <==> m in items && OfType(m, choice))
  {
    if items != [] {
      KeepTypeSpec(items[1..], choice);
      assert items == [items[0]] + items[1..];
    }
  }

  /** The title filter keeps exactly the items whose title matches, in order. */
  lemma {:induction false} KeepTitleSpec(items: seq<MediaItem>, query: string)
    ensures var r := KeepTitle(items, query);
      |r| <= |items| && (forall m :: m in r <==> m in items && TitleMatches(m, query))
  {
    if items != [] {
      KeepTitleSpec(items[1..], query);
      assert items == [items[0]] + items[1..];
    }
  }

  /** Filtering a concatenation filters each part: the order is kept. */
  lemma {:induction false} KeepTitleConcat(a: seq<MediaItem>, b: seq<MediaItem>, query: string)
    ensures KeepTitle(a + b, query) == KeepTitle(a, query) + KeepTitle(b, query)
  {
    if a == [] {
      assert a + b == b;
    } else {
      var x, rest := a[0], a[1..];
      assert a == [x] + rest;
      assert a + b == [x] + (rest + b);
      KeepTitleConcat(rest, b, query);
      KeepTitleCons(x, rest, query);
      KeepTitleCons(x, rest + b, query);
    }
  }

  lemma KeepTitleCons(x: MediaItem, rest: seq<MediaItem>, query: string)
    ensures KeepTitle([x] + rest, query) == (if TitleMatches(x, query) then [x] else []) + KeepTitle(rest, query)
  {
    assert ([x] + rest)[1..] == rest;
  }

  lemma {:induction false} KeepTypeConcat(a: seq<MediaItem>, b: seq<MediaItem>, choice: TypeChoice)
    ensures KeepType(a + b, choice) == KeepType(a, choice) + KeepType(b, choice)
  {
    if a == [] {
      assert a + b == b;
    } else {
      var x, rest := a[0], a[1..];
      assert a == [x] + rest;
      assert a + b == [x] + (rest + b);
      KeepTypeConcat(rest, b, choice);
      KeepTypeCons(x, rest, choice);
      KeepTypeCons(x, rest + b, choice);
    }
  }

  lemma KeepTypeCons(x: MediaItem, rest: seq<MediaItem>, choice: TypeChoice)
    ensures KeepType([x] + rest, choice) == (if OfType(x, choice) then [x] else []) + KeepType(rest, choice)
  {
    assert ([x] + rest)[1..] == rest;
  }

  /** Every title includes the empty query, so it filters nothing. */
  lemma {:induction false} KeepTitleEmpty(items: seq<MediaItem>)
    ensures KeepTitle(items, []) == items
  {
    if items != [] {
      IncludesEmpty(Lower(items[0].title));
      assert Lower([]) == [];
      KeepTitleEmpty(items[1..]);
      assert items == [items[0]] + items[1..];
    }
  }

  /** An item passes `getAll`'s filters exactly when it is of the given type
      (unless no type or `'all'` is given) and its title matches the search
      (unless none or an empty one is given). */
  lemma FilteredSpec(items: seq<MediaItem>, choice: Option<TypeChoice>, search: Option<string>)
    ensures var r := Filtered(items, choice, search);
      |r| <= |items|
      && forall m :: m in r <==>
           m in items
           && (choice.Some? ==> OfType(m, choice.value))
           && (search.Some? ==> TitleMatches(m, search.value))
  {
    var byType := if choice.Some? && choice.value != AllTypes then KeepType(items, choice.value) else items;
    if choice.Some? && choice.value != AllTypes {
      KeepTypeSpec(items, choice.value);
    }
    if search.Some? {
      if search.value != [] {
        KeepTitleSpec(byType, search.value);
      } else {
        forall m ensures TitleMatches(m, search.value) {
          assert Lower(search.value) == [];
          IncludesEmpty(Lower(m.title));
        }
      }
    }
  }

  /** The page: `total` counts every item passing the filters, whatever the
      page; for a page from 1 and a non-negative limit, the items are the
      filtered items from `(page - 1) * limit` on, at most `limit` of them,
      in catalogue order. */
  lemma QuerySpec(items: seq<MediaItem>, page: int, limit: int, choice: Option<TypeChoice>, search: Option<string>)
    requires page >= 1 && limit >= 0
    ensures var filtered := Filtered(items, choice, search);
      var r := Query(items, page, limit, choice, search);
      var start := PageStart(page, limit);
      r.total == |filtered| && |r.items| <= limit
      && (start < |filtered| ==> r.items == filtered[start..if start + limit < |filtered| then start + limit else |filtered|])
      && (start >= |filtered| ==> r.items == [])
  {
    SliceWindow(Filtered(items, choice, search), PageStart(page, limit), limit);
  }

  /** A window of `limit` items from a non-negative `start`. */
  lemma SliceWindow<T>(xs: seq<T>, start: int, limit: int)
    requires start >= 0 && limit >= 0
    ensures var r := Slice(xs, start, start + limit);
      |r| <= limit
      && (start < |xs| ==> r == xs[start..if start + limit < |xs| then start + limit else |xs|])
      && (start >= |xs| ==> r == [])
  {
  }

  /** The total depends only on the filters, not on the page or its size. */
  lemma TotalIgnoresPaging(items: seq<MediaItem>, p1: int, l1: int, p2: int, l2: int,
                           choice: Option<TypeChoice>, search: Option<string>)
    ensures Query(items, p1, l1, choice, search).total == Query(items, p2, l2, choice, search).total
  {
  }

  /** `search(q)` gives the items `getAll` filters with no type and the search
      `q`, in the same order, for every `q`, the empty one included. */
  lemma SearchIsTitleFilter(items: seq<MediaItem>, query: string)
    ensures Search(items, query) == Filtered(items, None, Some(query))
    ensures forall m :: m in Search(items, query) <==> m in items && TitleMatches(m, query)
  {
    KeepTitleSpec(items, query);
    if query == [] {
      KeepTitleEmpty(items);
    }
  }
}
