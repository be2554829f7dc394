/**
 * The normaliser of lib/melolo.js: it turns the raw upstream replies for a search, a drama's
 * detail and a video's stream into the public shapes, proxying every cover image through the
 * server's own image route. Upstream replies are parameters: the result of `request`
 * (`Upstream.Request`), and `JSON.parse` as a function that yields None where it throws.
 */
module Melolo {
  import opened Base
  import opened Text
  import opened Js
  import Uri
  import Base64
  import Utf8
  import opened Seqs

  const ProxyPrefix: string := "/api/proxy-image?url="

  /**
   * `getProxyUrl(url)`: a falsy url is passed through; any other becomes the proxy path followed
   * by the percent-encoding of its string form (see `ProxyUrlDecodes`).
   */
  function ProxyUrl(url: Value): (r: Value)
    ensures !Truthy(url) ==> r == url
    ensures Truthy(url) ==> r.Str? && StartsWith(r.s, ProxyPrefix)
  {
    if !Truthy(url) then url
    else
      var e := Uri.Encode(ToStr(url));
      assert (ProxyPrefix + e)[..|ProxyPrefix|] == ProxyPrefix;
      Str(ProxyPrefix + e)
  }

  /**
   * What follows the proxy path decodes to exactly the string form of the url, and holds only
   * unreserved characters and percent escapes, so it survives as one query parameter.
   */
  lemma ProxyUrlDecodes(url: Value)
    requires Truthy(url)
    ensures Uri.Decode(ProxyUrl(url).s[|ProxyPrefix|..]) == Some(ToStr(url))
    ensures forall i | |ProxyPrefix| <= i < |ProxyUrl(url).s| :: Uri.IsUnreserved(ProxyUrl(url).s[i]) || ProxyUrl(url).s[i] == '%'
  {
    var e := Uri.Encode(ToStr(url));
    Uri.DecodeEncode(ToStr(url));
    assert ProxyUrl(url).s[|ProxyPrefix|..] == e;
  }

  // ---------------------------------------------------------------- search

  /** One search hit. */
  datatype DramaSummary = DramaSummary(
    bookId: Value, bookName: Value, cover: Value, author: Value, introduction: Value,
    status: Value, tags: Value, chapterCount: Value)

  /** The summary of one upstream book object (the walk below reads it only when it is not `null`). */
  function SummaryOf(book: Value): DramaSummary
  {
    DramaSummary(
      Get(book, "book_id"), Get(book, "book_name"), ProxyUrl(Get(book, "thumb_url")), Get(book, "author"),
      Get(book, "abstract"), Get(book, "show_creation_status"), Or(Get(book, "stat_infos"), Arr([])),
      Or(Get(book, "serial_count"), Get(book, "last_chapter_index")))
  }

  /** `json?.data?.search_data || []`, and nothing when that is not an array. */
  function SearchSections(json: Value): seq<Value>
  {
    var data := Or(Get(Get(json, "data"), "search_data"), Arr([]));
    if data.Arr? then data.items else []
  }

  /** The books of a section: its `books` when that is an array, and none otherwise. */
  function SectionBooks(section: Value): seq<Value>
  {
    var books := Get(section, "books");
    if Truthy(books) && books.Arr? then books.items else []
  }

  /** A section whose `books` can be read, and every one of whose books can be read. */
  predicate Readable(section: Value)
  {
    !Nullish(section) && forall j | 0 <= j < |SectionBooks(section)| :: !Nullish(SectionBooks(section)[j])
  }

  /** How many books the sections hold between them. */
  function BookCount(sections: seq<Value>): nat
  {
    |FlatMap(sections, SectionBooks)|
  }

  /** The summaries of the books of a section that can be read. */
  function SectionList(section: Value): (r: seq<DramaSummary>)
    ensures |r| == |SectionBooks(section)|
  {
    var books := SectionBooks(section);
    seq(|books|, j requires 0 <= j < |books| => SummaryOf(books[j]))
  }


  /**
   * The summaries of `books` in order; reading a field of a `null` book throws, so the list
   * exists exactly when no book is `null` or `undefined`.
   */
  function SummariesOf(books: seq<Value>): (r: Result<seq<DramaSummary>>)
    ensures r.Ok? <==> forall j | 0 <= j < |books| :: !Nullish(books[j])
    ensures r.Ok? ==> |r.value| == |books| && forall j | 0 <= j < |books| :: r.value[j] == SummaryOf(books[j])
  {
    if books == [] then Ok([])
    else
      var last := books[|books| - 1];
      match SummariesOf(books[..|books| - 1])
      case Err(e) => Err(e)
      case Ok(done) => if Nullish(last) then Err(ReadError(last, "book_id")) else Ok(done + [SummaryOf(last)])
  }

  /**
   * The nested walk over sections and their books. It fails exactly when a section or a book
   * of a section is `null` or `undefined`; otherwise it yields one summary per book.
   */
  function FlattenSections(sections: seq<Value>): (r: Result<seq<DramaSummary>>)
    ensures r.Ok? ==> r.value == FlatMap(sections, SectionList)
  {
    if sections == [] then Ok([])
    else
      var done := FlattenSections(sections[..|sections| - 1]);
      var more := SectionSummaries(sections[|sections| - 1]);
      if done.Err? then done
      else if more.Err? then more
      else
        assert more.value == SectionList(sections[|sections| - 1]);
        Ok(done.value + more.value)
  }

  /** The summaries of one section's books; reading `books` of a `null` section throws. */
  function SectionSummaries(section: Value): (r: Result<seq<DramaSummary>>)
    ensures r.Ok? <==> Readable(section)
    ensures r.Ok? ==> r == SummariesOf(SectionBooks(section))
  {
    if Nullish(section) then Err(ReadError(section, "books")) else SummariesOf(SectionBooks(section))
  }

  /** The walk succeeds exactly when every section, and every book in it, can be read. */
  lemma {:induction false} FlattenSucceeds(sections: seq<Value>)
    ensures FlattenSections(sections).Ok? <==> forall i | 0 <= i < |sections| :: Readable(sections[i])
  {
    if sections != [] {
      var init := sections[..|sections| - 1];
      FlattenSucceeds(init);
      assert forall i | 0 <= i < |init| :: init[i] == sections[i];
    }
  }

  /** What `search` returns (its `data`), or the message of what it throws. */
  function SearchOf(reply: Result<Value>): Result<seq<DramaSummary>>
  {
    match reply
    case Err(e) => Err(e)
    case Ok(json) => FlattenSections(SearchSections(json))
  }

  /**
   * The order of the flattened list: book `j` of section `i` lands right after the books of
   * the sections before `i`, so sections keep their order and books their order within one.
   */
  lemma FlattenLayout(sections: seq<Value>, i: nat, j: nat)
    requires FlattenSections(sections).Ok?
    requires i < |sections| && j < |SectionBooks(sections[i])|
    ensures BookCount(sections[..i]) + j < |FlattenSections(sections).value|
    ensures FlattenSections(sections).value[BookCount(sections[..i]) + j] == SummaryOf(SectionBooks(sections[i])[j])
  {
    FlatMapLayout(sections, SectionList, i, j);
    FlatMapSameLength(sections[..i], SectionList, SectionBooks);
  }

  /** Once a prefix of the books fails, the whole list fails with the same error. */
  lemma {:induction false} SummariesErrorPersists(books: seq<Value>, k: nat)
    requires k <= |books| && SummariesOf(books[..k]).Err?
    ensures SummariesOf(books) == SummariesOf(books[..k])
    decreases |books| - k
  {
    if k < |books| {
      assert books[..k + 1][..k] == books[..k];
      SummariesErrorPersists(books, k + 1);
    } else {
      assert books[..k] == books;
    }
  }

  /** Once a prefix of the sections fails, the whole walk fails with the same error. */
  lemma {:induction false} FlattenErrorPersists(sections: seq<Value>, k: nat)
    requires k <= |sections| && FlattenSections(sections[..k]).Err?
    ensures FlattenSections(sections) == FlattenSections(sections[..k])
    decreases |sections| - k
  {
    if k < |sections| {
      assert sections[..k + 1][..k] == sections[..k];
      FlattenErrorPersists(sections, k + 1);
    } else {
      assert sections[..k] == sections;
    }
  }

  /**
   * The inner `section.books.forEach`: pushes the summary of each book onto `results`,
   * stopping at the first book whose fields cannot be read.
   */
  method PushSummaries(results: seq<DramaSummary>, books: seq<Value>) returns (r: Result<seq<DramaSummary>>)
    ensures r == match SummariesOf(books) case Err(e) => Err(e) case Ok(more) => Ok(results + more)
  {
    var pushed := results;
    var j := 0;
    assert books[..0] == [] && pushed[|results|..] == [];
    while j < |books|
      invariant 0 <= j <= |books|
      invariant |results| <= |pushed| && pushed[..|results|] == results
      invariant SummariesOf(books[..j]) == Ok(pushed[|results|..])
    {
      var book := books[j];
      assert books[..j + 1][..j] == books[..j];
      if Nullish(book) {
        SummariesErrorPersists(books, j + 1);
        return Err(ReadError(book, "book_id"));
      }
      ghost var tail := pushed[|results|..];
      pushed := pushed + [SummaryOf(book)];
      assert pushed[|results|..] == tail + [SummaryOf(book)];
      assert books[..j + 1][j] == book;
      j := j + 1;
    }
    assert books[..j] == books;
    assert pushed == results + pushed[|results|..];
    return Ok(pushed);
  }

  /**
   * `search`: the walk over the sections pushing one summary per book, proved to compute
   * `SearchOf`. The query, offset and limit only shape the upstream request, answered by `reply`.
   */
  method Search(reply: Result<Value>) returns (r: Result<seq<DramaSummary>>)
    ensures r == SearchOf(reply)
  {
    if reply.Err? {
      return Err(reply.error);
    }
    var sections := SearchSections(reply.value);
    var results: seq<DramaSummary> := [];
    var i := 0;
    while i < |sections|
      invariant 0 <= i <= |sections|
      invariant FlattenSections(sections[..i]) == Ok(results)
    {
      var section := sections[i];
      assert sections[..i + 1][..i] == sections[..i];
      if Nullish(section) {
        FlattenErrorPersists(sections, i + 1);
        return Err(ReadError(section, "books"));
      }
      var pushed := PushSummaries(results, SectionBooks(section));
      if pushed.Err? {
        FlattenErrorPersists(sections, i + 1);
        return Err(pushed.error);
      }
      results := pushed.value;
      i := i + 1;
    }
    assert sections[..i] == sections;
    return Ok(results);
  }

  // ---------------------------------------------------------------- detail

  const BookIdRequired: string := "Book ID required"
  const UnknownAuthor: string := "Misterius"

  /** One episode of a drama. */
  datatype Episode = Episode(
    chapterId: Value, chapterIndex: Value, chapterName: Value, duration: Value, likes: Value, cover: Value)

  /** The episode of one upstream video object. */
  function EpisodeOf(v: Value): Episode
    requires !Nullish(v)
  {
    Episode(Get(v, "vid"), Get(v, "vid_index"), Get(v, "title"), Get(v, "duration"), Get(v, "digged_count"),
            ProxyUrl(Get(v, "cover")))
  }

  /** `videos.map(...)` over an array: one episode per video, failing on a `null` video. */
  function EpisodesOf(videos: seq<Value>): (r: Result<seq<Episode>>)
    ensures r.Ok? <==> forall k | 0 <= k < |videos| :: !Nullish(videos[k])
    ensures r.Ok? ==> |r.value| == |videos| && forall k | 0 <= k < |videos| :: r.value[k] == EpisodeOf(videos[k])
  {
    if videos == [] then Ok([])
    else if Nullish(videos[0]) then Err(ReadError(videos[0], "vid"))
    else match EpisodesOf(videos[1..])
      case Err(e) => Err(e)
      case Ok(rest) => Ok([EpisodeOf(videos[0])] + rest)
  }

  /** `(data.video_list || []).map(...)`: anything but an array has no `map` to call. */
  function EpisodeList(data: Value): Result<seq<Episode>>
  {
    var videoList := Or(Get(data, "video_list"), Arr([]));
    if videoList.Arr? then EpisodesOf(videoList.items) else Err("videoList.map is not a function")
  }

  /** `json?.data?.video_data || {}`. */
  function VideoData(json: Value): Value
  {
    Or(Get(Get(json, "data"), "video_data"), Obj([]))
  }

  /**
   * The tag names read from `category_schema`, a JSON text holding an array of categories.
   * Anything that throws on the way (no schema, text that does not parse, a parsed value that
   * is not an array, a `null` category) leaves the tags empty.
   */
  function TagsOf(schema: Value, parse: string -> Option<Value>): (tags: seq<Value>)
    ensures tags != [] ==> Truthy(schema) && parse(ToStr(schema)).Some? && parse(ToStr(schema)).value.Arr?
    ensures Truthy(schema) && parse(ToStr(schema)).Some? && parse(ToStr(schema)).value.Arr? ==>
      var cats := parse(ToStr(schema)).value.items;
      (forall k | 0 <= k < |cats| :: !Nullish(cats[k])) ==>
        |tags| == |cats| && forall k | 0 <= k < |cats| :: tags[k] == Get(cats[k], "name")
    ensures Truthy(schema) && parse(ToStr(schema)).Some? && parse(ToStr(schema)).value.Arr? ==>
      var cats := parse(ToStr(schema)).value.items;
      (exists k | 0 <= k < |cats| :: Nullish(cats[k])) ==> tags == []
  {
    if !Truthy(schema) then []
    else match parse(ToStr(schema))
      case None => []
      case Some(parsed) =>
        if parsed.Arr? && forall k | 0 <= k < |parsed.items| :: !Nullish(parsed.items[k]) then
          seq(|parsed.items|, k requires 0 <= k < |parsed.items| => Get(parsed.items[k], "name"))
        else []
  }

  /** `data.author || data.series_author || ""`. */
  function PrimaryAuthor(data: Value): Value
  {
    Or(Or(Get(data, "author"), Get(data, "series_author")), Str(""))
  }

  /**
   * The author a one-result search by title yields: the first hit's author when that hit has
   * the requested id or the drama's title, and `current` otherwise or when the search throws.
   */
  function BackfillAuthor(bookId: Value, title: Value, current: Value, found: Result<seq<DramaSummary>>): Value
  {
    match found
    case Err(_) => current
    case Ok(hits) =>
      if |hits| > 0 && (StrictEquals(hits[0].bookId, bookId) || StrictEquals(hits[0].bookName, title))
      then hits[0].author else current
  }

  /** The author before the sentinel: the detail's own, or else the one searched back by title. */
  function AuthorOf(bookId: Value, data: Value, backfill: Result<Value>): Value
  {
    var primary := PrimaryAuthor(data);
    if Truthy(primary) then primary
    else BackfillAuthor(bookId, Get(data, "series_title"), primary, SearchOf(backfill))
  }

  /** A drama with its episodes. */
  datatype DramaDetail = DramaDetail(
    bookId: Value, bookName: Value, author: Value, introduction: Value, cover: Value,
    chapterCount: Value, tags: seq<Value>, episodes: seq<Episode>)

  /**
   * `detail(bookId)`: `reply` answers the detail request and `backfill` the title search that
   * is made only when the detail names no author.
   */
  function DetailOf(bookId: Value, reply: Result<Value>, parse: string -> Option<Value>, backfill: Result<Value>): (r: Result<DramaDetail>)
    ensures !Truthy(bookId) ==> r == Err(BookIdRequired)
    ensures Truthy(bookId) && reply.Err? ==> r == Err(reply.error)
    ensures r.Ok? <==> Truthy(bookId) && reply.Ok? && EpisodeList(VideoData(reply.value)).Ok?
    ensures r.Ok? ==> r.value.episodes == EpisodeList(VideoData(reply.value)).value
    ensures r.Ok? ==> Truthy(r.value.author)
    ensures r.Ok? ==> r.value.bookId == if Truthy(Get(VideoData(reply.value), "series_id_str"))
                                          then Get(VideoData(reply.value), "series_id_str") else bookId
    ensures r.Ok? ==>
      var data := VideoData(reply.value);
      && r.value.tags == TagsOf(Get(data, "category_schema"), parse)
      && r.value.cover == ProxyUrl(Get(data, "series_cover"))
      && r.value.bookName == Get(data, "series_title")
      && r.value.introduction == Get(data, "series_intro")
      && r.value.chapterCount == Get(data, "episode_cnt")
  {
    if !Truthy(bookId) then Err(BookIdRequired)
    else match reply
      case Err(e) => Err(e)
      case Ok(json) =>
        var data := VideoData(json);
        var tags := TagsOf(Get(data, "category_schema"), parse);
        match EpisodeList(data)
        case Err(e) => Err(e)
        case Ok(episodes) =>
          var author := AuthorOf(bookId, data, backfill);
          Ok(DramaDetail(
            Or(Get(data, "series_id_str"), bookId), Get(data, "series_title"), Or(author, Str(UnknownAuthor)),
            Get(data, "series_intro"), ProxyUrl(Get(data, "series_cover")), Get(data, "episode_cnt"), tags, episodes))
  }

  /**
   * The author rule of `detail`: an author named by the detail is kept and the backfill search
   * is then irrelevant; otherwise the search's first hit supplies it only when that hit matches
   * by id or title and names an author; in every other case the author is the sentinel.
   */
  lemma DetailAuthor(bookId: Value, reply: Result<Value>, parse: string -> Option<Value>, backfill: Result<Value>)
    requires DetailOf(bookId, reply, parse, backfill).Ok?
    ensures var data := VideoData(reply.value);
      var primary := PrimaryAuthor(data);
      var author := DetailOf(bookId, reply, parse, backfill).value.author;
      && (Truthy(primary) ==>
            author == primary
            && forall other: Result<Value> :: DetailOf(bookId, reply, parse, other) == DetailOf(bookId, reply, parse, backfill))
      && (!Truthy(primary) && SearchOf(backfill).Err? ==> author == Str(UnknownAuthor))
      && (!Truthy(primary) && SearchOf(backfill).Ok? ==>
            var hits := SearchOf(backfill).value;
            if |hits| > 0 && (StrictEquals(hits[0].bookId, bookId) || StrictEquals(hits[0].bookName, Get(data, "series_title")))
               && Truthy(hits[0].author)
            then author == hits[0].author else author == Str(UnknownAuthor))
  {
  }

  /**
   * `detail(bookId)` step by step: the tags and the author are settled by the two steps below,
   * between them the episodes are mapped.
   */
  method Detail(bookId: Value, reply: Result<Value>, parse: string -> Option<Value>, backfill: Result<Value>)
    returns (r: Result<DramaDetail>)
    ensures r == DetailOf(bookId, reply, parse, backfill)
  {
    if !Truthy(bookId) {
      return Err(BookIdRequired);
    }
    if reply.Err? {
      return Err(reply.error);
    }
    var data := VideoData(reply.value);
    var tags := ParseTags(Get(data, "category_schema"), parse);
    var episodes := EpisodeList(data);
    if episodes.Err? {
      return Err(episodes.error);
    }
    var author := ResolveAuthor(bookId, data, backfill);
    return Ok(DramaDetail(
      Or(Get(data, "series_id_str"), bookId), Get(data, "series_title"), Or(author, Str(UnknownAuthor)),
      Get(data, "series_intro"), ProxyUrl(Get(data, "series_cover")), Get(data, "episode_cnt"), tags, episodes.value));
  }

  /** The tags of `detail`: empty to start with, replaced only when the schema parses to an array. */
  method ParseTags(schema: Value, parse: string -> Option<Value>) returns (tags: seq<Value>)
    ensures tags == TagsOf(schema, parse)
  {
    tags := [];
    if Truthy(schema) {
      var parsed := parse(ToStr(schema));
      if parsed.Some? && parsed.value.Arr? {
        var cats := parsed.value.items;
        if forall k | 0 <= k < |cats| :: !Nullish(cats[k]) {
          tags := seq(|cats|, k requires 0 <= k < |cats| => Get(cats[k], "name"));
        }
      }
    }
  }

  /** The author of `detail`: searched back by title only when the detail names none. */
  method ResolveAuthor(bookId: Value, data: Value, backfill: Result<Value>) returns (author: Value)
    ensures author == AuthorOf(bookId, data, backfill)
  {
    author := PrimaryAuthor(data);
    if !Truthy(author) {
      var found := Search(backfill);
      author := BackfillAuthor(bookId, Get(data, "series_title"), author, found);
    }
  }

  // ---------------------------------------------------------------- stream

  const VideoIdRequired: string := "Video ID required"

  /** The key `b.size - a.size` compares variants by; a variant whose size is not a number ranks as 0. */
  function SizeOf(v: Value): int
  {
    match ToNumber(Get(v, "size"))
    case Some(n) => n
    case None => 0
  }

  /** Largest size first. */
  predicate SortedBySize(vs: seq<Value>)
  {
    forall i, j | 0 <= i < j < |vs| :: SizeOf(vs[i]) >= SizeOf(vs[j])
  }

  /** Puts `x` in front of the first element no larger than it. */
  function InsertBySize(x: Value, sorted: seq<Value>): (r: seq<Value>)
    ensures |r| == |sorted| + 1 && multiset(r) == multiset([x] + sorted)
  {
    if sorted == [] || SizeOf(sorted[0]) <= SizeOf(x) then [x] + sorted
    else
      assert sorted == [sorted[0]] + sorted[1..];
      [sorted[0]] + InsertBySize(x, sorted[1..])
  }

  /** Every element of the insertion is `x` or an element of `sorted`. */
  lemma InsertElements(x: Value, sorted: seq<Value>, y: Value)
    requires y in InsertBySize(x, sorted)
    ensures y == x || y in sorted
  {
    assert y in multiset(InsertBySize(x, sorted));
  }

  /** Insertion keeps a list sorted. */
  lemma {:induction false} InsertSorted(x: Value, sorted: seq<Value>)
    requires SortedBySize(sorted)
    ensures SortedBySize(InsertBySize(x, sorted))
  {
    if sorted != [] && SizeOf(sorted[0]) > SizeOf(x) {
      var rest := InsertBySize(x, sorted[1..]);
      InsertSorted(x, sorted[1..]);
      forall k | 0 <= k < |rest| ensures SizeOf(rest[k]) <= SizeOf(sorted[0]) {
        InsertElements(x, sorted[1..], rest[k]);
      }
      assert InsertBySize(x, sorted) == [sorted[0]] + rest;
    }
  }

  /**
   * `.sort((a, b) => b.size - a.size)`, which is stable: an insertion sort that keeps elements
   * of equal size in their original order.
   */
  function SortBySize(vs: seq<Value>): (r: seq<Value>)
    ensures |r| == |vs| && multiset(r) == multiset(vs)
    ensures SortedBySize(r)
  {
    if vs == [] then []
    else
      assert vs == [vs[0]] + vs[1..];
      InsertSorted(vs[0], SortBySize(vs[1..]));
      InsertBySize(vs[0], SortBySize(vs[1..]))
  }

  /** The position of the first variant of largest size. */
  function FirstLargest(vs: seq<Value>): (k: nat)
    requires vs != []
    ensures k < |vs|
    ensures forall j | 0 <= j < |vs| :: SizeOf(vs[j]) <= SizeOf(vs[k])
    ensures forall j | 0 <= j < k :: SizeOf(vs[j]) < SizeOf(vs[k])
  {
    if |vs| == 1 then 0
    else
      var k := FirstLargest(vs[1..]);
      if SizeOf(vs[0]) >= SizeOf(vs[1 + k]) then 0 else 1 + k
  }

  /** The head of the sorted list is the first variant of largest size: ties go to the earlier one. */
  lemma {:induction false} SortHead(vs: seq<Value>)
    requires vs != []
    ensures SortBySize(vs)[0] == vs[FirstLargest(vs)]
  {
    if |vs| > 1 {
      SortHead(vs[1..]);
    }
  }

  /** The elements of `vs` other than `undefined`, in order; the sort moves `undefined` last. */
  function Defined(vs: seq<Value>): (r: seq<Value>)
    ensures |r| <= |vs|
    ensures forall k | 0 <= k < |r| :: !r[k].Undefined? && r[k] in vs
  {
    if vs == [] then []
    else if vs[0].Undefined? then Defined(vs[1..])
    else [vs[0]] + Defined(vs[1..])
  }

  /**
   * The quality variants `linkStream` ranks, when it gets that far without throwing: the values
   * of the parsed `video_model`'s `video_list`. None when there is no model, it does not parse,
   * it has no list, the list is empty, or reading a variant throws (a `null` variant reaches
   * the comparator or is the head, and an all-`undefined` list has an `undefined` head).
   */
  function Variants(raw: Value, parse: string -> Option<Value>): (r: Option<seq<Value>>)
    ensures r.Some? ==> r.value != [] && forall k | 0 <= k < |r.value| :: !Nullish(r.value[k])
  {
    var videoModel := Get(raw, "video_model");
    if !Truthy(videoModel) then None
    else match parse(ToStr(videoModel))
      case None => None
      case Some(model) =>
        if Nullish(model) || !Truthy(Get(model, "video_list")) then None
        else
          var list := Values(Get(model, "video_list"));
          var defined := Defined(list);
          if defined == [] || exists k | 0 <= k < |defined| :: defined[k].Null? then None
          else Some(defined)
  }

  /**
   * The url taken from the chosen variant: kept when it starts with `http` or is falsy, read as
   * base 64 UTF-8 text when it is any other string, and `fallback` when it is a truthy value
   * that has no `startsWith` (the TypeError is caught and the best url is left as it was).
   */
  function ChosenUrl(variant: Value, fallback: Value): Value
  {
    var url := Get(variant, "main_url");
    if !Truthy(url) then url
    else if !url.Str? then fallback
    else if StartsWith(url.s, "http") then url
    else Str(Base64.DecodeToText(url.s))
  }

  /** What `linkStream` returns. */
  datatype StreamLink = StreamLink(url: Value, status: bool)

  /**
   * `linkStream(videoId)`, where `reply` answers the video-model request. The url is the main
   * url unless the model lists variants; then it comes from the first variant of largest size.
   */
  function StreamOf(videoId: Value, reply: Result<Value>, parse: string -> Option<Value>): (r: Result<StreamLink>)
    ensures !Truthy(videoId) ==> r == Err(VideoIdRequired)
    ensures Truthy(videoId) && reply.Err? ==> r == Err(reply.error)
    ensures r.Ok? <==> Truthy(videoId) && reply.Ok?
    ensures r.Ok? ==> r.value.status
    ensures r.Ok? ==>
      var raw := Or(Get(reply.value, "data"), Obj([]));
      var mainUrl := Get(raw, "main_url");
      match Variants(raw, parse)
      case None => r.value.url == mainUrl
      case Some(vs) => r.value.url == ChosenUrl(vs[FirstLargest(vs)], mainUrl)
  {
    if !Truthy(videoId) then Err(VideoIdRequired)
    else match reply
      case Err(e) => Err(e)
      case Ok(json) =>
        var raw := Or(Get(json, "data"), Obj([]));
        var bestUrl := Get(raw, "main_url");
        match Variants(raw, parse)
        case None => Ok(StreamLink(bestUrl, true))
        case Some(list) =>
          SortHead(list);
          Ok(StreamLink(ChosenUrl(SortBySize(list)[0], bestUrl), true))
  }

  /**
   * `linkStream(videoId)` step by step: the best url starts as the main url and is replaced by
   * the url of the head of the variants sorted by descending size, when there are variants.
   */
  method LinkStream(videoId: Value, reply: Result<Value>, parse: string -> Option<Value>) returns (r: Result<StreamLink>)
    ensures r == StreamOf(videoId, reply, parse)
  {
    if !Truthy(videoId) {
      return Err(VideoIdRequired);
    }
    if reply.Err? {
      return Err(reply.error);
    }
    var raw := Or(Get(reply.value, "data"), Obj([]));
    var bestUrl := Get(raw, "main_url");
    var variants := Variants(raw, parse);
    if variants.Some? {
      var list := SortBySize(variants.value);
      bestUrl := ChosenUrl(list[0], bestUrl);
    }
    return Ok(StreamLink(bestUrl, true));
  }

  /** Base 64 text never starts with `h` when it encodes UTF-8: that would need a lead byte 0x84 to 0x87. */
  lemma EncodedTextNotHttp(u: string)
    ensures !StartsWith(Base64.Encode(Utf8.Encode(u)), "http")
  {
    if u != [] {
      var bs := Utf8.Encode(u);
      assert bs == Utf8.EncodeChar(u[0]) + Utf8.Encode(u[1..]);
      var b0 := bs[0];
      assert Utf8.LeadLength(b0) >= 1;
      var xs := Base64.EncodeSextets(bs);
      assert xs[0] == b0 / 4;
      var e := Base64.Encode(bs);
      assert e[0] == Base64.AlphabetChar(b0 / 4);
    }
  }

  /**
   * The partner of the decoding step: a variant whose url is the base 64 form of the UTF-8 of
   * `u` yields `u` itself.
   */
  lemma ChosenUrlDecodes(variant: Value, fallback: Value, u: string)
    requires Get(variant, "main_url") == Str(Base64.Encode(Utf8.Encode(u)))
    ensures ChosenUrl(variant, fallback) == Str(u)
  {
    EncodedTextNotHttp(u);
    Base64.DecodeToTextEncode(u);
    if u == [] {
      assert Utf8.Encode(u) == [];
      assert Base64.Encode([]) == "";
    }
  }

  // ---------------------------------------------------------------- episode

  /** What `getEpisode` returns: the episode with its stream, or the not-found answer. */
  datatype EpisodeLookup =
    | Found(chapterId: Value, chapterIndex: Value, chapterName: Value, playUrl: Value, cover: Value)
    | NotFound

  const EpisodeNotFound: string := "Episode not found"

  /** `episodes.find(v => v.chapterIndex == index)`, as a position: the first loose match. */
  function FindEpisode(eps: seq<Episode>, index: Value): (k: Option<nat>)
    ensures k.Some? ==> k.value < |eps| && LooseEquals(eps[k.value].chapterIndex, index)
    ensures k.Some? ==> forall j | 0 <= j < k.value :: !LooseEquals(eps[j].chapterIndex, index)
    ensures k.None? <==> forall j | 0 <= j < |eps| :: !LooseEquals(eps[j].chapterIndex, index)
  {
    FirstIndex(eps, (ep: Episode) => LooseEquals(ep.chapterIndex, index))
  }

  /** The cover of a found episode: the episode's own cover, which `detail` already proxied. */
  function EpisodeCover(ep: Episode): Value
  {
    ep.cover
  }

  /** The cover as lib/melolo.js:243 computes it, passing the proxied cover through the proxy again. */
  function EpisodeCoverAsWritten(ep: Episode): Value
  {
    ProxyUrl(ep.cover)
  }

  /** The episode cover is proxied once: the image route's query decodes to the upstream cover url. */
  lemma EpisodeCoverProxiedOnce(video: Value)
    requires !Nullish(video) && Truthy(Get(video, "cover"))
    ensures var c := EpisodeCover(EpisodeOf(video));
      c.Str? && StartsWith(c.s, ProxyPrefix) && Uri.Decode(c.s[|ProxyPrefix|..]) == Some(ToStr(Get(video, "cover")))
  {
    ProxyUrlDecodes(Get(video, "cover"));
  }

  /**
   * Proxying the cover a second time hands the image route a proxy path of its own instead of
   * the upstream cover url, for every video that has a cover.
   */
  lemma EpisodeCoverAsWrittenProxiesTwice(video: Value)
    requires !Nullish(video) && Truthy(Get(video, "cover"))
    ensures var c := EpisodeCoverAsWritten(EpisodeOf(video));
      && c.Str? && StartsWith(c.s, ProxyPrefix)
      && Uri.Decode(c.s[|ProxyPrefix|..]) == Some(EpisodeCover(EpisodeOf(video)).s)
      && Uri.Decode(c.s[|ProxyPrefix|..]) != Some(ToStr(Get(video, "cover")))
  {
    var raw := ToStr(Get(video, "cover"));
    var once := EpisodeOf(video).cover;
    assert once == ProxyUrl(Get(video, "cover"));
    ProxyUrlDecodes(Get(video, "cover"));
    ProxyUrlDecodes(once);
    assert once.s == ProxyPrefix + Uri.Encode(raw);
    assert |once.s| > |raw|;
  }

  /**
   * `getEpisode(bookId, index)`: `detailReply` and `backfill` answer the requests of `detail`,
   * and `streamReply` the stream request for the episode found. The episode is the first whose
   * index loosely equals `index`; its play url is what `linkStream` picks for its id.
   */
  function GetEpisodeOf(bookId: Value, index: Value, detailReply: Result<Value>, parse: string -> Option<Value>,
                        backfill: Result<Value>, streamReply: Result<Value>): (r: Result<EpisodeLookup>)
    ensures DetailOf(bookId, detailReply, parse, backfill).Err? ==> r == Err(DetailOf(bookId, detailReply, parse, backfill).error)
    ensures r.Ok? && r.value.NotFound? <==>
      DetailOf(bookId, detailReply, parse, backfill).Ok? &&
      forall j | 0 <= j < |DetailOf(bookId, detailReply, parse, backfill).value.episodes| ::
        !LooseEquals(DetailOf(bookId, detailReply, parse, backfill).value.episodes[j].chapterIndex, index)
    ensures r.Ok? && r.value.Found? ==>
      && LooseEquals(r.value.chapterIndex, index)
      && StreamOf(r.value.chapterId, streamReply, parse).Ok?
      && r.value.playUrl == StreamOf(r.value.chapterId, streamReply, parse).value.url
    ensures r.Ok? && r.value.Found? ==>
      && DetailOf(bookId, detailReply, parse, backfill).Ok?
      && var eps := DetailOf(bookId, detailReply, parse, backfill).value.episodes;
      && FindEpisode(eps, index).Some?
      && var ep := eps[FindEpisode(eps, index).value];
      && r.value.chapterId == ep.chapterId && r.value.chapterIndex == ep.chapterIndex
      && r.value.chapterName == ep.chapterName && r.value.cover == EpisodeCover(ep)
    ensures DetailOf(bookId, detailReply, parse, backfill).Ok? ==>
      r == LookupEpisode(DetailOf(bookId, detailReply, parse, backfill).value.episodes, index, streamReply, parse)
  {
    match DetailOf(bookId, detailReply, parse, backfill)
    case Err(e) => Err(e)
    case Ok(d) => LookupEpisode(d.episodes, index, streamReply, parse)
  }

  /** The part of `getEpisode` after `detail`: find the episode in the list and link its stream. */
  function LookupEpisode(eps: seq<Episode>, index: Value, streamReply: Result<Value>,
                         parse: string -> Option<Value>): (r: Result<EpisodeLookup>)
    ensures r.Ok? && r.value.NotFound? <==> forall j | 0 <= j < |eps| :: !LooseEquals(eps[j].chapterIndex, index)
    ensures r.Ok? && r.value.Found? ==>
      && LooseEquals(r.value.chapterIndex, index)
      && StreamOf(r.value.chapterId, streamReply, parse).Ok?
      && r.value.playUrl == StreamOf(r.value.chapterId, streamReply, parse).value.url
    ensures r.Ok? && r.value.Found? ==>
      && FindEpisode(eps, index).Some?
      && var ep := eps[FindEpisode(eps, index).value];
      && r.value.chapterId == ep.chapterId && r.value.chapterIndex == ep.chapterIndex
      && r.value.chapterName == ep.chapterName && r.value.cover == EpisodeCover(ep)
    ensures r.Err? ==>
      && FindEpisode(eps, index).Some?
      && StreamOf(eps[FindEpisode(eps, index).value].chapterId, streamReply, parse).Err?
      && r.error == StreamOf(eps[FindEpisode(eps, index).value].chapterId, streamReply, parse).error
  {
    match FindEpisode(eps, index)
    case None => Ok(NotFound)
    case Some(k) =>
      var ep := eps[k];
      match StreamOf(ep.chapterId, streamReply, parse)
      case Err(e) => Err(e)
      case Ok(link) => Ok(Found(ep.chapterId, ep.chapterIndex, ep.chapterName, link.url, EpisodeCover(ep)))
  }

  /** Looking up a numeral finds what looking up the number finds, when no episode index is a string. */
  lemma FindEpisodeNumeral(eps: seq<Episode>, n: nat)
    requires forall j | 0 <= j < |eps| :: !eps[j].chapterIndex.Str? && !IsObject(eps[j].chapterIndex)
    ensures FindEpisode(eps, Str(NatToString(n))) == FindEpisode(eps, Num(n))
  {
    var byText := (ep: Episode) => LooseEquals(ep.chapterIndex, Str(NatToString(n)));
    var byNumber := (ep: Episode) => LooseEquals(ep.chapterIndex, Num(n));
    forall j | 0 <= j < |eps| ensures byText(eps[j]) == byNumber(eps[j]) {
      LooseEqualsNumeral(eps[j].chapterIndex, n);
    }
    FirstIndexCongruent(eps, byText, byNumber);
  }

  /**
   * The route hands the index over as query text: `getEpisode(id, "3")` answers exactly as
   * `getEpisode(id, 3)` does whenever the episode indexes are numbers.
   */
  lemma GetEpisodeByNumeral(bookId: Value, n: nat, detailReply: Result<Value>, parse: string -> Option<Value>,
                            backfill: Result<Value>, streamReply: Result<Value>)
    requires DetailOf(bookId, detailReply, parse, backfill).Ok? ==>
      forall j | 0 <= j < |DetailOf(bookId, detailReply, parse, backfill).value.episodes| ::
        DetailOf(bookId, detailReply, parse, backfill).value.episodes[j].chapterIndex.Num?
    ensures GetEpisodeOf(bookId, Str(NatToString(n)), detailReply, parse, backfill, streamReply)
         == GetEpisodeOf(bookId, Num(n), detailReply, parse, backfill, streamReply)
  {
    var d := DetailOf(bookId, detailReply, parse, backfill);
    if d.Ok? {
      FindEpisodeNumeral(d.value.episodes, n);
      assert LookupEpisode(d.value.episodes, Str(NatToString(n)), streamReply, parse)
          == LookupEpisode(d.value.episodes, Num(n), streamReply, parse);
    }
  }
}
