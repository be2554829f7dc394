/**
 * The client state of public/js/app.js that is kept in lists: the watch history (a bounded
 * most-recently-used list), the bookmarks, and the hero carousel; with the pure helpers the
 * views use to format durations, to fall back to numbered episodes and to build the reels list.
 * Local storage is the fields of `Client`; the clock is a parameter.
 */
module App {
  import opened Base
  import opened Text
  import opened Js
  import opened Seqs

  // ---------------------------------------------------------------- history

  /** One watch-history entry. */
  datatype HistoryEntry = HistoryEntry(
    bookId: Value, bookName: Value, cover: Value, chapterIndex: Value, progress: int, timestamp: int)

  const HistoryLimit: nat := 10

  /** `drama.bookId || drama.id`. */
  function DramaId(drama: Value): Value
  {
    Or(Get(drama, "bookId"), Get(drama, "id"))
  }

  /** `history.find(h => h.bookId === bookId)`. */
  function FindEntry(history: seq<HistoryEntry>, bookId: Value): (r: Option<HistoryEntry>)
    ensures r.Some? ==> r.value in history && StrictEquals(r.value.bookId, bookId)
    ensures r.None? ==> forall k | 0 <= k < |history| :: !StrictEquals(history[k].bookId, bookId)
    ensures r.Some? ==> exists k | 0 <= k < |history| ::
      history[k] == r.value && forall j | 0 <= j < k :: !StrictEquals(history[j].bookId, bookId)
  {
    if history == [] then None
    else if StrictEquals(history[0].bookId, bookId) then Some(history[0])
    else
      var r := FindEntry(history[1..], bookId);
      if r.Some? then
        var k :| 0 <= k < |history| - 1 && history[1..][k] == r.value
                 && forall j | 0 <= j < k :: !StrictEquals(history[1..][j].bookId, bookId);
        assert history[k + 1] == r.value && forall j | 0 <= j < k + 1 :: !StrictEquals(history[j].bookId, bookId);
        r
      else r
  }

  /**
   * The progress stored: the given one, except that restarting at 0 on the episode the entry
   * already records keeps that entry's positive progress.
   */
  function KeptProgress(history: seq<HistoryEntry>, bookId: Value, epIndex: Value, progress: int): int
  {
    match FindEntry(history, bookId)
    case Some(existing) =>
      if progress == 0 && StrictEquals(existing.chapterIndex, epIndex) && existing.progress > 0
      then existing.progress else progress
    case None => progress
  }

  /** The entry `saveHistory(drama, epIndex, progress)` records at time `now`. */
  function NewEntry(history: seq<HistoryEntry>, drama: Value, epIndex: Value, progress: int, now: int): HistoryEntry
  {
    var bookId := DramaId(drama);
    HistoryEntry(bookId, Get(drama, "bookName"), Or(Or(Get(drama, "cover"), Get(drama, "coverWap")), Get(drama, "bookCover")),
                 epIndex, KeptProgress(history, bookId, epIndex, progress), now)
  }

  /** `history.filter(h => h.bookId !== bookId)`. */
  function Without(history: seq<HistoryEntry>, bookId: Value): seq<HistoryEntry>
  {
    Filter(history, (h: HistoryEntry) => !StrictEquals(h.bookId, bookId))
  }

  /**
   * The history after recording `entry`: the entry in front, then the entries of other dramas
   * in their previous order, cut at ten entries.
   */
  function Saved(history: seq<HistoryEntry>, entry: HistoryEntry): (r: seq<HistoryEntry>)
    ensures r != [] && r[0] == entry && |r| <= HistoryLimit
    ensures |r| == if |Without(history, entry.bookId)| + 1 <= HistoryLimit then |Without(history, entry.bookId)| + 1 else HistoryLimit
    ensures r[1..] == Without(history, entry.bookId)[..|r| - 1]
    ensures forall k | 1 <= k < |r| :: !StrictEquals(r[k].bookId, entry.bookId) && r[k] in history
  {
    FilterKeeps(history, (h: HistoryEntry) => !StrictEquals(h.bookId, entry.bookId));
    var h := [entry] + Without(history, entry.bookId);
    if |h| > HistoryLimit then h[..HistoryLimit] else h
  }

  /**
   * The survivors keep their relative order: what follows the new entry is a subsequence of the
   * old history.
   */
  lemma SavedKeepsOrder(history: seq<HistoryEntry>, entry: HistoryEntry)
    ensures IsSubsequence(Saved(history, entry)[1..], history)
  {
    var w := Without(history, entry.bookId);
    var r := Saved(history, entry);
    FilterSubsequence(history, (h: HistoryEntry) => !StrictEquals(h.bookId, entry.bookId));
    PrefixIsSubsequence(w, history, |r| - 1);
  }

  /** A prefix of a subsequence is a subsequence. */
  lemma {:induction false} PrefixIsSubsequence(r: seq<HistoryEntry>, s: seq<HistoryEntry>, n: nat)
    requires IsSubsequence(r, s) && n <= |r|
    ensures IsSubsequence(r[..n], s)
  {
    if n > 0 {
      assert r != [] && s != [];
      if r[0] == s[0] && IsSubsequence(r[1..], s[1..]) {
        PrefixIsSubsequence(r[1..], s[1..], n - 1);
        assert r[..n][1..] == r[1..][..n - 1];
      } else {
        PrefixIsSubsequence(r, s[1..], n);
      }
    }
  }

  /**
   * The progress rule: restarting (progress 0) the episode already recorded for the drama keeps
   * its positive progress; any other call records the progress given.
   */
  lemma ProgressRule(history: seq<HistoryEntry>, drama: Value, epIndex: Value, progress: int, now: int)
    ensures var e := NewEntry(history, drama, epIndex, progress, now);
      var existing := FindEntry(history, DramaId(drama));
      && (progress == 0 && existing.Some? && StrictEquals(existing.value.chapterIndex, epIndex) && existing.value.progress > 0 ==>
            e.progress == existing.value.progress)
      && (progress != 0 || existing.None? ==> e.progress == progress)
      && (existing.Some? && !StrictEquals(existing.value.chapterIndex, epIndex) ==> e.progress == progress)
  {
  }

  // ---------------------------------------------------------------- bookmarks

  /** The bookmark list after `toggleBookmark(id)`: every copy of `id` removed, or `id` appended. */
  function Toggled(bookmarks: seq<string>, id: string): seq<string>
  {
    if id in bookmarks then Filter(bookmarks, (b: string) => b != id) else bookmarks + [id]
  }

  /** Toggling flips the id's membership and leaves every other id as it was. */
  lemma ToggleFlips(bookmarks: seq<string>, id: string, other: string)
    ensures id in Toggled(bookmarks, id) <==> id !in bookmarks
    ensures other != id ==> (other in Toggled(bookmarks, id) <==> other in bookmarks)
  {
    FilterKeeps(bookmarks, (b: string) => b != id);
    if id in bookmarks && other != id && other in bookmarks {
      var k :| 0 <= k < |bookmarks| && bookmarks[k] == other;
    }
  }

  /** Toggling twice restores every id's membership, and the very list when the id was absent. */
  lemma ToggleTwice(bookmarks: seq<string>, id: string, other: string)
    ensures other in Toggled(Toggled(bookmarks, id), id) <==> other in bookmarks
    ensures id !in bookmarks ==> Toggled(Toggled(bookmarks, id), id) == bookmarks
  {
    ToggleFlips(bookmarks, id, other);
    ToggleFlips(Toggled(bookmarks, id), id, other);
    if id !in bookmarks {
      FilterAppend(bookmarks, [id], (b: string) => b != id);
      FilterAll(bookmarks, (b: string) => b != id);
    }
  }

  // ---------------------------------------------------------------- carousel

  const CarouselLimit: nat := 5

  /**
   * `(index + 1) % n`. Dafny's `%` never gives a negative remainder where JavaScript's would,
   * but the two agree here: the client only ever holds an index in `[0, n)`, so the dividend
   * is never negative.
   */
  function NextIndex(index: int, n: nat): (r: int)
    requires 0 < n
    ensures 0 <= r < n
  {
    (index + 1) % n
  }

  /** `(index - 1 + n) % n`; as for `NextIndex`, the dividend is never negative for an index in `[0, n)`. */
  function PrevIndex(index: int, n: nat): (r: int)
    requires 0 < n
    ensures 0 <= r < n
  {
    (index - 1 + n) % n
  }

  /** A remainder below the modulus is the number itself. */
  lemma ModBelow(x: int, n: int)
    requires 0 <= x < n
    ensures x % n == x
  {
  }

  /** A number between the modulus and twice it leaves the modulus subtracted. */
  lemma ModWrap(x: int, n: int)
    requires 0 < n <= x < 2 * n
    ensures x % n == x - n
  {
    ModBelow(x - n, n);
    assert (x - n) % n == x % n;
  }

  /** Going back undoes going forward, and the other way round. */
  lemma PrevUndoesNext(index: int, n: nat)
    requires 0 <= index < n
    ensures PrevIndex(NextIndex(index, n), n) == index
    ensures NextIndex(PrevIndex(index, n), n) == index
  {
    if index + 1 == n {
      ModWrap(n, n);
      ModBelow(n - 1, n);
    } else {
      ModBelow(index + 1, n);
      ModWrap(index + n, n);
    }
    if index == 0 {
      ModBelow(n - 1, n);
      ModWrap(n, n);
    } else {
      ModWrap(index - 1 + n, n);
      ModBelow(index, n);
    }
  }

  // ---------------------------------------------------------------- client state

  /** The browser-side state: the history, the stored bookmarks and the carousel. */
  class Client {
    var history: seq<HistoryEntry>
    var bookmarks: seq<string>
    var slides: seq<Value>
    var slide: int

    /** The carousel shows at most five slides and its index is one of them (0 when there are none). */
    ghost predicate Valid()
      reads this
    {
      |slides| <= CarouselLimit && (if slides == [] then slide == 0 else 0 <= slide < |slides|)
    }

    /** The state on page load: the stored history and bookmarks, and an empty carousel. */
    constructor (storedHistory: seq<HistoryEntry>, storedBookmarks: seq<string>)
      ensures Valid()
      ensures history == storedHistory && bookmarks == storedBookmarks && slides == [] && slide == 0
    {
      history := storedHistory;
      bookmarks := storedBookmarks;
      slides := [];
      slide := 0;
    }

    /** `saveHistory(drama, epIndex, progress)` at time `now`; a falsy drama changes nothing. */
    method SaveHistory(drama: Value, epIndex: Value, progress: int, now: int)
      modifies this
      ensures !Truthy(drama) ==> history == old(history)
      ensures Truthy(drama) ==> history == Saved(old(history), NewEntry(old(history), drama, epIndex, progress, now))
      ensures bookmarks == old(bookmarks) && slides == old(slides) && slide == old(slide)
    {
      if !Truthy(drama) {
        return;
      }
      var bookId := DramaId(drama);
      var existing := FindEntry(history, bookId);
      var finalProgress := progress;
      if progress == 0 && existing.Some? && StrictEquals(existing.value.chapterIndex, epIndex) && existing.value.progress > 0 {
        finalProgress := existing.value.progress;
      }
      var entry := HistoryEntry(bookId, Get(drama, "bookName"),
                                Or(Or(Get(drama, "cover"), Get(drama, "coverWap")), Get(drama, "bookCover")),
                                epIndex, finalProgress, now);
      assert finalProgress == KeptProgress(history, bookId, epIndex, progress);
      assert entry == NewEntry(history, drama, epIndex, progress, now);
      var list := Without(history, bookId);
      list := [entry] + list;
      history := if |list| > HistoryLimit then list[..HistoryLimit] else list;
    }

    /** `isBookmarked(id)`. */
    predicate IsBookmarked(id: string)
      reads this
    {
      id in bookmarks
    }

    /** `toggleBookmark(id)`: the id's bookmark flips and no other id's does. */
    method ToggleBookmark(id: string)
      modifies this
      ensures bookmarks == Toggled(old(bookmarks), id)
      ensures IsBookmarked(id) <==> !old(IsBookmarked(id))
      ensures forall other: string | other != id :: IsBookmarked(other) <==> old(IsBookmarked(other))
      ensures history == old(history) && slides == old(slides) && slide == old(slide)
    {
      forall other: string ensures other != id ==> (other in Toggled(bookmarks, id) <==> other in bookmarks) {
        ToggleFlips(bookmarks, id, other);
      }
      ToggleFlips(bookmarks, id, id);
      if id in bookmarks {
        bookmarks := Filter(bookmarks, (b: string) => b != id);
      } else {
        bookmarks := bookmarks + [id];
      }
    }

    /**
     * `initCarousel(dramas)`, None standing for `null` or `undefined`: nothing happens without
     * dramas; otherwise the first five become the slides and the first is shown.
     */
    method InitCarousel(dramas: Option<seq<Value>>)
      requires Valid()
      modifies this
      ensures Valid()
      ensures dramas.None? || dramas.value == [] ==> slides == old(slides) && slide == old(slide)
      ensures dramas.Some? && dramas.value != [] ==>
        slide == 0 && slides == if |dramas.value| <= CarouselLimit then dramas.value else dramas.value[..CarouselLimit]
      ensures history == old(history) && bookmarks == old(bookmarks)
    {
      if dramas.None? || dramas.value == [] {
        return;
      }
      slides := if |dramas.value| <= CarouselLimit then dramas.value else dramas.value[..CarouselLimit];
      slide := 0;
    }

    /** `nextSlide()`, which runs only once the carousel has slides. */
    method NextSlide()
      requires Valid() && slides != []
      modifies this
      ensures slides == old(slides) && history == old(history) && bookmarks == old(bookmarks)
      ensures Valid() && slide == NextIndex(old(slide), |slides|)
    {
      slide := (slide + 1) % |slides|;
    }

    /** `prevSlide()`, which runs only once the carousel has slides. */
    method PrevSlide()
      requires Valid() && slides != []
      modifies this
      ensures slides == old(slides) && history == old(history) && bookmarks == old(bookmarks)
      ensures Valid() && slide == PrevIndex(old(slide), |slides|)
    {
      slide := (slide - 1 + |slides|) % |slides|;
    }

    /** `goToSlide(i)`, called from the dot of slide `i`. */
    method GoToSlide(i: int)
      requires Valid() && 0 <= i < |slides|
      modifies this
      ensures Valid() && slide == i
      ensures slides == old(slides) && history == old(history) && bookmarks == old(bookmarks)
    {
      slide := i;
    }
  }

  // ---------------------------------------------------------------- views

  /** `n % d` as JavaScript computes it: the sign of the remainder follows the dividend. */
  function JsRemainder(n: int, d: int): (r: int)
    requires d > 0
    ensures n >= 0 ==> r == n % d
    ensures n < 0 ==> r <= 0
    ensures -d < r < d
  {
    if n >= 0 then n % d else -((-n) % d)
  }

  /** The remainder of the negated dividend is the negated remainder. */
  lemma JsRemainderOdd(n: int, d: int)
    requires d > 0
    ensures JsRemainder(-n, d) == -JsRemainder(n, d)
  {
    if n == 0 {
      assert 0 % d == 0;
    }
  }

  /** `s.padStart(2, '0')`. */
  function PadTwo(s: string): (t: string)
    ensures |t| == if |s| < 2 then 2 else |s|
  {
    if |s| == 0 then "00" else if |s| == 1 then "0" + s else s
  }

  /** `formatDuration(sec)` for a whole number of seconds: `m:ss`, and `0:00` for no seconds. */
  function FormatDuration(sec: int): (t: string)
    ensures sec == 0 ==> t == "0:00"
    ensures |t| >= 4
  {
    if sec == 0 then "0:00"
    else IntToString(sec / 60) + ":" + PadTwo(IntToString(JsRemainder(sec, 60)))
  }

  /**
   * For a non-negative count of seconds, the minutes before the colon and the two digits after
   * it read back as the count.
   */
  lemma {:induction false} FormatDurationReadsBack(sec: nat)
    ensures var t := FormatDuration(sec);
      && t[|t| - 3] == ':' && AllDigits(t[..|t| - 3]) && AllDigits(t[|t| - 2..])
      && DigitsValue(t[..|t| - 3]) * 60 + DigitsValue(t[|t| - 2..]) == sec
  {
    var t := FormatDuration(sec);
    if sec == 0 {
      assert t[..|t| - 3] == "0" && t[|t| - 2..] == "00";
      assert DigitsValue("0") == 0;
      assert DigitsValue("00") == DigitsValue("0") * 10 + 0;
    } else {
      FormatDurationParts(sec);
      MinutesSecondsReadBack(sec / 60, sec % 60);
      assert (sec / 60) * 60 + sec % 60 == sec;
    }
  }

  /** For a positive count the two sides of the colon are the minutes and the padded seconds. */
  lemma FormatDurationParts(sec: nat)
    requires sec > 0
    ensures FormatDuration(sec) == NatToString(sec / 60) + ":" + PadTwo(NatToString(sec % 60))
  {
  }

  /** `m:ss` written from a count of minutes and of seconds below 60 reads back as both. */
  lemma {:induction false} MinutesSecondsReadBack(minutes: nat, seconds: nat)
    requires seconds < 60
    ensures var t := NatToString(minutes) + ":" + PadTwo(NatToString(seconds));
      && t[|t| - 3] == ':' && AllDigits(t[..|t| - 3]) && AllDigits(t[|t| - 2..])
      && DigitsValue(t[..|t| - 3]) == minutes && DigitsValue(t[|t| - 2..]) == seconds
  {
    var m, p := NatToString(minutes), PadTwo(NatToString(seconds));
    TwoDigits(seconds);
    DigitsValueOfNatToString(minutes);
    SplitAtColon(m, p);
  }

  /** The two sides of `m:ss`. */
  lemma SplitAtColon(m: string, p: string)
    requires |p| == 2
    ensures var t := m + ":" + p; t[|t| - 3] == ':' && t[..|t| - 3] == m && t[|t| - 2..] == p
  {
    var t := m + ":" + p;
    assert t[..|m|] == m;
  }

  /** A seconds count below 60, padded to two digits, reads back as itself. */
  lemma {:induction false} TwoDigits(s: nat)
    requires s < 60
    ensures var p := PadTwo(NatToString(s)); |p| == 2 && AllDigits(p) && DigitsValue(p) == s
  {
    var t := NatToString(s);
    DigitsValueOfNatToString(s);
    if s < 10 {
      var p := PadTwo(t);
      assert p == ['0', t[0]];
      assert p[..1] == ['0'];
    } else {
      assert NatToString(s / 10) == [DigitChar(s / 10)];
    }
  }

  /** `drama.episodes && drama.episodes.length > 0`. */
  predicate HasOwnEpisodes(drama: Value)
  {
    var episodes := Get(drama, "episodes");
    Truthy(episodes) && Positive(Length(episodes))
  }

  /**
   * The episodes the detail view lists: the drama's own when they are truthy with a positive
   * length, and otherwise placeholders numbered 1 to `chapterCount` (none when that is not a
   * positive number). A non-empty array or string of episodes is used as it is.
   */
  function EpisodeItems(drama: Value): (items: Value)
    ensures HasOwnEpisodes(drama) ==> items == Get(drama, "episodes")
    ensures var e := Get(drama, "episodes"); (e.Arr? && e.items != []) || (e.Str? && e.s != []) ==> items == e
    ensures !HasOwnEpisodes(drama) ==>
      var count := ToNumber(Or(Get(drama, "chapterCount"), Num(0)));
      && items.Arr?
      && |items.items| == (if count.Some? && count.value > 0 then count.value else 0)
      && forall i | 0 <= i < |items.items| :: Get(items.items[i], "chapterIndex") == Num(i + 1)
  {
    if HasOwnEpisodes(drama) then Get(drama, "episodes")
    else
      var count := ToNumber(Or(Get(drama, "chapterCount"), Num(0)));
      var n := if count.Some? && count.value > 0 then count.value else 0;
      Arr(seq(n, i => Obj([Member("chapterIndex", Num(i + 1))])))
  }

  const ReelsLimit: nat := 5

  /**
   * `[drama, ...recommended.filter(d => d.bookId !== bookId).slice(0, 5)]`: the requested drama,
   * then the first five recommendations of other dramas in their order. None where reading a
   * `null` recommendation throws.
   */
  function ReelsList(drama: Value, recommended: seq<Value>, bookId: Value): (r: Option<seq<Value>>)
    ensures r.Some? <==> forall k | 0 <= k < |recommended| :: !Nullish(recommended[k])
    ensures r.Some? ==> var others := Filter(recommended, (d: Value) => !StrictEquals(Get(d, "bookId"), bookId));
      && |r.value| == 1 + (if |others| <= ReelsLimit then |others| else ReelsLimit)
      && r.value[0] == drama
      && r.value[1..] == others[..|r.value| - 1]
      && forall k | 1 <= k < |r.value| :: !StrictEquals(Get(r.value[k], "bookId"), bookId) && r.value[k] in recommended
  {
    if exists k | 0 <= k < |recommended| :: Nullish(recommended[k]) then None
    else
      var others := Filter(recommended, (d: Value) => !StrictEquals(Get(d, "bookId"), bookId));
      FilterKeeps(recommended, (d: Value) => !StrictEquals(Get(d, "bookId"), bookId));
      Some([drama] + (if |others| <= ReelsLimit then others else others[..ReelsLimit]))
  }
}
