/**
 * The HTTP routes of routes/api.js, each a function from the request (its query string, or
 * headers and body) and the upstream replies it would need to the response it sends. A
 * response is a JSON body with status 200 or one of the error statuses.
 */
module Routes {
  import opened Base
  import opened Text
  import opened Js
  import Melolo

  /** What a route sends: status 200 with a body, or an error status with its JSON body. */
  datatype Reply<T> =
    | Json(body: T)
    | BadRequest(error: string)
    | Forbidden(error: string)
    | ServerError(error: string, message: string)

  const LimitError: string := "IP terkena limit, silakan tunggu beberapa menit dan coba lagi"

  /**
   * `handleRequest`: what the handler returns is sent as it is; whatever it throws becomes a
   * 500 with the fixed text and the thrown message.
   */
  function HandleRequest<T>(outcome: Result<T>): (r: Reply<T>)
    ensures r.Json? <==> outcome.Ok?
    ensures outcome.Ok? ==> r.body == outcome.value
    ensures outcome.Err? ==> r == ServerError(LimitError, outcome.error)
  {
    match outcome
    case Ok(v) => Json(v)
    case Err(e) => ServerError(LimitError, e)
  }

  /** The parsed query string, one text per name. */
  type Query = map<string, string>

  /** `req.query[name]`. */
  function Param(q: Query, name: string): Value
  {
    if name in q then Str(q[name]) else Undefined
  }

  /** A required parameter is there and not empty. */
  lemma ParamTruthy(q: Query, name: string)
    ensures Truthy(Param(q, name)) <==> name in q && q[name] != ""
  {
  }

  const QueryRequired: string := "Parameter \"query\" dibutuhkan"
  const BookIdRequired: string := "Parameter \"bookId\" dibutuhkan"
  const BookIdAndIndexRequired: string := "Parameter \"bookId\" dan \"index\" dibutuhkan"
  const VideoIdRequired: string := "Parameter \"videoId\" dibutuhkan"

  /** `GET /search`: `reply` answers the upstream search for the query. */
  function SearchRoute(q: Query, reply: Result<Value>): (r: Reply<seq<Melolo.DramaSummary>>)
    ensures !Truthy(Param(q, "query")) ==> r == BadRequest(QueryRequired)
    ensures Truthy(Param(q, "query")) ==> r == HandleRequest(Melolo.SearchOf(reply))
  {
    if !Truthy(Param(q, "query")) then BadRequest(QueryRequired) else HandleRequest(Melolo.SearchOf(reply))
  }

  /** `GET /detail`. */
  function DetailRoute(q: Query, reply: Result<Value>, parse: string -> Option<Value>, backfill: Result<Value>): (r: Reply<Melolo.DramaDetail>)
    ensures !Truthy(Param(q, "bookId")) ==> r == BadRequest(BookIdRequired)
    ensures Truthy(Param(q, "bookId")) ==> r == HandleRequest(Melolo.DetailOf(Param(q, "bookId"), reply, parse, backfill))
  {
    var bookId := Param(q, "bookId");
    if !Truthy(bookId) then BadRequest(BookIdRequired) else HandleRequest(Melolo.DetailOf(bookId, reply, parse, backfill))
  }

  /** `GET /episodes`: the episodes of the drama's detail, and nothing else of it. */
  function EpisodesRoute(q: Query, reply: Result<Value>, parse: string -> Option<Value>, backfill: Result<Value>): (r: Reply<seq<Melolo.Episode>>)
    ensures !Truthy(Param(q, "bookId")) ==> r == BadRequest(BookIdRequired)
    ensures Truthy(Param(q, "bookId")) ==>
      var d := Melolo.DetailOf(Param(q, "bookId"), reply, parse, backfill);
      (d.Ok? ==> r == Json(d.value.episodes)) && (d.Err? ==> r == ServerError(LimitError, d.error))
  {
    var bookId := Param(q, "bookId");
    if !Truthy(bookId) then BadRequest(BookIdRequired)
    else HandleRequest(match Melolo.DetailOf(bookId, reply, parse, backfill)
                       case Ok(d) => Ok(d.episodes)
                       case Err(e) => Err(e))
  }

  /** `GET /episode`: both the drama and the episode index are required. */
  function EpisodeRoute(q: Query, detailReply: Result<Value>, parse: string -> Option<Value>, backfill: Result<Value>,
                        streamReply: Result<Value>): (r: Reply<Melolo.EpisodeLookup>)
    ensures !Truthy(Param(q, "bookId")) || !Truthy(Param(q, "index")) ==> r == BadRequest(BookIdAndIndexRequired)
    ensures Truthy(Param(q, "bookId")) && Truthy(Param(q, "index")) ==>
      r == HandleRequest(Melolo.GetEpisodeOf(Param(q, "bookId"), Param(q, "index"), detailReply, parse, backfill, streamReply))
  {
    var bookId := Param(q, "bookId");
    var index := Param(q, "index");
    if !Truthy(bookId) || !Truthy(index) then BadRequest(BookIdAndIndexRequired)
    else HandleRequest(Melolo.GetEpisodeOf(bookId, index, detailReply, parse, backfill, streamReply))
  }

  /** `GET /stream`: the play url `linkStream` picks, and nothing else of its answer. */
  function StreamRoute(q: Query, reply: Result<Value>, parse: string -> Option<Value>): (r: Reply<Value>)
    ensures !Truthy(Param(q, "videoId")) ==> r == BadRequest(VideoIdRequired)
    ensures Truthy(Param(q, "videoId")) ==>
      var s := Melolo.StreamOf(Param(q, "videoId"), reply, parse);
      (s.Ok? ==> r == Json(s.value.url)) && (s.Err? ==> r == ServerError(LimitError, s.error))
  {
    var videoId := Param(q, "videoId");
    if !Truthy(videoId) then BadRequest(VideoIdRequired)
    else HandleRequest(match Melolo.StreamOf(videoId, reply, parse)
                       case Ok(s) => Ok(s.url)
                       case Err(e) => Err(e))
  }

  /**
   * A route whose required parameter is missing answers 400 whatever the upstream would have
   * said: no upstream reply reaches the response. `r1`/`r2` answer the route's main request,
   * `b1`/`b2` the author backfill and `s1`/`s2` the stream request of `/episode`.
   */
  lemma MissingParameterSkipsUpstream(q: Query, r1: Result<Value>, r2: Result<Value>, parse: string -> Option<Value>,
                                      b1: Result<Value>, b2: Result<Value>, s1: Result<Value>, s2: Result<Value>)
    ensures !Truthy(Param(q, "query")) ==> SearchRoute(q, r1) == SearchRoute(q, r2)
    ensures !Truthy(Param(q, "bookId")) ==> DetailRoute(q, r1, parse, b1) == DetailRoute(q, r2, parse, b2)
    ensures !Truthy(Param(q, "bookId")) ==> EpisodesRoute(q, r1, parse, b1) == EpisodesRoute(q, r2, parse, b2)
    ensures !Truthy(Param(q, "bookId")) || !Truthy(Param(q, "index")) ==>
      EpisodeRoute(q, r1, parse, b1, s1) == EpisodeRoute(q, r2, parse, b2, s2)
    ensures !Truthy(Param(q, "videoId")) ==> StreamRoute(q, r1, parse) == StreamRoute(q, r2, parse)
  {
  }

  // ---------------------------------------------------------------- dubbed

  const ClassifyMissing: string := "Parameter classify dibutuhkan terpopuler atau terbaru"
  const ClassifyInvalid: string := "Parameter classify harus terpopuler atau terbaru"

  /** `parseInt(page) || 1`: a page that is absent, not numeric or zero is page 1. */
  function PageNumber(page: Value): (p: int)
    ensures p != 0
    ensures ParseInt(page).Some? && ParseInt(page).value != 0 ==> p == ParseInt(page).value
    ensures ParseInt(page).None? || ParseInt(page).value == 0 ==> p == 1
  {
    match ParseInt(page)
    case Some(n) => if n != 0 then n else 1
    case None => 1
  }

  /** An absent page is page 1: `parseInt(undefined)` reads the text "undefined", which has no digit. */
  lemma PageNumberAbsent()
    ensures PageNumber(Undefined) == 1
  {
    var t := "undefined";
    assert ToStr(Undefined) == t;
    assert t[0] == 'u' && HexValue('u').None? && !IsJsSpace('u');
    assert TrimStart(t) == t;
    assert RadixPrefix(t, 10) == 0;
    assert ParseIntText(t) == None;
  }

  /** A page written as a numeral is its value, except that page 0 is page 1. */
  lemma PageNumberOfNumeral(n: nat)
    ensures PageNumber(Str(NatToString(n))) == if n == 0 then 1 else n
  {
    ParseIntNumeral(n, "");
    assert NatToString(n) + "" == NatToString(n);
  }

  /** The arguments `dubindo` is called with. */
  datatype DubbedCall = DubbedCall(classifyCode: int, page: int)

  /**
   * `GET /dubbed`: `classify` is required and, lower-cased, must be one of the two
   * classifications; the call made with its code and the page is answered by `reply` (`dubindo`
   * ignores both and runs a fixed search).
   */
  method Dubbed(q: Query, reply: Result<Value>) returns (r: Reply<seq<Melolo.DramaSummary>>, call: Option<DubbedCall>)
    ensures !Truthy(Param(q, "classify")) ==> r == BadRequest(ClassifyMissing) && call.None?
    ensures Truthy(Param(q, "classify")) && AsciiLower(q["classify"]) != "terpopuler" && AsciiLower(q["classify"]) != "terbaru"
      ==> r == BadRequest(ClassifyInvalid) && call.None?
    ensures call.Some? <==> Truthy(Param(q, "classify")) && AsciiLower(q["classify"]) in {"terpopuler", "terbaru"}
    ensures call.Some? ==>
      && call.value.classifyCode == (if AsciiLower(q["classify"]) == "terpopuler" then 1 else 2)
      && call.value.page == PageNumber(Param(q, "page"))
      && r == HandleRequest(Melolo.SearchOf(reply))
  {
    var classify := Param(q, "classify");
    if !Truthy(classify) {
      return BadRequest(ClassifyMissing), None;
    }
    var lowered := AsciiLower(classify.s);
    var classifyCode;
    if lowered == "terpopuler" {
      classifyCode := 1;
    } else if lowered == "terbaru" {
      classifyCode := 2;
    } else {
      return BadRequest(ClassifyInvalid), None;
    }
    var page := PageNumber(Param(q, "page"));
    call := Some(DubbedCall(classifyCode, page));
    r := HandleRequest(Melolo.SearchOf(reply));
  }

  // ---------------------------------------------------------------- admin notice

  const DefaultAdminKey: string := "jywa-admin-123"
  const ApiKeyHeader: string := "x-api-key"
  const Unauthorized: string := "Unauthorized: Invalid API Key"
  const InvalidNotice: string := "Invalid notice data"
  const SaveFailed: string := "Failed to save notice"

  /** `process.env.ADMIN_API_KEY || 'jywa-admin-123'`. */
  function AdminKey(env: Option<string>): string
  {
    if env.Some? && env.value != "" then env.value else DefaultAdminKey
  }

  /** The response of `POST /admin/notice`, and the notice written to the notice file if a write was made. */
  datatype NoticeResult = NoticeResult(reply: Reply<Value>, written: Option<Value>)

  predicate Authorized(headers: map<string, string>, env: Option<string>)
  {
    ApiKeyHeader in headers && headers[ApiKeyHeader] == AdminKey(env)
  }

  /**
   * `POST /admin/notice` with lower-cased request header names, the parsed body, the key in the
   * environment and the failure of the file write, if it fails. The key is checked before the
   * body is looked at, and nothing is written unless both checks pass.
   */
  function AdminNotice(headers: map<string, string>, body: Value, env: Option<string>, writeError: Option<string>): (r: NoticeResult)
    ensures !Authorized(headers, env) ==> r == NoticeResult(Forbidden(Unauthorized), None)
    ensures Authorized(headers, env) && Nullish(body) ==> r == NoticeResult(ServerError(SaveFailed, ReadError(body, "id")), None)
    ensures Authorized(headers, env) && !Nullish(body) && (!Truthy(Get(body, "id")) || !Get(body, "active").Bool?)
      ==> r == NoticeResult(BadRequest(InvalidNotice), None)
    ensures r.written.Some? <==> Authorized(headers, env) && !Nullish(body) && Truthy(Get(body, "id")) && Get(body, "active").Bool?
    ensures r.written.Some? ==> r.written.value == body
    ensures r.written.Some? ==> r.reply == if writeError.Some? then ServerError(SaveFailed, writeError.value) else Json(body)
  {
    if !Authorized(headers, env) then NoticeResult(Forbidden(Unauthorized), None)
    else if Nullish(body) then NoticeResult(ServerError(SaveFailed, ReadError(body, "id")), None)
    else if !Truthy(Get(body, "id")) || !Get(body, "active").Bool? then NoticeResult(BadRequest(InvalidNotice), None)
    else match writeError
      case Some(e) => NoticeResult(ServerError(SaveFailed, e), Some(body))
      case None => NoticeResult(Json(body), Some(body))
  }
}
