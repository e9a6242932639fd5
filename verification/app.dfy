/** The three validated routes as transitions of the search store.

    Each route takes the store and a request and yields the new store with
    the response. The crawl of a cohort and the engine's ranked answers are
    inputs: their production (network fetches, scoring) is not modelled. */
module App {
  import opened Base
  import opened Crawler
  import opened Search
  import opened Schema
  import Config

  /** The `data` of a successful response. */
  datatype Payload = Scraped(pages: seq<Page>) | Found(docs: seq<Doc>) | Completions(hits: seq<Hit>)

  /** A response body: data, field errors, or an uncaught exception. */
  datatype Body = Ok(data: Payload) | Invalid(errors: Errors) | Crash(message: string)

  datatype Response = Response(status: nat, body: Body)

  /** The store after a route ran, with the route's response. */
  datatype Outcome = Outcome(store: Store, response: Response)

  /** `HTTP_200_OK`. */
  const OkStatus: nat := 200

  /** What the web framework answers for an exception the route raised. */
  const ServerErrorStatus: nat := 500

  /** What `scrape_cohort_lectures` hands back: the crawled pages, or the
      message of the exception it raised (the Twisted reactor, for one, runs
      only once per process, so a second crawl in the same process raises). */
  type Crawl = Result<seq<Page>, string>

  /** `notes_list` once the cohort is known: the cohort's index is created
      only when absent, then the crawl runs and its pages are upserted. The
      index is created before the crawl, so a raising crawl still leaves it
      behind, empty when it was new, and the route answers 500. Re-scraping
      never discards a document already indexed; every crawled url ends up
      indexed with its last page's fields; no other index changes; the
      response data is the crawl itself. */
  function NotesList(s: Store, cohort: string, crawl: Crawl): (r: Outcome)
    ensures r.store.Keys == s.Keys + {cohort}
    ensures forall m :: m in s && m != cohort ==> r.store[m] == s[m]
    ensures cohort !in s ==> r.store[cohort].body == DefaultBody
    ensures cohort !in s && crawl.Failure? ==> r.store[cohort].docs == map[]
    ensures cohort !in s && crawl.Success? ==> r.store[cohort].docs.Keys == Urls(crawl.value)
    ensures cohort in s && crawl.Failure? ==> r.store[cohort] == s[cohort]
    ensures cohort in s ==> r.store[cohort].body == s[cohort].body
    ensures cohort in s && crawl.Success? ==>
      r.store[cohort].docs.Keys == s[cohort].docs.Keys + Urls(crawl.value)
    ensures cohort in s && crawl.Success? ==> forall id :: id in s[cohort].docs && id !in Urls(crawl.value) ==>
      r.store[cohort].docs[id] == s[cohort].docs[id]
    ensures crawl.Success? ==> forall k :: 0 <= k < |crawl.value| && IsLastPage(crawl.value, k) ==>
      r.store[cohort].docs[crawl.value[k].url] == DocOf(crawl.value[k])
    ensures crawl.Success? ==> r.response == Response(OkStatus, Ok(Scraped(crawl.value)))
    ensures crawl.Failure? ==> r.response == Response(ServerErrorStatus, Crash(crawl.error))
  {
    var ready := if IndexExists(s, cohort) then s else CreateIndex(s, cohort, DefaultBody);
    match crawl
    case Failure(message) => Outcome(ready, Response(ServerErrorStatus, Crash(message)))
    case Success(data) => Outcome(BulkInsert(ready, cohort, data).value, Response(OkStatus, Ok(Scraped(data))))
  }

  /** Scraping the same crawl twice leaves the store as scraping it once. */
  lemma NotesListIdempotent(s: Store, cohort: string, data: seq<Page>)
    ensures NotesList(NotesList(s, cohort, Success(data)).store, cohort, Success(data))
      == NotesList(s, cohort, Success(data))
  {
    var ready := if IndexExists(s, cohort) then s else CreateIndex(s, cohort, DefaultBody);
    BulkInsertIdempotent(ready, cohort, data);
  }

  /** A scrape whose crawl raised does no lasting harm: a later successful
      scrape leaves the store as that scrape alone would. */
  lemma FailedScrapeThenRescrape(s: Store, cohort: string, message: string, data: seq<Page>)
    ensures NotesList(NotesList(s, cohort, Failure(message)).store, cohort, Success(data)).store
      == NotesList(s, cohort, Success(data)).store
  {
  }

  /** Two successive scrapes: every document the first one left is still
      indexed after the second, whatever either crawl yields. */
  lemma RescrapeKeepsDocuments(s: Store, cohort: string, first: Crawl, second: Crawl)
    ensures var once := NotesList(s, cohort, first).store;
      once[cohort].docs.Keys <= NotesList(once, cohort, second).store[cohort].docs.Keys
  {
  }

  /** The handler reads the cohort from the JSON body. The validator has
      already required it; its absence is not reachable through the route. */
  function ScrapeHandler(s: Store, req: Request, crawl: Crawl): Outcome
  {
    if req.json.Some? && "cohort" in req.json.value then NotesList(s, req.json.value["cohort"], crawl)
    else Outcome(s, Response(ServerErrorStatus, Crash("no cohort to index")))
  }

  /** Turns the decorator's verdict into the route's outcome; a rejected or
      raising request leaves the store as it was. */
  function Respond(s: Store, w: Wrapped<Outcome>): Outcome
  {
    match w
    case Returned(o) => o
    case Rejected(errors, status) => Outcome(s, Response(status, Invalid(errors)))
    case Raised(message) => Outcome(s, Response(ServerErrorStatus, Crash(message)))
  }

  /** POST /scrape: a body naming a configured cohort runs `notes_list`;
      any other body is answered 400 with the field errors and touches no
      index. */
  function ScrapeRoute(s: Store, req: Request, crawl: Crawl): (r: Outcome)
    requires req.httpMethod == "POST"
    ensures "cohort" in JsonBody(req) && JsonBody(req)["cohort"] in Config.Cohorts ==>
      r == NotesList(s, JsonBody(req)["cohort"], crawl)
    ensures !("cohort" in JsonBody(req) && JsonBody(req)["cohort"] in Config.Cohorts) ==>
      && r.store == s
      && r.response.status == BadRequestStatus
      && r.response.body == Invalid(Validate(LeetMommyValidator, JsonBody(req)))
  {
    LeetMommyErrors(JsonBody(req));
    Respond(s, Wrap(LeetMommyValidator, req, (q: Request) => ScrapeHandler(s, q, crawl)))
  }

  /** Both GET routes require a configured cohort and a query argument. */
  predicate QueryArgsValid(args: Data)
  {
    "cohort" in args && args["cohort"] in Config.Cohorts && "query" in args
  }

  /** The `search` handler: the engine's documents for the full-text body,
      or an error when the cohort has no index. */
  function SearchHandler(s: Store, req: Request, engine: Engine): Outcome
  {
    if "cohort" in req.args && "query" in req.args then
      match SearchIndex(s, req.args["cohort"], req.args["query"], engine)
      case Success(docs) => Outcome(s, Response(OkStatus, Ok(Found(docs))))
      case Failure(_) => Outcome(s, Response(ServerErrorStatus, Crash("index not found")))
    else Outcome(s, Response(ServerErrorStatus, Crash("missing argument")))
  }

  /** GET /search: never changes the store. Valid arguments on an existing
      index give the engine's documents; a missing index is a server error;
      invalid arguments give 400 with the field errors. The framework also
      routes HEAD here, which the validator answers by raising: a 500. */
  function SearchRoute(s: Store, req: Request, engine: Engine): (r: Outcome)
    requires req.httpMethod == "GET" || req.httpMethod == "HEAD"
    ensures r.store == s
    ensures req.httpMethod == "HEAD" ==> r.response.status == ServerErrorStatus
    ensures req.httpMethod == "GET" && QueryArgsValid(req.args) && req.args["cohort"] in s ==>
      r.response == Response(OkStatus, Ok(Found(SearchIndex(s, req.args["cohort"], req.args["query"], engine).value)))
    ensures req.httpMethod == "GET" && QueryArgsValid(req.args) && req.args["cohort"] !in s ==>
      r.response.status == ServerErrorStatus
    ensures req.httpMethod == "GET" && !QueryArgsValid(req.args) ==>
      r.response == Response(BadRequestStatus, Invalid(Validate(QueryValidator, req.args)))
  {
    QueryAcceptance(req.args);
    LeetMommyErrors(req.args);
    Respond(s, Wrap(QueryValidator, req, (q: Request) => SearchHandler(s, q, engine)))
  }

  /** The `autocompleter` handler: the engine's raw hits for the title-only
      body, or an error when the cohort has no index. */
  function AutocompleteHandler(s: Store, req: Request, engine: Engine): Outcome
  {
    if "cohort" in req.args && "query" in req.args then
      match AutocompleteIndex(s, req.args["cohort"], req.args["query"], engine)
      case Success(hits) => Outcome(s, Response(OkStatus, Ok(Completions(hits))))
      case Failure(_) => Outcome(s, Response(ServerErrorStatus, Crash("index not found")))
    else Outcome(s, Response(ServerErrorStatus, Crash("missing argument")))
  }

  /** GET /autocomplete: never changes the store. Valid arguments on an
      existing index give the engine's hits for an exact title match; a
      missing index is a server error; invalid arguments give 400. HEAD,
      which the framework routes here too, raises in the validator: a 500. */
  function AutocompleteRoute(s: Store, req: Request, engine: Engine): (r: Outcome)
    requires req.httpMethod == "GET" || req.httpMethod == "HEAD"
    ensures r.store == s
    ensures req.httpMethod == "HEAD" ==> r.response.status == ServerErrorStatus
    ensures req.httpMethod == "GET" && QueryArgsValid(req.args) && req.args["cohort"] in s ==>
      r.response == Response(OkStatus, Ok(Completions(
        engine(s[req.args["cohort"]], AutocompleteBody(req.args["query"])))))
    ensures req.httpMethod == "GET" && QueryArgsValid(req.args) && req.args["cohort"] !in s ==>
      r.response.status == ServerErrorStatus
    ensures req.httpMethod == "GET" && !QueryArgsValid(req.args) ==>
      r.response == Response(BadRequestStatus, Invalid(Validate(QueryValidator, req.args)))
  {
    QueryAcceptance(req.args);
    LeetMommyErrors(req.args);
    Respond(s, Wrap(QueryValidator, req, (q: Request) => AutocompleteHandler(s, q, engine)))
  }
}
