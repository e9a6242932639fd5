# LeetMommy search core, modelled in Dafny

LeetMommy crawls the lecture-note pages of a bootcamp cohort, turns each page
into a document of text fields, upserts the documents into one search index
per cohort, and serves full-text search and title autocomplete over that
index behind a small validated HTTP API.

This project models the logic inside that glue:

- `crawler.dfy` (module `Crawler`): the spider's link filter and follow-up
  requests, the newline `clean`, Python's `str.strip`, the per-field shaping
  of `bs_parse` and the `create_document` merge. The HTML parser's output (the
  text of every h1-h6, li, p and pre element inside the first element with
  id `page-content` that lies within a `div`, the selector
  `div #page-content`) is an input.
- `search.dfy` (module `Search`): the index controller as transitions of an
  abstract store `map<index name, Index(body, docs by id)>`: exists, delete,
  destructive create, `parse_pages`, and `bulk_insert` as doc-as-upsert
  actions keyed by url; `search` and `autocomplete` as reads whose ranking is
  the engine's (a function parameter) and whose query bodies are constants.
- `schema.dfy` (module `Schema`): the two validation models as declared field
  lists and the `validator` decorator's control flow over an abstract request
  (method, JSON body, query arguments).
- `app.dfy` (module `App`): the `/scrape`, `/search` and `/autocomplete`
  routes as store transitions returning a response; `notes_list` creates the
  cohort's index only when absent and then upserts the crawl.
- `config.dfy` (module `Config`): the enumerated cohorts.
- `base.dfy` (module `Base`): `Option`, `Result` and an element-wise map.

Inputs that stand for what the model does not compute: the crawl result (a
sequence of page records), the parser's element texts, and the engine's hit
lists.

Facts about the code that the model keeps:

- The crawl has no timeout: `reactor.run()` blocks until the crawl ends.
- Only bullets, paragraphs and code blocks are newline-cleaned. Headers are
  stripped only, and the title is left untouched.
- Extraction is not total. A page without such an element (one with id
  `page-content` inside a `div`) hands the parser nothing, the callback raises, and the page yields no record.
- Full-text search uses fuzziness `"3"` and sets no field weights.
- A `query` is required only to be present, so an empty string passes.
- Bulk failures are not reported per identity. `bulk` raises
  `BulkIndexError`, listing the failed actions, after the first chunk (500
  actions by default) in which an action failed. The engine has already
  applied the rest of that chunk, and later chunks are not sent. The route
  answers 500 and reports none of the failed ids.
- `/scrape` creates a missing index before it crawls, so a crawl that raises
  leaves the new index behind, empty, and the route answers 500.

## Model

| member | source | states |
|---|---|---|
| Crawler.LinkFilterExamples | lib/crawler.py:26 | a missing href, exactly `../`, and a `.zip` suffix are rejected; `.ZIP`, `../x`, `./` and ordinary pages are followed (exact match, case-sensitive suffix) |
| Crawler.AcceptedHrefsAppend | lib/crawler.py:24-29 | the followed links of a concatenated anchor list are those of each part in order, so the filter keeps anchor order |
| Crawler.AcceptedHrefsSingle | lib/crawler.py:25-27 | one anchor yields its href exactly when it passes the filter, otherwise nothing |
| Crawler.AcceptedHrefsMembership | lib/crawler.py:24-29 | an href is followed iff some anchor carries it and it passes the filter |
| Crawler.Parse | lib/crawler.py:22-29 | the loop emits exactly one request per accepted anchor, in anchor order, each for a link that passes the filter |
| Crawler.Clean | lib/crawler.py:69-72 | same length as the text, no newline left, each newline becomes a space and every other character stays at its position |
| Crawler.CleanFixpoints | lib/crawler.py:70-72 | cleaning is idempotent, and a text is unchanged by it iff it holds no newline |
| Crawler.CleanKeepsOtherWhitespace | lib/crawler.py:72 | carriage returns and tabs are not replaced |
| Crawler.Strip | lib/crawler.py:53-54 | the header text is the contiguous slice left after cutting whitespace at both ends: it has no whitespace at its ends and everything cut off is whitespace |
| Crawler.StripIdempotent | lib/crawler.py:53 | stripping a stripped header changes nothing |
| Crawler.StripKeepsInteriorNewline | lib/crawler.py:53-54 | headers are not newline-cleaned: an interior newline survives stripping |
| Crawler.BsParse | lib/crawler.py:44-67 | headers are the stripped heading texts; bullets, text and code are the cleaned li, p and pre texts; each keeps count and document order; no bullet, text or code entry contains a newline |
| Crawler.CreateDocument | lib/crawler.py:31-42 | a record exists iff the page has content; its url is the response URL, its title the head title (possibly absent), its other four fields the parsed ones, newline-free where cleaned |
| Search.DeleteIndex | lib/search.py:73-75 | deletion succeeds iff the index exists; afterwards it is gone and every other index is unchanged |
| Search.CreateFresh | lib/search.py:71 | the engine's create fails on an existing name and otherwise adds an empty index with the given body, touching no other index |
| Search.CreateIndex | lib/search.py:65-71 | after a create the index exists with the given body and no documents, whatever it held before; no other index changes |
| Search.RecreateDiscardsDocuments | lib/search.py:65-71 | every document of an existing index is gone after it is created again |
| Search.DeleteUndoesCreate | lib/search.py:65-75 | deleting a just-created index leaves the other indices exactly as they were |
| Search.ParsePages | lib/search.py:130-148 | one action per page in page order; each is an `update` with `doc_as_upsert`, its `_id` and `doc.url` are the page url, and title, bullets, headers, text and code are copied unchanged |
| Search.ApplyAllKeys | lib/search.py:80-88 | a batch of upserts adds exactly its ids to the index |
| Search.ApplyAllKeepsOthers | lib/search.py:80-88 | a document whose id is not in the batch keeps its value |
| Search.ApplyAllLastWins | lib/search.py:80-88 | each id of the batch holds the document of the last action with that id (last write wins) |
| Search.ApplyAllIdempotent | lib/search.py:80-88 | applying a batch of upserts twice equals applying it once |
| Search.ParsePagesLinks | lib/search.py:136-148 | the actions touch exactly the crawl's urls, and an action is the last for its id iff its page is the last for its url |
| Search.BulkInsert | lib/search.py:80-88 | on an existing index every page url becomes an id holding the fields of the last page with that url, other ids keep their documents, the body and all other indices are unchanged; a missing index is reported |
| Search.BulkInsertIdempotent | lib/search.py:80-88 | inserting the same crawl twice leaves the store as inserting it once |
| Search.SearchIndex | lib/search.py:114-128 | fails iff the index is missing; otherwise yields the `_source` of every hit of the engine's answer to an `and` multi-match over headers, bullets, text, title and code with fuzziness 3, in rank order |
| Search.AutocompleteIndex | lib/search.py:98-112 | fails iff the index is missing; otherwise yields the engine's hits (as `_id` and `_source`) for an exact (fuzziness 0) match on the title field alone |
| Schema.Validate | lib/schema.py:12-19 | the data pass iff no declared field fails its check; every failing field is reported, and only declared fields are |
| Schema.ValidateReports | lib/schema.py:12-19 | for a model with distinct field names, a field is reported iff it fails its check, and it is reported with its own reason (missing required value, or a value outside the choices) |
| Schema.ModelsHaveDistinctNames | lib/schema.py:12-19 | both validation models declare each field name once, so the exact reporting of failing fields applies to them |
| Schema.ValidateExtended | lib/schema.py:17-19 | a model derived by adding fields reports the added fields' errors together with its parent's |
| Schema.LeetMommyErrors | lib/schema.py:12-14 | the cohort model accepts iff a cohort is present and is one of r11-r14; a missing cohort is reported as required and an unknown one as not a choice |
| Schema.QueryErrors | lib/schema.py:17-19 | the query model reports the cohort model's errors plus a missing query |
| Schema.QueryAcceptance | lib/schema.py:17-19 | the query model accepts iff the cohort model accepts and a query is present, so its acceptance implies the cohort model's |
| Schema.Wrap | lib/schema.py:22-43 | the handler's result is returned unchanged iff the submitted data pass; otherwise the field errors come back with status 400 and no handler result; a method other than GET or POST (HEAD included) raises |
| Schema.ValidationSource | lib/schema.py:31-34 | a GET is judged by its query arguments alone and a POST by its JSON body alone, a missing body counting as empty |
| App.NotesList | app.py:19-29 | the cohort's index is created with the default body only when absent; a raising crawl leaves that index (empty when new, untouched otherwise) and answers 500; after a crawl that returns, documents whose urls are not in the crawl survive, every crawled url is indexed with its last page's fields and the response is 200 with the crawl as data; no other index changes |
| App.NotesListIdempotent | app.py:24-28 | scraping the same crawl twice leaves the store as scraping it once |
| App.FailedScrapeThenRescrape | app.py:24-28 | a scrape whose crawl raised, followed by a successful one, leaves the store as the successful one alone |
| App.RescrapeKeepsDocuments | app.py:24-28 | a second scrape keeps every document the first one indexed, whatever either crawl yields |
| App.ScrapeRoute | app.py:17-29 | a POST body naming a configured cohort runs the scrape; any other body gets 400 with the field errors and leaves the store unchanged |
| App.SearchRoute | app.py:32-45 | the store is never changed; on GET, valid arguments on an existing index give the engine's documents, a missing index a server error, invalid arguments 400 with the field errors; HEAD raises in the validator and answers 500 |
| App.AutocompleteRoute | app.py:48-61 | the store is never changed; on GET, valid arguments on an existing index give the engine's hits for the title-only exact match, a missing index a server error, invalid arguments 400; HEAD raises in the validator and answers 500 |

## Left out

- Scrapy's `CrawlerRunner`, the Twisted reactor and the temporary JSON feed (lib/crawler.py:74-99) are concurrency and file I/O. The crawl result is an input sequence of page records; its order follows fetch completion and is not modelled.
- HTML parsing by BeautifulSoup/lxml and the CSS/XPath selectors are a foreign library. Element texts, anchor attributes and the head title are inputs, and `response.urljoin` is not computed: a follow-up request keeps the base and the href.
- The exception BeautifulSoup raises when no element matches `div #page-content` belongs to the library. The model keeps only its effect: no record for that page.
- Search.SearchIndex, Search.AutocompleteIndex: the `Engine` parameter stands for the first page of hits only, 10 by default, because neither query body (lib/search.py:100-110, 115-124) sets `size`. So `/search` and `/autocomplete` never return more than that page.
- Relevance ranking, fuzzy matching, the `and` operator, the edge n-gram analyzer and refresh visibility belong to the search engine. Hits are an input function of the index and the query body.
- Search.BulkInsert: reports a missing index instead of letting the engine auto-create it with dynamic mappings. Engine configuration decides that, and the routes never reach it.
- Bulk actions other than doc-as-upsert updates are not modelled: `parse_pages` emits no other kind.
- App.NotesList: a failing bulk action is not modelled. `bulk` (lib/search.py:86) raises `BulkIndexError`, listing the failed actions, after the first chunk (500 actions by default) in which an action failed. The engine has already applied the rest of that chunk, and later chunks are not sent. The route answers 500 and reports none of the failed ids. Which actions fail is the engine's decision.
- The singleton mechanics of `IndexController` (lib/search.py:46-63) are left out: the store is passed explicitly.
- `IndexController.exists` (lib/search.py:90-92) is left out: it lacks `self` and cannot run.
- Flask/CORS routing, `/ping` and `app.run` are HTTP plumbing. Each route takes the methods that reach its view: POST for `/scrape`; GET and HEAD (which the framework adds to every GET rule) for `/search` and `/autocomplete`. OPTIONS is answered by the framework without the view. Status 500 for an uncaught exception is the framework's answer.
- App.ScrapeRoute, App.SearchRoute, App.AutocompleteRoute: the handlers' behaviour when the cohort or query is absent is not modelled. The validator always rejects such a request first.
- App.ScrapeRoute, App.SearchRoute, App.AutocompleteRoute: undeclared keys are ignored, as in `Schema.Validate`. In the source a request carrying any key beyond `cohort` (and `query` for the GET routes) is answered 400 for a rogue field. The routes' `NotesList` and 200 outcomes therefore hold only for requests without such keys.
- Configuration loading (lib/config.py) is left out; only `COHORTS` is kept. The validation module and the app import a `CONFIG` name that lib/config.py does not define.
- Request bodies are string-to-string maps. JSON numbers and nulls are not modelled.
- Schema.Validate: undeclared keys are not modelled. The validation library in the 2.x line that the `DataError` import (lib/schema.py:4) implies builds models strict, so an undeclared key is reported as a rogue field and the request gets a 400; the model ignores such keys, so the routes' 200 outcomes hold only for requests that carry no key beyond `cohort` and `query`.
- `cprint` (lib/utils.py) is coloured console output.
- tests/test_app.py holds live-server integration tests with no usable assertions.
