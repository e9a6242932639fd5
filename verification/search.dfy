/** The index controller over an abstract search store.

    The external engine is reduced to its observable contract: a store maps
    index names to indices, each holding its creation body and its documents
    keyed by id. Query ranking belongs to the engine and enters as a
    function parameter; query bodies are constant data. */
module Search {
  import opened Base
  import opened Crawler

  // ---------------------------------------------------------------------
  // Index bodies and the store
  // ---------------------------------------------------------------------

  /** The settings and mappings an index is created with. */
  datatype IndexBody = IndexBody(
    shards: nat,
    replicas: nat,
    gramFilter: string,
    minGram: nat,
    maxGram: nat,
    titleAnalyzer: string)

  /** `DEFAULT_BODY`: one shard, no replicas, an edge n-gram filter of 1 to
      10 characters in the analyzer bound to `title`. */
  const DefaultBody: IndexBody := IndexBody(1, 0, "edge_ngram", 1, 10, "autocomplete")

  /** A stored document: the fields the upsert writes. */
  datatype Doc = Doc(
    title: Option<string>,
    bullets: seq<string>,
    headers: seq<string>,
    text: seq<string>,
    code: seq<string>,
    url: string)

  datatype Index = Index(body: IndexBody, docs: map<string, Doc>)

  /** Every index of the engine, by name. */
  type Store = map<string, Index>

  datatype StoreError = IndexNotFound(name: string) | IndexAlreadyExists(name: string)

  /** `index_exists`. */
  predicate IndexExists(s: Store, n: string)
  {
    n in s
  }

  /** The engine's delete: fails on a missing index. */
  function DeleteIndex(s: Store, n: string): (r: Result<Store, StoreError>)
    ensures r.Success? <==> n in s
    ensures r.Failure? ==> r.error == IndexNotFound(n)
    ensures r.Success? ==> n !in r.value && r.value.Keys == s.Keys - {n}
    ensures r.Success? ==> forall m :: m in r.value ==> r.value[m] == s[m]
  {
    if n in s then Success(s - {n}) else Failure(IndexNotFound(n))
  }

  /** The engine's create: fails when the name is taken. */
  function CreateFresh(s: Store, n: string, body: IndexBody): (r: Result<Store, StoreError>)
    ensures r.Success? <==> n !in s
    ensures r.Failure? ==> r.error == IndexAlreadyExists(n)
    ensures r.Success? ==> r.value.Keys == s.Keys + {n} && r.value[n] == Index(body, map[])
    ensures r.Success? ==> forall m :: m in s ==> r.value[m] == s[m]
  {
    if n in s then Failure(IndexAlreadyExists(n)) else Success(s[n := Index(body, map[])])
  }

  /** `create_index`: a destructive recreate. An existing index of that name
      is deleted first, so afterwards the index exists, carries `body` and is
      empty whatever it held before; no other index changes. */
  function CreateIndex(s: Store, n: string, body: IndexBody): (r: Store)
    ensures n in r && r[n].body == body && r[n].docs == map[]
    ensures r.Keys == s.Keys + {n}
    ensures forall m :: m in s && m != n ==> r[m] == s[m]
  {
    var cleared := if IndexExists(s, n) then DeleteIndex(s, n).value else s;
    CreateFresh(cleared, n, body).value
  }

  /** Recreating an index discards every document it held. */
  lemma RecreateDiscardsDocuments(s: Store, n: string, body: IndexBody, id: string)
    requires n in s && id in s[n].docs
    ensures id !in CreateIndex(s, n, body)[n].docs
  {
  }

  /** Deleting a just-created index leaves the store as the plain deletion
      of that name would: nothing else was touched by the recreate. */
  lemma DeleteUndoesCreate(s: Store, n: string, body: IndexBody)
    ensures DeleteIndex(CreateIndex(s, n, body), n) == Success(s - {n})
  {
    var r := CreateIndex(s, n, body);
    assert r - {n} == s - {n};
  }

  // ---------------------------------------------------------------------
  // Upsert operations
  // ---------------------------------------------------------------------

  /** The bulk action type `parse_pages` uses. */
  const UpdateOp: string := "update"

  /** One bulk action: `_id`, `_op_type`, `doc_as_upsert` and `doc`. */
  datatype UpsertOp = UpsertOp(id: string, opType: string, docAsUpsert: bool, doc: Doc)

  /** The document a page is stored as. */
  function DocOf(p: Page): Doc
  {
    Doc(p.title, p.bullets, p.headers, p.text, p.code, p.url)
  }

  /** The action built for one crawled page. */
  function PageOp(p: Page): UpsertOp
  {
    UpsertOp(p.url, UpdateOp, true, DocOf(p))
  }

  /** `parse_pages`: one identity-keyed update-or-insert action per page, in
      page order, carrying the page's fields unchanged and keyed by its url. */
  function ParsePages(pages: seq<Page>): (ops: seq<UpsertOp>)
    ensures |ops| == |pages|
    ensures forall k :: 0 <= k < |pages| ==>
      ops[k].id == pages[k].url && ops[k].doc.url == pages[k].url
    ensures forall k :: 0 <= k < |pages| ==>
      ops[k].opType == UpdateOp && ops[k].docAsUpsert
    ensures forall k :: 0 <= k < |pages| ==>
      && ops[k].doc.title == pages[k].title
      && ops[k].doc.bullets == pages[k].bullets
      && ops[k].doc.headers == pages[k].headers
      && ops[k].doc.text == pages[k].text
      && ops[k].doc.code == pages[k].code
  {
    MapSeq(PageOp, pages)
  }

  /** An update action that inserts the document when its id is missing. */
  predicate IsUpsert(op: UpsertOp)
  {
    op.opType == UpdateOp && op.docAsUpsert
  }

  predicate AllUpserts(ops: seq<UpsertOp>)
  {
    forall k :: 0 <= k < |ops| ==> IsUpsert(ops[k])
  }

  /** The ids a batch touches. */
  function Ids(ops: seq<UpsertOp>): set<string>
  {
    set k | 0 <= k < |ops| :: ops[k].id
  }

  /** No later action of the batch has the same id as action `k`. */
  predicate IsLastOp(ops: seq<UpsertOp>, k: int)
    requires 0 <= k < |ops|
  {
    forall j :: k < j < |ops| ==> ops[j].id != ops[k].id
  }

  /** The engine's doc-as-upsert: the document is written under its id,
      inserted if absent and overwritten if present. Every action carries
      all six fields, so the partial-update merge replaces the stored one. */
  function ApplyOp(docs: map<string, Doc>, op: UpsertOp): map<string, Doc>
    requires IsUpsert(op)
  {
    docs[op.id := op.doc]
  }

  /** A batch applied in order. */
  function ApplyAll(docs: map<string, Doc>, ops: seq<UpsertOp>): map<string, Doc>
    requires AllUpserts(ops)
  {
    if |ops| == 0 then docs
    else ApplyOp(ApplyAll(docs, ops[..|ops| - 1]), ops[|ops| - 1])
  }

  /** Removing the last action keeps the ids of the others. */
  lemma IdsOfPrefix(ops: seq<UpsertOp>)
    requires |ops| > 0
    ensures Ids(ops) == Ids(ops[..|ops| - 1]) + {ops[|ops| - 1].id}
  {
    var init := ops[..|ops| - 1];
    forall id | id in Ids(ops) ensures id in Ids(init) + {ops[|ops| - 1].id} {
      var k :| 0 <= k < |ops| && ops[k].id == id;
      if k < |ops| - 1 { assert init[k] == ops[k]; }
    }
    forall id | id in Ids(init) ensures id in Ids(ops) {
      var k :| 0 <= k < |init| && init[k].id == id;
      assert ops[k] == init[k];
    }
  }

  /** A batch of upserts all of whose actions are upserts has a prefix of
      the same kind. */
  lemma AllUpsertsPrefix(ops: seq<UpsertOp>)
    requires AllUpserts(ops) && |ops| > 0
    ensures AllUpserts(ops[..|ops| - 1])
  {
    var init := ops[..|ops| - 1];
    forall k | 0 <= k < |init| ensures IsUpsert(init[k]) {
      assert init[k] == ops[k];
    }
  }

  /** A batch adds exactly its ids to the index. */
  lemma {:induction false} ApplyAllKeys(docs: map<string, Doc>, ops: seq<UpsertOp>)
    requires AllUpserts(ops)
    ensures ApplyAll(docs, ops).Keys == docs.Keys + Ids(ops)
    decreases |ops|
  {
    if |ops| > 0 {
      AllUpsertsPrefix(ops);
      ApplyAllKeys(docs, ops[..|ops| - 1]);
      IdsOfPrefix(ops);
    }
  }

  /** A batch leaves every document outside its ids unchanged. */
  lemma {:induction false} ApplyAllKeepsOthers(docs: map<string, Doc>, ops: seq<UpsertOp>, id: string)
    requires AllUpserts(ops)
    requires id in docs && id !in Ids(ops)
    ensures id in ApplyAll(docs, ops) && ApplyAll(docs, ops)[id] == docs[id]
    decreases |ops|
  {
    if |ops| > 0 {
      AllUpsertsPrefix(ops);
      IdsOfPrefix(ops);
      ApplyAllKeepsOthers(docs, ops[..|ops| - 1], id);
    }
  }

  /** Last write wins: an id holds the document of its last action. */
  lemma {:induction false} ApplyAllLastWins(docs: map<string, Doc>, ops: seq<UpsertOp>, k: nat)
    requires AllUpserts(ops)
    requires k < |ops| && IsLastOp(ops, k)
    ensures ops[k].id in ApplyAll(docs, ops) && ApplyAll(docs, ops)[ops[k].id] == ops[k].doc
    decreases |ops|
  {
    if k < |ops| - 1 {
      var init := ops[..|ops| - 1];
      AllUpsertsPrefix(ops);
      assert ops[|ops| - 1].id != ops[k].id;
      assert IsLastOp(init, k) by {
        forall j | k < j < |init| ensures init[j].id != init[k].id {
          assert init[j] == ops[j];
        }
      }
      ApplyAllLastWins(docs, init, k);
    }
  }

  /** What a batch does to an index: exactly the batch's ids are added, each
      holds the document of the last action with that id, and every other
      document is unchanged. */
  lemma ApplyAllSpec(docs: map<string, Doc>, ops: seq<UpsertOp>)
    requires AllUpserts(ops)
    ensures ApplyAll(docs, ops).Keys == docs.Keys + Ids(ops)
    ensures forall id :: id in docs && id !in Ids(ops) ==> ApplyAll(docs, ops)[id] == docs[id]
    ensures forall k :: 0 <= k < |ops| && IsLastOp(ops, k) ==> ApplyAll(docs, ops)[ops[k].id] == ops[k].doc
  {
    ApplyAllKeys(docs, ops);
    forall id | id in docs && id !in Ids(ops) ensures ApplyAll(docs, ops)[id] == docs[id] {
      ApplyAllKeepsOthers(docs, ops, id);
    }
    forall k | 0 <= k < |ops| && IsLastOp(ops, k) ensures ApplyAll(docs, ops)[ops[k].id] == ops[k].doc {
      ApplyAllLastWins(docs, ops, k);
    }
  }

  /** Every id of a batch has a last action carrying it. */
  lemma LastOpExists(ops: seq<UpsertOp>, id: string) returns (k: nat)
    requires id in Ids(ops)
    ensures k < |ops| && ops[k].id == id && IsLastOp(ops, k)
  {
    var k0 :| 0 <= k0 < |ops| && ops[k0].id == id;
    k := k0;
    while exists j :: k < j < |ops| && ops[j].id == id
      invariant k < |ops| && ops[k].id == id
      decreases |ops| - k
    {
      var j :| k < j < |ops| && ops[j].id == id;
      k := j;
    }
  }

  /** Applying the same batch twice is the same as applying it once. */
  lemma ApplyAllIdempotent(docs: map<string, Doc>, ops: seq<UpsertOp>)
    requires AllUpserts(ops)
    ensures ApplyAll(ApplyAll(docs, ops), ops) == ApplyAll(docs, ops)
  {
    var once := ApplyAll(docs, ops);
    var twice := ApplyAll(once, ops);
    ApplyAllSpec(docs, ops);
    ApplyAllSpec(once, ops);
    forall id | id in twice ensures twice[id] == once[id] {
      if id in Ids(ops) {
        var k := LastOpExists(ops, id);
      }
    }
  }

  /** The urls of a crawl. */
  function Urls(pages: seq<Page>): set<string>
  {
    set k | 0 <= k < |pages| :: pages[k].url
  }

  /** No later page of the crawl has the url of page `k`. */
  predicate IsLastPage(pages: seq<Page>, k: int)
    requires 0 <= k < |pages|
  {
    forall j :: k < j < |pages| ==> pages[j].url != pages[k].url
  }

  /** `bulk_insert`: the pages' actions applied to an existing index. Every
      page url becomes an id mapped to the fields of the last page with that
      url, ids outside the batch keep their documents, and no other index
      changes. A missing index is reported, not created. */
  function BulkInsert(s: Store, n: string, pages: seq<Page>): (r: Result<Store, StoreError>)
    ensures r.Failure? <==> n !in s
    ensures r.Failure? ==> r.error == IndexNotFound(n)
    ensures r.Success? ==> r.value.Keys == s.Keys && r.value[n].body == s[n].body
    ensures r.Success? ==> forall m :: m in s && m != n ==> r.value[m] == s[m]
    ensures r.Success? ==> r.value[n].docs.Keys == s[n].docs.Keys + Urls(pages)
    ensures r.Success? ==> forall k :: 0 <= k < |pages| && IsLastPage(pages, k) ==>
      r.value[n].docs[pages[k].url] == DocOf(pages[k])
    ensures r.Success? ==> forall id :: id in s[n].docs && id !in Urls(pages) ==>
      r.value[n].docs[id] == s[n].docs[id]
  {
    if n !in s then Failure(IndexNotFound(n))
    else
      var ops := ParsePages(pages);
      assert AllUpserts(ops);
      var docs := ApplyAll(s[n].docs, ops);
      ParsePagesLinks(pages);
      ApplyAllSpec(s[n].docs, ops);
      Success(s[n := Index(s[n].body, docs)])
  }

  /** The actions of a crawl touch exactly its urls, and an action is the
      last for its id exactly when its page is the last for its url. */
  lemma ParsePagesLinks(pages: seq<Page>)
    ensures Ids(ParsePages(pages)) == Urls(pages)
    ensures forall k :: 0 <= k < |pages| ==>
      (IsLastOp(ParsePages(pages), k) <==> IsLastPage(pages, k))
    ensures forall k :: 0 <= k < |pages| ==> ParsePages(pages)[k].doc == DocOf(pages[k])
  {
    var ops := ParsePages(pages);
    forall id | id in Urls(pages) ensures id in Ids(ops) {
      var k :| 0 <= k < |pages| && pages[k].url == id;
      assert ops[k].id == id;
    }
  }

  /** Inserting the same crawl twice leaves the store as inserting it once. */
  lemma BulkInsertIdempotent(s: Store, n: string, pages: seq<Page>)
    requires n in s
    ensures BulkInsert(s, n, pages).Success?
    ensures BulkInsert(BulkInsert(s, n, pages).value, n, pages) == BulkInsert(s, n, pages)
  {
    var ops := ParsePages(pages);
    assert AllUpserts(ops);
    ApplyAllIdempotent(s[n].docs, ops);
    var once := BulkInsert(s, n, pages).value;
    assert once[n] == Index(s[n].body, ApplyAll(s[n].docs, ops));
    assert ApplyAll(once[n].docs, ops) == once[n].docs;
    assert once[n := Index(once[n].body, once[n].docs)] == once;
  }

  // ---------------------------------------------------------------------
  // Read-only queries
  // ---------------------------------------------------------------------

  /** The two query bodies the controller sends. */
  datatype QueryBody =
    | MultiMatch(query: string, fields: seq<string>, operator: string, fuzziness: string)
    | Match(field: string, matchQuery: string, matchFuzziness: string, analyzer: string)

  /** One hit of the engine's answer, reduced to its `_id` and `_source`.
      The engine's hits also carry `_index` and `_score`, which autocomplete
      passes through; the model does not keep them. */
  datatype Hit = Hit(id: string, source: Doc)

  /** The engine's ranked answer to a body over an index's content. */
  type Engine = (Index, QueryBody) -> seq<Hit>

  /** Full-text body: all query terms over the five text fields, fuzziness `"3"`. */
  function SearchBody(q: string): QueryBody
  {
    MultiMatch(q, ["headers", "bullets", "text", "title", "code"], "and", "3")
  }

  /** Autocomplete body: the title field only, exact (fuzziness 0). */
  function AutocompleteBody(q: string): QueryBody
  {
    Match("title", q, "0", "standard")
  }

  /** `search`: the `_source` of every hit of the engine's answer to the
      full-text body, in rank order; a missing index is reported. */
  function SearchIndex(s: Store, n: string, q: string, engine: Engine): (r: Result<seq<Doc>, StoreError>)
    ensures r.Failure? <==> n !in s
    ensures r.Failure? ==> r.error == IndexNotFound(n)
    ensures r.Success? ==>
      var hits := engine(s[n], SearchBody(q));
      |r.value| == |hits| && forall k :: 0 <= k < |hits| ==> r.value[k] == hits[k].source
  {
    if n !in s then Failure(IndexNotFound(n))
    else Success(MapSeq((h: Hit) => h.source, engine(s[n], SearchBody(q))))
  }

  /** `autocomplete`: the hits of the engine's answer to an exact match on
      `title` alone; a missing index is reported. */
  function AutocompleteIndex(s: Store, n: string, q: string, engine: Engine): (r: Result<seq<Hit>, StoreError>)
    ensures r.Failure? <==> n !in s
    ensures r.Failure? ==> r.error == IndexNotFound(n)
    ensures r.Success? ==> r.value == engine(s[n], AutocompleteBody(q))
  {
    if n !in s then Failure(IndexNotFound(n)) else Success(engine(s[n], AutocompleteBody(q)))
  }
}
