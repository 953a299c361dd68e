/** thrift/clients.py: the ArticleMeta catalog client (paginated enumeration of
    articles and journals, single-document fetch, error wrapping) and the SciELO
    Manager client (DOI lookup by batch scan).

    The remote services are oracles: a datatype of total functions that give the
    reply of each remote procedure for its arguments. json.loads and the xylose
    constructors are oracles too (Codec). */
module Clients {
  import opened Common

  /** Page size of every identifier listing. */
  const LIMIT: nat := 1000

  // ---------------------------------------------------------------------------
  // The services and what they exchange

  /** What xylose reads from an article's JSON. */
  datatype Article = Article(
    publisherId: string,
    collectionAcronym: string,
    documentType: string,
    publicationDate: string,
    dataModelVersion: string,
    doi: Option<string>)

  /** A xylose Journal wraps the journal's JSON. */
  datatype Journal = Journal(data: Value)

  datatype ArticleId = ArticleId(code: string, collection: string)

  /** A journal identifier; its code is a list, of which the client uses the first element. */
  datatype JournalId = JournalId(code: seq<string>, collection: string)

  /** The filters of get_article_identifiers. */
  datatype ArticleQuery = ArticleQuery(
    collection: Option<string>,
    issn: Option<string>,
    fromDate: Option<string>,
    untilDate: Option<string>,
    extraFilter: Option<string>)

  datatype JournalQuery = JournalQuery(collection: Option<string>, issn: Option<string>)

  /** The arguments of get_article. */
  datatype ArticleRequest = ArticleRequest(code: string, collection: string, replaceJournalMetadata: bool, fmt: string)

  /** The ArticleMeta service. Listings take the query, the limit and the offset. */
  datatype ArticleMetaRpc = ArticleMetaRpc(
    getArticleIdentifiers: (ArticleQuery, nat, nat) -> Reply<seq<ArticleId>>,
    getArticle: ArticleRequest -> Reply<string>,
    getJournalIdentifiers: (JournalQuery, nat, nat) -> Reply<seq<JournalId>>,
    getJournal: (string, string) -> Reply<string>,
    existsArticle: (string, string) -> Reply<bool>,
    setDoajId: (string, string, string) -> Reply<Value>,
    setAid: (string, string, string) -> Reply<Value>)

  /** json.loads (None: it raised) and xylose's reading of an article. */
  datatype Codec = Codec(loads: string -> Option<Value>, article: Value -> Article)

  datatype ManagerArticle = ManagerArticle(aid: Option<string>)

  /** One batch of a scan: no articles (None) ends the scan. */
  datatype ScanBatch = ScanBatch(articles: Option<seq<ManagerArticle>>, nextBatchId: string)

  /** The SciELO Manager service (getTaskResult is modelled in Tasks, where its
      answers change from one call to the next). */
  datatype ScieloManagerRpc = ScieloManagerRpc(
    addArticle: string -> Reply<string>,
    scanArticles: Value -> Reply<string>,
    getScanArticlesBatch: string -> Reply<ScanBatch>)

  // ---------------------------------------------------------------------------
  // Pagination, shared by documents and journals

  /** A listing as the enumeration sees it: the reply for each offset. */
  type Listing<Id> = nat -> Reply<seq<Id>>

  /** The page at offset LIMIT * k ends the enumeration if nothing before it
      did: it raised, it is empty, or one of its identifiers fails to fetch. */
  predicate StopsAt<Id, T>(list: Listing<Id>, fetch: Id -> Result<T>, k: nat) {
    match list(LIMIT * k)
    case Raised => true
    case Returned(ids) => ids == [] || FetchAll(fetch, ids).err.Some?
  }

  /** Some page ends the enumeration (otherwise the source never stops asking). */
  ghost predicate Terminates<Id, T>(list: Listing<Id>, fetch: Id -> Result<T>) {
    exists k: nat :: StopsAt(list, fetch, k)
  }

  ghost function SomeStop<Id, T>(list: Listing<Id>, fetch: Id -> Result<T>): (k: nat)
    requires Terminates(list, fetch)
    ensures StopsAt(list, fetch, k)
  {
    var k: nat :| StopsAt(list, fetch, k); k
  }

  /** The fetched items of a list of identifiers, up to the first failure. */
  datatype Fetches<T> = Fetches(items: seq<T>, err: Option<Exception>)

  /** One fetch per identifier, in order; the first failure ends it. */
  function FetchAll<Id, T>(fetch: Id -> Result<T>, ids: seq<Id>): (r: Fetches<T>)
    ensures |r.items| <= |ids|
    ensures r.err.None? ==> |r.items| == |ids|
  {
    if ids == [] then Fetches([], None)
    else
      match fetch(ids[0])
      case Failure(e) => Fetches([], Some(e))
      case Success(x) =>
        var rest := FetchAll(fetch, ids[1..]);
        Fetches([x] + rest.items, rest.err)
  }

  /** Each item is the fetch of the identifier at its position; a failure is
      that of the identifier right after the items. */
  lemma {:induction false} FetchAllMeaning<Id, T>(fetch: Id -> Result<T>, ids: seq<Id>)
    ensures var r := FetchAll(fetch, ids);
      && (forall i :: 0 <= i < |r.items| ==> fetch(ids[i]) == Success(r.items[i]))
      && (r.err.Some? ==> |r.items| < |ids| && fetch(ids[|r.items|]) == Failure(r.err.value))
  {
    if ids != [] && fetch(ids[0]).Success? {
      FetchAllMeaning(fetch, ids[1..]);
    }
  }

  /** Fetching a concatenation is fetching the first part, then the second if
      the first had no failure. */
  lemma {:induction false} FetchAllAppend<Id, T>(fetch: Id -> Result<T>, a: seq<Id>, b: seq<Id>)
    ensures FetchAll(fetch, a + b) ==
      var fa := FetchAll(fetch, a);
      if fa.err.Some? then fa else Fetches(fa.items + FetchAll(fetch, b).items, FetchAll(fetch, b).err)
  {
    if a != [] {
      assert (a + b)[0] == a[0];
      assert (a + b)[1..] == a[1..] + b;
      FetchAllAppend(fetch, a[1..], b);
    } else {
      assert a + b == b;
    }
  }

  /** What an enumeration yields, the offsets it requested, and the exception that ended it. */
  datatype Enumeration<T> = Enumeration(items: seq<T>, offsets: seq<nat>, err: Option<Exception>)

  /** The enumeration from page k on. An identifier listing that raises is not
      wrapped: the transport's exception propagates. */
  ghost function EnumerateFrom<Id, T>(list: Listing<Id>, fetch: Id -> Result<T>, k: nat, last: nat): Enumeration<T>
    requires k <= last && StopsAt(list, fetch, last)
    decreases last - k
  {
    match list(LIMIT * k)
    case Raised => Enumeration([], [LIMIT * k], Some(RemoteFailure))
    case Returned(ids) =>
      if ids == [] then Enumeration([], [LIMIT * k], None)
      else
        var page := FetchAll(fetch, ids);
        if page.err.Some? then Enumeration(page.items, [LIMIT * k], page.err)
        else
          var rest := EnumerateFrom(list, fetch, k + 1, last);
          Enumeration(page.items + rest.items, [LIMIT * k] + rest.offsets, rest.err)
  }

  ghost function Enumerate<Id, T>(list: Listing<Id>, fetch: Id -> Result<T>): Enumeration<T>
    requires Terminates(list, fetch)
  {
    EnumerateFrom(list, fetch, 0, SomeStop(list, fetch))
  }

  /** The inner loop of documents and journals: fetch and yield each
      identifier of one page, in order, until a fetch raises. */
  method FetchPage<Id, T>(fetch: Id -> Result<T>, identifiers: seq<Id>) returns (items: seq<T>, err: Option<Exception>)
    ensures Fetches(items, err) == FetchAll(fetch, identifiers)
  {
    items, err := [], None;
    var i := 0;
    assert identifiers[0..] == identifiers;
    while i < |identifiers|
      invariant 0 <= i <= |identifiers|
      invariant FetchedUpTo(fetch, identifiers, i, items)
    {
      var document := fetch(identifiers[i]);
      FetchFrom(fetch, identifiers, i, items);
      if document.Failure? {
        err := Some(document.error);
        return;
      }
      items := items + [document.value];
      i := i + 1;
    }
    assert identifiers[i..] == [];
  }

  /** The loop invariant of FetchPage: the items so far, followed by the
      fetches from position i on, are the fetches of the whole page. */
  ghost predicate FetchedUpTo<Id, T>(fetch: Id -> Result<T>, ids: seq<Id>, i: nat, items: seq<T>)
    requires i <= |ids|
  {
    var rest := FetchAll(fetch, ids[i..]);
    FetchAll(fetch, ids) == Fetches(items + rest.items, rest.err)
  }

  lemma FetchFrom<Id, T>(fetch: Id -> Result<T>, ids: seq<Id>, i: nat, items: seq<T>)
    requires i < |ids| && FetchedUpTo(fetch, ids, i, items)
    ensures fetch(ids[i]).Failure? ==> FetchAll(fetch, ids) == Fetches(items, Some(fetch(ids[i]).error))
    ensures fetch(ids[i]).Success? ==> FetchedUpTo(fetch, ids, i + 1, items + [fetch(ids[i]).value])
  {
    assert ids[i..][0] == ids[i];
    assert ids[i..][1..] == ids[i + 1..];
    if fetch(ids[i]).Success? {
      var rest := FetchAll(fetch, ids[i + 1..]);
      assert items + ([fetch(ids[i]).value] + rest.items) == (items + [fetch(ids[i]).value]) + rest.items;
    }
  }

  /** The `while True` loop of documents and journals: list a page at the
      current offset, stop on an empty page, fetch and yield each identifier,
      advance the offset by the page size. */
  method Paginate<Id, T>(list: Listing<Id>, fetch: Id -> Result<T>)
    returns (items: seq<T>, offsets: seq<nat>, err: Option<Exception>)
    requires Terminates(list, fetch)
    ensures Enumeration(items, offsets, err) == Enumerate(list, fetch)
  {
    ghost var last := SomeStop(list, fetch);
    ghost var total := EnumerateFrom(list, fetch, 0, last);
    ghost var k := 0;
    items, offsets, err := [], [], None;
    var offset := 0;
    assert items + total.items == total.items && offsets + total.offsets == total.offsets;
    while true
      invariant offset == LIMIT * k
      invariant Remaining(list, fetch, last, k, items, offsets, total)
      decreases last - k
    {
      var identifiers := list(offset);
      var pageItems, pageErr := [], None;
      if identifiers.Returned? && |identifiers.value| != 0 {
        pageItems, pageErr := FetchPage(fetch, identifiers.value);
      }
      PaginateStep(list, fetch, last, k, items, offsets, total, identifiers, pageItems, pageErr);
      offsets := offsets + [offset];
      items := items + pageItems;
      if identifiers.Raised? {
        err := Some(RemoteFailure);
        return;
      }
      if |identifiers.value| == 0 {
        return;
      }
      if pageErr.Some? {
        err := pageErr;
        return;
      }
      offset := offset + LIMIT;
      k := k + 1;
    }
  }

  /** The loop's invariant: what is yet to come from page k on completes what
      was yielded so far into the whole enumeration. */
  ghost predicate Remaining<Id, T>(list: Listing<Id>, fetch: Id -> Result<T>, last: nat, k: nat,
                                   items: seq<T>, offsets: seq<nat>, total: Enumeration<T>)
  {
    && k <= last && StopsAt(list, fetch, last)
    && var rest := EnumerateFrom(list, fetch, k, last);
       total == Enumeration(items + rest.items, offsets + rest.offsets, rest.err)
  }

  /** One turn of the enumeration loop: it either ends the enumeration with
      what has been yielded, or leaves the invariant in place for the next page. */
  lemma PaginateStep<Id, T>(list: Listing<Id>, fetch: Id -> Result<T>, last: nat, k: nat,
                            items: seq<T>, offsets: seq<nat>, total: Enumeration<T>,
                            identifiers: Reply<seq<Id>>, pageItems: seq<T>, pageErr: Option<Exception>)
    requires Remaining(list, fetch, last, k, items, offsets, total)
    requires identifiers == list(LIMIT * k)
    requires identifiers.Returned? && identifiers.value != [] ==> Fetches(pageItems, pageErr) == FetchAll(fetch, identifiers.value)
    requires identifiers.Raised? || identifiers.value == [] ==> pageItems == [] && pageErr.None?
    ensures identifiers.Raised? ==>
      total == Enumeration(items + pageItems, offsets + [LIMIT * k], Some(RemoteFailure))
    ensures identifiers.Returned? && (identifiers.value == [] || pageErr.Some?) ==>
      total == Enumeration(items + pageItems, offsets + [LIMIT * k], pageErr)
    ensures identifiers.Returned? && identifiers.value != [] && pageErr.None? ==>
      k < last && Remaining(list, fetch, last, k + 1, items + pageItems, offsets + [LIMIT * k], total)
  {
    if identifiers.Returned? && identifiers.value != [] && pageErr.None? {
      var rest := EnumerateFrom(list, fetch, k + 1, last);
      assert items + (pageItems + rest.items) == (items + pageItems) + rest.items;
      assert offsets + ([LIMIT * k] + rest.offsets) == (offsets + [LIMIT * k]) + rest.offsets;
    }
  }

  /** A listing that never runs dry still ends the enumeration when a fetch
      fails: the page is cut short and that fetch's exception is raised. */
  lemma FailingFetchEnds<Id, T>(list: Listing<Id>, fetch: Id -> Result<T>, id: Id)
    requires forall o: nat :: list(o) == Returned([id])
    requires fetch(id).Failure?
    ensures Terminates(list, fetch)
    ensures Enumerate(list, fetch) == Enumeration([], [0], Some(fetch(id).error))
  {
    assert list(LIMIT * 0) == Returned([id]);
    assert StopsAt(list, fetch, 0);
  }

  /** Every request asks for the page after the previous one: the k-th at offset LIMIT * k. */
  lemma {:induction false} OffsetsFrom<Id, T>(list: Listing<Id>, fetch: Id -> Result<T>, k: nat, last: nat)
    requires k <= last && StopsAt(list, fetch, last)
    ensures var e := EnumerateFrom(list, fetch, k, last);
      |e.offsets| >= 1 && forall j :: 0 <= j < |e.offsets| ==> e.offsets[j] == LIMIT * (k + j)
    decreases last - k
  {
    var e := EnumerateFrom(list, fetch, k, last);
    if list(LIMIT * k).Returned? && list(LIMIT * k).value != [] && FetchAll(fetch, list(LIMIT * k).value).err.None? {
      OffsetsFrom(list, fetch, k + 1, last);
      var rest := EnumerateFrom(list, fetch, k + 1, last);
      assert e.offsets == [LIMIT * k] + rest.offsets;
    }
  }

  lemma EnumerationOffsets<Id, T>(list: Listing<Id>, fetch: Id -> Result<T>)
    requires Terminates(list, fetch)
    ensures var e := Enumerate(list, fetch);
      |e.offsets| >= 1 && forall j :: 0 <= j < |e.offsets| ==> e.offsets[j] == LIMIT * j
  {
    OffsetsFrom(list, fetch, 0, SomeStop(list, fetch));
  }

  /** The identifiers of page k, or none when the listing raised. */
  function PageIds<Id>(list: Listing<Id>, k: nat): seq<Id> {
    match list(LIMIT * k)
    case Raised => []
    case Returned(ids) => ids
  }

  /** The identifiers of pages k up to (not including) n, in order. */
  function IdsBetween<Id>(list: Listing<Id>, k: nat, n: nat): seq<Id>
    decreases n - k
  {
    if k >= n then [] else PageIds(list, k) + IdsBetween(list, k + 1, n)
  }

  lemma {:induction false} CompleteFrom<Id, T>(list: Listing<Id>, fetch: Id -> Result<T>, k: nat, last: nat)
    requires k <= last && StopsAt(list, fetch, last)
    ensures var e := EnumerateFrom(list, fetch, k, last);
      var n := k + |e.offsets| - 1;
      e.err.None? ==>
        && |e.offsets| >= 1
        && list(LIMIT * n) == Returned([])
        && (forall j :: k <= j < n ==> list(LIMIT * j).Returned? && list(LIMIT * j).value != [])
        && FetchAll(fetch, IdsBetween(list, k, n)) == Fetches(e.items, None)
    decreases last - k
  {
    var e := EnumerateFrom(list, fetch, k, last);
    OffsetsFrom(list, fetch, k, last);
    match list(LIMIT * k)
    case Raised =>
    case Returned(ids) =>
      if ids == [] {
        assert IdsBetween(list, k, k) == [];
      } else {
        var page := FetchAll(fetch, ids);
        if page.err.None? {
          CompleteFrom(list, fetch, k + 1, last);
          var rest := EnumerateFrom(list, fetch, k + 1, last);
          var n := k + |e.offsets| - 1;
          assert n == (k + 1) + |rest.offsets| - 1;
          if rest.err.None? {
            assert IdsBetween(list, k, n) == ids + IdsBetween(list, k + 1, n);
            FetchAllAppend(fetch, ids, IdsBetween(list, k + 1, n));
          }
        }
      }
  }

  /** When nothing raises, the enumeration ends at the first empty page (a page
      with fewer than LIMIT identifiers does not end it), makes one identifier
      request more than there are non-empty pages, and yields one fetch per
      identifier of those pages, in order. */
  lemma EnumerationComplete<Id, T>(list: Listing<Id>, fetch: Id -> Result<T>)
    requires Terminates(list, fetch)
    ensures var e := Enumerate(list, fetch);
      var n := |e.offsets| - 1;
      e.err.None? ==>
        && list(LIMIT * n) == Returned([])
        && (forall j :: 0 <= j < n ==> list(LIMIT * j).Returned? && list(LIMIT * j).value != [])
        && FetchAll(fetch, IdsBetween(list, 0, n)) == Fetches(e.items, None)
  {
    CompleteFrom(list, fetch, 0, SomeStop(list, fetch));
  }

  /** A page that is answered, holds identifiers and fetches them all without
      failure keeps the enumeration going however few identifiers it holds
      (only an empty page ends it, not a short one): after pages 0 to k of that
      kind, the page at offset LIMIT * (k + 1) is requested. */
  lemma PartialPageDoesNotEnd<Id, T>(list: Listing<Id>, fetch: Id -> Result<T>, k: nat)
    requires Terminates(list, fetch)
    requires forall j :: 0 <= j <= k ==> FullPage(list, fetch, j)
    ensures var e := Enumerate(list, fetch); |e.offsets| >= k + 2 && e.offsets[k + 1] == LIMIT * (k + 1)
  {
    var last := SomeStop(list, fetch);
    ContinuesFrom(list, fetch, 0, k, last);
    OffsetsFrom(list, fetch, 0, last);
  }

  /** Page j is answered with identifiers that all fetch without failure. */
  predicate FullPage<Id, T>(list: Listing<Id>, fetch: Id -> Result<T>, j: nat) {
    list(LIMIT * j).Returned? && list(LIMIT * j).value != [] && FetchAll(fetch, list(LIMIT * j).value).err.None?
  }

  lemma {:induction false} ContinuesFrom<Id, T>(list: Listing<Id>, fetch: Id -> Result<T>, j: nat, k: nat, last: nat)
    requires j <= last && StopsAt(list, fetch, last) && j <= k + 1
    requires forall i :: j <= i <= k ==> FullPage(list, fetch, i)
    ensures |EnumerateFrom(list, fetch, j, last).offsets| >= k + 2 - j
    decreases last - j
  {
    OffsetsFrom(list, fetch, j, last);
    if j <= k {
      assert FullPage(list, fetch, j);
      ContinuesFrom(list, fetch, j + 1, k, last);
    }
  }

  /** The identifiers at offset o of a server that holds `all` and answers each
      request with the slice of at most LIMIT identifiers that starts there. */
  function Window<Id>(all: seq<Id>, o: nat): seq<Id> {
    var lo := if o < |all| then o else |all|;
    var hi := if o + LIMIT < |all| then o + LIMIT else |all|;
    all[lo..hi]
  }

  ghost predicate ServesSlices<Id>(list: Listing<Id>, all: seq<Id>) {
    forall o: nat :: list(o) == Returned(Window(all, o))
  }

  lemma {:induction false} SlicesFrom<Id, T>(list: Listing<Id>, fetch: Id -> Result<T>, all: seq<Id>, k: nat, last: nat)
    requires ServesSlices(list, all)
    requires k <= last && StopsAt(list, fetch, last)
    requires LIMIT * k <= |all| + LIMIT - 1
    requires FetchAll(fetch, all[if LIMIT * k < |all| then LIMIT * k else |all|..]).err.None?
    ensures var e := EnumerateFrom(list, fetch, k, last);
      && e.err.None?
      && e.items == FetchAll(fetch, all[if LIMIT * k < |all| then LIMIT * k else |all|..]).items
      && |e.offsets| == (|all| + LIMIT - 1) / LIMIT - k + 1
    decreases last - k
  {
    var lo := if LIMIT * k < |all| then LIMIT * k else |all|;
    var ids := Window(all, LIMIT * k);
    assert list(LIMIT * k) == Returned(ids);
    if LIMIT * k >= |all| {
      assert ids == [];
      assert all[lo..] == [];
    } else {
      assert ids != [];
      var hi := if LIMIT * k + LIMIT < |all| then LIMIT * k + LIMIT else |all|;
      assert all[lo..] == ids + all[hi..];
      FetchAllAppend(fetch, ids, all[hi..]);
      assert k != last;
      assert hi == (if LIMIT * (k + 1) < |all| then LIMIT * (k + 1) else |all|);
      SlicesFrom(list, fetch, all, k + 1, last);
    }
  }

  /** Against a server that answers each offset with its slice of the
      identifiers, the enumeration yields every identifier's fetch exactly once,
      in order, after ceil(N / LIMIT) + 1 identifier requests. */
  lemma SlicingServer<Id, T>(list: Listing<Id>, fetch: Id -> Result<T>, all: seq<Id>)
    requires ServesSlices(list, all)
    requires FetchAll(fetch, all).err.None?
    ensures Terminates(list, fetch)
    ensures var e := Enumerate(list, fetch);
      && e.err.None?
      && e.items == FetchAll(fetch, all).items
      && |e.offsets| == (|all| + LIMIT - 1) / LIMIT + 1
  {
    var p := (|all| + LIMIT - 1) / LIMIT;
    assert Window(all, LIMIT * p) == [];
    assert StopsAt(list, fetch, p);
    SlicesFrom(list, fetch, all, 0, SomeStop(list, fetch));
  }

  // ---------------------------------------------------------------------------
  // ArticleMeta.document and ArticleMeta.documents

  /** What document returns: None for an article the catalog does not have, a
      xylose Article, or the raw payload when fmt is not 'xylose'. */
  datatype Loaded = NotFound | Xylose(article: Article) | Raw(payload: string)

  /** ArticleMeta.document. The request always asks for replaced journal
      metadata, whatever the caller passed. */
  function Document(rpc: ArticleMetaRpc, codec: Codec, code: string, collection: string, fmt: string): (r: Result<Loaded>)
    ensures var reply := rpc.getArticle(ArticleRequest(code, collection, true, fmt));
      && (r.Failure? ==> r.error.ServerError?)
      && (r.Failure? <==> reply.Raised? || (fmt == "xylose" && codec.loads(reply.value).None?))
      && (fmt != "xylose" && reply.Returned? ==> r == Success(Raw(reply.value)))
      && (fmt == "xylose" && r.Success? ==>
            && !r.value.Raw?
            && (r.value.NotFound? <==> !Truthy(codec.loads(reply.value).value)))
  {
    match rpc.getArticle(ArticleRequest(code, collection, true, fmt))
    case Raised => Failure(ServerError("Error retrieving document: " + collection + "_" + code))
    case Returned(article) =>
      if fmt == "xylose" then
        match codec.loads(article)
        case None => Failure(ServerError("Fail to load JSON when retrienving document: " + collection + "_" + code))
        case Some(jarticle) =>
          if !Truthy(jarticle) then Success(NotFound) else Success(Xylose(codec.article(jarticle)))
      else Success(Raw(article))
  }

  function ArticlePages(rpc: ArticleMetaRpc, q: ArticleQuery): Listing<ArticleId> {
    (o: nat) => rpc.getArticleIdentifiers(q, LIMIT, o)
  }

  function ArticleFetch(rpc: ArticleMetaRpc, codec: Codec, fmt: string): ArticleId -> Result<Loaded> {
    (id: ArticleId) => Document(rpc, codec, id.code, id.collection, fmt)
  }

  /** ArticleMeta.documents: every identifier of every page, fetched with
      document; documents the catalog does not have are yielded as NotFound. */
  method Documents(rpc: ArticleMetaRpc, codec: Codec, q: ArticleQuery, fmt: string)
    returns (docs: seq<Loaded>, offsets: seq<nat>, err: Option<Exception>)
    requires Terminates(ArticlePages(rpc, q), ArticleFetch(rpc, codec, fmt))
    ensures Enumeration(docs, offsets, err) == Enumerate(ArticlePages(rpc, q), ArticleFetch(rpc, codec, fmt))
    ensures forall j :: 0 <= j < |offsets| ==> offsets[j] == LIMIT * j
    ensures err.Some? ==> err.value.ServerError? || err.value == RemoteFailure
  {
    docs, offsets, err := Paginate(ArticlePages(rpc, q), ArticleFetch(rpc, codec, fmt));
    EnumerationOffsets(ArticlePages(rpc, q), ArticleFetch(rpc, codec, fmt));
    EnumerationErrors(ArticlePages(rpc, q), ArticleFetch(rpc, codec, fmt), 0, SomeStop(ArticlePages(rpc, q), ArticleFetch(rpc, codec, fmt)));
  }

  lemma {:induction false} EnumerationErrors<Id, T>(list: Listing<Id>, fetch: Id -> Result<T>, k: nat, last: nat)
    requires k <= last && StopsAt(list, fetch, last)
    ensures var e := EnumerateFrom(list, fetch, k, last);
      e.err.Some? ==> e.err.value == RemoteFailure || exists id :: fetch(id) == Failure(e.err.value)
    decreases last - k
  {
    match list(LIMIT * k)
    case Raised =>
    case Returned(ids) =>
      if ids != [] && FetchAll(fetch, ids).err.None? {
        EnumerationErrors(list, fetch, k + 1, last);
      } else if ids != [] {
        FetchAllMeaning(fetch, ids);
      }
  }

  // ---------------------------------------------------------------------------
  // ArticleMeta.journals

  /** One journal of journals: the first code, get_journal, json.loads and
      xylose's Journal; nothing here is wrapped in ServerError. */
  function LoadJournal(rpc: ArticleMetaRpc, codec: Codec, id: JournalId): (r: Result<Journal>)
    ensures r.Failure? ==> !r.error.ServerError?
    ensures id.code == [] ==> r == Failure(IndexError)
    ensures r.Success? ==>
      && id.code != []
      && rpc.getJournal(id.code[0], id.collection).Returned?
      && codec.loads(rpc.getJournal(id.code[0], id.collection).value) == Some(r.value.data)
  {
    if id.code == [] then Failure(IndexError)
    else
      match rpc.getJournal(id.code[0], id.collection)
      case Raised => Failure(RemoteFailure)
      case Returned(journal) =>
        match codec.loads(journal)
        case None => Failure(JsonDecodeError)
        case Some(jjournal) => Success(Journal(jjournal))
  }

  function JournalPages(rpc: ArticleMetaRpc, q: JournalQuery): Listing<JournalId> {
    (o: nat) => rpc.getJournalIdentifiers(q, LIMIT, o)
  }

  function JournalFetch(rpc: ArticleMetaRpc, codec: Codec): JournalId -> Result<Journal> {
    (id: JournalId) => LoadJournal(rpc, codec, id)
  }

  method Journals(rpc: ArticleMetaRpc, codec: Codec, q: JournalQuery)
    returns (journals: seq<Journal>, offsets: seq<nat>, err: Option<Exception>)
    requires Terminates(JournalPages(rpc, q), JournalFetch(rpc, codec))
    ensures Enumeration(journals, offsets, err) == Enumerate(JournalPages(rpc, q), JournalFetch(rpc, codec))
    ensures forall j :: 0 <= j < |offsets| ==> offsets[j] == LIMIT * j
  {
    journals, offsets, err := Paginate(JournalPages(rpc, q), JournalFetch(rpc, codec));
    EnumerationOffsets(JournalPages(rpc, q), JournalFetch(rpc, codec));
  }

  // ---------------------------------------------------------------------------
  // ArticleMeta.exists_article and ArticleMeta.set_doaj_id

  function ExistsArticle(rpc: ArticleMetaRpc, code: string, collection: string): (r: Result<bool>)
    ensures r.Failure? <==> rpc.existsArticle(code, collection).Raised?
    ensures r.Failure? ==> r.error == ServerError("Error checking if document exists: " + collection + "_" + code)
    ensures r.Success? ==> r.value == rpc.existsArticle(code, collection).value
  {
    match rpc.existsArticle(code, collection)
    case Raised => Failure(ServerError("Error checking if document exists: " + collection + "_" + code))
    case Returned(b) => Success(b)
  }

  /** set_doaj_id discards what the service answers and returns None. */
  function SetDoajId(rpc: ArticleMetaRpc, code: string, collection: string, doajId: string): (r: Result<()>)
    ensures r.Failure? <==> rpc.setDoajId(code, collection, doajId).Raised?
    ensures r.Failure? ==> r.error == ServerError("Error senting doaj id for document: " + collection + "_" + code)
  {
    match rpc.setDoajId(code, collection, doajId)
    case Raised => Failure(ServerError("Error senting doaj id for document: " + collection + "_" + code))
    case Returned(_) => Success(())
  }

  // ---------------------------------------------------------------------------
  // ScieloManager.retrieve_aid_from_doi

  /** The query sent to scanArticles (json.dumps of it is not modelled). */
  function DoiQuery(doi: string): Value {
    Object(map["query" := Object(map["match" := Object(map["doi" := Str(doi)])])])
  }

  /** The articles of a scan and the exception that ended it, if any. */
  datatype Scan = Scan(articles: seq<ManagerArticle>, err: Option<Exception>)

  /** The scan from a batch on, following next_batch_id for at most `fuel`
      batches (None: the scan goes on past that). */
  function ScanFrom(get: string -> Reply<ScanBatch>, batchId: string, fuel: nat): Option<Scan>
    decreases fuel
  {
    if fuel == 0 then None
    else
      match get(batchId)
      case Raised => Some(Scan([], Some(RemoteFailure)))
      case Returned(batch) =>
        if batch.articles.None? then Some(Scan([], None))
        else
          match ScanFrom(get, batch.nextBatchId, fuel - 1)
          case None => None
          case Some(rest) => Some(Scan(batch.articles.value + rest.articles, rest.err))
  }

  ghost predicate ScanEnds(get: string -> Reply<ScanBatch>, batchId: string) {
    exists fuel: nat :: ScanFrom(get, batchId, fuel).Some?
  }

  ghost function SomeFuel(get: string -> Reply<ScanBatch>, batchId: string): (fuel: nat)
    requires ScanEnds(get, batchId)
    ensures ScanFrom(get, batchId, fuel).Some?
  {
    var fuel: nat :| ScanFrom(get, batchId, fuel).Some?; fuel
  }

  /** A scan that ends has one outcome, whatever bound it was given. */
  lemma {:induction false} ScanFuelIrrelevant(get: string -> Reply<ScanBatch>, batchId: string, f1: nat, f2: nat)
    requires ScanFrom(get, batchId, f1).Some? && ScanFrom(get, batchId, f2).Some?
    ensures ScanFrom(get, batchId, f1) == ScanFrom(get, batchId, f2)
    decreases f1
  {
    match get(batchId)
    case Raised =>
    case Returned(batch) =>
      if batch.articles.Some? {
        ScanFuelIrrelevant(get, batch.nextBatchId, f1 - 1, f2 - 1);
      }
  }

  /** A DOI lookup ends when scanArticles raises or its scan ends. */
  ghost predicate LookupEnds(rpc: ScieloManagerRpc, doi: string) {
    match rpc.scanArticles(DoiQuery(doi))
    case Raised => true
    case Returned(b) => ScanEnds(rpc.getScanArticlesBatch, b)
  }

  /** The AID of the single article the scan found; None when it found none or several. */
  ghost function AidLookup(rpc: ScieloManagerRpc, doi: string): Result<Option<string>>
    requires LookupEnds(rpc, doi)
  {
    match rpc.scanArticles(DoiQuery(doi))
    case Raised => Failure(RemoteFailure)
    case Returned(b) =>
      var scan := ScanFrom(rpc.getScanArticlesBatch, b, SomeFuel(rpc.getScanArticlesBatch, b)).value;
      if scan.err.Some? then Failure(scan.err.value)
      else if |scan.articles| == 1 then Success(scan.articles[0].aid)
      else Success(None)
  }

  method RetrieveAidFromDoi(rpc: ScieloManagerRpc, doi: string) returns (r: Result<Option<string>>)
    requires LookupEnds(rpc, doi)
    ensures r == AidLookup(rpc, doi)
  {
    var scanned := rpc.scanArticles(DoiQuery(doi));
    if scanned.Raised? {
      return Failure(RemoteFailure);
    }
    var get := rpc.getScanArticlesBatch;
    var batchId := scanned.value;
    ghost var fuel := SomeFuel(get, batchId);
    ghost var total := ScanFrom(get, batchId, fuel).value;
    var articles: seq<ManagerArticle> := [];
    while true
      invariant ScanFrom(get, batchId, fuel).Some?
      invariant var rest := ScanFrom(get, batchId, fuel).value;
        total == Scan(articles + rest.articles, rest.err)
      decreases fuel
    {
      var data := get(batchId);
      if data.Raised? {
        return Failure(RemoteFailure);
      }
      if data.value.articles.None? {
        break;
      }
      var batch := data.value.articles.value;
      ghost var before := articles;
      for j := 0 to |batch|
        invariant articles == before + batch[..j]
      {
        articles := articles + [batch[j]];
      }
      assert batch[..|batch|] == batch;
      batchId := data.value.nextBatchId;
      fuel := fuel - 1;
    }
    if |articles| == 1 {
      return Success(articles[0].aid);
    }
    return Success(None);
  }

  /** The lookup answers an AID only when the scan collected exactly one article,
      and then it is that article's AID; zero or several articles give None. */
  lemma AidOnlyOnSingleMatch(rpc: ScieloManagerRpc, doi: string, b: string, fuel: nat)
    requires rpc.scanArticles(DoiQuery(doi)) == Returned(b)
    requires ScanFrom(rpc.getScanArticlesBatch, b, fuel).Some?
    requires ScanFrom(rpc.getScanArticlesBatch, b, fuel).value.err.None?
    ensures LookupEnds(rpc, doi)
    ensures var arts := ScanFrom(rpc.getScanArticlesBatch, b, fuel).value.articles;
      AidLookup(rpc, doi) == Success(if |arts| == 1 then arts[0].aid else None)
  {
    ScanFuelIrrelevant(rpc.getScanArticlesBatch, b, fuel, SomeFuel(rpc.getScanArticlesBatch, b));
  }

  /** A batch with an empty list of articles does not end the scan: the next
      batch is still read. */
  lemma EmptyBatchDoesNotEnd(get: string -> Reply<ScanBatch>, b: string, next: string, fuel: nat)
    requires get(b) == Returned(ScanBatch(Some([]), next))
    requires ScanFrom(get, next, fuel).Some?
    ensures ScanFrom(get, b, fuel + 1) == ScanFrom(get, next, fuel)
  {
    assert [] + ScanFrom(get, next, fuel).value.articles == ScanFrom(get, next, fuel).value.articles;
  }
}
