/** load_aid.py: for every article of a collection that has no AID in
    ArticleMeta yet, look its DOI up in SciELO Manager and, when the lookup
    finds an AID, write that AID back to ArticleMeta. */
module LoadAid {
  import opened Common
  import opened Clients

  /** The json.dumps of the filter asking for articles without an AID. */
  const AID_FILTER: string := "{\"aid\": {\"$exists\": 0}}"

  function AidQuery(collection: Option<string>, issn: Option<string>): ArticleQuery {
    ArticleQuery(collection, issn, None, None, Some(AID_FILTER))
  }

  /** One set_aid call on ArticleMeta: publisher id, collection, AID. */
  datatype AidWrite = AidWrite(code: string, collection: string, aid: string)

  // ---------------------------------------------------------------------------
  // Export.items

  /** The articles yielded, and the exception that ended the yielding. */
  datatype Found = Found(articles: seq<Article>, err: Option<Exception>)

  /** The inner loop of items over the documents of one pass: each one is an
      article; a document the catalog does not have is None, which has no
      publisher_id to log, and raises. */
  function ArticlesOf(docs: seq<Loaded>): (f: Found)
    ensures |f.articles| <= |docs|
    ensures forall i :: 0 <= i < |f.articles| ==> docs[i] == Xylose(f.articles[i])
    ensures f.err.None? <==> |f.articles| == |docs|
    ensures f.err.Some? ==> f.err == Some(AttributeError) && !docs[|f.articles|].Xylose?
  {
    if docs == [] then Found([], None)
    else
      var f := ArticlesOf(docs[..|docs| - 1]);
      if f.err.Some? then f
      else if docs[|docs| - 1].Xylose? then Found(f.articles + [docs[|docs| - 1].article], None)
      else Found(f.articles, Some(AttributeError))
  }

  ghost predicate PassEnds(am: ArticleMetaRpc, codec: Codec, collection: Option<string>, issn: Option<string>) {
    Terminates(ArticlePages(am, AidQuery(collection, issn)), ArticleFetch(am, codec, "xylose"))
  }

  /** One pass of items: the articles of one ISSN, then the exception that
      ended their enumeration, if reading them raised none. */
  ghost function PassFor(am: ArticleMetaRpc, codec: Codec, collection: Option<string>, issn: Option<string>): Found
    requires PassEnds(am, codec, collection, issn)
  {
    var e := Enumerate(ArticlePages(am, AidQuery(collection, issn)), ArticleFetch(am, codec, "xylose"));
    var f := ArticlesOf(e.items);
    if f.err.Some? then f else Found(f.articles, e.err)
  }

  ghost predicate AllPassesEnd(am: ArticleMetaRpc, codec: Codec, collection: Option<string>, issns: seq<Option<string>>) {
    forall i :: 0 <= i < |issns| ==> PassEnds(am, codec, collection, issns[i])
  }

  /** All passes of items, in ISSN order; an exception ends them. */
  ghost function ItemsFrom(am: ArticleMetaRpc, codec: Codec, collection: Option<string>,
                           issns: seq<Option<string>>): Found
    requires AllPassesEnd(am, codec, collection, issns)
  {
    if issns == [] then Found([], None)
    else
      var f := ItemsFrom(am, codec, collection, issns[..|issns| - 1]);
      if f.err.Some? then f
      else
        var g := PassFor(am, codec, collection, issns[|issns| - 1]);
        Found(f.articles + g.articles, g.err)
  }

  // ---------------------------------------------------------------------------
  // Export.run

  /** The write-backs of a run and the exception that ended it. */
  datatype Backfilled = Backfilled(writes: seq<AidWrite>, err: Option<Exception>)

  /** Every lookup the run makes ends. */
  ghost predicate LookupsEnd(sm: ScieloManagerRpc, articles: seq<Article>) {
    forall i :: 0 <= i < |articles| && TruthyString(articles[i].doi) ==> LookupEnds(sm, articles[i].doi.value)
  }

  /** The body of the loop of run for one article: no DOI, nothing; otherwise
      look the DOI up, and write back the AID when the lookup finds one. */
  ghost function BackfillOne(am: ArticleMetaRpc, sm: ScieloManagerRpc, a: Article): Backfilled
    requires TruthyString(a.doi) ==> LookupEnds(sm, a.doi.value)
  {
    if !TruthyString(a.doi) then Backfilled([], None)
    else
      match AidLookup(sm, a.doi.value)
      case Failure(e) => Backfilled([], Some(e))
      case Success(aid) =>
        if !TruthyString(aid) then Backfilled([], None)
        else
          var written := am.setAid(a.publisherId, a.collectionAcronym, aid.value);
          Backfilled([AidWrite(a.publisherId, a.collectionAcronym, aid.value)],
                     if written.Raised? then Some(RemoteFailure) else None)
  }

  /** The loop of run over the articles, in order; an exception ends it. */
  ghost function Backfill(am: ArticleMetaRpc, sm: ScieloManagerRpc, articles: seq<Article>): Backfilled
    requires LookupsEnd(sm, articles)
  {
    if articles == [] then Backfilled([], None)
    else
      var b := Backfill(am, sm, articles[..|articles| - 1]);
      if b.err.Some? then b
      else
        var c := BackfillOne(am, sm, articles[|articles| - 1]);
        Backfilled(b.writes + c.writes, c.err)
  }

  // ---------------------------------------------------------------------------
  // The loader

  class Export {
    const collection: Option<string>
    /** The ISSNs to load; items replaces an empty list with [None]. */
    var issns: seq<Option<string>>
    /** The set_aid calls made on ArticleMeta so far, in order. */
    var written: seq<AidWrite>
    const am: ArticleMetaRpc
    const sm: ScieloManagerRpc
    const codec: Codec

    /** Export.__init__. The output file is accepted and ignored. No ISSN list
        is the empty list. */
    constructor(collection: Option<string>, issns: seq<Option<string>>, outputFile: Option<string>,
                am: ArticleMetaRpc, sm: ScieloManagerRpc, codec: Codec)
      ensures this.collection == collection && this.issns == issns && written == []
      ensures this.am == am && this.sm == sm && this.codec == codec
    {
      this.collection := collection;
      this.issns := issns;
      this.written := [];
      this.am := am;
      this.sm := sm;
      this.codec := codec;
    }

    /** The articles of one ISSN, in order, until a document is missing; then
        the exception that ended their enumeration. */
    method ArticlesOfIssn(issn: Option<string>) returns (articles: seq<Article>, err: Option<Exception>)
      requires PassEnds(am, codec, collection, issn)
      ensures Found(articles, err) == PassFor(am, codec, collection, issn)
    {
      var docs, _, listed := Documents(am, codec, AidQuery(collection, issn), "xylose");
      articles := [];
      var i := 0;
      while i < |docs|
        invariant i <= |docs| && ArticlesOf(docs[..i]) == Found(articles, None)
      {
        assert docs[..i + 1][..i] == docs[..i];
        if !docs[i].Xylose? {
          ArticlesOfStops(docs, i + 1);
          return articles, Some(AttributeError);
        }
        articles := articles + [docs[i].article];
        i := i + 1;
      }
      assert docs[..|docs|] == docs;
      err := listed;
    }

    /** Export.items, run to its end. */
    method Items() returns (articles: seq<Article>, err: Option<Exception>)
      requires AllPassesEnd(am, codec, collection, Passes(issns))
      modifies this
      ensures issns == Passes(old(issns)) && written == old(written)
      ensures Found(articles, err) == ItemsFrom(am, codec, collection, issns)
    {
      if issns == [] {
        issns := [None];
      }
      articles := [];
      var n := 0;
      while n < |issns|
        invariant issns == Passes(old(issns)) && written == old(written)
        invariant IssnsDone(am, codec, collection, issns, n, articles)
      {
        var more, e := ArticlesOfIssn(issns[n]);
        IssnsStep(am, codec, collection, issns, n, articles, more, e);
        articles := articles + more;
        if e.Some? {
          return articles, e;
        }
        n := n + 1;
      }
      assert issns[..|issns|] == issns;
      err := None;
    }

    /** The body of the loop of run, for one article. */
    method LoadArticle(item: Article) returns (err: Option<Exception>)
      requires TruthyString(item.doi) ==> LookupEnds(sm, item.doi.value)
      modifies this
      ensures var c := BackfillOne(am, sm, item); written == old(written) + c.writes && err == c.err
      ensures issns == old(issns)
    {
      if !TruthyString(item.doi) {
        assert written + [] == written;
        return None;
      }
      var aid := RetrieveAidFromDoi(sm, item.doi.value);
      if aid.Failure? {
        assert written + [] == written;
        return Some(aid.error);
      }
      if !TruthyString(aid.value) {
        assert written + [] == written;
        return None;
      }
      written := written + [AidWrite(item.publisherId, item.collectionAcronym, aid.value.value)];
      var reply := am.setAid(item.publisherId, item.collectionAcronym, aid.value.value);
      if reply.Raised? {
        return Some(RemoteFailure);
      }
      return None;
    }

    /** Export.run: every article with a DOI is looked up in SciELO Manager and
        gets the AID the lookup found written back, in order; an exception from
        a lookup or a write ends the run, and so does, after the articles read
        before it, one from items. */
    method Run() returns (err: Option<Exception>)
      requires AllPassesEnd(am, codec, collection, Passes(issns))
      requires LookupsEnd(sm, ItemsFrom(am, codec, collection, Passes(issns)).articles)
      modifies this
      ensures issns == Passes(old(issns))
      ensures var f := ItemsFrom(am, codec, collection, issns);
        var b := Backfill(am, sm, f.articles);
        written == old(written) + b.writes && err == (if b.err.Some? then b.err else f.err)
    {
      var articles, itemsErr := Items();
      var i := 0;
      assert articles[..0] == [] && old(written) + [] == written;
      while i < |articles|
        invariant issns == Passes(old(issns)) && LookupsEnd(sm, articles)
        invariant ArticlesDone(am, sm, articles, i, old(written), written)
      {
        ghost var before := written;
        var e := LoadArticle(articles[i]);
        ArticlesStep(am, sm, articles, i, old(written), before, written, e);
        if e.Some? {
          return e;
        }
        i := i + 1;
      }
      assert articles[..|articles|] == articles;
      err := itemsErr;
    }
  }

  // ---------------------------------------------------------------------------
  // Loop invariants and their steps

  lemma {:induction false} ArticlesOfStops(docs: seq<Loaded>, n: nat)
    requires n <= |docs| && ArticlesOf(docs[..n]).err.Some?
    ensures ArticlesOf(docs) == ArticlesOf(docs[..n])
    decreases |docs| - n
  {
    if n < |docs| {
      assert docs[..n + 1][..n] == docs[..n];
      ArticlesOfStops(docs, n + 1);
    } else {
      assert docs[..n] == docs;
    }
  }

  ghost predicate IssnsDone(am: ArticleMetaRpc, codec: Codec, collection: Option<string>,
                            issns: seq<Option<string>>, n: nat, articles: seq<Article>)
  {
    && n <= |issns|
    && AllPassesEnd(am, codec, collection, issns[..n])
    && ItemsFrom(am, codec, collection, issns[..n]) == Found(articles, None)
  }

  lemma IssnsStep(am: ArticleMetaRpc, codec: Codec, collection: Option<string>,
                  issns: seq<Option<string>>, n: nat, articles: seq<Article>, more: seq<Article>, e: Option<Exception>)
    requires AllPassesEnd(am, codec, collection, issns)
    requires IssnsDone(am, codec, collection, issns, n, articles) && n < |issns|
    requires Found(more, e) == PassFor(am, codec, collection, issns[n])
    ensures e.None? ==> IssnsDone(am, codec, collection, issns, n + 1, articles + more)
    ensures e.Some? ==> ItemsFrom(am, codec, collection, issns) == Found(articles + more, e)
  {
    assert issns[..n + 1][..n] == issns[..n];
    assert AllPassesEnd(am, codec, collection, issns[..n + 1]);
    if e.Some? {
      ItemsFromStops(am, codec, collection, issns, n + 1);
    }
  }

  lemma {:induction false} ItemsFromStops(am: ArticleMetaRpc, codec: Codec, collection: Option<string>,
                                          issns: seq<Option<string>>, n: nat)
    requires AllPassesEnd(am, codec, collection, issns)
    requires n <= |issns| && ItemsFrom(am, codec, collection, issns[..n]).err.Some?
    ensures ItemsFrom(am, codec, collection, issns) == ItemsFrom(am, codec, collection, issns[..n])
    decreases |issns| - n
  {
    if n < |issns| {
      assert issns[..n + 1][..n] == issns[..n];
      assert AllPassesEnd(am, codec, collection, issns[..n + 1]);
      ItemsFromStops(am, codec, collection, issns, n + 1);
    } else {
      assert issns[..n] == issns;
    }
  }

  /** The run over the first i + 1 articles is the run over the first i, then
      the body of the loop for article i. */
  lemma BackfillPrefix(am: ArticleMetaRpc, sm: ScieloManagerRpc, articles: seq<Article>, i: nat)
    requires LookupsEnd(sm, articles) && i < |articles|
    ensures LookupsEnd(sm, articles[..i]) && LookupsEnd(sm, articles[..i + 1])
    ensures var b := Backfill(am, sm, articles[..i]);
      var c := BackfillOne(am, sm, articles[i]);
      Backfill(am, sm, articles[..i + 1]) == if b.err.Some? then b else Backfilled(b.writes + c.writes, c.err)
  {
    assert articles[..i + 1][..i] == articles[..i];
  }

  lemma {:induction false} BackfillStops(am: ArticleMetaRpc, sm: ScieloManagerRpc, articles: seq<Article>, n: nat)
    requires LookupsEnd(sm, articles)
    requires n <= |articles| && LookupsEnd(sm, articles[..n]) && Backfill(am, sm, articles[..n]).err.Some?
    ensures Backfill(am, sm, articles) == Backfill(am, sm, articles[..n])
    decreases |articles| - n
  {
    if n < |articles| {
      BackfillPrefix(am, sm, articles, n);
      BackfillStops(am, sm, articles, n + 1);
    } else {
      assert articles[..n] == articles;
    }
  }

  /** The invariant of the loop of run: the first i articles have been
      processed without an exception. */
  ghost predicate ArticlesDone(am: ArticleMetaRpc, sm: ScieloManagerRpc, articles: seq<Article>, i: nat,
                               written0: seq<AidWrite>, written: seq<AidWrite>)
  {
    && i <= |articles|
    && LookupsEnd(sm, articles[..i])
    && Backfill(am, sm, articles[..i]).err.None?
    && written == written0 + Backfill(am, sm, articles[..i]).writes
  }

  lemma ArticlesStep(am: ArticleMetaRpc, sm: ScieloManagerRpc, articles: seq<Article>, i: nat,
                     written0: seq<AidWrite>, written: seq<AidWrite>, written': seq<AidWrite>, e: Option<Exception>)
    requires LookupsEnd(sm, articles) && ArticlesDone(am, sm, articles, i, written0, written) && i < |articles|
    requires var c := BackfillOne(am, sm, articles[i]); written' == written + c.writes && e == c.err
    ensures e.None? ==> ArticlesDone(am, sm, articles, i + 1, written0, written')
    ensures e.Some? ==> var b := Backfill(am, sm, articles); written' == written0 + b.writes && e == b.err
  {
    BackfillPrefix(am, sm, articles, i);
    var b := Backfill(am, sm, articles[..i]);
    var c := BackfillOne(am, sm, articles[i]);
    assert written0 + b.writes + c.writes == written0 + (b.writes + c.writes);
    if e.Some? {
      BackfillStops(am, sm, articles, i + 1);
    }
  }

  // ---------------------------------------------------------------------------
  // What the loader promises

  /** Running over a then b is running over a and, unless that raised, over b:
      the write-backs follow the order of the articles. */
  lemma {:induction false} BackfillAppend(am: ArticleMetaRpc, sm: ScieloManagerRpc, a: seq<Article>, b: seq<Article>)
    requires LookupsEnd(sm, a + b)
    ensures LookupsEnd(sm, a) && LookupsEnd(sm, b)
    ensures var ba := Backfill(am, sm, a);
      Backfill(am, sm, a + b) ==
        if ba.err.Some? then ba
        else Backfilled(ba.writes + Backfill(am, sm, b).writes, Backfill(am, sm, b).err)
    decreases |b|
  {
    assert forall i :: 0 <= i < |a| ==> (a + b)[i] == a[i];
    assert forall i :: 0 <= i < |b| ==> (a + b)[|a| + i] == b[i];
    if b == [] {
      assert a + b == a;
    } else {
      var front := b[..|b| - 1];
      assert (a + b)[..|a + b| - 1] == a + front;
      assert (a + b)[|a + b| - 1] == b[|b| - 1];
      BackfillAppend(am, sm, a, front);
      var ba := Backfill(am, sm, a);
      if ba.err.None? {
        var bf := Backfill(am, sm, front);
        if bf.err.None? {
          var c := BackfillOne(am, sm, b[|b| - 1]);
          assert ba.writes + bf.writes + c.writes == ba.writes + (bf.writes + c.writes);
        }
      }
    }
  }

  /** One article: no lookup and no write without a DOI; with one, a single
      write-back of the publisher id, the collection and the AID exactly when
      the lookup answers a non-empty AID. */
  lemma WriteBackIff(am: ArticleMetaRpc, sm: ScieloManagerRpc, a: Article)
    requires TruthyString(a.doi) ==> LookupEnds(sm, a.doi.value)
    ensures LookupsEnd(sm, [a])
    ensures Backfill(am, sm, [a]) == BackfillOne(am, sm, a)
    ensures !TruthyString(a.doi) ==> BackfillOne(am, sm, a) == Backfilled([], None)
    ensures var c := BackfillOne(am, sm, a);
      (c.writes != [] <==> TruthyString(a.doi) && AidLookup(sm, a.doi.value).Success?
                           && TruthyString(AidLookup(sm, a.doi.value).value))
    ensures var c := BackfillOne(am, sm, a);
      c.writes != [] ==> c.writes == [AidWrite(a.publisherId, a.collectionAcronym, AidLookup(sm, a.doi.value).value.value)]
  {
    assert [a][..0] == [];
  }

  /** Articles without a DOI are skipped, whatever SciELO Manager would say. */
  lemma {:induction false} NoDoiNoWrite(am: ArticleMetaRpc, sm: ScieloManagerRpc, articles: seq<Article>)
    requires forall i :: 0 <= i < |articles| ==> !TruthyString(articles[i].doi)
    ensures LookupsEnd(sm, articles)
    ensures Backfill(am, sm, articles) == Backfilled([], None)
    decreases |articles|
  {
    if articles != [] {
      NoDoiNoWrite(am, sm, articles[..|articles| - 1]);
    }
  }

  /** A run writes back at most once per article. */
  lemma {:induction false} AtMostOnePerArticle(am: ArticleMetaRpc, sm: ScieloManagerRpc, articles: seq<Article>)
    requires LookupsEnd(sm, articles)
    ensures |Backfill(am, sm, articles).writes| <= |articles|
    decreases |articles|
  {
    if articles != [] {
      assert LookupsEnd(sm, articles[..|articles| - 1]);
      AtMostOnePerArticle(am, sm, articles[..|articles| - 1]);
    }
  }

  /** Without ISSNs, items makes exactly one pass, over the whole collection,
      asking for the articles without an AID. */
  lemma NoIssnsOnePass(am: ArticleMetaRpc, codec: Codec, collection: Option<string>)
    requires PassEnds(am, codec, collection, None)
    ensures AllPassesEnd(am, codec, collection, Passes([]))
    ensures ItemsFrom(am, codec, collection, Passes([])) == PassFor(am, codec, collection, None)
  {
    var passes: seq<Option<string>> := [None];
    assert passes[..0] == [];
    var g := PassFor(am, codec, collection, None);
    assert [] + g.articles == g.articles;
  }
}
