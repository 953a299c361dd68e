/** exporter.py: reads every legacy (html) article of a collection from
    ArticleMeta, validates its SciELO PS XML, writes a report line for each
    article that is not fully valid, and queues the registration task for each
    article whose XML is valid against the DTD.

    packtools' XMLValidator is an oracle (XmlTools.validatorFor: None when the
    XML cannot be read), and so is json.dumps (XmlTools.dumps). The report file
    is its text; the Celery queue is the list of dispatched items. */
module Exporter {
  import opened Common
  import opened Clients

  // ---------------------------------------------------------------------------
  // The validator and its summary

  /** What err.get_apparent_element gives: an element (whose source line lxml
      may not know), nothing, or a ValueError. */
  datatype ElementLookup = Located(sourceline: Option<int>) | NotLocated | LookupValueError

  datatype ValidationError = ValidationError(message: string, element: ElementLookup)

  /** The verdicts of validate() (DTD) and validate_style() (SciELO PS style rules). */
  datatype Validator = Validator(
    dtdValid: bool, dtdErrors: seq<ValidationError>,
    spsValid: bool, spsErrors: seq<ValidationError>)

  datatype XmlTools = XmlTools(validatorFor: string -> Option<Validator>, dumps: Record -> string)

  /** _make_err_message: the message and the apparent line of the element, or
      None when the element cannot be located. */
  function ErrorRecord(e: ValidationError): (r: Value)
    ensures r.Object? && r.fields.Keys == {"message", "apparent_line"}
    ensures r.fields["message"] == Str(e.message)
    ensures r.fields["apparent_line"].Int? <==> e.element.Located? && e.element.sourceline.Some?
    ensures r.fields["apparent_line"].Int? ==> r.fields["apparent_line"].i == e.element.sourceline.value
    ensures !r.fields["apparent_line"].Int? ==> r.fields["apparent_line"] == Null
  {
    var line :=
      match e.element
      case Located(Some(n)) => Int(n)
      case _ => Null;
    Object(map["message" := Str(e.message), "apparent_line" := line])
  }

  function ErrorRecords(errs: seq<ValidationError>): Value {
    List(seq(|errs|, i requires 0 <= i < |errs| => ErrorRecord(errs[i])))
  }

  /** summarize: both verdicts, both error lists in the validator's order, and
      is_valid when both verdicts are. */
  function Summarize(v: Validator): (r: Record)
    ensures r.Keys == {"dtd_errors", "sps_errors", "dtd_is_valid", "sps_is_valid", "is_valid"}
    ensures r["dtd_is_valid"] == Bool(v.dtdValid) && r["sps_is_valid"] == Bool(v.spsValid)
    ensures r["is_valid"] == Bool(v.dtdValid && v.spsValid)
    ensures r["dtd_errors"].List? && |r["dtd_errors"].items| == |v.dtdErrors|
    ensures forall i :: 0 <= i < |v.dtdErrors| ==> r["dtd_errors"].items[i] == ErrorRecord(v.dtdErrors[i])
    ensures r["sps_errors"].List? && |r["sps_errors"].items| == |v.spsErrors|
    ensures forall i :: 0 <= i < |v.spsErrors| ==> r["sps_errors"].items[i] == ErrorRecord(v.spsErrors[i])
  {
    var summary := map["dtd_errors" := ErrorRecords(v.dtdErrors), "sps_errors" := ErrorRecords(v.spsErrors)];
    summary["dtd_is_valid" := Bool(v.dtdValid)]["sps_is_valid" := Bool(v.spsValid)]["is_valid" := Bool(v.dtdValid && v.spsValid)]
  }

  predicate IsValid(r: Record) {
    "is_valid" in r && Truthy(r["is_valid"])
  }

  predicate DtdValid(r: Record) {
    "dtd_is_valid" in r && Truthy(r["dtd_is_valid"])
  }

  /** analyze_xml: the summary, or, when the XML cannot be read, three false
      verdicts and parsing_error and nothing else. */
  function AnalyzeXml(validatorFor: string -> Option<Validator>, xml: string): (r: Record)
    ensures "is_valid" in r && "dtd_is_valid" in r && "sps_is_valid" in r
    ensures r["is_valid"].Bool? && r["dtd_is_valid"].Bool? && r["sps_is_valid"].Bool?
    ensures IsValid(r) <==> DtdValid(r) && r["sps_is_valid"] == Bool(true)
    ensures validatorFor(xml).None? ==>
      && r.Keys == {"dtd_is_valid", "sps_is_valid", "is_valid", "parsing_error"}
      && !IsValid(r) && !DtdValid(r) && r["sps_is_valid"] == Bool(false)
      && r["parsing_error"] == Bool(true)
    ensures validatorFor(xml).Some? ==> r == Summarize(validatorFor(xml).value) && "parsing_error" !in r
  {
    match validatorFor(xml)
    case None =>
      map["dtd_is_valid" := Bool(false), "sps_is_valid" := Bool(false),
          "is_valid" := Bool(false), "parsing_error" := Bool(true)]
    case Some(v) => Summarize(v)
  }

  // ---------------------------------------------------------------------------
  // The report record

  /** The keys _fmt_json sets before merging the validation summary. */
  const RecordKeys: set<string> := {"code", "collection", "id", "document_type", "publication_year", "data_version"}

  /** publication_date[0:4]. */
  function Year(date: string): (y: string)
    ensures |y| == (if |date| < 4 then |date| else 4)
    ensures y == date[..|y|]
  {
    if |date| < 4 then date else date[..4]
  }

  /** _fmt_json, before json.dumps: the article's identification, then the
      summary merged over it (the summary wins on a shared key). */
  function FmtJson(data: Article, checked: Record): (r: Record)
    ensures r.Keys == RecordKeys + checked.Keys
    ensures forall k :: k in checked ==> r[k] == checked[k]
    ensures "id" !in checked ==> r["id"] == Str(data.collectionAcronym + "_" + data.publisherId)
    ensures "code" !in checked ==> r["code"] == Str(data.publisherId)
    ensures "collection" !in checked ==> r["collection"] == Str(data.collectionAcronym)
    ensures "document_type" !in checked ==> r["document_type"] == Str(data.documentType)
    ensures "publication_year" !in checked ==>
      && r["publication_year"].Str?
      && |r["publication_year"].s| <= 4
      && r["publication_year"].s <= data.publicationDate
      && (|data.publicationDate| >= 4 ==> |r["publication_year"].s| == 4)
    ensures "data_version" !in checked ==>
      && (r["data_version"] == Str("legacy") <==> data.dataModelVersion == "html")
      && (r["data_version"] == Str("xml") <==> data.dataModelVersion != "html")
  {
    var fmt := map[
      "code" := Str(data.publisherId),
      "collection" := Str(data.collectionAcronym),
      "id" := Str(data.collectionAcronym + "_" + data.publisherId),
      "document_type" := Str(data.documentType),
      "publication_year" := Str(Year(data.publicationDate)),
      "data_version" := Str(if data.dataModelVersion == "html" then "legacy" else "xml")];
    fmt + checked
  }

  /** The validation summary never clashes with the article's identification,
      so every report record carries it unchanged. */
  lemma ReportRecordFields(validatorFor: string -> Option<Validator>, data: Article, xml: string)
    ensures var r := FmtJson(data, AnalyzeXml(validatorFor, xml));
      && r["id"] == Str(data.collectionAcronym + "_" + data.publisherId)
      && r["code"] == Str(data.publisherId)
      && r["publication_year"] == Str(Year(data.publicationDate))
      && (r["data_version"] == Str("legacy") <==> data.dataModelVersion == "html")
      && r["is_valid"] == AnalyzeXml(validatorFor, xml)["is_valid"]
  {
    var checked := AnalyzeXml(validatorFor, xml);
    assert checked.Keys !! RecordKeys by {
      if validatorFor(xml).Some? {
        assert checked.Keys == Summarize(validatorFor(xml).value).Keys;
      }
    }
  }

  // ---------------------------------------------------------------------------
  // One pass of Export.items

  /** The json.dumps of the filter asking for legacy (html) articles only. */
  const HTML_FILTER: string := "{\"version\": \"html\"}"

  function HtmlQuery(collection: Option<string>, issn: Option<string>): ArticleQuery {
    ArticleQuery(collection, issn, None, None, Some(HTML_FILTER))
  }

  /** What items yields: the article and its XML. */
  datatype Item = Item(article: Article, xml: string)

  /** What one document contributes: a report record, an item, or an exception. */
  datatype Step = Step(record: Option<Record>, item: Option<Item>, err: Option<Exception>)

  function Listed<T>(o: Option<T>): seq<T> {
    if o.Some? then [o.value] else []
  }

  /** The body of the inner loop of items, for one document. A document the
      catalog does not have is None in the source, which has no publisher_id. */
  function ProcessDoc(am: ArticleMetaRpc, codec: Codec, tools: XmlTools, doc: Loaded): Step {
    match doc
    case Xylose(data) =>
      (match Document(am, codec, data.publisherId, data.collectionAcronym, "xmlrsps")
       case Failure(e) => Step(None, None, Some(e))
       case Success(fetched) =>
         var xml := fetched.payload;
         var checked := AnalyzeXml(tools.validatorFor, xml);
         Step(if !IsValid(checked) then Some(FmtJson(data, checked)) else None,
              if DtdValid(checked) then Some(Item(data, xml)) else None,
              None))
    case _ => Step(None, None, Some(AttributeError))
  }

  /** The report records, the items and the exception of a run over documents. */
  datatype Pass = Pass(records: seq<Record>, items: seq<Item>, err: Option<Exception>)

  function ProcessDocs(am: ArticleMetaRpc, codec: Codec, tools: XmlTools, docs: seq<Loaded>): Pass {
    if docs == [] then Pass([], [], None)
    else
      var p := ProcessDocs(am, codec, tools, docs[..|docs| - 1]);
      if p.err.Some? then p
      else
        var s := ProcessDoc(am, codec, tools, docs[|docs| - 1]);
        Pass(p.records + Listed(s.record), p.items + Listed(s.item), s.err)
  }

  ghost predicate PassEnds(am: ArticleMetaRpc, codec: Codec, collection: Option<string>, issn: Option<string>) {
    Terminates(ArticlePages(am, HtmlQuery(collection, issn)), ArticleFetch(am, codec, "xylose"))
  }

  /** One pass of the outer loop of items: the documents of one ISSN, then the
      exception that ended their enumeration, if the documents raised none. */
  ghost function PassFor(am: ArticleMetaRpc, codec: Codec, tools: XmlTools,
                         collection: Option<string>, issn: Option<string>): Pass
    requires PassEnds(am, codec, collection, issn)
  {
    var e := Enumerate(ArticlePages(am, HtmlQuery(collection, issn)), ArticleFetch(am, codec, "xylose"));
    var p := ProcessDocs(am, codec, tools, e.items);
    if p.err.Some? then p else Pass(p.records, p.items, e.err)
  }

  ghost predicate AllPassesEnd(am: ArticleMetaRpc, codec: Codec, collection: Option<string>, issns: seq<Option<string>>) {
    forall i :: 0 <= i < |issns| ==> PassEnds(am, codec, collection, issns[i])
  }

  /** All passes of items, in ISSN order; an exception ends them. */
  ghost function ItemsFrom(am: ArticleMetaRpc, codec: Codec, tools: XmlTools,
                           collection: Option<string>, issns: seq<Option<string>>): Pass
    requires AllPassesEnd(am, codec, collection, issns)
  {
    if issns == [] then Pass([], [], None)
    else
      var p := ItemsFrom(am, codec, tools, collection, issns[..|issns| - 1]);
      if p.err.Some? then p
      else
        var q := PassFor(am, codec, tools, collection, issns[|issns| - 1]);
        Pass(p.records + q.records, p.items + q.items, q.err)
  }

  /** The report file after writing one line per record. */
  function Lines(dumps: Record -> string, records: seq<Record>): string {
    if records == [] then ""
    else Lines(dumps, records[..|records| - 1]) + dumps(records[|records| - 1]) + "\r\n"
  }

  function Appended(dumps: Record -> string, report: Option<string>, records: seq<Record>): Option<string> {
    if report.Some? then Some(report.value + Lines(dumps, records)) else None
  }

  // ---------------------------------------------------------------------------
  // The exporter

  class Export {
    const collection: Option<string>
    /** The ISSNs to export; items replaces an empty list with [None]. */
    var issns: seq<Option<string>>
    const full: bool
    /** The text of the XML parsing report, when one is configured. */
    var report: Option<string>
    /** The registration tasks queued so far, in order. */
    var dispatched: seq<Item>
    const am: ArticleMetaRpc
    const codec: Codec
    const tools: XmlTools

    /** Export.__init__; a report path opens the report file empty, no path
        (or an empty one) means no report. No ISSN list is the empty list. */
    constructor(collection: Option<string>, issns: seq<Option<string>>, full: bool,
                xmlParsingReport: Option<string>, am: ArticleMetaRpc, codec: Codec, tools: XmlTools)
      ensures this.collection == collection && this.issns == issns && this.full == full
      ensures report == (if TruthyString(xmlParsingReport) then Some("") else None)
      ensures dispatched == []
      ensures this.am == am && this.codec == codec && this.tools == tools
    {
      this.collection := collection;
      this.issns := issns;
      this.full := full;
      this.report := if TruthyString(xmlParsingReport) then Some("") else None;
      this.dispatched := [];
      this.am := am;
      this.codec := codec;
      this.tools := tools;
    }

    /** Export._write: one line, ended by CR LF. */
    method Write(line: string)
      requires report.Some?
      modifies this
      ensures report == Some(old(report).value + line + "\r\n")
      ensures issns == old(issns) && dispatched == old(dispatched)
    {
      report := Some(report.value + line + "\r\n");
    }

    /** The body of the inner loop of items, for one document: report it when
        it is not fully valid (and there is a report), yield it when it is
        valid against the DTD. */
    method ExportDoc(doc: Loaded) returns (item: Option<Item>, err: Option<Exception>)
      modifies this
      ensures var s := ProcessDoc(am, codec, tools, doc);
        item == s.item && err == s.err && report == Appended(tools.dumps, old(report), Listed(s.record))
      ensures issns == old(issns) && dispatched == old(dispatched)
    {
      AppendedNothing(tools.dumps, report);
      if !doc.Xylose? {
        return None, Some(AttributeError);
      }
      var data := doc.article;
      var fetched := Document(am, codec, data.publisherId, data.collectionAcronym, "xmlrsps");
      if fetched.Failure? {
        return None, Some(fetched.error);
      }
      var xml := fetched.value.payload;
      var checked := AnalyzeXml(tools.validatorFor, xml);
      if !IsValid(checked) {
        AppendedOne(tools.dumps, report, FmtJson(data, checked));
        if report.Some? {
          Write(tools.dumps(FmtJson(data, checked)));
        }
      }
      if !DtdValid(checked) {
        return None, None;
      }
      return Some(Item(data, xml)), None;
    }

    /** The documents of one ISSN, in order, until one raises; then the
        exception that ended their enumeration. */
    method ItemsOfIssn(issn: Option<string>) returns (items: seq<Item>, err: Option<Exception>)
      requires PassEnds(am, codec, collection, issn)
      modifies this
      ensures var p := PassFor(am, codec, tools, collection, issn);
        items == p.items && err == p.err && report == Appended(tools.dumps, old(report), p.records)
      ensures issns == old(issns) && dispatched == old(dispatched)
    {
      var docs, _, listed := Documents(am, codec, HtmlQuery(collection, issn), "xylose");
      items := [];
      var i := 0;
      AppendedNothing(tools.dumps, report);
      while i < |docs|
        invariant DocsDone(am, codec, tools, docs, i, items, old(report), report)
        invariant issns == old(issns) && dispatched == old(dispatched)
      {
        ghost var before := report;
        var item, e := ExportDoc(docs[i]);
        DocsStep(am, codec, tools, docs, i, items, old(report), before, report);
        items := items + Listed(item);
        if e.Some? {
          return items, e;
        }
        i := i + 1;
      }
      assert docs[..|docs|] == docs;
      err := listed;
    }

    /** Export.items, run to its end: every pass, in ISSN order, until one raises.
        Outside full mode it raises TypeError before doing anything. */
    method Items() returns (items: seq<Item>, err: Option<Exception>)
      requires full ==> AllPassesEnd(am, codec, collection, Passes(issns))
      modifies this
      ensures !full ==> items == [] && err == Some(TypeError) && issns == old(issns) && report == old(report)
      ensures full ==>
        && issns == Passes(old(issns))
        && var p := ItemsFrom(am, codec, tools, collection, issns);
           items == p.items && err == p.err && report == Appended(tools.dumps, old(report), p.records)
      ensures dispatched == old(dispatched)
    {
      if !full {
        return [], Some(TypeError);
      }
      if issns == [] {
        issns := [None];
      }
      items := [];
      var n := 0;
      AppendedNothing(tools.dumps, report);
      while n < |issns|
        invariant issns == Passes(old(issns)) && AllPassesEnd(am, codec, collection, issns)
        invariant IssnsDone(am, codec, tools, collection, issns, n, items, old(report), report)
        invariant dispatched == old(dispatched)
      {
        ghost var before := report;
        var more, e := ItemsOfIssn(issns[n]);
        IssnsStep(am, codec, tools, collection, issns, n, items, old(report), before, more, e, report);
        items := items + more;
        if e.Some? {
          return items, e;
        }
        n := n + 1;
      }
      assert issns[..|issns|] == issns;
      err := None;
    }

    /** Export.run: queue one registration task per item, in order; then the
        exception that ended items, if any, leaves run. */
    method Run() returns (err: Option<Exception>)
      requires full ==> AllPassesEnd(am, codec, collection, Passes(issns))
      modifies this
      ensures !full ==> err == Some(TypeError) && dispatched == old(dispatched) && report == old(report)
      ensures full ==>
        && issns == Passes(old(issns))
        && var p := ItemsFrom(am, codec, tools, collection, issns);
           dispatched == old(dispatched) + p.items && err == p.err
           && report == Appended(tools.dumps, old(report), p.records)
    {
      var items;
      items, err := Items();
      Dispatch(items);
    }

    /** The loop of run: one check_registry_status.delay per item, in order. */
    method Dispatch(items: seq<Item>)
      modifies this
      ensures dispatched == old(dispatched) + items
      ensures report == old(report) && issns == old(issns)
    {
      for i := 0 to |items|
        invariant dispatched == old(dispatched) + items[..i]
        invariant report == old(report) && issns == old(issns)
      {
        dispatched := dispatched + [items[i]];
      }
      assert items[..|items|] == items;
    }
  }

  // ---------------------------------------------------------------------------
  // What the exporter promises

  lemma {:induction false} LinesConcat(dumps: Record -> string, a: seq<Record>, b: seq<Record>)
    ensures Lines(dumps, a + b) == Lines(dumps, a) + Lines(dumps, b)
    decreases |b|
  {
    if b == [] {
      assert a + b == a;
    } else {
      var front := b[..|b| - 1];
      assert (a + b)[..|a + b| - 1] == a + front;
      assert (a + b)[|a + b| - 1] == b[|b| - 1];
      LinesConcat(dumps, a, front);
      var line := dumps(b[|b| - 1]) + "\r\n";
      calc {
        Lines(dumps, a + b);
        Lines(dumps, a + front) + dumps(b[|b| - 1]) + "\r\n";
        (Lines(dumps, a) + Lines(dumps, front)) + dumps(b[|b| - 1]) + "\r\n";
        { assert (Lines(dumps, a) + Lines(dumps, front)) + dumps(b[|b| - 1]) + "\r\n"
              == Lines(dumps, a) + (Lines(dumps, front) + dumps(b[|b| - 1]) + "\r\n"); }
        Lines(dumps, a) + Lines(dumps, b);
      }
    }
  }

  /** Writing the lines of a, then those of b, writes the lines of a + b. */
  lemma LinesAppend(dumps: Record -> string, report: Option<string>, a: seq<Record>, b: seq<Record>)
    ensures Appended(dumps, Appended(dumps, report, a), b) == Appended(dumps, report, a + b)
  {
    LinesConcat(dumps, a, b);
    if report.Some? {
      assert report.value + Lines(dumps, a) + Lines(dumps, b) == report.value + (Lines(dumps, a) + Lines(dumps, b));
    }
  }

  lemma AppendedOne(dumps: Record -> string, report: Option<string>, r: Record)
    ensures Appended(dumps, report, [r]) == if report.Some? then Some(report.value + dumps(r) + "\r\n") else None
  {
    assert [r][..0] == [];
    var line := dumps(r) + "\r\n";
    assert Lines(dumps, [r]) == "" + dumps(r) + "\r\n" == line;
    if report.Some? {
      assert report.value + line == report.value + dumps(r) + "\r\n";
    }
  }

  lemma AppendedNothing(dumps: Record -> string, report: Option<string>)
    ensures Appended(dumps, report, []) == report
  {
    if report.Some? {
      assert report.value + "" == report.value;
    }
  }

  /** The invariant of the inner loop of items: the first i documents have
      been processed without an exception. */
  ghost predicate DocsDone(am: ArticleMetaRpc, codec: Codec, tools: XmlTools, docs: seq<Loaded>, i: nat,
                           items: seq<Item>, report0: Option<string>, report: Option<string>)
  {
    && i <= |docs|
    && var p := ProcessDocs(am, codec, tools, docs[..i]);
       p.err.None? && items == p.items && report == Appended(tools.dumps, report0, p.records)
  }

  /** One document more: either the loop goes on, or the pass has ended. */
  lemma DocsStep(am: ArticleMetaRpc, codec: Codec, tools: XmlTools, docs: seq<Loaded>, i: nat,
                 items: seq<Item>, report0: Option<string>, report: Option<string>, report': Option<string>)
    requires DocsDone(am, codec, tools, docs, i, items, report0, report) && i < |docs|
    requires report' == Appended(tools.dumps, report, Listed(ProcessDoc(am, codec, tools, docs[i]).record))
    ensures var s := ProcessDoc(am, codec, tools, docs[i]);
      && (s.err.None? ==> DocsDone(am, codec, tools, docs, i + 1, items + Listed(s.item), report0, report'))
      && (s.err.Some? ==>
            var p := ProcessDocs(am, codec, tools, docs);
            p.items == items + Listed(s.item) && p.err == s.err && report' == Appended(tools.dumps, report0, p.records))
  {
    var p := ProcessDocs(am, codec, tools, docs[..i]);
    var s := ProcessDoc(am, codec, tools, docs[i]);
    assert docs[..i + 1][..i] == docs[..i];
    LinesAppend(tools.dumps, report0, p.records, Listed(s.record));
    if s.err.Some? {
      ProcessDocsStops(am, codec, tools, docs, i + 1);
    }
  }

  /** The invariant of the outer loop of items: the first n passes have been
      made without an exception. */
  ghost predicate IssnsDone(am: ArticleMetaRpc, codec: Codec, tools: XmlTools, collection: Option<string>,
                            issns: seq<Option<string>>, n: nat,
                            items: seq<Item>, report0: Option<string>, report: Option<string>)
  {
    && n <= |issns|
    && AllPassesEnd(am, codec, collection, issns[..n])
    && var p := ItemsFrom(am, codec, tools, collection, issns[..n]);
       p.err.None? && items == p.items && report == Appended(tools.dumps, report0, p.records)
  }

  /** One pass more: either the loop goes on, or items has ended. */
  lemma IssnsStep(am: ArticleMetaRpc, codec: Codec, tools: XmlTools, collection: Option<string>,
                  issns: seq<Option<string>>, n: nat,
                  items: seq<Item>, report0: Option<string>, report: Option<string>,
                  more: seq<Item>, e: Option<Exception>, report': Option<string>)
    requires AllPassesEnd(am, codec, collection, issns)
    requires IssnsDone(am, codec, tools, collection, issns, n, items, report0, report) && n < |issns|
    requires var q := PassFor(am, codec, tools, collection, issns[n]);
      more == q.items && e == q.err && report' == Appended(tools.dumps, report, q.records)
    ensures e.None? ==> IssnsDone(am, codec, tools, collection, issns, n + 1, items + more, report0, report')
    ensures e.Some? ==>
      var p := ItemsFrom(am, codec, tools, collection, issns);
      p.items == items + more && p.err == e && report' == Appended(tools.dumps, report0, p.records)
  {
    assert issns[..n + 1][..n] == issns[..n];
    assert AllPassesEnd(am, codec, collection, issns[..n + 1]);
    var p := ItemsFrom(am, codec, tools, collection, issns[..n]);
    LinesAppend(tools.dumps, report0, p.records, PassFor(am, codec, tools, collection, issns[n]).records);
    if e.Some? {
      ItemsFromStops(am, codec, tools, collection, issns, n + 1);
    }
  }

  /** Once a document raised, the documents after it are never looked at. */
  lemma {:induction false} ProcessDocsStops(am: ArticleMetaRpc, codec: Codec, tools: XmlTools, docs: seq<Loaded>, n: nat)
    requires n <= |docs| && ProcessDocs(am, codec, tools, docs[..n]).err.Some?
    ensures ProcessDocs(am, codec, tools, docs) == ProcessDocs(am, codec, tools, docs[..n])
    decreases |docs| - n
  {
    if n < |docs| {
      assert docs[..n + 1][..n] == docs[..n];
      ProcessDocsStops(am, codec, tools, docs, n + 1);
    } else {
      assert docs[..n] == docs;
    }
  }

  lemma {:induction false} ItemsFromStops(am: ArticleMetaRpc, codec: Codec, tools: XmlTools, collection: Option<string>,
                                          issns: seq<Option<string>>, n: nat)
    requires AllPassesEnd(am, codec, collection, issns)
    requires n <= |issns| && ItemsFrom(am, codec, tools, collection, issns[..n]).err.Some?
    ensures ItemsFrom(am, codec, tools, collection, issns) == ItemsFrom(am, codec, tools, collection, issns[..n])
    decreases |issns| - n
  {
    if n < |issns| {
      assert issns[..n + 1][..n] == issns[..n];
      ItemsFromStops(am, codec, tools, collection, issns, n + 1);
    } else {
      assert issns[..n] == issns;
    }
  }

  /** The decision rule for one article whose XML was fetched: it is reported
      exactly when it is not fully valid, so also when its XML cannot be read
      or only the style rules fail; it is yielded, with that XML, exactly when
      it is valid against the DTD. */
  lemma DocDecision(am: ArticleMetaRpc, codec: Codec, tools: XmlTools, data: Article, xml: string)
    requires Document(am, codec, data.publisherId, data.collectionAcronym, "xmlrsps") == Success(Raw(xml))
    ensures var s := ProcessDoc(am, codec, tools, Xylose(data));
      var v := tools.validatorFor(xml);
      && s.err.None?
      && (s.record.Some? <==> v.None? || !v.value.dtdValid || !v.value.spsValid)
      && (s.record.Some? ==> s.record.value == FmtJson(data, AnalyzeXml(tools.validatorFor, xml)))
      && (s.item.Some? <==> v.Some? && v.value.dtdValid)
      && (s.item.Some? ==> s.item.value == Item(data, xml))
  {
  }

  /** What an item promises: its XML is the article's xmlrsps payload, valid
      against the DTD. */
  predicate Exportable(am: ArticleMetaRpc, codec: Codec, tools: XmlTools, it: Item) {
    && Document(am, codec, it.article.publisherId, it.article.collectionAcronym, "xmlrsps") == Success(Raw(it.xml))
    && tools.validatorFor(it.xml).Some? && tools.validatorFor(it.xml).value.dtdValid
  }

  /** What a report record promises: is_valid is false. */
  predicate Reportable(r: Record) {
    "is_valid" in r && r["is_valid"] == Bool(false)
  }

  predicate PassSound(am: ArticleMetaRpc, codec: Codec, tools: XmlTools, p: Pass) {
    && (forall i :: 0 <= i < |p.items| ==> Exportable(am, codec, tools, p.items[i]))
    && (forall i :: 0 <= i < |p.records| ==> Reportable(p.records[i]))
  }

  lemma {:induction false} ProcessDocsSound(am: ArticleMetaRpc, codec: Codec, tools: XmlTools, docs: seq<Loaded>)
    ensures PassSound(am, codec, tools, ProcessDocs(am, codec, tools, docs))
    decreases |docs|
  {
    if docs != [] {
      ProcessDocsSound(am, codec, tools, docs[..|docs| - 1]);
      StepSound(am, codec, tools, docs[|docs| - 1]);
    }
  }

  /** One document: its record, if any, is not fully valid, and its item, if
      any, is exportable. */
  lemma StepSound(am: ArticleMetaRpc, codec: Codec, tools: XmlTools, d: Loaded)
    ensures var s := ProcessDoc(am, codec, tools, d);
      && (s.record.Some? ==> Reportable(s.record.value))
      && (s.item.Some? ==> Exportable(am, codec, tools, s.item.value))
  {
    if d.Xylose? {
      var fetched := Document(am, codec, d.article.publisherId, d.article.collectionAcronym, "xmlrsps");
      if fetched.Success? {
        ReportRecordFields(tools.validatorFor, d.article, fetched.value.payload);
      }
    }
  }

  /** Everything the exporter yields (and so queues) is DTD-valid XML of the
      article it is paired with; everything it reports is not fully valid. */
  lemma {:induction false} ExportSound(am: ArticleMetaRpc, codec: Codec, tools: XmlTools,
                                       collection: Option<string>, issns: seq<Option<string>>)
    requires AllPassesEnd(am, codec, collection, issns)
    ensures PassSound(am, codec, tools, ItemsFrom(am, codec, tools, collection, issns))
    decreases |issns|
  {
    if issns != [] {
      assert AllPassesEnd(am, codec, collection, issns[..|issns| - 1]);
      ExportSound(am, codec, tools, collection, issns[..|issns| - 1]);
      var issn := issns[|issns| - 1];
      var e := Enumerate(ArticlePages(am, HtmlQuery(collection, issn)), ArticleFetch(am, codec, "xylose"));
      ProcessDocsSound(am, codec, tools, e.items);
    }
  }

  /** Without ISSNs, items makes exactly one pass, over the whole collection. */
  lemma NoIssnsOnePass(am: ArticleMetaRpc, codec: Codec, tools: XmlTools, collection: Option<string>)
    requires PassEnds(am, codec, collection, None)
    ensures Passes([]) == [None]
    ensures AllPassesEnd(am, codec, collection, [None])
    ensures ItemsFrom(am, codec, tools, collection, [None]) == PassFor(am, codec, tools, collection, None)
  {
    var q := PassFor(am, codec, tools, collection, None);
    var passes: seq<Option<string>> := [None];
    assert passes[..0] == [];
    assert [] + q.records == q.records && [] + q.items == q.items;
  }
}
