/** Schema normaliser (`normalize_document`): recognise the shape of one
    file's JSON, then turn every item into a canonical document. */
module Normalize {
  import opened Wrappers
  import opened JsonValue
  import opened Text
  import opened ContentId

  // ------------------------------------------------------------ documents

  /** The `source_type` keyword: "news", "web" or "unknown". */
  datatype SourceType = News | Web | UnknownSource

  /** The `data_type` keyword: "article", "page" or "unknown". */
  datatype DataType = Article | Page | UnknownData

  /** One canonical document; `id` is the `_id` the bulk writer uses. */
  datatype Doc = Doc(
    timestamp: string,
    sourceFile: string,
    sourceType: SourceType,
    dataType: DataType,
    title: Json,
    body: Json,
    url: Json,
    rawSource: Json,
    reportId: string,
    id: string)

  // -------------------------------------------------- the type heuristic

  /** One rule of the source/data-type heuristic: it fires when the item
      has every one of `keys`. */
  datatype Rule = Rule(keys: seq<string>, sourceType: SourceType, dataType: DataType)

  /** The heuristic as an ordered table; the first rule that fires wins. */
  const TypeRules: seq<Rule> := [Rule(["source", "uri"], News, Article), Rule(["url"], Web, Page)]

  predicate Fires(rule: Rule, fields: map<string, Json>)
  {
    forall k :: k in rule.keys ==> k in fields
  }

  /** Top-down evaluation of a rule table, with `("unknown", "unknown")`
      when no rule fires. */
  function FirstMatch(rules: seq<Rule>, fields: map<string, Json>): (t: (SourceType, DataType))
    ensures (exists i :: 0 <= i < |rules| && Fires(rules[i], fields)
               && (forall j :: 0 <= j < i ==> !Fires(rules[j], fields))
               && t == (rules[i].sourceType, rules[i].dataType))
         || ((forall i :: 0 <= i < |rules| ==> !Fires(rules[i], fields))
             && t == (UnknownSource, UnknownData))
  {
    if rules == [] then (UnknownSource, UnknownData)
    else if Fires(rules[0], fields) then (rules[0].sourceType, rules[0].dataType)
    else
      var t := FirstMatch(rules[1..], fields);
      assert forall i :: 1 <= i < |rules| ==> rules[i] == rules[1..][i - 1];
      t
  }

  /** What the table says, rule by rule: both `source` and `uri` give a news
      article; otherwise `url` gives a web page; otherwise nothing is known. */
  lemma TypeRulesMeaning(fields: map<string, Json>)
    ensures FirstMatch(TypeRules, fields) == (News, Article)
        <==> "source" in fields && "uri" in fields
    ensures FirstMatch(TypeRules, fields) == (Web, Page)
        <==> !("source" in fields && "uri" in fields) && "url" in fields
    ensures FirstMatch(TypeRules, fields) == (UnknownSource, UnknownData)
        <==> !("source" in fields && "uri" in fields) && "url" !in fields
  {
    var r0, r1 := TypeRules[0], TypeRules[1];
    assert Fires(r0, fields) <==> "source" in fields && "uri" in fields by {
      assert r0.keys == ["source", "uri"];
      if "source" in fields && "uri" in fields {
        forall k | k in r0.keys ensures k in fields { }
      }
    }
    assert Fires(r1, fields) <==> "url" in fields by {
      assert r1.keys == ["url"];
    }
    assert TypeRules[1..] == [r1];
    assert TypeRules[1..][1..] == [];
  }

  // ------------------------------------------------ one item, one document

  /** The document built for one item (a JSON object) at one instant. */
  function CanonicalDoc(fields: map<string, Json>, filename: string, reportId: string,
                        timestamp: string, h: Hashing): Doc
  {
    var types := FirstMatch(TypeRules, fields);
    Doc(timestamp, filename, types.0, types.1,
        Get(fields, "title", JStr("")),
        Get(fields, "body", Get(fields, "content", JStr(""))),
        Get(fields, "url", Get(fields, "link", JStr(""))),
        JObj(fields), reportId, ItemId(JObj(fields), h))
  }

  /** Field fallbacks: `title`, else ""; `body`, else `content`, else "";
      `url`, else `link`, else "".  A present key wins even when its value
      is null or empty. */
  lemma FieldFallbacks(fields: map<string, Json>, filename: string, reportId: string,
                       timestamp: string, h: Hashing)
    ensures var d := CanonicalDoc(fields, filename, reportId, timestamp, h);
      && d.title == (if "title" in fields then fields["title"] else JStr(""))
      && d.body == (if "body" in fields then fields["body"]
                    else if "content" in fields then fields["content"] else JStr(""))
      && d.url == (if "url" in fields then fields["url"]
                   else if "link" in fields then fields["link"] else JStr(""))
  {
  }

  /** Provenance: the document keeps the item verbatim, names exactly the
      given file, report and time, and its id is the item's content id. */
  lemma Provenance(fields: map<string, Json>, filename: string, reportId: string,
                   timestamp: string, h: Hashing)
    ensures var d := CanonicalDoc(fields, filename, reportId, timestamp, h);
      && d.rawSource == JObj(fields)
      && d.sourceFile == filename && d.reportId == reportId && d.timestamp == timestamp
      && d.id == h.sha256Hex(h.dumpsSorted(JObj(fields)))
  {
  }

  /** The id is a function of the item alone: neither the file, nor the
      report, nor the time of ingestion changes it. */
  lemma IdIgnoresContext(fields: map<string, Json>, h: Hashing,
                         file1: string, report1: string, time1: string,
                         file2: string, report2: string, time2: string)
    ensures CanonicalDoc(fields, file1, report1, time1, h).id
         == CanonicalDoc(fields, file2, report2, time2, h).id
  {
  }

  // ----------------------------------------------------- the input shapes

  /** The four top-level shapes, checked in this order. */
  datatype Shape =
    | ArrayOfItems(items: seq<Json>)   // a list: every element is an item
    | WrappedArticles(results: Json)   // {"articles": {"results": ...}}
    | SingleItem(item: Json)           // any other object
    | Unrecognized                     // anything else: warning, no documents

  /** The Python exceptions the normaliser can raise on odd input; the
      caller logs them and skips the file. */
  datatype NormalizeError =
    | MembershipTypeError   // `"results" in articles` with articles null, a bool or a number
    | SubscriptTypeError    // `articles["results"]` with articles a list or a string
    | NotIterable           // `for item in results` with results null, a bool or a number
    | ItemNotObject(index: nat)  // item `index` is not an object (`item.get` or `in` raises)

  /** Python's `key in container` for a parsed JSON value. */
  function Membership(key: string, container: Json): Result<bool, NormalizeError>
  {
    match container
    case JObj(fields) => Ok(key in fields)
    case JArr(elems) => Ok(JStr(key) in elems)
    case JStr(s) => Ok(Contains(s, key))
    case _ => Err(MembershipTypeError)
  }

  /** The shape tests of the normaliser, in order. */
  function ShapeOf(raw: Json): Result<Shape, NormalizeError>
  {
    match raw
    case JArr(elems) => Ok(ArrayOfItems(elems))
    case JObj(fields) =>
      if "articles" !in fields then Ok(SingleItem(raw))
      else (
        match Membership("results", fields["articles"])
        case Err(e) => Err(e)
        case Ok(false) => Ok(SingleItem(raw))
        case Ok(true) =>
          match fields["articles"]
          case JObj(inner) => Ok(WrappedArticles(inner["results"]))
          case _ => Err(SubscriptTypeError))
    case _ => Ok(Unrecognized)
  }

  /** Python's `for item in v` over the `results` value.  Iterating an
      object or a string yields strings, so a non-empty one fails on its
      first item. */
  function Iterate(v: Json): Result<seq<Json>, NormalizeError>
  {
    match v
    case JArr(elems) => Ok(elems)
    case JObj(fields) => if fields == map[] then Ok([]) else Err(ItemNotObject(0))
    case JStr(s) => if s == [] then Ok([]) else Err(ItemNotObject(0))
    case _ => Err(NotIterable)
  }

  /** The items a shape stands for. */
  function ItemsOf(shape: Shape): Result<seq<Json>, NormalizeError>
  {
    match shape
    case ArrayOfItems(items) => Ok(items)
    case WrappedArticles(results) => Iterate(results)
    case SingleItem(item) => Ok([item])
    case Unrecognized => Ok([])
  }

  /** The position of the first item that is not an object, if any. */
  function FirstNonObject(items: seq<Json>): (r: Option<nat>)
    ensures r.None? <==> forall j :: 0 <= j < |items| ==> items[j].JObj?
    ensures r.Some? ==> r.value < |items| && !items[r.value].JObj?
                        && forall j :: 0 <= j < r.value ==> items[j].JObj?
  {
    if items == [] then None
    else if !items[0].JObj? then Some(0)
    else match FirstNonObject(items[1..])
      case None => None
      case Some(i) => Some(i + 1)
  }

  /** What normalising a sequence of items yields: the first non-object item
      raises; otherwise one document per item, item `i` stamped `clock(i)`. */
  function NormalizeItems(items: seq<Json>, filename: string, reportId: string,
                          clock: nat -> string, h: Hashing): (r: Result<seq<Doc>, NormalizeError>)
    ensures r.Ok? <==> forall j :: 0 <= j < |items| ==> items[j].JObj?
    ensures r.Ok? ==> |r.value| == |items| && forall j :: 0 <= j < |items| ==>
      r.value[j] == CanonicalDoc(items[j].fields, filename, reportId, clock(j), h)
  {
    match FirstNonObject(items)
    case Some(i) => Err(ItemNotObject(i))
    case None =>
      Ok(seq(|items|, j requires 0 <= j < |items| =>
        CanonicalDoc(items[j].fields, filename, reportId, clock(j), h)))
  }

  /** What `normalize_document` returns for one parsed file. */
  function Normalize(raw: Json, filename: string, reportId: string,
                     clock: nat -> string, h: Hashing): Result<seq<Doc>, NormalizeError>
  {
    match ShapeOf(raw)
    case Err(e) => Err(e)
    case Ok(shape) =>
      match ItemsOf(shape)
      case Err(e) => Err(e)
      case Ok(items) => NormalizeItems(items, filename, reportId, clock, h)
  }

  // ------------------------------------------------------ the normaliser

  lemma EmptyItems(filename: string, reportId: string, clock: nat -> string, h: Hashing)
    ensures NormalizeItems([], filename, reportId, clock, h) == Ok([])
  {
    var none: seq<Json> := [];
    assert FirstNonObject(none) == None;
    assert |NormalizeItems(none, filename, reportId, clock, h).value| == 0;
  }

  /** `normalize_document(raw_doc, filename, valid_timestamp, report_id)`.
      `clock(i)` is the time read when item `i` is built; `warned` says the
      unknown-structure warning was logged.  `validTimestamp` is accepted and,
      as in the source, never used. */
  method NormalizeDocument(raw: Json, filename: string, validTimestamp: string, reportId: string,
                           clock: nat -> string, h: Hashing)
    returns (result: Result<seq<Doc>, NormalizeError>, warned: bool)
    ensures result == Normalize(raw, filename, reportId, clock, h)
    ensures warned <==> ShapeOf(raw) == Ok(Unrecognized)
    ensures warned ==> result == Ok([])
  {
    warned := false;
    var items: seq<Json>;
    if raw.JArr? {
      items := raw.elems;
    } else if raw.JObj? {
      var wrapped := false;
      if "articles" in raw.fields {
        var test := Membership("results", raw.fields["articles"]);
        if test.Err? {
          return Err(test.error), false;
        }
        wrapped := test.value;
      }
      if wrapped {
        var articles := raw.fields["articles"];
        if !articles.JObj? {
          return Err(SubscriptTypeError), false;
        }
        var iterated := Iterate(articles.fields["results"]);
        if iterated.Err? {
          return Err(iterated.error), false;
        }
        items := iterated.value;
      } else {
        items := [raw];
      }
    } else {
      EmptyItems(filename, reportId, clock, h);
      return Ok([]), true;
    }
    assert ShapeOf(raw).Ok? && ItemsOf(ShapeOf(raw).value) == Ok(items);
    result := BuildDocuments(items, filename, reportId, clock, h);
  }

  /** The `for item in items` loop of `normalize_document`: classify each
      item, build its document and append it, until an item that is not an
      object raises. */
  method BuildDocuments(items: seq<Json>, filename: string, reportId: string,
                        clock: nat -> string, h: Hashing)
    returns (result: Result<seq<Doc>, NormalizeError>)
    ensures result == NormalizeItems(items, filename, reportId, clock, h)
  {
    var docs: seq<Doc> := [];
    var i := 0;
    while i < |items|
      invariant 0 <= i <= |items|
      invariant forall j :: 0 <= j < i ==> items[j].JObj?
      invariant |docs| == i
      invariant forall j :: 0 <= j < i ==>
        docs[j] == CanonicalDoc(items[j].fields, filename, reportId, clock(j), h)
    {
      var item := items[i];
      if !item.JObj? {
        assert FirstNonObject(items) == Some(i);
        return Err(ItemNotObject(i));
      }
      var sourceType, dataType := UnknownSource, UnknownData;
      if "source" in item.fields && "uri" in item.fields {
        sourceType, dataType := News, Article;
      } else if "url" in item.fields {
        sourceType, dataType := Web, Page;
      }
      TypeRulesMeaning(item.fields);
      var doc := Doc(clock(i), filename, sourceType, dataType,
                     Get(item.fields, "title", JStr("")),
                     Get(item.fields, "body", Get(item.fields, "content", JStr(""))),
                     Get(item.fields, "url", Get(item.fields, "link", JStr(""))),
                     item, reportId, GenerateDocId(h.dumpsSorted(item), h));
      docs := docs + [doc];
      i := i + 1;
    }
    assert FirstNonObject(items) == None;
    assert docs == seq(|items|, j requires 0 <= j < |items| =>
      CanonicalDoc(items[j].fields, filename, reportId, clock(j), h));
    result := Ok(docs);
  }

  // ------------------------------------------- what the normaliser yields

  /** A list yields one document per element, in the same order. */
  lemma ListYieldsOnePerElement(elems: seq<Json>, filename: string, reportId: string,
                                clock: nat -> string, h: Hashing)
    requires forall j :: 0 <= j < |elems| ==> elems[j].JObj?
    ensures var r := Normalize(JArr(elems), filename, reportId, clock, h);
      && r.Ok? && |r.value| == |elems|
      && forall j :: 0 <= j < |elems| ==> r.value[j].rawSource == elems[j]
  {
    assert FirstNonObject(elems) == None;
  }

  /** An object whose `articles` object has `results` yields one document
      per element of `results`, not one for the object itself. */
  lemma WrappedYieldsOnePerResult(fields: map<string, Json>, results: seq<Json>,
                                  filename: string, reportId: string,
                                  clock: nat -> string, h: Hashing)
    requires "articles" in fields && fields["articles"].JObj?
    requires "results" in fields["articles"].fields
    requires fields["articles"].fields["results"] == JArr(results)
    requires forall j :: 0 <= j < |results| ==> results[j].JObj?
    ensures ShapeOf(JObj(fields)) == Ok(WrappedArticles(JArr(results)))
    ensures var r := Normalize(JObj(fields), filename, reportId, clock, h);
      && r.Ok? && |r.value| == |results|
      && forall j :: 0 <= j < |results| ==> r.value[j].rawSource == results[j]
  {
    assert FirstNonObject(results) == None;
  }

  /** Any other object is a single item and yields exactly one document. */
  lemma PlainObjectYieldsOne(fields: map<string, Json>, filename: string, reportId: string,
                             clock: nat -> string, h: Hashing)
    requires "articles" !in fields || Membership("results", fields["articles"]) == Ok(false)
    ensures Normalize(JObj(fields), filename, reportId, clock, h)
         == Ok([CanonicalDoc(fields, filename, reportId, clock(0), h)])
  {
    var items := [JObj(fields)];
    assert ShapeOf(JObj(fields)) == Ok(SingleItem(JObj(fields)));
    var docs := NormalizeItems(items, filename, reportId, clock, h).value;
    assert docs == [docs[0]];
  }

  /** A string, number, boolean or null at the top level is not recognised:
      no documents, and the warning is due. */
  lemma ScalarYieldsNothing(raw: Json, filename: string, reportId: string,
                            clock: nat -> string, h: Hashing)
    requires !raw.JArr? && !raw.JObj?
    ensures ShapeOf(raw) == Ok(Unrecognized)
    ensures Normalize(raw, filename, reportId, clock, h) == Ok([])
  {
    EmptyItems(filename, reportId, clock, h);
  }

  /** An item that is not an object makes the whole call raise, whatever
      documents were built before it; the error names the first such item. */
  lemma NonObjectItemRaises(elems: seq<Json>, i: nat, filename: string, reportId: string,
                            clock: nat -> string, h: Hashing)
    requires i < |elems| && !elems[i].JObj?
    requires forall j :: 0 <= j < i ==> elems[j].JObj?
    ensures Normalize(JArr(elems), filename, reportId, clock, h) == Err(ItemNotObject(i))
  {
    var r := FirstNonObject(elems);
    assert r.Some? && r.value == i;
  }

  /** Every document the normaliser returns is built from one object item:
      its type follows the heuristic, its provenance is the caller's, and
      its id is the item's content id. */
  lemma EveryDocumentIsCanonical(raw: Json, filename: string, reportId: string,
                                 clock: nat -> string, h: Hashing, j: nat)
    requires Normalize(raw, filename, reportId, clock, h).Ok?
    requires j < |Normalize(raw, filename, reportId, clock, h).value|
    ensures var d := Normalize(raw, filename, reportId, clock, h).value[j];
      && d.rawSource.JObj?
      && var fields := d.rawSource.fields;
      && var t := (d.sourceType, d.dataType);
      && (t == (News, Article) <==> ("source" in fields && "uri" in fields))
      && (t == (Web, Page) <==> (!("source" in fields && "uri" in fields) && "url" in fields))
      && (t == (UnknownSource, UnknownData) <==> (!("source" in fields && "uri" in fields) && "url" !in fields))
      && d.sourceFile == filename && d.reportId == reportId && d.timestamp == clock(j)
      && d.id == ItemId(d.rawSource, h)
  {
    var items := ItemsOf(ShapeOf(raw).value).value;
    assert FirstNonObject(items) == None;
    TypeRulesMeaning(items[j].fields);
  }

  /** Ids do not depend on the file name, the report id or the clock:
      normalising the same content under another context succeeds or fails
      alike and gives the same ids in the same order, so re-ingesting a file
      overwrites its documents instead of duplicating them. */
  lemma IdsIgnoreContext(raw: Json, h: Hashing,
                         file1: string, report1: string, clock1: nat -> string,
                         file2: string, report2: string, clock2: nat -> string)
    ensures var r1 := Normalize(raw, file1, report1, clock1, h);
      var r2 := Normalize(raw, file2, report2, clock2, h);
      && r1.Ok? == r2.Ok?
      && (r1.Err? ==> r1 == r2)
      && (r1.Ok? ==>
            (|r1.value| == |r2.value|
             && forall j :: 0 <= j < |r1.value| ==> r1.value[j].id == r2.value[j].id))
  {
  }
}
