# OSINT ingestion core, modelled in Dafny

This project models the pure and loop-based logic of the Elasticsearch
ingester `execution/ingest_elastic.py`. That script reads JSON files
collected for intelligence reports and writes them to a search index. The
model covers:

- **Schema normaliser** (`normalize_document`, module `Normalize`). It
  recognises the top-level shape of one parsed file: a list of items, an
  object wrapping `articles.results`, a single object, or something
  unrecognised. It then builds one canonical document per item. The type
  heuristic is first-match-wins: `source`+`uri` gives news/article, `url`
  gives web/page, otherwise unknown/unknown. `title`, `body` and `url` are
  filled from fixed fallback chains. The item is kept verbatim as
  `raw_source`, and the document id is the item's content hash. The
  method `NormalizeDocument` and its loop `BuildDocuments` are imperative,
  like the source. They are proved equal to the specification function
  `Normalize`, and the properties are proved about that function. The type
  heuristic is also given as an ordered rule table, `TypeRules`, evaluated
  by `FirstMatch`. It is proved to agree with the source's `if`/`elif`
  chain.
- **Content identifier** (`generate_doc_id` and its call site, module
  `ContentId`). The id is `sha256(json.dumps(item, sort_keys=True))`.
  Both foreign functions are parameters (`Hashing`), so nothing is assumed
  about them. The model proves that an id depends on the item only. The
  file name, report id and ingestion time never change it.
- **Index namer** (lines 163-169, module `IndexNaming`). The report id is
  split on `_`. The first two segments become the report timestamp, or the
  fallback clock string when there is no `_`. The index name is the prefix
  plus that timestamp, lower-cased.
- **Report directory** (line 160, module `ReportDirectory`). This is the
  report id that feeds the index namer. See "Findings".
- **`.env` reader** (`load_env`, module `EnvFile`). Each line is stripped.
  Blank lines and `#` comments are skipped. The rest is split on the
  first `=`, and lines without `=` are ignored. A later key overwrites an
  earlier one.
- **Python string behaviour** used by the above (module `Text`):
  `split`, `split(sep, 1)`, `strip`, `lower` and substring `in`.

Python exceptions that `normalize_document` can raise are modelled as
`Err(NormalizeError)` results. Whatever documents were built before the
exception are lost, as in the source, and the caller logs and skips the
file. Every item that is not an object raises: `item.get` fails on lists
and strings, and `in` fails on numbers, booleans and null. The `articles`
tests also raise when `articles` is null, a boolean or a number, or when
it is a list or string that "contains" `results`.

Points of the code worth noting:

- `normalize_document` reads the clock once per item (line 79), so items
  of one file may get different timestamps. The model takes a clock
  `nat -> string`, giving the time at which item `i` is built.
- The `valid_timestamp` argument is accepted but never used.
- A present key wins in the field fallbacks even when its value is null
  or empty. This is `dict.get` semantics, not truthiness.

## Model

| member | source | states |
|---|---|---|
| `ContentId.GenerateDocId` | execution/ingest_elastic.py:42-43 | Defines `generate_doc_id`: the SHA-256 hex digest of the content string, with the hash as a parameter. `Normalize.Provenance` and `Normalize.IdIgnoresContext` state what the model proves about it. |
| `ContentId.ItemId` | execution/ingest_elastic.py:88 | Defines an item's id: `generate_doc_id` of the item's sorted serialisation. `Normalize.Provenance` shows every document carries it, and `Normalize.IdsIgnoreContext` shows it depends on the item alone. |
| `Normalize.Membership` | execution/ingest_elastic.py:56 | Defines Python's `key in container` on a parsed value: key test on an object, element test on a list, substring test on a string, and a TypeError on null, booleans and numbers. `Normalize.ShapeOf` uses it, and `Normalize.WrappedYieldsOnePerResult` and `Normalize.PlainObjectYieldsOne` characterise the outcomes. |
| `Normalize.ShapeOf` | execution/ingest_elastic.py:53-62 | Defines the shape tests in the source's order: list, then wrapped `articles.results`, then any other object, then unrecognised. A failing `in` or subscript becomes the error it raises. The shape lemmas below characterise each branch. |
| `Normalize.Iterate` | execution/ingest_elastic.py:57-64 | Defines `for item in results`: a list gives its elements, an empty object or string gives nothing, a non-empty one fails on its first (non-object) item, and anything else is not iterable. |
| `Normalize.FirstMatch` | execution/ingest_elastic.py:66-76 | Evaluates a rule table top-down. The result is the pair of the first rule that fires, no earlier rule firing, or unknown/unknown when none fires. |
| `Normalize.CanonicalDoc` | execution/ingest_elastic.py:66-89 | Defines the document built from one item: the type heuristic, the caller's provenance, the field fallbacks, the item itself and its content id. `Normalize.TypeRulesMeaning`, `Normalize.FieldFallbacks` and `Normalize.Provenance` characterise it. |
| `Normalize.NormalizeDocument` | execution/ingest_elastic.py:45-92 | The result is `Normalize` of the input: the shape tests in order, then one canonical document per item or the exception raised. The warning is logged exactly for an unrecognised top-level value, and then no documents are returned. |
| `Normalize.BuildDocuments` | execution/ingest_elastic.py:64-90 | The append loop gives exactly the documents `NormalizeItems` describes: item `j` becomes document `j`, built at `clock(j)`. The first non-object item stops it with `ItemNotObject(j)`. |
| `Normalize.NormalizeItems` | execution/ingest_elastic.py:64-90 | Normalising items succeeds exactly when every item is an object. It then yields as many documents as items, document `j` being the canonical document of item `j`. |
| `Normalize.FirstNonObject` | execution/ingest_elastic.py:70-85 | Finds the first item that is not an object (where `in`/`get` raise), or reports that all items are objects. |
| `Normalize.TypeRulesMeaning` | execution/ingest_elastic.py:66-76 | The ordered rule table gives news/article exactly when `source` and `uri` are both present. Otherwise it gives web/page exactly when `url` is present. Otherwise it gives unknown/unknown. |
| `Normalize.FieldFallbacks` | execution/ingest_elastic.py:83-85 | `title` is the item's `title` or `""`. `body` is `body`, else `content`, else `""`. `url` is `url`, else `link`, else `""`. |
| `Normalize.Provenance` | execution/ingest_elastic.py:78-88 | A document keeps the item verbatim as `raw_source` and carries exactly the given file name, report id and timestamp. Its id is the SHA-256 of the item's sorted serialisation. |
| `Normalize.IdIgnoresContext` | execution/ingest_elastic.py:88 | An item's document id is the same whatever the file name, report id and time. |
| `Normalize.ListYieldsOnePerElement` | execution/ingest_elastic.py:53-54 | A list of objects yields one document per element, in order, each keeping its element. |
| `Normalize.WrappedYieldsOnePerResult` | execution/ingest_elastic.py:56-57 | An object whose `articles` object has `results` is classified as wrapped before the plain-object case. It yields one document per element of `results`. |
| `Normalize.PlainObjectYieldsOne` | execution/ingest_elastic.py:58-59 | Any other object yields exactly one document, built from the object itself. |
| `Normalize.ScalarYieldsNothing` | execution/ingest_elastic.py:60-62 | A string, number, boolean or null is unrecognised and yields no documents. |
| `Normalize.NonObjectItemRaises` | execution/ingest_elastic.py:64-85 | A list whose element `i` is the first non-object fails with `ItemNotObject(i)`, discarding the documents built before it. |
| `Normalize.EveryDocumentIsCanonical` | execution/ingest_elastic.py:64-89 | Every returned document comes from an object item. Its type follows the heuristic in both directions. Its file, report and time are the caller's, and its id is the item's content id. |
| `Normalize.IdsIgnoreContext` | execution/ingest_elastic.py:86-88 | Normalising the same content under another file name, report id or clock succeeds or fails alike, giving the same ids in the same order. Re-ingesting therefore overwrites instead of duplicating. |
| `IndexNaming.ReportTimestamp` | execution/ingest_elastic.py:164-167 | Defines the report timestamp: the first two `_`-separated segments of the report id joined by `_`, or the fallback time when indexing segment 1 raises. `IndexNaming.TimestampIsPrefixOfId` and `IndexNaming.TimestampOfWellFormedId` characterise it. |
| `IndexNaming.IndexName` | execution/ingest_elastic.py:164-169 | Defines the index name: the prefix plus the report timestamp, lower-cased. `IndexNaming.IndexNameIsStable`, `IndexNaming.IndexNameFallback` and `IndexNaming.IndexNameIsLowerCase` characterise it. |
| `IndexNaming.TimestampOfWellFormedId` | execution/ingest_elastic.py:163-165 | A report id `a_b` or `a_b_rest` has timestamp `a_b`. |
| `IndexNaming.TimestampIsPrefixOfId` | execution/ingest_elastic.py:164-165 | For an id containing `_`, the timestamp is a prefix of the id that holds exactly one `_` and ends where the id ends or just before its second `_`. |
| `IndexNaming.IndexNameIsStable` | execution/ingest_elastic.py:164-169 | With an `_` in the report id, the index name does not depend on the clock. |
| `IndexNaming.IndexNameFallback` | execution/ingest_elastic.py:166-169 | Without an `_`, the index name is `lower(prefix + now)`. |
| `IndexNaming.IndexNameIsLowerCase` | execution/ingest_elastic.py:169 | Index names contain no upper-case letter, and lower-casing them again changes nothing. |
| `IndexNaming.BerlinOpsExample` | execution/ingest_elastic.py:163-169 | Report `20260204_110300_berlin_ops` with prefix `osint_` gives index `osint_20260204_110300`. |
| `Text.Split` | execution/ingest_elastic.py:165 | `split("_")` gives at least one part, no part contains the separator, and the parts joined back give the input. |
| `Text.SplitManyIff` | execution/ingest_elastic.py:164-167 | Segment 1 exists (no `IndexError`) exactly when the id contains the separator. |
| `Text.SplitAfterFirst` | execution/ingest_elastic.py:165 | Splitting `a + "_" + t`, with no `_` in `a`, gives `a` followed by the parts of `t`. |
| `Text.SplitOfJoin` | execution/ingest_elastic.py:165 | `str.split` inverts joining: separator-free parts joined and split again come back unchanged. The corrected `ReportDirectory.ReportId` relies on it, with `/`, to read path components. |
| `Text.Lower` | execution/ingest_elastic.py:169 | `lower()` keeps the length and lower-cases each letter in place. |
| `Text.LowerIdempotent` | execution/ingest_elastic.py:169 | Lower-casing twice is lower-casing once. |
| `Text.SplitOnce` | execution/ingest_elastic.py:26 | `split("=", 1)` fails exactly when there is no `=`. Otherwise the key has no `=`, and key, `=` and value put back together give the line. |
| `Text.SplitOnceUnique` | execution/ingest_elastic.py:26 | `k + "=" + v` with no `=` in `k` splits into exactly `k` and `v`. |
| `Text.TrimStart` | execution/ingest_elastic.py:23 | The leading-whitespace cut of `strip()`: a suffix whose dropped characters are all whitespace and which does not start with whitespace. |
| `Text.TrimEnd` | execution/ingest_elastic.py:23 | The trailing-whitespace cut of `strip()`: a prefix whose dropped characters are all whitespace and which does not end with whitespace. |
| `Text.Strip` | execution/ingest_elastic.py:23 | `strip()` returns a slice that neither starts nor ends with whitespace, and everything cut off around it is whitespace. |
| `Text.ContainsAt` | execution/ingest_elastic.py:158 | An occurrence of `raw_data` anywhere in the path makes `"raw_data" in root` true. |
| `EnvFile.LoadEnv` | execution/ingest_elastic.py:18-30 | A missing `.env` gives the empty dictionary. Otherwise the loop builds exactly `EnvOf(lines)`. |
| `EnvFile.ParseLine` | execution/ingest_elastic.py:23-29 | Defines what one line contributes: strip it, skip it when empty or a `#` comment, otherwise split at the first `=`; a line without `=` is skipped (the ValueError is swallowed). `EnvFile.ParseLineMeaning` characterises it. |
| `EnvFile.ParseLineMeaning` | execution/ingest_elastic.py:23-29 | A line contributes exactly when its stripped text is non-empty, is not a `#` comment and contains `=`. The key is the text before the first `=` and the value the rest. |
| `EnvFile.KeyDefinedIff` | execution/ingest_elastic.py:24-27 | A key is defined exactly when some line sets it. |
| `EnvFile.LastAssignmentWins` | execution/ingest_elastic.py:27 | A key's value is the one from the last line that sets it. |
| `EnvFile.SkippedLineChangesNothing` | execution/ingest_elastic.py:24-29 | Blank lines, comments and lines without `=` leave the dictionary unchanged. |
| `EnvFile.LaterLineOverwrites` | execution/ingest_elastic.py:27 | A line setting `k` to `v` overwrites any earlier value of `k`. |
| `ReportDirectory.Basename` | execution/ingest_elastic.py:160 | Defines `os.path.basename`: the text after the last `/`. `ReportDirectory.PathOfLastComponent` characterises it on `a/b`. |
| `ReportDirectory.Dirname` | execution/ingest_elastic.py:160 | Defines `os.path.dirname`: the head up to the last `/`, without trailing slashes unless it is all slashes. `ReportDirectory.PathOfLastComponent` characterises it on `a/b`. |
| `ReportDirectory.ReportIdAsWritten` | execution/ingest_elastic.py:160 | Defines the report id as written: the name of the walked directory's parent. `ReportDirectory.RawDataDirectoryAsWritten` and `ReportDirectory.SubdirectoryAsWritten` characterise it. |
| `ReportDirectory.RawDataDirectoryAsWritten` | execution/ingest_elastic.py:158-160 | As written, `base/r/raw_data` is scanned and credited to report `r`. |
| `ReportDirectory.SubdirectoryAsWritten` | execution/ingest_elastic.py:158-160 | As written, every `base/r/raw_data/sub` is scanned too, but is credited to a report named `raw_data`. |
| `ReportDirectory.RawDataIndexName` | execution/ingest_elastic.py:163-169 | Report `raw_data` goes to index `osint_raw_data`. |
| `ReportDirectory.NewsDirectoryAsWritten` | execution/ingest_elastic.py:158-169 | `reports/r1/raw_data/news` is scanned, credited to report `raw_data`, and written to `osint_raw_data`. |
| `ReportDirectory.ReportId` | execution/ingest_elastic.py:158-160 | Corrected: a directory is credited exactly when its path contains `raw_data`, as at line 158. The owner of the first `raw_data` component gets the credit, and a path with no such component falls back to the parent, as written. |
| `ReportDirectory.SubdirectoriesShareReport` | execution/ingest_elastic.py:158-169 | Corrected: every directory of a report's `raw_data` tree, at any depth, belongs to that report and goes to that report's index. |
| `ReportDirectory.NewsDirectoryAsIntended` | execution/ingest_elastic.py:160 | Corrected: `reports/r1/raw_data/news` belongs to report `r1`. |

## Findings

| source | as written | input that shows it | evidently intended | confidence | as-written member | corrected member |
|---|---|---|---|---|---|---|
| execution/ingest_elastic.py:158-160 | The report id is the name of the walked directory's parent, `basename(dirname(root))`. This is right for `.../r1/raw_data` but not for the directories below it, which `os.walk` also visits and `"raw_data" in root` also accepts. | `reports/r1/raw_data/news` gets report id `raw_data`, and its files go to index `osint_raw_data` instead of `osint_` plus r1's timestamp. | The report is the directory that owns `raw_data`, for `raw_data` and every directory beneath it. The corrected `ReportId` keeps the substring test for which directories are scanned. It changes the credit only for a path with a `raw_data` component: a sibling such as `reports/r1/raw_data_old` has none and is still credited to `r1`. | high; not executed | `ReportDirectory.SubdirectoryAsWritten` | `ReportDirectory.SubdirectoriesShareReport` |

## Left out

- Elasticsearch is not modelled: client construction (`get_es_client`), `ping`, `indices.exists`/`indices.create` with its constant mapping, and `helpers.bulk`. These are calls into a foreign library.
- The bulk-error report loop and all logging are not modelled. Their only effect is log output; the unrecognised-shape warning appears as the `warned` result.
- `os.walk`, `open`, `json.load` and the per-file `try`/`except` in `ingest_directory` are not modelled. This is file-system I/O with no guaranteed order. Only the report-id derivation from a walked path is modelled.
- `main` is not modelled. It is glue: it reads `ES_INDEX_PREFIX` with default `osint_` and calls the ingester. The prefix is a parameter of the index namer.
- SHA-256 and `json.dumps(sort_keys=True)` are not modelled. They are function parameters, so collision resistance ("any content change gives a different id") is not stated. Key order inside objects is not represented, because objects are maps.
- `datetime.now()` is a parameter: a per-item clock in the normaliser and a fallback string in the index namer. The fallback's `YYYYMMDD_HHMMSS` format is not checked.
- JSON numbers are integers. Floating-point values and the distinction between `1` and `1.0` are not modelled.
- Text.Lower: lower-cases ASCII letters only. Python's `str.lower()` also maps other Unicode letters, some to two characters.
- Normalize.Iterate: iterating a non-empty object or string under `results` is modelled directly as the error raised on its first element (a string key or character). The order of the keys it would visit is not modelled.
- The `.env` file is taken as a sequence of lines, with `None` for a missing file. Opening and reading it is not modelled.
