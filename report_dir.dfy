/** Which report a walked directory belongs to, and hence its index.  The
    walker visits every directory under the base directory; one whose path
    contains `raw_data` holds raw files, and the report is named by the
    directory that owns `raw_data`. */
module ReportDirectory {
  import opened Wrappers
  import opened Text
  import opened IndexNaming

  // ------------------------------------------------ POSIX path functions

  /** The position just after the last `/` of `p`, or 0 when there is none. */
  function AfterLastSlash(p: string): (i: nat)
    ensures i <= |p|
    ensures i > 0 ==> p[i - 1] == '/'
    ensures forall j :: i <= j < |p| ==> p[j] != '/'
  {
    if p == [] then 0
    else if p[|p| - 1] == '/' then |p|
    else AfterLastSlash(p[..|p| - 1])
  }

  /** `os.path.basename(p)`. */
  function Basename(p: string): string
  {
    p[AfterLastSlash(p)..]
  }

  function TrimTrailingSlashes(s: string): string
  {
    if s != [] && s[|s| - 1] == '/' then TrimTrailingSlashes(s[..|s| - 1]) else s
  }

  predicate AllSlashes(s: string)
  {
    forall j :: 0 <= j < |s| ==> s[j] == '/'
  }

  /** `os.path.dirname(p)`: the head up to the last `/`, without its
      trailing slashes unless it is made of slashes only. */
  function Dirname(p: string): string
  {
    var head := p[..AfterLastSlash(p)];
    if head != [] && !AllSlashes(head) then TrimTrailingSlashes(head) else head
  }

  /** The last component and the rest of a path `a/b`. */
  lemma PathOfLastComponent(a: string, b: string)
    requires '/' !in b
    requires a != [] && a[|a| - 1] != '/'
    ensures Basename(a + "/" + b) == b
    ensures Dirname(a + "/" + b) == a
  {
    var p := a + "/" + b;
    LastSlashBeforeTail(a + "/", b);
    assert p[..|a| + 1] == a + "/";
    assert !AllSlashes(a + "/") by {
      assert (a + "/")[|a| - 1] != '/';
    }
    assert (a + "/")[..|a|] == a;
    assert TrimTrailingSlashes(a) == a;
  }

  lemma {:induction false} LastSlashBeforeTail(h: string, b: string)
    requires '/' !in b
    requires h != [] && h[|h| - 1] == '/'
    ensures AfterLastSlash(h + b) == |h|
  {
    if b != [] {
      var p := h + b;
      assert p[..|p| - 1] == h + b[..|b| - 1];
      LastSlashBeforeTail(h, b[..|b| - 1]);
    } else {
      assert h + b == h;
    }
  }

  // -------------------------------------------- the walker, as written

  /** `"raw_data" in root`: the directory is scanned for raw files. */
  predicate IsRawDataDir(root: string)
  {
    Contains(root, "raw_data")
  }

  /** `os.path.basename(os.path.dirname(root))`: the name of the directory
      above the walked one. */
  function ReportIdAsWritten(root: string): string
  {
    Basename(Dirname(root))
  }

  /** As written, the `raw_data` directory of report `r` under `base` is
      credited to `r`... */
  lemma RawDataDirectoryAsWritten(base: string, report: string)
    requires base != [] && base[|base| - 1] != '/'
    requires report != [] && '/' !in report
    ensures IsRawDataDir(base + "/" + report + "/" + "raw_data")
    ensures ReportIdAsWritten(base + "/" + report + "/" + "raw_data") == report
  {
    var owner := base + "/" + report;
    var top := owner + "/" + "raw_data";
    assert top[|owner| + 1..|top|] == "raw_data";
    ContainsAt(top, "raw_data", |owner| + 1);
    PathOfLastComponent(owner, "raw_data");
    PathOfLastComponent(base, report);
  }

  /** ...but every directory below it is scanned too and credited to a
      report named `raw_data`. */
  lemma SubdirectoryAsWritten(base: string, report: string, sub: string)
    requires base != [] && base[|base| - 1] != '/'
    requires report != [] && '/' !in report
    requires sub != [] && '/' !in sub
    ensures IsRawDataDir(base + "/" + report + "/" + "raw_data" + "/" + sub)
    ensures ReportIdAsWritten(base + "/" + report + "/" + "raw_data" + "/" + sub) == "raw_data"
  {
    var owner := base + "/" + report;
    var top := owner + "/" + "raw_data";
    var dir := top + "/" + sub;
    assert dir[|owner| + 1..|owner| + 9] == "raw_data";
    ContainsAt(dir, "raw_data", |owner| + 1);
    PathOfLastComponent(top, sub);
    PathOfLastComponent(owner, "raw_data");
  }

  /** The documents of such a directory go to the index of report
      `raw_data`. */
  lemma RawDataIndexName(now: string)
    ensures IndexName("osint_", "raw_data", now) == "osint_raw_data"
  {
    assert "raw" + "_" + "data" + "" == "raw_data";
    TimestampOfWellFormedId("raw", "data", "", now);
    var name := "osint_raw_data";
    assert "osint_" + ("raw" + "_" + "data") == name;
    assert forall i :: 0 <= i < |name| ==> !IsUpper(name[i]);
    LowerOfLower(name);
  }

  // ------------------------------------------------ the intended reading

  /** The position of the first `raw_data` component that has a component
      before it, searching from `from`. */
  function RawDataFrom(segs: seq<string>, from: nat): (r: Option<nat>)
    requires from >= 1
    decreases |segs| - from
    ensures r.Some? ==> from <= r.value < |segs| && segs[r.value] == "raw_data"
    ensures r.Some? ==> forall j :: from <= j < r.value ==> segs[j] != "raw_data"
    ensures r.None? ==> forall j :: from <= j < |segs| ==> segs[j] != "raw_data"
  {
    if from >= |segs| then None
    else if segs[from] == "raw_data" then Some(from)
    else RawDataFrom(segs, from + 1)
  }

  /** The report a walked directory belongs to.  Which directories are
      scanned is unchanged: exactly those whose path contains `raw_data`.
      Only the credit changes: when the path has a `raw_data` component
      (after the first), the report is the component just above it, for
      `raw_data` itself and for every directory below it; otherwise (say
      `r1/raw_data_old`) it is the parent directory, as before. */
  function ReportId(root: string): (r: Option<string>)
    ensures r.Some? <==> IsRawDataDir(root)
  {
    if !IsRawDataDir(root) then None
    else
      var segs := Split(root, '/');
      match RawDataFrom(segs, 1)
      case None => Some(ReportIdAsWritten(root))
      case Some(j) => Some(segs[j - 1])
  }

  /** The index for the documents found in a walked directory. */
  function IndexFor(prefix: string, root: string, now: string): Option<string>
  {
    match ReportId(root)
    case None => None
    case Some(reportId) => Some(IndexName(prefix, reportId, now))
  }

  /** The search finds the first `raw_data` component after position 0. */
  lemma {:induction false} FindsFirstRawData(segs: seq<string>, from: nat, k: nat)
    requires 1 <= from <= k < |segs| && segs[k] == "raw_data"
    requires forall j :: from <= j < k ==> segs[j] != "raw_data"
    ensures RawDataFrom(segs, from) == Some(k)
    decreases k - from
  {
    if from < k {
      FindsFirstRawData(segs, from + 1, k);
    }
  }

  /** The components of `base/report/raw_data/sub...`. */
  lemma RawDataPathComponents(base: seq<string>, report: string, sub: seq<string>)
    requires forall i :: 0 <= i < |base| ==> '/' !in base[i] && base[i] != "raw_data"
    requires '/' !in report && report != "raw_data"
    requires forall i :: 0 <= i < |sub| ==> '/' !in sub[i]
    ensures var segs := base + [report, "raw_data"] + sub;
      && (forall i :: 0 <= i < |segs| ==> '/' !in segs[i])
      && segs[|base|] == report && segs[|base| + 1] == "raw_data"
      && (forall j :: 0 <= j <= |base| ==> segs[j] != "raw_data")
  {
    var segs := base + [report, "raw_data"] + sub;
    forall i | 0 <= i < |segs| ensures '/' !in segs[i] {
      if i < |base| {
        assert segs[i] == base[i];
      } else if i > |base| + 1 {
        assert segs[i] == sub[i - |base| - 2];
      }
    }
    forall j | 0 <= j <= |base| ensures segs[j] != "raw_data" {
      if j < |base| {
        assert segs[j] == base[j];
      }
    }
  }

  /** Every directory of a report's `raw_data` tree, at any depth, belongs
      to that report and is written to that report's index. */
  lemma SubdirectoriesShareReport(base: seq<string>, report: string, sub: seq<string>,
                                  prefix: string, now: string)
    requires forall i :: 0 <= i < |base| ==> '/' !in base[i] && base[i] != "raw_data"
    requires '/' !in report && report != "raw_data"
    requires forall i :: 0 <= i < |sub| ==> '/' !in sub[i]
    ensures var root := Join(base + [report, "raw_data"] + sub, '/');
      && ReportId(root) == Some(report)
      && IndexFor(prefix, root, now) == Some(IndexName(prefix, report, now))
  {
    var segs := base + [report, "raw_data"] + sub;
    RawDataPathComponents(base, report, sub);
    SplitOfJoin(segs, '/');
    ContainsComponent(segs, '/', |base| + 1);
    FindsFirstRawData(segs, 1, |base| + 1);
  }

  // ---------------------------------------------------------- the example

  /** `reports/r1/raw_data/news`, as written: report `raw_data`, index
      `osint_raw_data`. */
  lemma NewsDirectoryAsWritten(now: string)
    ensures IsRawDataDir("reports/r1/raw_data/news")
    ensures ReportIdAsWritten("reports/r1/raw_data/news") == "raw_data"
    ensures IndexName("osint_", ReportIdAsWritten("reports/r1/raw_data/news"), now) == "osint_raw_data"
  {
    assert "reports" + "/" + "r1" + "/" + "raw_data" + "/" + "news" == "reports/r1/raw_data/news";
    SubdirectoryAsWritten("reports", "r1", "news");
    RawDataIndexName(now);
  }

  /** `reports/r1/raw_data/news`, as intended: report `r1`. */
  lemma NewsDirectoryAsIntended()
    ensures ReportId("reports/r1/raw_data/news") == Some("r1")
  {
    var segs := ["reports", "r1", "raw_data", "news"];
    assert Join(segs, '/') == "reports/r1/raw_data/news" by {
      assert Join(["news"], '/') == "news";
      assert Join(["raw_data", "news"], '/') == "raw_data/news";
      assert Join(["r1", "raw_data", "news"], '/') == "r1/raw_data/news";
    }
    assert ["reports"] + ["r1", "raw_data"] + ["news"] == segs;
    SubdirectoriesShareReport(["reports"], "r1", ["news"], "osint_", "");
  }
}
