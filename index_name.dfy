/** Index namer: the index a report's documents go to, derived from the
    report id (the name of the directory above `raw_data`). */
module IndexNaming {
  import opened Text

  /** The report timestamp: the first two `_`-separated segments of the
      report id joined by `_`; when the id has no `_`, indexing segment 1
      raises IndexError and the fallback `now` (the wall-clock time as
      `%Y%m%d_%H%M%S`) is used instead. */
  function ReportTimestamp(reportId: string, now: string): string
  {
    var segs := Split(reportId, '_');
    if |segs| >= 2 then segs[0] + "_" + segs[1] else now
  }

  /** `f"{index_prefix}{report_ts}".lower()`. */
  function IndexName(prefix: string, reportId: string, now: string): string
  {
    Lower(prefix + ReportTimestamp(reportId, now))
  }

  /** An id `a_b` or `a_b_rest`, with no `_` inside `a` or `b`, has
      timestamp `a_b`, whatever the clock says. */
  lemma {:induction false} TimestampOfWellFormedId(a: string, b: string, rest: string, now: string)
    requires '_' !in a && '_' !in b
    requires rest == [] || rest[0] == '_'
    ensures ReportTimestamp(a + "_" + b + rest, now) == a + "_" + b
  {
    var id := a + "_" + b + rest;
    assert id == a + ['_'] + (b + rest);
    SplitAfterFirst(a, '_', b + rest);
    if rest == [] {
      assert b + rest == b;
      var parts := Split(b, '_');
      assert Join(parts, '_') == b;
      if |parts| >= 2 {
        SplitManyIff(b, '_');
      }
      assert parts == [b];
    } else {
      assert b + rest == b + ['_'] + rest[1..];
      SplitAfterFirst(b, '_', rest[1..]);
    }
  }

  /** Every id with an `_` has that form, so the timestamp is the id cut
      just before its second `_` (or the whole id when there is none): a
      prefix holding exactly one `_`. */
  lemma {:induction false} TimestampIsPrefixOfId(reportId: string, now: string)
    requires '_' in reportId
    ensures var ts := ReportTimestamp(reportId, now);
      && |ts| <= |reportId| && ts == reportId[..|ts|]
      && '_' in ts
      && (|ts| == |reportId| || reportId[|ts|] == '_')
    ensures var ts := ReportTimestamp(reportId, now);
      exists k :: 0 <= k < |ts| && ts[k] == '_' && '_' !in ts[..k] && '_' !in ts[k + 1..]
  {
    var segs := Split(reportId, '_');
    SplitManyIff(reportId, '_');
    var a, b := segs[0], segs[1];
    var rest := Join(segs[2..], '_');
    var tail := if |segs| == 2 then "" else "_" + rest;
    assert segs == [a] + ([b] + segs[2..]);
    assert reportId == a + "_" + (b + tail) by {
      assert Join(segs, '_') == a + ['_'] + Join(segs[1..], '_');
      assert segs[1..] == [b] + segs[2..];
      if |segs| == 2 {
        assert Join(segs[1..], '_') == b;
      } else {
        assert Join(segs[1..], '_') == b + ['_'] + rest;
      }
    }
    assert reportId == a + "_" + b + tail;
    var ts := a + "_" + b;
    assert ts[|a|] == '_' && ts[..|a|] == a && ts[|a| + 1..] == b;
  }

  /** With an `_` in the report id, the index name does not depend on the
      time: re-ingesting the report targets the same index. */
  lemma IndexNameIsStable(prefix: string, reportId: string, now1: string, now2: string)
    requires '_' in reportId
    ensures IndexName(prefix, reportId, now1) == IndexName(prefix, reportId, now2)
  {
    SplitManyIff(reportId, '_');
  }

  /** Without an `_`, the index name is the prefix and the fallback time,
      lower-cased. */
  lemma IndexNameFallback(prefix: string, reportId: string, now: string)
    requires '_' !in reportId
    ensures IndexName(prefix, reportId, now) == Lower(prefix + now)
  {
    SplitManyIff(reportId, '_');
  }

  /** Index names hold no upper-case letter, and lower-casing one again
      changes nothing. */
  lemma IndexNameIsLowerCase(prefix: string, reportId: string, now: string)
    ensures var name := IndexName(prefix, reportId, now);
      && (forall i :: 0 <= i < |name| ==> !IsUpper(name[i]))
      && Lower(name) == name
  {
    var s := prefix + ReportTimestamp(reportId, now);
    LowerHasNoUpper(s);
    LowerIdempotent(s);
  }

  /** The documented example: report `20260204_110300_berlin_ops` with
      prefix `osint_` goes to index `osint_20260204_110300`. */
  lemma BerlinOpsExample(now: string)
    ensures IndexName("osint_", "20260204_110300_berlin_ops", now) == "osint_20260204_110300"
  {
    var a, b, rest := "20260204", "110300", "_berlin_ops";
    assert "20260204_110300_berlin_ops" == a + "_" + b + rest;
    TimestampOfWellFormedId(a, b, rest, now);
    var s := "osint_20260204_110300";
    assert "osint_" + (a + "_" + b) == s;
    assert forall i :: 0 <= i < |s| ==> !IsUpper(s[i]);
    LowerOfLower(s);
  }
}
