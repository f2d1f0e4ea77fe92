/** The `.env` reader (`load_env`): `KEY=VALUE` lines into a dictionary. */
module EnvFile {
  import opened Wrappers
  import opened Text

  /** What one line contributes: a key and a value, or nothing. */
  type Entry = Option<(string, string)>

  /** What one line of the file contributes: nothing for a blank line, a
      `#` comment or a line without `=`, else the key before the first `=`
      and the value after it, both taken from the stripped line. */
  function ParseLine(line: string): Entry
  {
    var t := Strip(line);
    if t == "" || t[0] == '#' then None else SplitOnce(t, '=')
  }

  /** A line is kept exactly when its stripped text is not empty, is not a
      comment and holds an `=`; the key then has no `=`, and key, `=` and
      value put back together give the stripped line. */
  lemma ParseLineMeaning(line: string)
    ensures var t := Strip(line); var r := ParseLine(line);
      && (r.Some? <==> t != "" && t[0] != '#' && '=' in t)
      && (r.Some? ==> '=' !in r.value.0 && r.value.0 + "=" + r.value.1 == t)
  {
  }

  /** The entries of a sequence of lines, one per line. */
  function ParseLines(lines: seq<string>): (entries: seq<Entry>)
    ensures |entries| == |lines|
  {
    seq(|lines|, i requires 0 <= i < |lines| => ParseLine(lines[i]))
  }

  /** The dictionary after applying `entries` in order: each entry stores
      its value under its key, overwriting any earlier one. */
  function Assign(entries: seq<Entry>): map<string, string>
  {
    if entries == [] then map[]
    else
      var env := Assign(entries[..|entries| - 1]);
      match entries[|entries| - 1]
      case None => env
      case Some((k, v)) => env[k := v]
  }

  /** The dictionary `load_env` builds from the lines of `.env`. */
  function EnvOf(lines: seq<string>): map<string, string>
  {
    Assign(ParseLines(lines))
  }

  /** Reading line `i` after the lines before it. */
  lemma ReadOneMoreLine(lines: seq<string>, i: nat)
    requires i < |lines|
    ensures Assign(ParseLines(lines[..i + 1]))
         == match ParseLine(lines[i])
            case None => Assign(ParseLines(lines[..i]))
            case Some((k, v)) => Assign(ParseLines(lines[..i]))[k := v]
  {
    var entries := ParseLines(lines[..i + 1]);
    assert entries[..i] == ParseLines(lines[..i]);
  }

  /** `load_env()`: `dotEnv` is the file's lines, or None when `.env` does
      not exist. */
  method LoadEnv(dotEnv: Option<seq<string>>) returns (env: map<string, string>)
    ensures dotEnv.None? ==> env == map[]
    ensures dotEnv.Some? ==> env == EnvOf(dotEnv.value)
  {
    env := map[];
    if dotEnv.Some? {
      var lines := dotEnv.value;
      for i := 0 to |lines|
        invariant env == Assign(ParseLines(lines[..i]))
      {
        ReadOneMoreLine(lines, i);
        var t := Strip(lines[i]);
        var entry: Entry := None;
        if t != "" && t[0] != '#' {
          entry := SplitOnce(t, '=');
        }
        assert entry == ParseLine(lines[i]);
        if entry.Some? {
          env := env[entry.value.0 := entry.value.1];
        }
      }
      assert lines[..|lines|] == lines;
    }
  }

  /** The entry stores a value under key `k`. */
  predicate SetsKey(entry: Entry, k: string)
  {
    entry.Some? && entry.value.0 == k
  }

  /** A key is defined exactly when some entry sets it. */
  lemma {:induction false} KeyDefinedIff(entries: seq<Entry>, k: string)
    ensures k in Assign(entries) <==> exists i :: 0 <= i < |entries| && SetsKey(entries[i], k)
  {
    if entries != [] {
      var n := |entries| - 1;
      var init := entries[..n];
      KeyDefinedIff(init, k);
      assert forall i :: 0 <= i < n ==> init[i] == entries[i];
      if k in Assign(entries) && !SetsKey(entries[n], k) {
        var i :| 0 <= i < n && SetsKey(init[i], k);
        assert SetsKey(entries[i], k);
      }
    }
  }

  /** The last entry that sets a key decides its value. */
  lemma {:induction false} LastAssignmentWins(entries: seq<Entry>, i: nat, k: string, v: string)
    requires i < |entries| && entries[i] == Some((k, v))
    requires forall j :: i < j < |entries| ==> !SetsKey(entries[j], k)
    ensures k in Assign(entries) && Assign(entries)[k] == v
  {
    var init := entries[..|entries| - 1];
    if i < |entries| - 1 {
      assert forall j :: i < j < |init| ==> init[j] == entries[j];
      LastAssignmentWins(init, i, k, v);
    }
  }

  /** Blank lines, comments and lines without `=` change nothing. */
  lemma SkippedLineChangesNothing(lines: seq<string>, line: string)
    requires var t := Strip(line); t == "" || t[0] == '#' || '=' !in t
    ensures EnvOf(lines + [line]) == EnvOf(lines)
  {
    var entries := ParseLines(lines + [line]);
    assert entries[..|lines|] == ParseLines(lines);
    assert entries[|lines|] == ParseLine(line) == None;
  }

  /** A later line for the same key overwrites the earlier one. */
  lemma LaterLineOverwrites(lines: seq<string>, line: string, k: string, v: string)
    requires ParseLine(line) == Some((k, v))
    ensures EnvOf(lines + [line]) == EnvOf(lines)[k := v]
  {
    var entries := ParseLines(lines + [line]);
    assert entries[..|lines|] == ParseLines(lines);
  }
}
