/**
 * inc/db_secure.php: loadEnvVariables, the .env line parser that fills $_ENV, and the database
 * settings read from it with their defaults.
 */
module DbSecure {
  import opened Wrappers
  import Text

  /** The characters trim($value, '"\'') removes: quotes only, never white space. */
  const Quotes: set<char> := {'"', '\''}

  /** The entry one line of the file sets, if any: lines with an '=' that do not start with '#',
      split at the first '=', the key trimmed of white space and the value of quotes. */
  function EntryOf(line: string): (r: Option<(string, string)>)
    ensures r.Some? <==> '=' in line && line[0] != '#'
  {
    if '=' in line && line[0] != '#' then
      match Text.SplitFirst(line, '=')
      case Pair(key, value) => Some((Text.Trim(key), Text.TrimChars(value, Quotes)))
    else None
  }

  /** The line is split at its first '=' only, so the value may hold further '=' characters. */
  lemma EntryOfSplit(line: string)
    requires EntryOf(line).Some?
    ensures exists i :: (0 <= i < |line| && line[i] == '=' && '=' !in line[..i]
      && EntryOf(line).value == (Text.Trim(line[..i]), Text.TrimChars(line[i + 1..], Quotes)))
  {
    var sp := Text.SplitFirst(line, '=');
    var i := |sp.left|;
    assert line == sp.left + "=" + sp.right;
    assert line[..i] == sp.left && line[i] == '=' && line[i + 1..] == sp.right;
    assert EntryOf(line).value == (Text.Trim(line[..i]), Text.TrimChars(line[i + 1..], Quotes));
  }

  /** file($file, FILE_IGNORE_NEW_LINES | FILE_SKIP_EMPTY_LINES). Empty lines have no '='
      and set nothing either way, so keeping them changes no result. */
  function Lines(content: string): seq<string> {
    Text.Explode(content, '\n')
  }

  /** The entry each line sets, in file order. */
  function Entries(lines: seq<string>): (r: seq<Option<(string, string)>>)
    ensures |r| == |lines| && forall i :: 0 <= i < |lines| ==> r[i] == EntryOf(lines[i])
  {
    seq(|lines|, i requires 0 <= i < |lines| => EntryOf(lines[i]))
  }

  /** The environment after the loop has made the assignments `entries`, in order. */
  function Apply(env: map<string, string>, entries: seq<Option<(string, string)>>): map<string, string>
    decreases |entries|
  {
    if entries == [] then env
    else
      var before := Apply(env, entries[..|entries| - 1]);
      match entries[|entries| - 1]
      case None => before
      case Some((k, v)) => before[k := v]
  }

  /** One more entry: the assignment it makes, if any, on top of the earlier ones. */
  lemma ApplyStep(env: map<string, string>, entries: seq<Option<(string, string)>>, i: nat)
    requires i < |entries|
    ensures entries[i].None? ==> Apply(env, entries[..i + 1]) == Apply(env, entries[..i])
    ensures entries[i].Some? ==>
      Apply(env, entries[..i + 1]) == Apply(env, entries[..i])[entries[i].value.0 := entries[i].value.1]
  {
    assert entries[..i + 1][..i] == entries[..i];
  }

  /** The entry sets `key`. */
  predicate SetsKey(e: Option<(string, string)>, key: string) {
    e.Some? && e.value.0 == key
  }

  /** The value the last entry for `key` gives it, if any entry does. */
  function LastFor(entries: seq<Option<(string, string)>>, key: string): (r: Option<string>)
    ensures r.None? <==> forall i :: 0 <= i < |entries| ==> !SetsKey(entries[i], key)
    ensures r.Some? ==> exists i :: (0 <= i < |entries| && entries[i] == Some((key, r.value))
      && forall j :: i < j < |entries| ==> !SetsKey(entries[j], key))
    decreases |entries|
  {
    if entries == [] then None
    else
      var n := |entries| - 1;
      if SetsKey(entries[n], key) then Some(entries[n].value.1)
      else
        var r := LastFor(entries[..n], key);
        assert entries == entries[..n] + [entries[n]];
        r
  }

  /** A later line overrides an earlier one: each key ends up with the value of the last entry
      that sets it, and a key no entry sets keeps its old value (or stays absent). */
  lemma {:induction false} ApplyLookup(env: map<string, string>, entries: seq<Option<(string, string)>>, key: string)
    ensures LastFor(entries, key).Some? ==>
      key in Apply(env, entries) && Apply(env, entries)[key] == LastFor(entries, key).value
    ensures LastFor(entries, key).None? ==>
      (key in Apply(env, entries) <==> key in env) && (key in env ==> Apply(env, entries)[key] == env[key])
    decreases |entries|
  {
    if entries != [] {
      ApplyLookup(env, entries[..|entries| - 1], key);
    }
  }

  /** $_ENV, which loadEnvVariables writes into. */
  class Environment {
    var env: map<string, string>

    constructor (env: map<string, string>)
      ensures this.env == env
    {
      this.env := env;
    }

    /** loadEnvVariables: `content` is the file's text, None when it does not exist. Returns
        whether the file exists; a missing file changes nothing. */
    method LoadEnvVariables(content: Option<string>) returns (ok: bool)
      modifies this
      ensures ok <==> content.Some?
      ensures content.None? ==> env == old(env)
      ensures content.Some? ==> env == Apply(old(env), Entries(Lines(content.value)))
    {
      if content.None? {
        return false;
      }
      SetLines(Lines(content.value));
      ok := true;
    }

    /** The foreach of loadEnvVariables over the file's lines. */
    method SetLines(lines: seq<string>)
      modifies this
      ensures env == Apply(old(env), Entries(lines))
    {
      ghost var entries := Entries(lines);
      ghost var env0 := env;
      var i := 0;
      while i < |lines|
        invariant 0 <= i <= |lines| == |entries|
        invariant env == Apply(env0, entries[..i])
      {
        var entry := EntryOf(lines[i]);
        assert entry == entries[i];
        ApplyStep(env0, entries, i);
        if entry.Some? {
          env := env[entry.value.0 := entry.value.1];
        }
        i := i + 1;
      }
      assert entries[..i] == entries;
    }
  }

  /** The connection settings read from $_ENV. */
  datatype DbConfig = DbConfig(host: string, name: string, user: string, password: string, port: string)

  /** $_ENV[key] ?? fallback. */
  function EnvOr(env: map<string, string>, key: string, fallback: string): string {
    if key in env then env[key] else fallback
  }

  function Config(env: map<string, string>): DbConfig {
    DbConfig(EnvOr(env, "DB_HOST", "localhost"), EnvOr(env, "DB_NAME", "ticketing"),
             EnvOr(env, "DB_USER", "root"), EnvOr(env, "DB_PASSWORD", ""), EnvOr(env, "DB_PORT", "5432"))
  }

  /** Each setting after loading a file is the last value the file gives it, else what $_ENV
      held before, else its default. */
  lemma {:induction false} ConfigAfterLoad(env: map<string, string>, content: string)
    ensures var lines := Entries(Lines(content)); var c := Config(Apply(env, lines));
      && c.host == LastFor(lines, "DB_HOST").GetOr(EnvOr(env, "DB_HOST", "localhost"))
      && c.name == LastFor(lines, "DB_NAME").GetOr(EnvOr(env, "DB_NAME", "ticketing"))
      && c.user == LastFor(lines, "DB_USER").GetOr(EnvOr(env, "DB_USER", "root"))
      && c.password == LastFor(lines, "DB_PASSWORD").GetOr(EnvOr(env, "DB_PASSWORD", ""))
      && c.port == LastFor(lines, "DB_PORT").GetOr(EnvOr(env, "DB_PORT", "5432"))
  {
    var lines := Entries(Lines(content));
    ApplyLookup(env, lines, "DB_HOST");
    ApplyLookup(env, lines, "DB_NAME");
    ApplyLookup(env, lines, "DB_USER");
    ApplyLookup(env, lines, "DB_PASSWORD");
    ApplyLookup(env, lines, "DB_PORT");
  }

  /** With nothing loaded, the defaults apply. */
  lemma Defaults()
    ensures Config(map[]) == DbConfig("localhost", "ticketing", "root", "", "5432")
  {
  }

  /** A line `key=value` with no '=' in the key sets the trimmed key to the value with quotes
      stripped, whatever further '=' characters the value holds. */
  lemma EntryOfLine(key: string, value: string)
    requires '=' !in key && (key + "=" + value)[0] != '#'
    ensures EntryOf(key + "=" + value) == Some((Text.Trim(key), Text.TrimChars(value, Quotes)))
  {
    Text.SplitFirstAt(key, value, '=');
    assert key + "=" + value == key + ['='] + value;
  }

  /** Only quotes are stripped from a value: one that neither starts nor ends with a quote is
      kept whole, white space included. */
  lemma ValueKeepsSpaces(key: string, value: string)
    requires '=' !in key && (key + "=" + value)[0] != '#'
    requires value == [] || (value[0] !in Quotes && value[|value| - 1] !in Quotes)
    ensures EntryOf(key + "=" + value) == Some((Text.Trim(key), value))
  {
    EntryOfLine(key, value);
    Text.TrimCharsKeeps(value, Quotes);
  }

  /** Comment lines set nothing: every line that starts with '#' is skipped, whatever '='
      characters it holds. */
  lemma CommentLine(line: string)
    requires |line| > 0 && line[0] == '#'
    ensures EntryOf(line) == None
  {
  }
}
