/**
  The start-up configuration check (scripts/check-env.js): load `.env.local`
  and then `.env` into the process environment without overriding what is
  already set, then report missing variables, missing data files and an
  unwritable data directory, and exit with 1 exactly when something is missing.
  File contents, file existence and writability are inputs; console output is
  not modelled.
 */
module CheckEnv {
  import opened Text
  import opened Types

  // ------------------------------------------------------------ .env lines

  datatype Binding = Binding(key: string, value: string)

  /** One line of an env file: the trimmed line, unless empty or a comment,
      split at its first `=`; the key is the text before it, as it stands,
      and the value the rest of the line, trimmed. A line without `=` or
      with nothing before it binds nothing. */
  function ParseLine(raw: string): (r: Option<Binding>)
    ensures r.None? <==>
      var line := Trim(raw);
      line == "" || StartsWith(line, "#") || '=' !in line || line[0] == '='
    ensures r.Some? ==>
      var line := Trim(raw);
      var key := r.value.key;
      && key != "" && '=' !in key
      && |key| < |line| && line[..|key|] == key && line[|key|] == '='
      && r.value.value == Trim(line[|key| + 1..])
  {
    var line := Trim(raw);
    if line == "" || StartsWith(line, "#") then None
    else
      var parts := Split(line, '=');
      SplitSingleIff(line, '=');
      var key := parts[0];
      if key == "" || |parts| == 1 then
        assert key != "" ==> key[0] == line[0];
        None
      else
        var rest := Join(parts[1..], '=');
        assert line == key + "=" + rest;
        assert line[|key| + 1..] == rest;
        assert key[0] == line[0];
        Some(Binding(key, Trim(rest)))
  }

  /** Writing `key=value` and reading the line back gives the binding, for a
      key without `=` that does not start with white space or `#`, and a value
      without surrounding white space (it may hold `=`). */
  lemma ParseRendered(key: string, value: string)
    requires key != "" && '=' !in key && !IsSpace(key[0]) && key[0] != '#'
    requires Trimmed(value)
    ensures ParseLine(key + "=" + value) == Some(Binding(key, value))
  {
    var line := key + "=" + value;
    RenderedIsTrimmed(key, value);
    TrimTrimmed(line);
    assert line[|key|] == '=';
    assert line[..|key|] == key;
    assert line[|key| + 1..] == value;
    var b := ParseLine(line).value;
    PrefixWithoutSeparator(line, b.key, key);
    TrimTrimmed(value);
  }

  /** A rendered line has no white space at either end. */
  lemma RenderedIsTrimmed(key: string, value: string)
    requires key != "" && !IsSpace(key[0]) && Trimmed(value)
    ensures Trimmed(key + "=" + value)
  {
    var line := key + "=" + value;
    assert line[0] == key[0];
    if value == [] {
      assert line[|line| - 1] == '=';
    } else {
      assert line[|line| - 1] == value[|value| - 1];
    }
  }

  /** Two `=`-free prefixes of a line that are each followed by `=` are equal. */
  lemma PrefixWithoutSeparator(line: string, k1: string, k2: string)
    requires '=' !in k1 && '=' !in k2
    requires |k1| < |line| && line[..|k1|] == k1 && line[|k1|] == '='
    requires |k2| < |line| && line[..|k2|] == k2 && line[|k2|] == '='
    ensures k1 == k2
  {
    assert forall i | 0 <= i < |k1| :: line[i] == k1[i] && line[i] != '=';
    assert forall i | 0 <= i < |k2| :: line[i] == k2[i] && line[i] != '=';
  }

  // ------------------------------------------------------------- loading

  /** One line applied to the environment: a binding is stored unless the
      variable already holds a non-empty value. */
  function ApplyLine(env: map<string, string>, raw: string): map<string, string> {
    match ParseLine(raw)
    case None => env
    case Some(b) => if b.key !in env || env[b.key] == "" then env[b.key := b.value] else env
  }

  function ApplyLines(env: map<string, string>, lines: seq<string>): map<string, string>
    decreases |lines|
  {
    if lines == [] then env else ApplyLines(ApplyLine(env, lines[0]), lines[1..])
  }

  /** An env file, when it exists, applied line by line. */
  function LoadFile(env: map<string, string>, content: Option<string>): map<string, string> {
    if content.None? then env else ApplyLines(env, Split(content.value, '\n'))
  }

  /** `loadEnvFiles`: `.env.local` first, then `.env`. */
  function LoadEnv(env: map<string, string>, local: Option<string>, dotenv: Option<string>): map<string, string> {
    LoadFile(LoadFile(env, local), dotenv)
  }

  /** The values bound to `k` by the lines, in order. */
  function ValuesFor(lines: seq<string>, k: string): seq<string> {
    if lines == [] then []
    else
      var p := ParseLine(lines[0]);
      (if p.Some? && p.value.key == k then [p.value.value] else []) + ValuesFor(lines[1..], k)
  }

  function FileValues(content: Option<string>, k: string): seq<string> {
    if content.None? then [] else ValuesFor(Split(content.value, '\n'), k)
  }

  /** The value of `k` before loading, as a list of zero or one candidates. */
  function Current(env: map<string, string>, k: string): seq<string> {
    if k in env then [env[k]] else []
  }

  /** The first non-empty string of the list. */
  function FirstNonEmpty(xs: seq<string>): (r: Option<string>)
    ensures r.Some? ==> r.value != "" && r.value in xs
    ensures r.Some? ==> exists i :: 0 <= i < |xs| && xs[i] == r.value && forall j :: 0 <= j < i ==> xs[j] == ""
    ensures r.None? <==> forall i :: 0 <= i < |xs| ==> xs[i] == ""
  {
    if xs == [] then None
    else if xs[0] != "" then Some(xs[0])
    else
      var rest := FirstNonEmpty(xs[1..]);
      if rest.Some? then
        var i :| 0 <= i < |xs[1..]| && xs[1..][i] == rest.value && forall j :: 0 <= j < i ==> xs[1..][j] == "";
        assert xs[i + 1] == rest.value && forall j :: 0 <= j < i + 1 ==> xs[j] == "";
        rest
      else rest
  }

  lemma {:induction false} FirstNonEmptyAppend(a: seq<string>, b: seq<string>)
    ensures FirstNonEmpty(a + b) == if FirstNonEmpty(a).Some? then FirstNonEmpty(a) else FirstNonEmpty(b)
  {
    if a != [] {
      assert (a + b)[0] == a[0];
      assert (a + b)[1..] == a[1..] + b;
      FirstNonEmptyAppend(a[1..], b);
    } else {
      assert a + b == b;
    }
  }

  /** `m` holds for `k` what the candidates `all`, in order of precedence,
      decide: the first non-empty one; failing that, the empty string when
      there was any candidate; otherwise nothing. */
  predicate Resolved(m: map<string, string>, k: string, all: seq<string>) {
    match FirstNonEmpty(all)
    case Some(v) => k in m && m[k] == v
    case None => (k in m <==> all != []) && (k in m ==> m[k] == "")
  }

  /** Applying lines resolves each variable from its current value followed by
      the values the lines bind to it. */
  lemma {:induction false} ApplyLinesResolves(env: map<string, string>, lines: seq<string>, k: string)
    ensures Resolved(ApplyLines(env, lines), k, Current(env, k) + ValuesFor(lines, k))
    decreases |lines|
  {
    if lines == [] {
      assert Current(env, k) + [] == Current(env, k);
    } else {
      var env1 := ApplyLine(env, lines[0]);
      var rest := ValuesFor(lines[1..], k);
      ApplyLinesResolves(env1, lines[1..], k);
      var p := ParseLine(lines[0]);
      if p.Some? && p.value.key == k {
        var v := p.value.value;
        assert ValuesFor(lines, k) == [v] + rest;
        FirstNonEmptyAppend(Current(env, k), [v] + rest);
        if k in env && env[k] != "" {
          assert Current(env1, k) == Current(env, k);
          FirstNonEmptyAppend(Current(env, k), rest);
        } else {
          assert Current(env1, k) == [v];
        }
      } else {
        assert ValuesFor(lines, k) == rest;
        assert Current(env1, k) == Current(env, k);
      }
    }
  }

  /** Resolution composes: resolving again from a resolved value and more
      candidates is resolving from all candidates. */
  lemma ResolvedCompose(m1: map<string, string>, m2: map<string, string>, k: string, all: seq<string>, more: seq<string>)
    requires Resolved(m1, k, all) && Resolved(m2, k, Current(m1, k) + more)
    ensures Resolved(m2, k, all + more)
  {
    FirstNonEmptyAppend(all, more);
    FirstNonEmptyAppend(Current(m1, k), more);
  }

  lemma LoadFileResolves(env: map<string, string>, content: Option<string>, k: string)
    ensures Resolved(LoadFile(env, content), k, Current(env, k) + FileValues(content, k))
  {
    if content.Some? {
      ApplyLinesResolves(env, Split(content.value, '\n'), k);
    } else {
      assert Current(env, k) + [] == Current(env, k);
      FirstNonEmptyAppend(Current(env, k), []);
    }
  }

  /** After loading, each variable holds the first non-empty value among: the
      process environment, then `.env.local` in line order, then `.env` in line
      order. */
  lemma LoadEnvResolves(env: map<string, string>, local: Option<string>, dotenv: Option<string>, k: string)
    ensures Resolved(LoadEnv(env, local, dotenv), k, Current(env, k) + FileValues(local, k) + FileValues(dotenv, k))
  {
    var env1 := LoadFile(env, local);
    LoadFileResolves(env, local, k);
    LoadFileResolves(env1, dotenv, k);
    ResolvedCompose(env1, LoadEnv(env, local, dotenv), k, Current(env, k) + FileValues(local, k), FileValues(dotenv, k));
  }

  /** A variable already set to a non-empty value is never overridden by the files. */
  lemma ProcessEnvWins(env: map<string, string>, local: Option<string>, dotenv: Option<string>, k: string)
    requires k in env && env[k] != ""
    ensures k in LoadEnv(env, local, dotenv) && LoadEnv(env, local, dotenv)[k] == env[k]
  {
    LoadEnvResolves(env, local, dotenv, k);
    FirstNonEmptyAppend([env[k]], FileValues(local, k));
    FirstNonEmptyAppend([env[k]] + FileValues(local, k), FileValues(dotenv, k));
  }

  /** Failing the process environment, the first non-empty value `.env.local`
      gives a variable wins over anything `.env` says. */
  lemma LocalBeatsDotenv(env: map<string, string>, local: Option<string>, dotenv: Option<string>, k: string)
    requires k !in env || env[k] == ""
    requires FirstNonEmpty(FileValues(local, k)).Some?
    ensures k in LoadEnv(env, local, dotenv)
    ensures LoadEnv(env, local, dotenv)[k] == FirstNonEmpty(FileValues(local, k)).value
  {
    LoadEnvResolves(env, local, dotenv, k);
    assert FirstNonEmpty(Current(env, k)).None?;
    FirstNonEmptyAppend(Current(env, k), FileValues(local, k));
    FirstNonEmptyAppend(Current(env, k) + FileValues(local, k), FileValues(dotenv, k));
  }

  /** The process environment, which loading updates in place. */
  class ProcessEnv {
    var vars: map<string, string>

    constructor (vars0: map<string, string>)
      ensures vars == vars0
    {
      vars := vars0;
    }

    /** `loadEnvFiles`; each file is given by its content, or nothing when it does not exist. */
    method LoadEnvFiles(local: Option<string>, dotenv: Option<string>)
      modifies this
      ensures vars == LoadEnv(old(vars), local, dotenv)
    {
      var files := [local, dotenv];
      for f := 0 to |files|
        invariant vars == (if f == 0 then old(vars) else if f == 1 then LoadFile(old(vars), local) else LoadEnv(old(vars), local, dotenv))
      {
        if files[f].Some? {
          var lines := Split(files[f].value, '\n');
          ghost var start := vars;
          for i := 0 to |lines|
            invariant ApplyLines(vars, lines[i..]) == ApplyLines(start, lines)
          {
            assert lines[i..][1..] == lines[i + 1..];
            vars := ApplyLine(vars, lines[i]);
          }
          assert lines[|lines|..] == [];
        }
      }
    }
  }

  // -------------------------------------------------------------- checks

  const RequiredFiles: seq<string> := ["data/state.json", "data/topics_easy.json", "data/topics_hard.json"]

  const RequiredEnvVars: seq<string> := ["ADMIN_ALLOWLIST"]

  function MissingVariable(name: string): string {
    "Missing required environment variable: " + name
  }

  function MissingFile(path: string): string {
    "Missing required file: " + path
  }

  const NotWritable := "data/ directory is not writable"

  const DevelopmentWarning := "Running in development mode. Set NODE_ENV=production for production."

  /** `!value || value.trim() === ''`. */
  predicate VarMissing(env: map<string, string>, name: string) {
    name !in env || Trim(env[name]) == ""
  }

  /** `process.env.NODE_ENV || 'development'`. */
  function NodeEnv(env: map<string, string>): string {
    if "NODE_ENV" in env && env["NODE_ENV"] != "" then env["NODE_ENV"] else "development"
  }

  /** One message per missing variable, in list order. */
  function MissingVars(env: map<string, string>, names: seq<string>): (r: seq<string>)
    ensures |r| <= |names|
    ensures r == [] <==> forall i :: 0 <= i < |names| ==> !VarMissing(env, names[i])
    ensures forall i :: 0 <= i < |names| && VarMissing(env, names[i]) ==> MissingVariable(names[i]) in r
    ensures forall m :: m in r ==>
      exists i :: 0 <= i < |names| && VarMissing(env, names[i]) && m == MissingVariable(names[i])
  {
    if names == [] then []
    else
      var init := names[..|names| - 1];
      var last := names[|names| - 1];
      var r := MissingVars(env, init) + (if VarMissing(env, last) then [MissingVariable(last)] else []);
      assert forall i :: 0 <= i < |init| ==> names[i] == init[i];
      r
  }

  /** One message per missing file, in list order. */
  function MissingFiles(existing: set<string>, paths: seq<string>): (r: seq<string>)
    ensures |r| <= |paths|
    ensures r == [] <==> forall i :: 0 <= i < |paths| ==> paths[i] in existing
    ensures forall i :: 0 <= i < |paths| && paths[i] !in existing ==> MissingFile(paths[i]) in r
    ensures forall m :: m in r ==>
      exists i :: 0 <= i < |paths| && paths[i] !in existing && m == MissingFile(paths[i])
  {
    if paths == [] then []
    else
      var init := paths[..|paths| - 1];
      var last := paths[|paths| - 1];
      var r := MissingFiles(existing, init) + (if last !in existing then [MissingFile(last)] else []);
      assert forall i :: 0 <= i < |init| ==> paths[i] == init[i];
      r
  }

  /** Regrouping `(x + y) + t` as `x + (y + t)`, for the append lemmas below. */
  lemma SnocRegroup(xyt: seq<string>, x: seq<string>, yt: seq<string>, xy: seq<string>, y: seq<string>, t: seq<string>)
    requires xyt == xy + t && yt == y + t && xy == x + y
    ensures xyt == x + yt
  {
  }

  /** Appending one name adds at most its own message, at the end. */
  lemma MissingVarsSnoc(env: map<string, string>, xs: seq<string>, x: string)
    ensures MissingVars(env, xs + [x]) ==
      MissingVars(env, xs) + if VarMissing(env, x) then [MissingVariable(x)] else []
  {
    assert (xs + [x])[..|xs|] == xs;
  }

  /** The last name of `a + b` is the last name of `b`. */
  lemma MissingVarsLast(env: map<string, string>, a: seq<string>, b: seq<string>)
    requires b != []
    ensures MissingVars(env, a + b) == MissingVars(env, a + b[..|b| - 1]) +
      if VarMissing(env, b[|b| - 1]) then [MissingVariable(b[|b| - 1])] else []
  {
    assert a + b == (a + b[..|b| - 1]) + [b[|b| - 1]];
    MissingVarsSnoc(env, a + b[..|b| - 1], b[|b| - 1]);
  }

  /** The messages follow the list order: those for `a + b` are those for
      `a` followed by those for `b`. */
  lemma {:induction false} MissingVarsAppend(env: map<string, string>, a: seq<string>, b: seq<string>)
    ensures MissingVars(env, a + b) == MissingVars(env, a) + MissingVars(env, b)
    decreases |b|
  {
    if b == [] {
      assert a + b == a;
    } else {
      var init := b[..|b| - 1];
      MissingVarsLast(env, a, b);
      MissingVarsLast(env, [], b);
      assert [] + b == b && [] + init == init;
      MissingVarsAppend(env, a, init);
      var t := if VarMissing(env, b[|b| - 1]) then [MissingVariable(b[|b| - 1])] else [];
      SnocRegroup(MissingVars(env, a + b), MissingVars(env, a), MissingVars(env, b), MissingVars(env, a + init), MissingVars(env, init), t);
    }
  }

  /** Appending one path adds at most its own message, at the end. */
  lemma MissingFilesSnoc(existing: set<string>, xs: seq<string>, x: string)
    ensures MissingFiles(existing, xs + [x]) ==
      MissingFiles(existing, xs) + if x !in existing then [MissingFile(x)] else []
  {
    assert (xs + [x])[..|xs|] == xs;
  }

  /** The last path of `a + b` is the last path of `b`. */
  lemma MissingFilesLast(existing: set<string>, a: seq<string>, b: seq<string>)
    requires b != []
    ensures MissingFiles(existing, a + b) == MissingFiles(existing, a + b[..|b| - 1]) +
      if b[|b| - 1] !in existing then [MissingFile(b[|b| - 1])] else []
  {
    assert a + b == (a + b[..|b| - 1]) + [b[|b| - 1]];
    MissingFilesSnoc(existing, a + b[..|b| - 1], b[|b| - 1]);
  }

  /** The same for files. */
  lemma {:induction false} MissingFilesAppend(existing: set<string>, a: seq<string>, b: seq<string>)
    ensures MissingFiles(existing, a + b) == MissingFiles(existing, a) + MissingFiles(existing, b)
    decreases |b|
  {
    if b == [] {
      assert a + b == a;
    } else {
      var init := b[..|b| - 1];
      MissingFilesLast(existing, a, b);
      MissingFilesLast(existing, [], b);
      assert [] + b == b && [] + init == init;
      MissingFilesAppend(existing, a, init);
      var t := if b[|b| - 1] !in existing then [MissingFile(b[|b| - 1])] else [];
      SnocRegroup(MissingFiles(existing, a + b), MissingFiles(existing, a), MissingFiles(existing, b), MissingFiles(existing, a + init), MissingFiles(existing, init), t);
    }
  }

  /** The error list: missing variables, then missing files, then the directory. */
  function Errors(env: map<string, string>, existing: set<string>, writable: bool): (r: seq<string>)
    ensures r == [] <==>
      && (forall i :: 0 <= i < |RequiredEnvVars| ==> !VarMissing(env, RequiredEnvVars[i]))
      && (forall i :: 0 <= i < |RequiredFiles| ==> RequiredFiles[i] in existing)
      && writable
  {
    MissingVars(env, RequiredEnvVars) + MissingFiles(existing, RequiredFiles) + (if writable then [] else [NotWritable])
  }

  datatype Report = Report(errors: seq<string>, warnings: seq<string>, exitCode: int)

  /** The `REQUIRED_ENV_VARS.forEach` loop. */
  method CheckVariables(env: map<string, string>) returns (errors: seq<string>)
    ensures errors == MissingVars(env, RequiredEnvVars)
  {
    errors := [];
    for i := 0 to |RequiredEnvVars|
      invariant errors == MissingVars(env, RequiredEnvVars[..i])
    {
      assert RequiredEnvVars[..i + 1][..i] == RequiredEnvVars[..i];
      if VarMissing(env, RequiredEnvVars[i]) {
        errors := errors + [MissingVariable(RequiredEnvVars[i])];
      }
    }
    assert RequiredEnvVars[..|RequiredEnvVars|] == RequiredEnvVars;
  }

  /** The `REQUIRED_FILES.forEach` loop. */
  method CheckFiles(existing: set<string>) returns (errors: seq<string>)
    ensures errors == MissingFiles(existing, RequiredFiles)
  {
    errors := [];
    for i := 0 to |RequiredFiles|
      invariant errors == MissingFiles(existing, RequiredFiles[..i])
    {
      assert RequiredFiles[..i + 1][..i] == RequiredFiles[..i];
      if RequiredFiles[i] !in existing {
        errors := errors + [MissingFile(RequiredFiles[i])];
      }
    }
    assert RequiredFiles[..|RequiredFiles|] == RequiredFiles;
  }

  /** The checks against the loaded environment; it only reads. */
  method Check(env: map<string, string>, existing: set<string>, writable: bool) returns (rep: Report)
    ensures rep.errors == Errors(env, existing, writable)
    ensures rep.warnings == if NodeEnv(env) == "production" then [] else [DevelopmentWarning]
    ensures rep.exitCode == (if rep.errors == [] then 0 else 1)
    ensures rep.exitCode == 0 <==>
      && (forall i :: 0 <= i < |RequiredEnvVars| ==> !VarMissing(env, RequiredEnvVars[i]))
      && (forall i :: 0 <= i < |RequiredFiles| ==> RequiredFiles[i] in existing)
      && writable
  {
    var errors := CheckVariables(env);
    var warnings: seq<string> := [];
    if NodeEnv(env) != "production" {
      warnings := warnings + [DevelopmentWarning];
    }
    var fileErrors := CheckFiles(existing);
    errors := errors + fileErrors;
    if !writable {
      errors := errors + [NotWritable];
    }
    rep := Report(errors, warnings, if |errors| > 0 then 1 else 0);
  }

  /** The whole script: load the files into the environment, then check it. */
  method Run(penv: ProcessEnv, local: Option<string>, dotenv: Option<string>, existing: set<string>, writable: bool)
    returns (rep: Report)
    modifies penv
    ensures penv.vars == LoadEnv(old(penv.vars), local, dotenv)
    ensures rep.errors == Errors(penv.vars, existing, writable)
    ensures rep.exitCode == (if rep.errors == [] then 0 else 1)
  {
    penv.LoadEnvFiles(local, dotenv);
    rep := Check(penv.vars, existing, writable);
  }
}
