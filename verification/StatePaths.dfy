/**
 State paths: the file of a `sqlite:` URL, and the rewrite of an installation's relative paths
 under one base directory, which happens for all of them or for none.
 */
module StatePaths {
  import opened Options
  import opened Sequences

  datatype UrlFile = UrlFile(file: string, params: Option<string>)

  // Every leading repetition of a prefix is stripped.
  function TrimStartMatches(s: string, prefix: string): (r: string)
    requires prefix != ""
    ensures |r| <= |s|
  {
    if prefix <= s then TrimStartMatches(s[|prefix|..], prefix) else s
  }

  function IndexOf(s: string, c: char): (k: nat)
    ensures k <= |s| && c !in s[..k] && (k < |s| ==> s[k] == c)
  {
    if s == "" || s[0] == c then 0
    else
      var k := IndexOf(s[1..], c);
      assert s[..k + 1] == [s[0]] + s[1..][..k];
      k + 1
  }

  function SplitOnce(rest: string): UrlFile {
    var k := IndexOf(rest, '?');
    if k < |rest| then UrlFile(rest[..k], Some(rest[k + 1..])) else UrlFile(rest, None)
  }

  function SqliteUrlFile(url: string): Option<UrlFile> {
    if !("sqlite:" <= url) then None
    else
      var u := SplitOnce(TrimStartMatches(TrimStartMatches(url, "sqlite://"), "sqlite:"));
      if u.file == "" || u.file == ":memory:" || "file::memory" <= u.file then None else Some(u)
  }

  function SqliteUrl(path: string, params: Option<string>): string {
    "sqlite:" + path + Tail(params)
  }

  predicate IsAbsolute(path: string) { path != "" && path[0] == '/' }

  function Join(base: string, path: string): string {
    if IsAbsolute(path) || base == "" then path
    else if base[|base| - 1] == '/' then base + path
    else base + "/" + path
  }

  // ---------- parser and printer ----------

  lemma {:induction false} IndexIs(s: string, c: char, j: nat)
    requires j <= |s| && c !in s[..j] && (j < |s| ==> s[j] == c)
    ensures IndexOf(s, c) == j
  {
  }

  function Tail(params: Option<string>): string { if params.Some? then "?" + params.value else "" }

  lemma AfterMark(path: string, query: string)
    ensures (path + ("?" + query))[|path| + 1..] == query
  {
  }

  lemma SplitPrinted(path: string, params: Option<string>)
    requires '?' !in path
    ensures SplitOnce(path + Tail(params)) == UrlFile(path, params)
  {
    var rest := path + Tail(params);
    assert rest[..|path|] == path && rest[|path|..] == Tail(params);
    IndexIs(rest, '?', |path|);
    if params.Some? { AfterMark(path, params.value); }
  }

  function Trimmed(url: string): string { TrimStartMatches(TrimStartMatches(url, "sqlite://"), "sqlite:") }

  /** Two leading slashes are taken for the scheme's, and the text that is left is too short. */
  lemma DoubleSlashIsLost(path: string, params: Option<string>)
    requires "//" <= path
    ensures |Trimmed(SqliteUrl(path, params))| < |path + Tail(params)|
  {
  }

  lemma TooShort(path: string, params: Option<string>, rest: string)
    requires |rest| < |path + Tail(params)|
    ensures SplitOnce(rest) != UrlFile(path, params)
  {
  }

  /**
   Printing an absolute path as a URL and parsing it returns the path and the query string if and
   only if the path holds no `?` and does not begin with two slashes.
   */
  lemma UrlRoundTripIff(path: string, params: Option<string>)
    requires IsAbsolute(path)
    ensures SqliteUrlFile(SqliteUrl(path, params)) == Some(UrlFile(path, params)) <==> '?' !in path && !("//" <= path)
  {
    var url := SqliteUrl(path, params);
    assert url[..7] == "sqlite:";
    if "//" <= path {
      DoubleSlashIsLost(path, params);
      TooShort(path, params, Trimmed(url));
    } else {
      SingleSlash(path, Tail(params));
      if '?' !in path {
        SplitPrinted(path, params);
      } else {
        NoMark(Trimmed(url));
      }
    }
  }

  lemma NoMark(rest: string)
    ensures '?' !in SplitOnce(rest).file
  {
  }

  lemma SingleSlash(path: string, tail: string)
    requires IsAbsolute(path) && !("//" <= path) && (tail == "" || tail[0] == '?')
    ensures TrimStartMatches(TrimStartMatches("sqlite:" + path + tail, "sqlite://"), "sqlite:") == path + tail
  {
    var url := "sqlite:" + path + tail;
    if |path| > 1 { NotDouble(path); }
    assert url[7] == '/' && (|url| > 8 ==> url[8] == if |path| > 1 then path[1] else tail[0]);
    assert !("sqlite://" <= url);
    assert url[..7] == "sqlite:" && url[7..] == path + tail;
    assert (path + tail)[0] == '/';
    assert !("sqlite:" <= path + tail);
  }

  lemma NotDouble(path: string)
    requires IsAbsolute(path) && !("//" <= path) && |path| > 1
    ensures path[1] != '/'
  {
  }

  // ---------- resolving ----------

  const FIELDS: seq<string> :=
    ["storage.block_dir", "storage.temp_dir", "storage.thumbnail_dir", "storage.avatar_dir", "index.index_dir"]

  datatype PathResolution = PathResolution(field: string, path: string, rewritten: bool)

  // The database URL and the five directories, in the order of FIELDS.
  datatype Config = Config(url: string, dirs: seq<string>)

  function RelativeDatabase(url: string): Option<string> {
    var u := SqliteUrlFile(url);
    if u.Some? && !IsAbsolute(u.value.file) then Some(u.value.file) else None
  }

  // The paths that decide: the relative database file and every configured directory, absolute ones too.
  function Deciding(c: Config): seq<string> {
    (if RelativeDatabase(c.url).Some? then [RelativeDatabase(c.url).value] else []) + c.dirs
  }

  /** `present` holds the paths that exist. */
  predicate Keep(c: Config, cwd: string, present: set<string>) {
    AnyExists(Deciding(c), cwd, present)
  }

  predicate AnyExists(paths: seq<string>, cwd: string, present: set<string>) {
    exists i :: 0 <= i < |paths| && Join(cwd, paths[i]) in present
  }

  function ResolvedDir(path: string, base: string, keep: bool): string {
    if IsAbsolute(path) || keep then path else Join(base, path)
  }

  function ResolvedUrl(url: string, base: string, keep: bool): string {
    var u := SqliteUrlFile(url);
    if keep || u.None? then url else SqliteUrl(Join(base, u.value.file), u.value.params)
  }

  function Resolved(c: Config, base: string, cwd: string, present: set<string>): Config {
    var keep := Keep(c, cwd, present);
    Config(ResolvedUrl(c.url, base, keep), ResolvedDirs(c.dirs, base, keep))
  }

  function ResolvedDirs(dirs: seq<string>, base: string, keep: bool): seq<string> {
    seq(|dirs|, i requires 0 <= i < |dirs| => ResolvedDir(dirs[i], base, keep))
  }

  /** The report: every relative field, as it is after the call. */
  function DirReport(dirs: seq<string>, base: string, keep: bool, n: nat): seq<PathResolution>
    requires n <= |dirs| <= |FIELDS|
  {
    if n == 0 then []
    else DirReport(dirs, base, keep, n - 1)
         + if IsAbsolute(dirs[n - 1]) then []
             else [PathResolution(FIELDS[n - 1], ResolvedDir(dirs[n - 1], base, keep), !keep)]
  }

  function Report(c: Config, base: string, keep: bool): seq<PathResolution>
    requires |c.dirs| == |FIELDS|
  {
    (if RelativeDatabase(c.url).Some?
     then [PathResolution("database.url", if keep then RelativeDatabase(c.url).value
                                          else Join(base, RelativeDatabase(c.url).value), !keep)]
     else [])
    + DirReport(c.dirs, base, keep, |c.dirs|)
  }

  class StateConfig {
    var url: string
    var dirs: seq<string>

    ghost function Value(): Config reads this { Config(url, dirs) }

    /** The directories, one after the other; relative ones are reported. */
    method ResolveDirs(base: string, keep: bool) returns (out: seq<PathResolution>)
      requires |dirs| == |FIELDS|
      modifies this`dirs
      ensures dirs == ResolvedDirs(old(dirs), base, keep)
      ensures out == DirReport(old(dirs), base, keep, |FIELDS|)
    {
      ghost var before := dirs;
      out := [];
      var i := 0;
      while i < |dirs|
        invariant 0 <= i <= |dirs| == |before|
        invariant forall k :: 0 <= k < i ==> dirs[k] == ResolvedDir(before[k], base, keep)
        invariant forall k :: i <= k < |dirs| ==> dirs[k] == before[k]
        invariant out == DirReport(before, base, keep, i)
      {
        if !IsAbsolute(dirs[i]) {
          if !keep { dirs := dirs[i := Join(base, dirs[i])]; }
          out := out + [PathResolution(FIELDS[i], dirs[i], !keep)];
        }
        i := i + 1;
      }
    }

    method ResolveStatePaths(base: string, cwd: string, present: set<string>) returns (out: seq<PathResolution>)
      requires |dirs| == |FIELDS|
      modifies this
      ensures Value() == Resolved(old(Value()), base, cwd, present)
      ensures out == Report(old(Value()), base, Keep(old(Value()), cwd, present))
    {
      var relativeDatabase := RelativeDatabase(url);
      var keep := Keep(Config(url, dirs), cwd, present);
      var u := SqliteUrlFile(url);
      if !keep && u.Some? {
        url := SqliteUrl(Join(base, u.value.file), u.value.params);
      }
      out := [];
      if relativeDatabase.Some? {
        var file := relativeDatabase.value;
        out := [PathResolution("database.url", if keep then file else Join(base, file), !keep)];
      }
      var resolutions := ResolveDirs(base, keep);
      out := out + resolutions;
    }
  }

  // ---------- all or nothing ----------

  lemma JoinIsAbsolute(base: string, path: string)
    requires IsAbsolute(base)
    ensures IsAbsolute(Join(base, path))
  {
  }

  /**
   Under an absolute base either nothing changes, or every relative directory and database file
   has moved under the base and no relative field is left.
   */
  lemma AllOrNothing(c: Config, base: string, cwd: string, present: set<string>)
    requires IsAbsolute(base)
    ensures var r := Resolved(c, base, cwd, present);
            if Keep(c, cwd, present) then r == c
            else && |r.dirs| == |c.dirs|
                 && (forall i :: 0 <= i < |r.dirs| ==> IsAbsolute(r.dirs[i]) && r.dirs[i] == Join(base, c.dirs[i]))
                 && (SqliteUrlFile(c.url).Some? ==>
                       var u := SqliteUrlFile(c.url).value;
                       r.url == SqliteUrl(Join(base, u.file), u.params))
  {
  }

  /** The report names exactly the relative directories, each with its new path and the one common decision. */
  lemma {:induction false} DirReportIsExact(dirs: seq<string>, base: string, keep: bool, n: nat, e: PathResolution)
    requires n <= |dirs| <= |FIELDS|
    ensures e in DirReport(dirs, base, keep, n) <==>
            e.rewritten == !keep && exists i :: 0 <= i < n && !IsAbsolute(dirs[i]) && e.field == FIELDS[i]
                                                && e.path == ResolvedDir(dirs[i], base, keep)
  {
    if n > 0 { DirReportIsExact(dirs, base, keep, n - 1, e); }
  }

  /** The documented rule: something exists at a relative path, read from the working directory. */
  ghost predicate RelativeExists(c: Config, cwd: string, present: set<string>) {
    exists i :: 0 <= i < |Deciding(c)| && !IsAbsolute(Deciding(c)[i]) && Join(cwd, Deciding(c)[i]) in present
  }

  ghost predicate AbsoluteExists(c: Config, present: set<string>) {
    exists i :: 0 <= i < |c.dirs| && IsAbsolute(c.dirs[i]) && c.dirs[i] in present
  }

  /**
   The code leaves an installation as it is by the documented rule, except exactly when none of its
   relative paths exists and one of its absolute directories does.
   */
  lemma KeepIsDocumentedIff(c: Config, cwd: string, present: set<string>)
    ensures (Keep(c, cwd, present) <==> RelativeExists(c, cwd, present)) <==>
            RelativeExists(c, cwd, present) || !AbsoluteExists(c, present)
  {
    KeepIff(c, cwd, present);
    var offset := |Deciding(c)| - |c.dirs|;
    assert forall i :: 0 <= i < |c.dirs| ==> Deciding(c)[offset + i] == c.dirs[i];
    if AbsoluteExists(c, present) {
      var i :| 0 <= i < |c.dirs| && IsAbsolute(c.dirs[i]) && c.dirs[i] in present;
      assert Join(cwd, c.dirs[i]) in present;
    }
  }

  lemma KeepIff(c: Config, cwd: string, present: set<string>)
    ensures Keep(c, cwd, present) <==>
            || (RelativeDatabase(c.url).Some? && Join(cwd, RelativeDatabase(c.url).value) in present)
            || AnyExists(c.dirs, cwd, present)
  {
    var file := if RelativeDatabase(c.url).Some? then [RelativeDatabase(c.url).value] else [];
    EitherExists(file, c.dirs, cwd, present);
    assert file != [] ==> (AnyExists(file, cwd, present) <==> Join(cwd, file[0]) in present);
  }

  lemma EitherExists(a: seq<string>, b: seq<string>, cwd: string, present: set<string>)
    ensures AnyExists(a + b, cwd, present) <==> AnyExists(a, cwd, present) || AnyExists(b, cwd, present)
  {
    if AnyExists(a, cwd, present) {
      var i :| 0 <= i < |a| && Join(cwd, a[i]) in present;
      assert (a + b)[i] == a[i];
    }
    if AnyExists(b, cwd, present) {
      var i :| 0 <= i < |b| && Join(cwd, b[i]) in present;
      assert (a + b)[|a| + i] == b[i];
    }
  }

  /** One absolute directory that exists, and the relative ones, which do not, stay relative. */
  lemma AbsoluteStopsTheRewrite(cwd: string, base: string) returns (c: Config, present: set<string>)
    requires IsAbsolute(cwd) && IsAbsolute(base)
    ensures |c.dirs| == |FIELDS| && !RelativeExists(c, cwd, present)
    ensures Resolved(c, base, cwd, present) == c && !IsAbsolute(c.dirs[1])
  {
    c := Config("postgres:", ["/", "tmp", "/thumbs", "/avatars", "/index"]);
    present := {"/"};
    assert "postgres:"[0] != "sqlite:"[0];
    assert Deciding(c) == c.dirs;
    assert Join(cwd, c.dirs[0]) == "/";
    assert |Join(cwd, c.dirs[1])| > 1;
    assert Keep(c, cwd, present) by { assert Join(cwd, Deciding(c)[0]) in present; }
    AllOrNothing(c, base, cwd, present);
  }

  // The database path under the base can be written as a URL.
  predicate Writable(url: string, base: string) {
    var u := SqliteUrlFile(url);
    u.Some? ==> '?' !in Join(base, u.value.file) && !("//" <= Join(base, u.value.file))
  }

  /** The rewritten URL names just the joined file, with its query string, if and only if that path can be written. */
  lemma RewrittenUrlIff(url: string, base: string)
    requires IsAbsolute(base) && SqliteUrlFile(url).Some?
    ensures var u := SqliteUrlFile(url).value;
            SqliteUrlFile(ResolvedUrl(url, base, false)) == Some(UrlFile(Join(base, u.file), u.params)) <==>
            Writable(url, base)
  {
    JoinIsAbsolute(base, SqliteUrlFile(url).value.file);
    UrlRoundTripIff(Join(base, SqliteUrlFile(url).value.file), SqliteUrlFile(url).value.params);
  }

  lemma Reprint(rest: string)
    ensures var u := SplitOnce(rest);
            u.file + Tail(u.params) == rest
  {
  }

  // A rewritten URL whose path has one leading slash is rewritten to itself, a `?` in the path or not.
  lemma SingleSlashIsStable(path: string, params: Option<string>, base: string)
    requires IsAbsolute(path) && !("//" <= path)
    ensures ResolvedUrl(SqliteUrl(path, params), base, false) == SqliteUrl(path, params)
  {
    var url := SqliteUrl(path, params);
    assert url[..7] == "sqlite:";
    SingleSlash(path, Tail(params));
    var rest := path + Tail(params);
    var u := SplitOnce(rest);
    Reprint(rest);
    assert rest[0] == '/' && u.file != "" && u.file[0] == '/';
    Sequel(u.file, Tail(u.params), path, Tail(params));
  }

  lemma Sequel(a: string, b: string, c: string, d: string)
    requires a + b == c + d
    ensures "sqlite:" + a + b == "sqlite:" + c + d
  {
    Associate("sqlite:", a, b);
    Associate("sqlite:", c, d);
  }

  // A directory with the slash that joining puts behind it.
  function Dir(base: string): string
    requires base != ""
  {
    if base[|base| - 1] == '/' then base else base + "/"
  }

  lemma JoinRelative(base: string, file: string)
    requires IsAbsolute(base) && !IsAbsolute(file)
    ensures Join(base, file) == Dir(base) + file
  {
  }

  /** Nothing is left to strip. */
  lemma {:induction false} TrimIsDone(s: string, prefix: string)
    requires prefix != ""
    ensures !(prefix <= TrimStartMatches(s, prefix))
    decreases |s|
  {
    if prefix <= s { TrimIsDone(s[|prefix|..], prefix); }
  }

  lemma PrefixOfSum(prefix: string, x: string, z: string)
    ensures |prefix| <= |x| ==> (prefix <= x + z <==> prefix <= x)
    ensures |prefix| <= |x| && prefix <= x ==> (x + z)[|prefix|..] == x[|prefix|..] + z
    ensures |prefix| <= |x| && prefix <= x ==> x == prefix + x[|prefix|..]
  {
    if |prefix| <= |x| { assert (x + z)[..|prefix|] == x[..|prefix|]; }
  }

  lemma ShorterScheme(z: string)
    requires "sqlite://" <= z
    ensures "sqlite:" <= z
  {
    assert z[..7] == "sqlite://"[..7] == "sqlite:";
  }

  // A text that is all scheme is stripped from what follows it.
  lemma {:induction false} SchemeIsStripped(x: string, z: string)
    requires TrimStartMatches(x, "sqlite://") == "" && !("sqlite:" <= z)
    ensures TrimStartMatches(x + z, "sqlite://") == z
    decreases |x|
  {
    if x == "" {
      assert x + z == z;
      if "sqlite://" <= z { ShorterScheme(z); }
    } else {
      PrefixOfSum("sqlite://", x, z);
      SchemeIsStripped(x[9..], z);
    }
  }

  // What is stripped as `sqlite:` ends in a colon.
  lemma {:induction false} StrippedEndsInColon(x: string, z: string)
    requires x != "" && TrimStartMatches(x + z, "sqlite:") == z
    ensures x[|x| - 1] == ':'
    decreases |x|
  {
    if |x| >= 7 {
      PrefixOfSum("sqlite:", x, z);
      if |x| > 7 && "sqlite:" <= x { StrippedEndsInColon(x[7..], z); }
    }
  }

  // A text that ends in a slash and is stripped entirely is all scheme.
  lemma {:induction false} StrippedIsScheme(x: string, z: string)
    requires x == "" || x[|x| - 1] == '/'
    requires TrimStartMatches(TrimStartMatches(x + z, "sqlite://"), "sqlite:") == z
    ensures TrimStartMatches(x, "sqlite://") == ""
    decreases |x|
  {
    if x != "" {
      if "sqlite://" <= x + z {
        if |x| >= 9 {
          PrefixOfSum("sqlite://", x, z);
          StrippedIsScheme(x[9..], z);
        }
      } else {
        StrippedEndsInColon(x, z);
      }
    }
  }

  /** The base, as it stands in the text, is taken for the scheme, and a relative path follows it. */
  predicate TakenForScheme(base: string, text: string)
    requires base != ""
  {
    var d := Dir(base);
    && TrimStartMatches("sqlite:" + d, "sqlite://") == ""
    && d <= text && !IsAbsolute(text[|d|..]) && !("sqlite:" <= text[|d|..])
  }

  lemma TakenIsStripped(base: string, text: string)
    requires base != "" && TakenForScheme(base, text)
    ensures Trimmed("sqlite:" + text) == text[|Dir(base)|..]
  {
    var d := Dir(base);
    var z := text[|d|..];
    assert text == d + z;
    assert "sqlite:" + text == ("sqlite:" + d) + z;
    SchemeIsStripped("sqlite:" + d, z);
  }

  // The URL of a path with two leading slashes is read as another file, and rewritten to itself only
  // if what was stripped is just what joining puts back.
  lemma DoubleSlashStableIff(path: string, params: Option<string>, base: string)
    requires "//" <= path && IsAbsolute(base) && SqliteUrlFile(SqliteUrl(path, params)).Some?
    ensures ResolvedUrl(SqliteUrl(path, params), base, false) == SqliteUrl(path, params) <==>
            TakenForScheme(base, path + Tail(params))
  {
    var url, text := SqliteUrl(path, params), path + Tail(params);
    Associate("sqlite:", path, Tail(params));
    var u, rest := SqliteUrlFile(url).value, Trimmed(url);
    DoubleSlashIsLost(path, params);
    Reprint(rest);
    AgainStableIff(base, u, rest, text, url);
  }

  lemma AgainStableIff(base: string, u: UrlFile, rest: string, text: string, url: string)
    requires IsAbsolute(base) && url == "sqlite:" + text && rest == Trimmed(url) && |rest| < |text|
    requires u.file != "" && u.file + Tail(u.params) == rest
    ensures SqliteUrl(Join(base, u.file), u.params) == url <==> TakenForScheme(base, text)
  {
    FirstIsSame(u.file, Tail(u.params), rest);
    if IsAbsolute(u.file) {
      NotTaken(base, text);
      assert |SqliteUrl(u.file, u.params)| == 7 + |rest|;
    } else {
      RelativeAgain(base, u, rest);
      SameTail(text, Dir(base) + rest, SqliteUrl(Join(base, u.file), u.params), url);
      TakenIff(base, text);
    }
  }

  lemma NotTaken(base: string, text: string)
    requires base != "" && IsAbsolute(Trimmed("sqlite:" + text))
    ensures !TakenForScheme(base, text)
  {
    if TakenForScheme(base, text) { TakenIsStripped(base, text); }
  }

  lemma RelativeAgain(base: string, u: UrlFile, rest: string)
    requires IsAbsolute(base) && !IsAbsolute(u.file) && u.file + Tail(u.params) == rest
    ensures SqliteUrl(Join(base, u.file), u.params) == "sqlite:" + (Dir(base) + rest)
  {
    JoinRelative(base, u.file);
    Associate(Dir(base), u.file, Tail(u.params));
    Associate("sqlite:", Dir(base) + u.file, Tail(u.params));
  }

  lemma TakenIff(base: string, text: string)
    requires IsAbsolute(base) && !IsAbsolute(Trimmed("sqlite:" + text))
    ensures TakenForScheme(base, text) <==> text == Dir(base) + Trimmed("sqlite:" + text)
  {
    if TakenForScheme(base, text) { TakenIsStripped(base, text); }
    if text == Dir(base) + Trimmed("sqlite:" + text) { StrippedText(base, text, Trimmed("sqlite:" + text)); }
  }

  lemma FirstIsSame(file: string, tail: string, rest: string)
    requires file != "" && file + tail == rest
    ensures rest != "" && rest[0] == file[0] && (IsAbsolute(rest) <==> IsAbsolute(file))
  {
  }

  lemma SameTail(a: string, b: string, x: string, y: string)
    requires x == "sqlite:" + b && y == "sqlite:" + a
    ensures x == y <==> a == b
  {
    assert x[7..] == b && y[7..] == a;
  }

  lemma StrippedText(base: string, text: string, rest: string)
    requires IsAbsolute(base) && text == Dir(base) + rest && rest == Trimmed("sqlite:" + text) && !IsAbsolute(rest)
    ensures TakenForScheme(base, text)
  {
    var d := Dir(base);
    assert "sqlite:" + text == ("sqlite:" + d) + rest;
    StrippedIsScheme("sqlite:" + d, rest);
    TrimIsDone(TrimStartMatches("sqlite:" + text, "sqlite://"), "sqlite:");
    assert text[|d|..] == rest;
  }

  /** What the rewritten URL holds behind its scheme. */
  function NewText(u: UrlFile, base: string): string { Join(base, u.file) + Tail(u.params) }

  /** Something that the rewritten configuration names exists. */
  ghost predicate KeptAgain(c: Config, u: UrlFile, base: string, cwd: string, present: set<string>) {
    || AnyExists(c.dirs, base, present)
    || (RelativeDatabase("sqlite:" + NewText(u, base)).Some?
        && Join(cwd, RelativeDatabase("sqlite:" + NewText(u, base)).value) in present)
  }

  lemma KeepAgainIff(c: Config, u: UrlFile, base: string, cwd: string, present: set<string>)
    requires IsAbsolute(base) && !Keep(c, cwd, present) && SqliteUrlFile(c.url) == Some(u)
    ensures Keep(Resolved(c, base, cwd, present), cwd, present) <==> KeptAgain(c, u, base, cwd, present)
  {
    var r := Resolved(c, base, cwd, present);
    AllOrNothing(c, base, cwd, present);
    Sequel(Join(base, u.file), Tail(u.params), NewText(u, base), "");
    assert r.url == "sqlite:" + NewText(u, base);
    KeepIff(r, cwd, present);
    assert forall i :: 0 <= i < |r.dirs| ==> Join(cwd, r.dirs[i]) == Join(base, c.dirs[i]);
  }

  /**
   Resolving twice is resolving once, unless the database path under the base begins with two
   slashes; and then if and only if the new URL names no file, or something it or the directories
   name exists, or the base itself is what the parser takes for the scheme.
   */
  lemma ResolvingIsIdempotentIff(c: Config, base: string, cwd: string, present: set<string>)
    requires IsAbsolute(base)
    ensures var r, u := Resolved(c, base, cwd, present), SqliteUrlFile(c.url);
            Resolved(r, base, cwd, present) == r <==>
            (!Keep(c, cwd, present) && u.Some? && "//" <= Join(base, u.value.file) ==>
               || SqliteUrlFile("sqlite:" + NewText(u.value, base)).None?
               || KeptAgain(c, u.value, base, cwd, present)
               || TakenForScheme(base, NewText(u.value, base)))
  {
    var r, u := Resolved(c, base, cwd, present), SqliteUrlFile(c.url);
    AllOrNothing(c, base, cwd, present);
    AllOrNothing(r, base, cwd, present);
    if !Keep(c, cwd, present) {
      if !Keep(r, cwd, present) {
        assert Resolved(r, base, cwd, present).dirs == r.dirs;
      }
      if u.Some? {
        KeepAgainIff(c, u.value, base, cwd, present);
        UrlStableIff(u.value, base);
      }
    }
  }

  lemma UrlStableIff(u: UrlFile, base: string)
    requires IsAbsolute(base)
    ensures var url := SqliteUrl(Join(base, u.file), u.params);
            && url == "sqlite:" + NewText(u, base)
            && (ResolvedUrl(url, base, false) == url <==>
                ("//" <= Join(base, u.file) ==> SqliteUrlFile(url).None? || TakenForScheme(base, NewText(u, base))))
  {
    var path := Join(base, u.file);
    JoinIsAbsolute(base, u.file);
    Sequel(path, Tail(u.params), NewText(u, base), "");
    if !("//" <= path) {
      SingleSlashIsStable(path, u.params, base);
    } else if SqliteUrlFile(SqliteUrl(path, u.params)).Some? {
      DoubleSlashStableIff(path, u.params, base);
    }
  }

  /** An absolute database path with two leading slashes turns into a relative one. */
  lemma DoubleSlashTurnsRelative(base: string)
    requires IsAbsolute(base)
    ensures SqliteUrlFile("sqlite:////x") == Some(UrlFile("//x", None))
    ensures ResolvedUrl("sqlite:////x", base, false) == "sqlite://x"
    ensures SqliteUrlFile("sqlite://x") == Some(UrlFile("x", None))
  {
    assert "sqlite:////x" == "sqlite://" + "//x" && "sqlite:////x"[9..] == "//x";
    assert !("sqlite://" <= "//x") && !("sqlite:" <= "//x");
    SplitPrinted("//x", None);
    assert "//x" + "" == "//x" && "x" + "" == "x";
    assert "sqlite://x"[9..] == "x";
    SplitPrinted("x", None);
    assert Tail(None) == "";
  }

  // ---------- every form of the URL ----------

  lemma PrefixWithTail(prefix: string, f: string, tail: string)
    requires (tail == "" || tail[0] == '?') && '?' !in prefix
    ensures prefix <= f + tail <==> prefix <= f
  {
    var s := f + tail;
    if |prefix| <= |f| {
      assert s[..|prefix|] == f[..|prefix|];
    } else {
      assert tail != "" ==> s[|f|] == '?';
    }
  }

  lemma NothingToTrim(f: string, tail: string)
    requires (tail == "" || tail[0] == '?') && !("sqlite:" <= f)
    ensures Trimmed(f + tail) == f + tail
  {
    PrefixWithTail("sqlite:", f, tail);
    if "sqlite://" <= f + tail { ShorterScheme(f + tail); }
  }

  lemma SlashesAfterScheme(rest: string)
    ensures "sqlite://" <= "sqlite:" + rest ==> "//" <= rest
  {
    var url := "sqlite:" + rest;
    if "sqlite://" <= url { assert url[7] == rest[0] && url[8] == rest[1]; }
  }

  lemma TrimsOnce(f: string, tail: string)
    requires (tail == "" || tail[0] == '?') && !("sqlite:" <= f)
    ensures Trimmed("sqlite://" + (f + tail)) == f + tail
    ensures !("//" <= f) ==> Trimmed("sqlite:" + (f + tail)) == f + tail
  {
    var rest := f + tail;
    NothingToTrim(f, tail);
    assert ("sqlite://" + rest)[..9] == "sqlite://" && ("sqlite://" + rest)[9..] == rest;
    if !("//" <= f) {
      var url := "sqlite:" + rest;
      PrefixWithTail("//", f, tail);
      assert url[..7] == "sqlite:" && url[7..] == rest;
      SlashesAfterScheme(rest);
    }
  }

  /** The texts that name no file: nothing, `:memory:`, and everything that begins with `file::memory`. */
  predicate InMemory(f: string) { f == "" || f == ":memory:" || "file::memory" <= f }

  /** With one slash or none, and with two slashes taken for the scheme's, the URL names what is before the `?`. */
  lemma UrlOutcome(f: string, params: Option<string>)
    requires '?' !in f && !("sqlite:" <= f)
    ensures var u := if InMemory(f) then None else Some(UrlFile(f, params));
            && SqliteUrlFile("sqlite://" + (f + Tail(params))) == u
            && (!("//" <= f) ==> SqliteUrlFile("sqlite:" + (f + Tail(params))) == u)
  {
    var rest := f + Tail(params);
    TrimsOnce(f, Tail(params));
    SplitPrinted(f, params);
    assert ("sqlite://" + rest)[..7] == "sqlite:" && ("sqlite:" + rest)[..7] == "sqlite:";
  }

  /** Any other scheme names no file. */
  lemma OtherSchemes(url: string)
    requires |url| < 7 || url[..7] != "sqlite:"
    ensures SqliteUrlFile(url) == None
  {
  }

  // ---------- the report ----------

  function FieldName(i: nat): string
    requires i < 5
  {
    match i
    case 0 => "storage.block_dir"
    case 1 => "storage.temp_dir"
    case 2 => "storage.thumbnail_dir"
    case 3 => "storage.avatar_dir"
    case 4 => "index.index_dir"
  }

  /** The report names exactly the relative fields, the database first, each with the path it now has. */
  lemma ReportIsExact(c: Config, base: string, keep: bool, e: PathResolution)
    requires |c.dirs| == |FIELDS|
    ensures e in Report(c, base, keep) <==>
            && e.rewritten == !keep
            && (|| (var u := SqliteUrlFile(c.url);
                    e.field == "database.url" && u.Some? && !IsAbsolute(u.value.file)
                    && e.path == if keep then u.value.file else Join(base, u.value.file))
                || (exists i :: 0 <= i < 5 && e.field == FieldName(i) && !IsAbsolute(c.dirs[i])
                                && e.path == if keep then c.dirs[i] else Join(base, c.dirs[i])))
  {
    DirReportIsExact(c.dirs, base, keep, 5, e);
    assert forall i :: 0 <= i < 5 ==> FIELDS[i] == FieldName(i);
  }
}
