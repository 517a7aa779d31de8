/**
 `safe_join_path` and `safe_normalize_path`: when joining in two steps is joining at once, and
 when normalising twice is normalising once.
 */
module SafeJoin {
  import opened Options
  import opened PathSegments
  import opened CanonicalPath

  // The Unicode White_Space property.
  predicate IsWhitespace(c: char) {
    var n := c as int;
    || 0x09 <= n <= 0x0d || n == 0x20 || n == 0x85 || n == 0xa0 || n == 0x1680 || 0x2000 <= n <= 0x200a
    || n == 0x2028 || n == 0x2029 || n == 0x202f || n == 0x205f || n == 0x3000
  }

  function TrimStart(s: string): string {
    if s != "" && IsWhitespace(s[0]) then TrimStart(s[1..]) else s
  }

  function TrimEnd(s: string): string {
    if s != "" && IsWhitespace(s[|s| - 1]) then TrimEnd(s[..|s| - 1]) else s
  }

  function Trim(s: string): string { TrimEnd(TrimStart(s)) }

  function TrimSlashes(s: string): string {
    if s != "" && s[0] == '/' then TrimSlashes(s[1..]) else s
  }

  function Combine(base: string, relative: string): string {
    if base == "/" then "/" + relative else base + "/" + relative
  }

  function Join(base: string, relative: string): Result<string> {
    match Canonical(base)
    case Err(e) => Err(e)
    case Ok(b) => if Trim(relative) == "" then Ok(b) else Canonical(Combine(b, TrimSlashes(relative)))
  }

  function Normalize(path: string): Result<string> {
    var trimmed := Trim(path);
    if trimmed == "" then Ok("/")
    else Canonical(if trimmed[0] == '/' then trimmed else "/" + trimmed)
  }

  // ---------- blanks ----------

  ghost predicate Blank(s: string) { forall i :: 0 <= i < |s| ==> IsWhitespace(s[i]) }

  /** A text that is empty or not blank: joining it goes through the general case or changes nothing. */
  ghost predicate Plain(s: string) { s == "" || !Blank(s) }

  lemma {:induction false} TrimStartBlank(s: string)
    ensures TrimStart(s) == "" <==> Blank(s)
    ensures TrimStart(s) != "" ==> !IsWhitespace(TrimStart(s)[0])
    ensures |TrimStart(s)| <= |s| && TrimStart(s) == s[|s| - |TrimStart(s)|..]
  {
    if s != "" && IsWhitespace(s[0]) {
      TrimStartBlank(s[1..]);
      assert forall i :: 0 <= i < |s[1..]| ==> s[1..][i] == s[i + 1];
    }
  }

  lemma {:induction false} TrimEndKeepsFirst(s: string)
    requires s != "" && !IsWhitespace(s[0])
    ensures TrimEnd(s) != "" && TrimEnd(s)[0] == s[0] && TrimEnd(s) <= s
    decreases |s|
  {
    if IsWhitespace(s[|s| - 1]) { TrimEndKeepsFirst(s[..|s| - 1]); }
  }

  lemma TrimBlank(s: string)
    ensures Trim(s) == "" <==> Blank(s)
  {
    TrimStartBlank(s);
    if TrimStart(s) != "" { TrimEndKeepsFirst(TrimStart(s)); }
  }

  // ---------- what joining does to components ----------

  lemma {:induction false} TrimSlashesParts(s: string)
    ensures Parts(TrimSlashes(s)) == Parts(s)
    ensures Size(TrimSlashes(s)) <= Size(s) && ('\0' in TrimSlashes(s) ==> '\0' in s)
  {
    if s != "" && s[0] == '/' {
      TrimSlashesParts(s[1..]);
      assert s == "" + "/" + s[1..];
      PartsOfSlash("", s[1..]);
      PartsOfNothing();
    }
  }

  lemma CombineFacts(b: string, rel: string)
    requires b != "" && b[0] == '/'
    ensures Parts(Combine(b, rel)) == Parts(b) + Parts(rel)
    ensures Size(Combine(b, rel)) == (if b == "/" then 0 else Size(b)) + 1 + Size(rel)
    ensures Combine(b, rel) != "" && Combine(b, rel)[0] == '/'
    ensures '\0' in Combine(b, rel) <==> '\0' in b || '\0' in rel
  {
    PartsOfNothing();
    assert Size("/") == 1 + Size("/"[1..]);
    if b == "/" {
      PartsOfSlash("", rel);
      assert "/" + rel == "" + "/" + rel;
      SizeConcat("/", rel);
    } else {
      PartsOfSlash(b, rel);
      SizeConcat(b + "/", rel);
      SizeConcat(b, "/");
    }
  }

  /** Joining a relative path that is not blank, on the stack of the base. */
  lemma JoinResolves(base: string, b: string, rel: string)
    requires Canonical(base) == Ok(b) && !Blank(rel)
    ensures Join(base, rel) == Canonical(Combine(b, TrimSlashes(rel)))
    ensures Parts(Combine(b, TrimSlashes(rel))) == Parts(b) + Parts(rel)
    ensures Resolve([], Parts(b)) == Ok(Parts(b))
  {
    TrimBlank(rel);
    TrimSlashesParts(rel);
    var stack := ResolvedStack(base);
    PrintSize(stack);
    CombineFacts(b, TrimSlashes(rel));
    ResolveNames([], stack);
    assert [] + stack == stack;
  }

  lemma SlashIsNotBlank(x: string, y: string)
    ensures !Blank(x + "/" + y)
  {
    assert (x + "/" + y)[|x|] == '/';
  }

  // ---------- joining composes ----------

  /** The text after the leading slashes of x/y: slashes are stripped from y only if x is nothing but slashes. */
  lemma {:induction false} TrimSlashesOfJoined(x: string, y: string)
    ensures TrimSlashes(x + "/" + y)
         == if TrimSlashes(x) == "" then TrimSlashes(y) else TrimSlashes(x) + "/" + y
  {
    var s := x + "/" + y;
    if x == "" {
      assert s[1..] == y;
    } else {
      assert s[1..] == x[1..] + "/" + y && s[0] == x[0];
      if x[0] == '/' { TrimSlashesOfJoined(x[1..], y); }
    }
  }

  // The first step of a successful joint join: it succeeds, within the limits.
  lemma FirstStep(base: string, b: string, x: string, y: string)
    requires Canonical(base) == Ok(b) && Join(base, x + "/" + y).Ok? && Plain(x)
    ensures Join(base, x).Ok?
    ensures Resolve(Parts(b), Parts(x)) == Ok(Parts(Join(base, x).value))
    ensures var j, tx := Join(base, x).value, TrimSlashes(x);
            (if j == "/" then 0 else Size(j)) <=
            (if b == "/" then 0 else Size(b)) + (if tx == "" then 0 else 1 + Size(tx))
  {
    SlashIsNotBlank(x, y);
    JoinResolves(base, b, x + "/" + y);
    PartsOfSlash(x, y);
    var stack := ResolvedStack(base);
    PrintSize(stack);
    CombineFacts(b, TrimSlashes(x + "/" + y));
    ResolveConcat([], Parts(b), Parts(x) + Parts(y));
    ResolveConcat(Parts(b), Parts(x), Parts(y));
    TrimBlank(x);
    TrimSlashesParts(x);
    if x == "" {
      PartsOfNothing();
    } else {
      JoinResolves(base, b, x);
      FirstStepLimits(b, x, y);
      ResolveConcat([], Parts(b), Parts(x));
      var j := Combine(b, TrimSlashes(x));
      var stack' := ResolvedStack(j);
      PrintSize(stack');
      StackSize(stack, stack', b, x);
    }
  }

  lemma FirstStepLimits(b: string, x: string, y: string)
    requires b != "" && b[0] == '/' && Limits(Combine(b, TrimSlashes(x + "/" + y))).Ok?
    ensures Limits(Combine(b, TrimSlashes(x))).Ok?
  {
    var tx := TrimSlashes(x);
    TrimSlashesOfJoined(x, y);
    CombineFacts(b, TrimSlashes(x + "/" + y));
    CombineFacts(b, tx);
    if tx != "" {
      SizeConcat(tx + "/", y);
      SizeConcat(tx, "/");
    }
  }

  // The stack after the first step prints no longer than base, slash and relative part.
  lemma StackSize(stack: seq<string>, stack': seq<string>, b: string, x: string)
    requires AllNames(stack) && b == Print(stack)
    requires Parts(b) == stack && Resolve(stack, Parts(x)) == Ok(stack')
    ensures (if Print(stack') == "/" then 0 else Size(Print(stack')))
         <= (if b == "/" then 0 else Size(b)) + (if TrimSlashes(x) == "" then 0 else 1 + Size(TrimSlashes(x)))
  {
    PartsAreParts(x);
    ResolveKeepsNames(stack, Parts(x));
    PrintSize(stack);
    PrintSize(stack');
    NamesAreParts(stack');
    NamesAreParts(stack);
    PrintRoot(stack);
    PrintRoot(stack');
    TrimSlashesParts(x);
    PartsOfNothing();
    if TrimSlashes(x) != "" { RelativeWeight(TrimSlashes(x)); }
  }

  lemma PrintRoot(stack: seq<string>)
    requires AllParts(stack)
    ensures Print(stack) == "/" <==> stack == []
  {
  }

  lemma RelativeWeight(s: string)
    ensures Weight(Parts(s)) <= Size(s) + 1
  {
    SplitWeight(s);
    KeepWeight(Split(s));
  }

  lemma WholeParts(base: string, b: string, x: string, y: string)
    requires Canonical(base) == Ok(b) && Resolve(Parts(b), Parts(x)).Ok?
    ensures var whole := Combine(b, TrimSlashes(x + "/" + y));
            && Join(base, x + "/" + y) == Canonical(whole)
            && Resolve([], Parts(whole)) == Resolve(Resolve(Parts(b), Parts(x)).value, Parts(y))
  {
    SlashIsNotBlank(x, y);
    JoinResolves(base, b, x + "/" + y);
    PartsOfSlash(x, y);
    ResolveConcat([], Parts(b), Parts(x) + Parts(y));
    ResolveConcat(Parts(b), Parts(x), Parts(y));
  }

  lemma SecondStep(base: string, b: string, x: string, y: string)
    requires Canonical(base) == Ok(b) && Join(base, x + "/" + y).Ok? && Plain(x) && Plain(y)
    ensures Join(base, x).Ok? && Join(Join(base, x).value, y) == Join(base, x + "/" + y)
  {
    FirstStep(base, b, x, y);
    WholeParts(base, b, x, y);
    JoinedIsFixed(base, x);
    var j, whole := Join(base, x).value, Combine(b, TrimSlashes(x + "/" + y));
    if y == "" {
      PartsOfNothing();
      NothingToJoin(j, whole);
    } else {
      SecondStepLimits(b, j, x, y);
      JoinMeets(j, y, whole);
    }
  }

  lemma NothingToJoin(j: string, whole: string)
    requires Canonical(j) == Ok(j) && Canonical(whole).Ok? && Resolve([], Parts(whole)) == Ok(Parts(j))
    ensures Join(j, "") == Canonical(whole)
  {
    TrimBlank("");
    var stack := ResolvedStack(whole);
    var printed := ResolvedStack(j);
  }

  // Joining to a canonical path what takes its stack where another path leads.
  lemma JoinMeets(j: string, y: string, whole: string)
    requires Canonical(j) == Ok(j) && Canonical(whole).Ok? && !Blank(y)
    requires Resolve([], Parts(whole)) == Resolve(Parts(j), Parts(y)) && Limits(Combine(j, TrimSlashes(y))).Ok?
    ensures Join(j, y) == Canonical(whole)
  {
    JoinResolves(j, j, y);
    ResolveConcat([], Parts(j), Parts(y));
    var stack := ResolvedStack(whole);
  }

  lemma JoinedIsFixed(base: string, x: string)
    requires Join(base, x).Ok?
    ensures Canonical(Join(base, x).value) == Join(base, x)
  {
    var b := Canonical(base).value;
    ResultIsNormalForm(base);
    if Trim(x) != "" { ResultIsNormalForm(Combine(b, TrimSlashes(x))); }
  }

  lemma SecondStepLimits(b: string, j: string, x: string, y: string)
    requires b != "" && b[0] == '/' && j != "" && j[0] == '/' && '\0' !in j
    requires (if j == "/" then 0 else Size(j)) <=
             (if b == "/" then 0 else Size(b)) + (if TrimSlashes(x) == "" then 0 else 1 + Size(TrimSlashes(x)))
    requires Limits(Combine(b, TrimSlashes(x + "/" + y))).Ok?
    ensures Limits(Combine(j, TrimSlashes(y))).Ok?
  {
    JoinedSize(x, y);
    CombineFacts(b, TrimSlashes(x + "/" + y));
    CombineFacts(j, TrimSlashes(y));
  }

  lemma JoinedSize(x: string, y: string)
    ensures var tx, whole := TrimSlashes(x), TrimSlashes(x + "/" + y);
            && (if tx == "" then 0 else 1 + Size(tx)) + Size(TrimSlashes(y)) <= Size(whole)
            && ('\0' in TrimSlashes(y) ==> '\0' in whole)
  {
    var tx := TrimSlashes(x);
    TrimSlashesOfJoined(x, y);
    TrimSlashesParts(y);
    if tx != "" {
      SizeConcat(tx + "/", y);
      SizeConcat(tx, "/");
      assert Size("/") == 1 + Size("/"[1..]);
    }
  }

  lemma BlankParts(s: string)
    requires Blank(s) && s != ""
    ensures Parts(s) == [s] && Depth(Parts(s)) == 1
  {
    assert IsWhitespace(s[0]) && '/' !in s;
    PartsOfPart(s);
    assert [s][..0] == [];
  }

  /** How deep a join ends: a blank relative path does not count, whatever it holds. */
  lemma JoinDepth(base: string, rel: string)
    requires Join(base, rel).Ok?
    ensures Canonical(base).Ok?
    ensures |Parts(Join(base, rel).value)|
             == |Parts(Canonical(base).value)| + if Blank(rel) then 0 else Depth(Parts(rel))
  {
    var b := Canonical(base).value;
    TrimBlank(rel);
    if !Blank(rel) {
      JoinResolves(base, b, rel);
      var stack := ResolvedStack(Combine(b, TrimSlashes(rel)));
      DepthConcat(Parts(b), Parts(rel));
      PartsAreParts(b);
      ResolveKeepsNames([], Parts(b));
    }
  }

  lemma {:induction false} DepthConcat(a: seq<string>, b: seq<string>)
    ensures Depth(a + b) == Depth(a) + Depth(b)
    decreases |b|
  {
    if b == [] {
      assert a + b == a;
    } else {
      DepthConcat(a, b[..|b| - 1]);
      assert (a + b)[..|a + b| - 1] == a + b[..|b| - 1];
    }
  }

  /**
   Joining composes.  When x/y can be joined to a base at once, joining x and then y gives the
   same result, within the length limits of both steps, if and only if neither x nor y is a
   non-empty blank text: a blank step is skipped, but inside x/y it is a name.
   */
  lemma JoinComposesIff(base: string, x: string, y: string)
    requires Join(base, x + "/" + y).Ok?
    ensures (Join(base, x).Ok? && Join(Join(base, x).value, y) == Join(base, x + "/" + y)) <==> Plain(x) && Plain(y)
  {
    var b := Canonical(base).value;
    if Plain(x) && Plain(y) {
      SecondStep(base, b, x, y);
    } else if Join(base, x).Ok? && Join(Join(base, x).value, y) == Join(base, x + "/" + y) {
      SlashIsNotBlank(x, y);
      JoinDepth(base, x + "/" + y);
      JoinDepth(base, x);
      JoinDepth(Join(base, x).value, y);
      JoinedIsFixed(base, x);
      PartsOfSlash(x, y);
      DepthConcat(Parts(x), Parts(y));
      PartsOfNothing();
      if Blank(x) && x != "" { BlankParts(x); }
      if Blank(y) && y != "" { BlankParts(y); }
      assert false;
    }
  }

  // ---------- normalising twice ----------

  lemma {:induction false} TrimEndShrinks(s: string)
    ensures TrimEnd(s) == s <==> s == "" || !IsWhitespace(s[|s| - 1])
    ensures Size(TrimEnd(s)) <= Size(s) && (TrimEnd(s) != s ==> Size(TrimEnd(s)) < Size(s))
    decreases |s|
  {
    if s != "" && IsWhitespace(s[|s| - 1]) {
      var init := s[..|s| - 1];
      TrimEndShrinks(init);
      assert s == init + [s[|s| - 1]];
      SizeConcat(init, [s[|s| - 1]]);
    }
  }

  /** The last component that no later `..` takes back; `skip` components are taken back already. */
  function Survivor(parts: seq<string>, skip: nat): Option<string>
    decreases |parts|
  {
    if parts == [] then None
    else
      var init, last := parts[..|parts| - 1], parts[|parts| - 1];
      if last == ".." then Survivor(init, skip + 1)
      else if skip > 0 then Survivor(init, skip - 1)
      else Some(last)
  }

  /** Scanning back finds what is left on top of the stack. */
  lemma {:induction false} SurvivorIsOnTop(parts: seq<string>, skip: nat)
    requires Resolve([], parts).Ok?
    ensures var stack := Resolve([], parts).value;
            Survivor(parts, skip) == if skip < |stack| then Some(stack[|stack| - 1 - skip]) else None
    decreases |parts|
  {
    if parts != [] {
      var init, last := parts[..|parts| - 1], parts[|parts| - 1];
      assert parts == init + [last] && [last][1..] == [];
      ResolveConcat([], init, [last]);
      if last == ".." {
        SurvivorIsOnTop(init, skip + 1);
      } else if skip > 0 {
        SurvivorIsOnTop(init, skip - 1);
      }
    }
  }

  predicate EndsBlank(part: Option<string>) {
    part.Some? && part.value != "" && IsWhitespace(part.value[|part.value| - 1])
  }

  lemma PrintEnds(stack: seq<string>)
    requires AllNames(stack) && stack != []
    ensures Print(stack) != "" && stack[|stack| - 1] != ""
    ensures Print(stack)[|Print(stack)| - 1] == stack[|stack| - 1][|stack[|stack| - 1]| - 1]
  {
    var init, last := stack[..|stack| - 1], stack[|stack| - 1];
    assert IsName(last) && stack == init + [last];
    SlashedAppend(init, last);
  }

  /**
   Normalising is not idempotent: the result is a fixed point if and only if the last component of
   the trimmed path that no `..` takes back does not end in white space.
   */
  lemma NormalizeIsFixedIff(path: string)
    requires Normalize(path).Ok?
    ensures var r := Normalize(path).value;
            Normalize(r) == Ok(r) <==> !EndsBlank(Survivor(Parts(Trim(path)), 0))
  {
    ResultFixedIff(path);
    if Trim(path) == "" {
      PartsOfNothing();
    } else {
      PartsOfRooted(Trim(path));
      EndOfCanonical(if Trim(path)[0] == '/' then Trim(path) else "/" + Trim(path));
    }
  }

  lemma EndOfCanonical(path: string)
    requires Canonical(path).Ok?
    ensures var r := Canonical(path).value;
            r != "" && (IsWhitespace(r[|r| - 1]) <==> EndsBlank(Survivor(Parts(path), 0)))
  {
    var stack := ResolvedStack(path);
    SurvivorIsOnTop(Parts(path), 0);
    if stack != [] { PrintEnds(stack); }
  }

  /** The fixed points of normalising: canonical paths within the limit that do not end in white space. */
  lemma NormalizeFixesIff(p: string)
    ensures Normalize(p) == Ok(p) <==>
            p != "" && IsCanonical(p) && Size(p) <= 4096 && !IsWhitespace(p[|p| - 1])
  {
    FixedIffCanonical(p);
    if Normalize(p) == Ok(p) {
      NormalizeIsCanonical(p);
      ResultFixedIff(p);
    }
    if p != "" && Canonical(p) == Ok(p) && !IsWhitespace(p[|p| - 1]) {
      TrimStartBlank(p);
      TrimEndShrinks(p);
      assert Trim(p) == p;
    }
  }

  // A second pass trims the end of the first one's result, and nothing else.
  lemma ResultFixedIff(path: string)
    requires Normalize(path).Ok?
    ensures var r := Normalize(path).value;
            r != "" && (Normalize(r) == Ok(r) <==> !IsWhitespace(r[|r| - 1]))
  {
    var r := Normalize(path).value;
    NormalizeIsCanonical(path);
    TrimStartBlank(r);
    TrimEndKeepsFirst(r);
    TrimEndShrinks(r);
    if TrimEnd(r) != r && Canonical(TrimEnd(r)).Ok? { ResultIsNormalForm(TrimEnd(r)); }
  }

  lemma NormalizeIsCanonical(path: string)
    requires Normalize(path).Ok?
    ensures var r := Normalize(path).value;
            r != "" && r[0] == '/' && Canonical(r) == Ok(r)
  {
    if Trim(path) != "" {
      ResultIsNormalForm(if Trim(path)[0] == '/' then Trim(path) else "/" + Trim(path));
    } else {
      PrintIsFixed([]);
      PrintSize([]);
    }
  }

  // ---------- two inputs outside the conditions ----------

  lemma PlainNames(stack: seq<string>)
    requires stack == [" ", "a"] || stack == ["a "] || stack == ["a"]
    ensures AllNames(stack)
  {
  }

  lemma Printed()
    ensures Slashed(["a"]) == "/a" && Slashed([" ", "a"]) == "/ /a" && Slashed(["a "]) == "/a "
    ensures Size("/a") <= 3 && Size("/ /a") <= 5 && Size("/a ") <= 4
  {
  }

  lemma OneJoin(rel: string, names: seq<string>)
    requires !Blank(rel) && TrimSlashes(rel) == rel && AllNames(names) && names != []
    requires Slashed(names) == "/" + rel && Size(Slashed(names)) <= MAX_PATH_LEN
    ensures Join("/", rel) == Ok("/" + rel)
  {
    PrintIsFixed([]);
    PrintSize([]);
    PrintIsFixed(names);
    JoinResolves("/", "/", rel);
  }

  /** Joining " " and then "a" to the root skips the blank; joining " /a" keeps it as a directory. */
  lemma BlankStepDiffers()
    ensures Join("/", " " + "/" + "a") == Ok("/ /a")
    ensures Join("/", " ") == Ok("/") && Join("/", "a") == Ok("/a")
  {
    Printed();
    PlainNames([" ", "a"]);
    PlainNames(["a"]);
    SlashIsNotBlank(" ", "a");
    assert " " + "/" + "a" == " /a";
    OneJoin(" /a", [" ", "a"]);
    assert "a"[0] == 'a' && !IsWhitespace('a');
    OneJoin("a", ["a"]);
    TrimBlank(" ");
    PrintIsFixed([]);
    PrintSize([]);
  }

  lemma FirstPass()
    ensures Normalize("/a /") == Ok("/a ")
  {
    Printed();
    PlainNames(["a "]);
    PrintIsFixed(["a "]);
    assert TrimEnd("/a /") == "/a /";
    assert "/a /" == "/a " + "/" + "" && "/a " == "/a " + "";
    SizeConcat("/a ", "/");
    assert Size("/") == 1 + Size("/"[1..]);
    InsertionChangesNothingIff("/a ", "/", "");
  }

  lemma SecondPass()
    ensures Normalize("/a ") == Ok("/a")
  {
    Printed();
    PlainNames(["a"]);
    PrintIsFixed(["a"]);
    assert "/a "[..2] == "/a";
    assert TrimEnd("/a") == "/a";
  }

  /** Normalising "/a /" gives a name that ends in a space, and normalising that drops the space. */
  lemma NormalizeTwiceDiffers()
    ensures Normalize("/a /") == Ok("/a ") && Normalize("/a ") == Ok("/a")
  {
    FirstPass();
    SecondPass();
  }

  // ---------- what trimming and rooting do ----------

  /** Trimming takes white space off both ends, all of it and nothing else. */
  lemma TrimIs(s: string) returns (before: string, after: string)
    ensures s == before + Trim(s) + after && Blank(before) && Blank(after)
    ensures Trim(s) != "" ==> !IsWhitespace(Trim(s)[0]) && !IsWhitespace(Trim(s)[|Trim(s)| - 1])
  {
    var tail := TrimStart(s);
    TrimStartBlank(s);
    TrimStartTakes(s);
    before := s[..|s| - |tail|];
    TrimEndTakes(tail);
    after := tail[|Trim(s)|..];
    assert s == before + tail && tail == Trim(s) + after;
    if tail != "" { TrimEndKeepsFirst(tail); }
  }

  lemma {:induction false} TrimStartTakes(s: string)
    ensures |TrimStart(s)| <= |s| && Blank(s[..|s| - |TrimStart(s)|])
  {
    if s != "" && IsWhitespace(s[0]) {
      TrimStartTakes(s[1..]);
      var n := |s| - |TrimStart(s)|;
      assert s[..n] == [s[0]] + s[1..][..n - 1];
    }
  }

  lemma {:induction false} TrimEndTakes(s: string)
    ensures TrimEnd(s) <= s && Blank(s[|TrimEnd(s)|..])
    ensures TrimEnd(s) != "" ==> !IsWhitespace(TrimEnd(s)[|TrimEnd(s)| - 1])
    decreases |s|
  {
    if s != "" && IsWhitespace(s[|s| - 1]) {
      var init := s[..|s| - 1];
      TrimEndTakes(init);
      assert s[|TrimEnd(init)|..] == init[|TrimEnd(init)|..] + [s[|s| - 1]];
    }
  }

  lemma AlreadyTrimmed(s: string)
    requires s != "" && !IsWhitespace(s[0]) && !IsWhitespace(s[|s| - 1])
    ensures Trim(s) == s
  {
  }

  /** A path that is not blank is read as absolute: a slash is put in front unless there is one. */
  lemma NormalizeRoots(p: string)
    requires p != "" && !IsWhitespace(p[0]) && !IsWhitespace(p[|p| - 1])
    ensures p[0] == '/' ==> Normalize(p) == Canonical(p)
    ensures p[0] != '/' ==> Normalize(p) == Canonical("/" + p) == Normalize("/" + p)
  {
    AlreadyTrimmed(p);
    assert ("/" + p)[0] == '/' && ("/" + p)[|p|] == p[|p| - 1];
    AlreadyTrimmed("/" + p);
  }

  /** White space around a path does not matter, and nothing but white space is the root. */
  lemma NormalizeTrims(p: string, before: string, after: string)
    requires Blank(before) && Blank(after) && (p != "" ==> !IsWhitespace(p[0]) && !IsWhitespace(p[|p| - 1]))
    ensures Normalize(before + p + after) == if p == "" then Ok("/") else Normalize(p)
  {
    if p == "" {
      assert Blank(before + p + after);
      TrimBlank(before + p + after);
    } else {
      TrimAround(before, p, after);
      AlreadyTrimmed(p);
    }
  }

  lemma {:induction false} TrimAround(before: string, p: string, after: string)
    requires Blank(before) && Blank(after) && p != "" && !IsWhitespace(p[0]) && !IsWhitespace(p[|p| - 1])
    ensures Trim(before + p + after) == p
    decreases |before| + |after|
  {
    var s := before + p + after;
    if before != "" {
      assert s[0] == before[0] && s[1..] == before[1..] + p + after;
      TrimAround(before[1..], p, after);
    } else {
      assert s == p + after && s[0] == p[0];
      TrimAfter(p, after);
    }
  }

  lemma {:induction false} TrimAfter(p: string, after: string)
    requires Blank(after) && p != "" && !IsWhitespace(p[|p| - 1])
    ensures TrimEnd(p + after) == p
    decreases |after|
  {
    if after == "" {
      assert p + after == p;
    } else {
      var s := p + after;
      assert s[|s| - 1] == after[|after| - 1] && s[..|s| - 1] == p + after[..|after| - 1];
      TrimAfter(p, after[..|after| - 1]);
    }
  }

  /** Names joined by slashes without one in front, like "foo/bar", are the absolute path of these names. */
  lemma RelativeNames(names: seq<string>, p: string)
    requires AllNames(names) && names != [] && Slashed(names) == "/" + p && Size("/" + p) <= 4096
    requires !IsWhitespace(names[0][0]) && !EndsBlank(Some(names[|names| - 1]))
    ensures Normalize(p) == Ok("/" + p)
  {
    assert IsName(names[0]) && Slashed(names)[1] == names[0][0] == p[0];
    PrintEnds(names);
    assert p[|p| - 1] == Slashed(names)[|p|];
    NormalizeRoots(p);
    PrintIsFixed(names);
  }

  lemma {:induction false} ShortText(s: string)
    ensures Size(s) <= 4 * |s|
  {
    if s != "" { ShortText(s[1..]); }
  }

  /** Slashes in front of what is joined do not matter. */
  lemma LeadingSlashIsIgnored(base: string, rel: string)
    requires !Blank(rel)
    ensures Join(base, "/" + rel) == Join(base, rel)
  {
    TrimBlank(rel);
    TrimBlank("/" + rel);
    assert ("/" + rel)[0] == '/' && ("/" + rel)[1..] == rel;
  }

  /** The characters that count as white space, one by one: joining one of them alone changes nothing. */
  lemma OneCharacter(c: char)
    requires IsName([c])
    ensures Join("/", [c]) ==
            if c as int in {9, 10, 11, 12, 13, 32, 0x85, 0xa0, 0x1680, 0x2028, 0x2029, 0x202f, 0x205f, 0x3000}
               || 0x2000 <= c as int <= 0x200a
            then Ok("/") else Ok("/" + [c])
  {
    TrimBlank([c]);
    PrintIsFixed([]);
    PrintSize([]);
    assert Blank([c]) <==> IsWhitespace([c][0]);
    if !IsWhitespace(c) {
      assert Slashed([[c]]) == "/" + [c] by { assert [[c]][1..] == [] && "/" + [c] + "" == "/" + [c]; }
      ShortText("/" + [c]);
      OneJoin([c], [[c]]);
    }
  }
}
