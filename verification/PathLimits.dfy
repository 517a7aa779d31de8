/**
 The limits on paths and names in plain terms: bytes, the nine characters, the order of the errors,
 and the device names.  Nothing here is stated through the definitions it is about.
 */
module PathLimits {
  import opened PathSegments
  import opened CanonicalPath
  import opened PathNames

  // ---------- bytes ----------

  function Above(s: string, n: int): nat {
    if s == "" then 0 else (if s[0] as int >= n then 1 else 0) + Above(s[1..], n)
  }

  /** UTF-8: one byte, and one more from each of U+0080, U+0800 and U+10000 on. */
  lemma {:induction false} BytesOf(s: string)
    ensures Size(s) == |s| + Above(s, 0x80) + Above(s, 0x800) + Above(s, 0x10000)
  {
    if s != "" { BytesOf(s[1..]); }
  }

  // ---------- the nine characters ----------

  /** None of NUL, tab, newline, carriage return, `"`, `'`, `<`, `>` and `\`. */
  predicate Clean(s: string) {
    forall i :: 0 <= i < |s| ==> s[i] as int !in {0, 9, 10, 13, 34, 39, 60, 62, 92}
  }

  lemma CodesOfNine(c: char)
    ensures IsInvalidChar(c) <==> c as int in {0, 9, 10, 13, 34, 39, 60, 62, 92}
  {
    assert '\0' as int == 0 && '\t' as int == 9 && '\n' as int == 10 && '\r' as int == 13 && '\"' as int == 34;
    assert '\'' as int == 39 && '<' as int == 60 && '>' as int == 62 && '\\' as int == 92;
  }

  lemma CleanIff(s: string)
    ensures Clean(s) <==> !HasInvalid(s)
  {
    forall i | 0 <= i < |s| ensures IsInvalidChar(s[i]) <==> s[i] as int in {0, 9, 10, 13, 34, 39, 60, 62, 92} {
      CodesOfNine(s[i]);
    }
  }

  /** One component, whatever it is: accepted as it stands, or refused for its length or for what it holds. */
  lemma ComponentOutcome(s: string)
    requires s != "" && s != "." && s != ".." && '/' !in s
    ensures Canonical("/" + s) ==
            if Size(s) + 1 > 4096 then Err(TooLong)
            else if exists i :: 0 <= i < |s| && s[i] as int == 0 then Err(NullByte)
            else if Clean(s) then Ok("/" + s)
            else Err(InvalidCharacters)
  {
    SizeConcat("/", s);
    assert Size("/") == 1 + Size("/"[1..]);
    PartsOfRooted(s);
    PartsOfPart(s);
    CleanIff(s);
    OneNameResolves(s);
    NullIsZero(s);
  }

  lemma OneNameResolves(s: string)
    requires s != ".."
    ensures Resolve([], [s]) == if HasInvalid(s) then Err(InvalidCharacters) else Ok([s])
    ensures Print([s]) == "/" + s
  {
    assert [s][1..] == [] && [] + [s] == [s];
    assert Slashed([s][1..]) == "" && Slashed([s]) == "/" + s + "" == "/" + s;
  }

  lemma NullIsZero(s: string)
    ensures '\0' in "/" + s <==> exists i :: 0 <= i < |s| && s[i] as int == 0
  {
    var p := "/" + s;
    if '\0' in p {
      var i :| 0 <= i < |p| && p[i] == '\0';
      assert p[0] == '/' && p[i] == s[i - 1];
      assert s[i - 1] as int == 0;
    }
    if exists i :: 0 <= i < |s| && s[i] as int == 0 {
      var i :| 0 <= i < |s| && s[i] as int == 0;
      assert s[i] == '\0' && p[i + 1] == s[i];
    }
  }

  lemma CleanConcat(a: string, b: string)
    ensures Clean(a + b) <==> Clean(a) && Clean(b)
  {
    assert forall i :: 0 <= i < |a| ==> (a + b)[i] == a[i];
    assert forall i :: 0 <= i < |b| ==> (a + b)[|a| + i] == b[i];
  }

  lemma {:induction false} SlashedIsClean(stack: seq<string>)
    requires AllNames(stack)
    ensures Clean(Slashed(stack))
  {
    if stack != [] {
      SlashedIsClean(stack[1..]);
      CleanIff(stack[0]);
      CleanConcat("/", stack[0]);
      CleanConcat("/" + stack[0], Slashed(stack[1..]));
    }
  }

  /** No result holds one of the nine characters, or is longer than 4096 bytes. */
  lemma ResultIsClean(path: string)
    requires Canonical(path).Ok?
    ensures Clean(Canonical(path).value) && Size(Canonical(path).value) <= 4096
  {
    var stack := ResolvedStack(path);
    SlashedIsClean(stack);
    ResultIsNormalForm(path);
  }

  // ---------- success and errors ----------

  lemma {:induction false} CharSurvivesSplit(s: string, c: char)
    requires c in s && c != '/'
    ensures exists i :: 0 <= i < |Split(s)| && c in Split(s)[i]
  {
    var rest := Split(s[1..]);
    if s[0] == c {
      assert c in Split(s)[0];
    } else {
      CharSurvivesSplit(s[1..], c);
      var i :| 0 <= i < |rest| && c in rest[i];
      assert if s[0] == '/' then Split(s)[i + 1] == rest[i] else c in Split(s)[i];
    }
  }

  lemma {:induction false} SegmentSurvives(segments: seq<string>, i: nat)
    requires i < |segments| && segments[i] != "" && segments[i] != "."
    ensures segments[i] in Keep(segments)
  {
    if i > 0 { SegmentSurvives(segments[1..], i - 1); }
  }

  // A character other than slash and dot is in some component.
  lemma CharSurvives(path: string, c: char)
    requires c in path && c != '/' && c != '.'
    ensures exists i :: 0 <= i < |Parts(path)| && c in Parts(path)[i]
  {
    CharSurvivesSplit(path, c);
    var i :| 0 <= i < |Split(path)| && c in Split(path)[i];
    SegmentSurvives(Split(path), i);
    var j :| 0 <= j < |Parts(path)| && Parts(path)[j] == Split(path)[i];
  }

  /**
   Success in plain terms: absolute, at most 4096 bytes, none of the nine characters in a component,
   and no prefix of the components with more `..` than names.
   */
  lemma SucceedsExactly(path: string)
    ensures Canonical(path).Ok? <==>
            && path != "" && path[0] == '/' && Size(path) <= 4096
            && (forall i :: 0 <= i < |Parts(path)| ==> Clean(Parts(path)[i]))
            && (forall k :: 0 <= k <= |Parts(path)| ==> Depth(Parts(path)[..k]) >= 0)
  {
    var parts := Parts(path);
    SucceedsIff(path);
    forall i | 0 <= i < |parts| ensures Clean(parts[i]) <==> !HasInvalid(parts[i]) { CleanIff(parts[i]); }
    assert forall i :: 0 <= i < |parts| && parts[i] == ".." ==> Clean(parts[i]);
    if '\0' in path {
      CharSurvives(path, '\0');
      var i :| 0 <= i < |parts| && '\0' in parts[i];
      var j :| 0 <= j < |parts[i]| && parts[i][j] == '\0';
      assert parts[i][j] as int == 0 && !Clean(parts[i]);
    }
  }

  // The component at `k` is the first that cannot be dealt with, and `e` says why.
  ghost predicate FirstOffence(parts: seq<string>, k: nat, e: Error) {
    && k < |parts| && Resolve([], parts[..k]).Ok?
    && if parts[k] == ".." then e == BeyondRoot && Resolve([], parts[..k]) == Ok([])
       else e == InvalidCharacters && !Clean(parts[k])
  }

  lemma {:induction false} FindOffence(done: seq<string>, stack: seq<string>, rest: seq<string>) returns (k: nat)
    requires Resolve([], done) == Ok(stack) && Resolve(stack, rest).Err?
    ensures FirstOffence(done + rest, k, Resolve(stack, rest).error)
    decreases |rest|
  {
    var part := rest[0];
    CleanIff(part);
    assert (done + rest)[..|done|] == done && (done + rest)[|done|] == part;
    if (part == ".." && stack == []) || (part != ".." && HasInvalid(part)) {
      k := |done|;
    } else {
      var stack' := if part == ".." then stack[..|stack| - 1] else stack + [part];
      ResolveConcat([], done, [part]);
      assert Resolve(stack, [part]) == Ok(stack') by { assert [part][1..] == []; }
      assert done + [part] + rest[1..] == done + rest;
      k := FindOffence(done + [part], stack', rest[1..]);
    }
  }

  /** Which error: empty, relative, too long, NUL, in this order, and then the first component that offends. */
  lemma ErrorIs(path: string)
    requires Canonical(path).Err?
    ensures var e := Canonical(path).error;
            if path == "" then e == EmptyPath
            else if path[0] != '/' then e == NotAbsolute
            else if Size(path) > 4096 then e == TooLong
            else if '\0' in path then e == NullByte
            else exists k :: FirstOffence(Parts(path), k, e)
  {
    if Limits(path).Ok? {
      var k := FindOffence([], [], Parts(path));
      assert [] + Parts(path) == Parts(path);
    }
  }

  // ---------- names ----------

  predicate IsLower(c: char) { 97 <= c as int <= 122 }

  // `a` is `b` but for the case of its letters, `b` being in capitals.
  predicate SameLetters(a: string, b: string) {
    && |a| == |b|
    && forall i :: 0 <= i < |a| ==> b[i] as int == if IsLower(a[i]) then a[i] as int - 32 else a[i] as int
  }

  /** The device names: six of them, and COM and LPT with a digit from 1 to 9. */
  predicate Device(s: string) {
    || s == "CON" || s == "PRN" || s == "AUX" || s == "NUL" || s == "CONIN$" || s == "CONOUT$"
    || (|s| == 4 && (s[..3] == "COM" || s[..3] == "LPT") && '1' <= s[3] <= '9')
  }

  lemma DevicesAre(s: string)
    ensures Device(s) <==> s in WINDOWS_RESERVED
  {
    if |s| == 4 {
      assert s == s[..3] + [s[3]];
      assert "COM" + "1" == "COM1" && "COM" + "2" == "COM2" && "COM" + "3" == "COM3" && "COM" + "4" == "COM4";
      assert "COM" + "5" == "COM5" && "COM" + "6" == "COM6" && "COM" + "7" == "COM7" && "COM" + "8" == "COM8";
      assert "COM" + "9" == "COM9" && "LPT" + "9" == "LPT9";
      assert "LPT" + "1" == "LPT1" && "LPT" + "2" == "LPT2" && "LPT" + "3" == "LPT3" && "LPT" + "4" == "LPT4";
      assert "LPT" + "5" == "LPT5" && "LPT" + "6" == "LPT6" && "LPT" + "7" == "LPT7" && "LPT" + "8" == "LPT8";
    }
  }

  // The name up to its first dot is `name[..m]`, and without the spaces at its end `name[..k]`.
  ghost predicate BaseIs(name: string, k: nat, m: nat) {
    && k <= m <= |name| && (forall i :: 0 <= i < m ==> name[i] != '.') && (m < |name| ==> name[m] == '.')
    && (forall i :: k <= i < m ==> name[i] == ' ') && (k > 0 ==> name[k - 1] != ' ')
  }

  lemma {:induction false} BeforeDotIs(name: string, m: nat)
    requires m <= |name| && (forall i :: 0 <= i < m ==> name[i] != '.') && (m < |name| ==> name[m] == '.')
    ensures BeforeDot(name) == name[..m]
  {
    if m > 0 {
      BeforeDotIs(name[1..], m - 1);
      assert name[..m] == [name[0]] + name[1..][..m - 1];
    }
  }

  lemma {:induction false} TrimmedIs(s: string, k: nat)
    requires k <= |s| && (forall i :: 0 <= i < |s| ==> s[i] != '.')
    requires (forall i :: k <= i < |s| ==> s[i] == ' ') && (k > 0 ==> s[k - 1] != ' ')
    ensures TrimDotsAndSpaces(s) == s[..k]
    decreases |s|
  {
    if k < |s| {
      TrimmedIs(s[..|s| - 1], k);
      assert s[..|s| - 1][..k] == s[..k];
    } else {
      assert s[..k] == s;
    }
  }

  lemma {:induction false} FindDot(name: string) returns (m: nat)
    ensures m <= |name| && (forall i :: 0 <= i < m ==> name[i] != '.') && (m < |name| ==> name[m] == '.')
  {
    m := 0;
    if name != "" && name[0] != '.' {
      m := FindDot(name[1..]);
      m := m + 1;
    }
  }

  lemma {:induction false} FindEnd(name: string, m: nat) returns (k: nat)
    requires m <= |name|
    ensures k <= m && (forall i :: k <= i < m ==> name[i] == ' ') && (k > 0 ==> name[k - 1] != ' ')
  {
    k := m;
    if m > 0 && name[m - 1] == ' ' { k := FindEnd(name, m - 1); }
  }

  lemma UpperIs(a: string, b: string)
    ensures Upper(a) == b <==> SameLetters(a, b)
  {
    assert 'a' as int == 97 && 'z' as int == 122;
    if SameLetters(a, b) {
      forall i | 0 <= i < |a| ensures Upper(a)[i] == b[i] { }
    }
  }

  lemma ReservedAt(name: string, k: nat, m: nat)
    requires BaseIs(name, k, m)
    ensures IsWindowsReserved(name) <==> exists d :: Device(d) && SameLetters(name[..k], d)
  {
    BeforeDotIs(name, m);
    TrimmedIs(name[..m], k);
    assert name[..m][..k] == name[..k];
    var u := Upper(name[..k]);
    DevicesAre(u);
    UpperIs(name[..k], u);
    forall d | Device(d) && SameLetters(name[..k], d) ensures d == u { UpperIs(name[..k], d); }
  }

  /** What follows the first dot, spaces before it, and the case of letters do not matter. */
  ghost predicate Reserved(name: string) {
    exists k: nat, m: nat, d :: BaseIs(name, k, m) && Device(d) && SameLetters(name[..k], d)
  }

  lemma ReservedIff(name: string)
    ensures IsWindowsReserved(name) <==> Reserved(name)
  {
    var m := FindDot(name);
    var k := FindEnd(name, m);
    ReservedAt(name, k, m);
    if IsWindowsReserved(name) {
      var d :| Device(d) && SameLetters(name[..k], d);
      assert BaseIs(name, k, m);
    }
    if Reserved(name) {
      var k': nat, m': nat, d :| BaseIs(name, k', m') && Device(d) && SameLetters(name[..k'], d);
      ReservedAt(name, k', m');
    }
  }

  /** What the validator says of a name, in plain terms and in its order. */
  lemma NameOutcome(name: string)
    ensures ValidateFilename(name) ==
            if |name| == 0 || name == "." || name == ".." then Refused(InvalidName)
            else if Size(name) > 255 then Refused(NameTooLong)
            else if !Clean(name) then Refused(NameCharacters)
            else if exists i :: 0 <= i < |name| && name[i] == '/' then Refused(NameSeparator)
            else if Reserved(name) then Refused(NameReserved)
            else Accepted
  {
    CleanIff(name);
    ReservedIff(name);
    NameChecks(name, !HasInvalid(name), IsWindowsReserved(name));
  }

  lemma NameChecks(name: string, clean: bool, reserved: bool)
    requires clean == !HasInvalid(name) && reserved == IsWindowsReserved(name)
    ensures ValidateFilename(name) ==
            if |name| == 0 || name == "." || name == ".." then Refused(InvalidName)
            else if Size(name) > 255 then Refused(NameTooLong)
            else if !clean then Refused(NameCharacters)
            else if exists i :: 0 <= i < |name| && name[i] == '/' then Refused(NameSeparator)
            else if reserved then Refused(NameReserved)
            else Accepted
  {
  }

  // ---------- the last slash ----------

  /** A path without a slash has parent `/` and no basename; any other is cut at its last slash. */
  lemma HalvesAre(path: string)
    ensures '/' !in path ==> ParentPath(path) == "/" && Basename(path) == ""
    ensures '/' in path ==>
              exists before, after :: path == before + "/" + after && '/' !in after
                && ParentPath(path) == (if before == "" then "/" else before) && Basename(path) == after
  {
    if '/' in path {
      var i := LastSlash(path);
      RSplitAt(path[..i], path[i + 1..]);
      assert path == path[..i] + "/" + path[i + 1..];
    } else {
      NoSlashNoHalves(path);
    }
  }

  lemma {:induction false} LastSlash(path: string) returns (i: nat)
    requires '/' in path
    ensures i < |path| && path[i] == '/' && '/' !in path[i + 1..]
    decreases |path|
  {
    i := |path| - 1;
    if path[i] != '/' {
      var init := path[..i];
      assert path == init + [path[i]];
      i := LastSlash(init);
      assert path[i + 1..] == init[i + 1..] + [path[|path| - 1]];
    }
  }

  lemma {:induction false} NoSlashNoHalves(path: string)
    requires '/' !in path
    ensures RSplitOnce(path).NoSlash?
    decreases |path|
  {
    if path != "" { NoSlashNoHalves(path[..|path| - 1]); }
  }
}
