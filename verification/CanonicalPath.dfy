/**
 `canonicalize_path`: `.` and `..` resolved on a stack, with the limits on what a path may hold.
 The result is a unique normal form of the path's components.
 */
module CanonicalPath {
  import opened PathSegments

  datatype Result<+T> = Ok(value: T) | Err(error: Error)

  datatype Error = EmptyPath | NotAbsolute | TooLong | NullByte | InvalidCharacters | BeyondRoot

  const MAX_PATH_LEN: nat := 4096

  predicate IsInvalidChar(c: char) {
    c in {'\0', '\n', '\r', '\t', '\'', '\"', '<', '>', '\\'}
  }

  predicate HasInvalid(s: string) { exists i :: 0 <= i < |s| && IsInvalidChar(s[i]) }

  /** A component that is kept on the stack. */
  predicate IsName(s: string) { IsPart(s) && s != ".." && !HasInvalid(s) }

  ghost predicate AllNames(stack: seq<string>) { forall i :: 0 <= i < |stack| ==> IsName(stack[i]) }

  /** What the components make of a stack, left to right. */
  function Resolve(stack: seq<string>, parts: seq<string>): Result<seq<string>>
    decreases |parts|
  {
    if parts == [] then Ok(stack)
    else if parts[0] == ".." then
      if stack == [] then Err(BeyondRoot) else Resolve(stack[..|stack| - 1], parts[1..])
    else if HasInvalid(parts[0]) then Err(InvalidCharacters)
    else Resolve(stack + [parts[0]], parts[1..])
  }

  function Limits(path: string): Result<()> {
    if path == "" then Err(EmptyPath)
    else if path[0] != '/' then Err(NotAbsolute)
    else if Size(path) > MAX_PATH_LEN then Err(TooLong)
    else if '\0' in path then Err(NullByte)
    else Ok(())
  }

  function Canonical(path: string): Result<string> {
    match Limits(path)
    case Err(e) => Err(e)
    case Ok(_) =>
      match Resolve([], Parts(path))
      case Err(e) => Err(e)
      case Ok(stack) => Ok(Print(stack))
  }

  /** The loop of the program: push names, pop for `..`. */
  method CanonicalizePath(path: string) returns (r: Result<string>)
    ensures r == Canonical(path)
  {
    if path == "" { return Err(EmptyPath); }
    if path[0] != '/' { return Err(NotAbsolute); }
    if Size(path) > MAX_PATH_LEN { return Err(TooLong); }
    if '\0' in path { return Err(NullByte); }
    var components := Parts(path);
    var normalized: seq<string> := [];
    var i := 0;
    while i < |components|
      invariant 0 <= i <= |components|
      invariant Resolve(normalized, components[i..]) == Resolve([], components)
    {
      var component := components[i];
      assert components[i..][1..] == components[i + 1..];
      if component == ".." {
        if normalized == [] { return Err(BeyondRoot); }
        normalized := normalized[..|normalized| - 1];
      } else {
        if HasInvalid(component) { return Err(InvalidCharacters); }
        normalized := normalized + [component];
      }
      i := i + 1;
    }
    assert components[i..] == [];
    r := Ok(Print(normalized));
  }

  // ---------- resolving ----------

  /** How far the components lead down, less how far up. */
  function Depth(parts: seq<string>): int {
    if parts == [] then 0 else Depth(parts[..|parts| - 1]) + if parts[|parts| - 1] == ".." then -1 else 1
  }

  lemma {:induction false} ResolveConcat(stack: seq<string>, a: seq<string>, b: seq<string>)
    ensures Resolve(stack, a + b)
         == match Resolve(stack, a) case Err(e) => Err(e) case Ok(mid) => Resolve(mid, b)
    decreases |a|
  {
    if a == [] {
      assert a + b == b;
    } else {
      assert (a + b)[1..] == a[1..] + b && (a + b)[0] == a[0];
      if a[0] == ".." {
        if stack != [] { ResolveConcat(stack[..|stack| - 1], a[1..], b); }
      } else if !HasInvalid(a[0]) {
        ResolveConcat(stack + [a[0]], a[1..], b);
      }
    }
  }

  lemma {:induction false} ResolveNames(stack: seq<string>, names: seq<string>)
    requires AllNames(names)
    ensures Resolve(stack, names) == Ok(stack + names)
    decreases |names|
  {
    if names == [] {
      assert stack + names == stack;
    } else {
      assert IsName(names[0]);
      ResolveNames(stack + [names[0]], names[1..]);
      assert stack + [names[0]] + names[1..] == stack + names;
    }
  }

  lemma {:induction false} ResolveKeepsNames(stack: seq<string>, parts: seq<string>)
    requires AllNames(stack) && AllParts(parts) && Resolve(stack, parts).Ok?
    ensures AllNames(Resolve(stack, parts).value)
    ensures Weight(Resolve(stack, parts).value) <= Weight(stack) + Weight(parts)
    ensures |Resolve(stack, parts).value| == |stack| + Depth(parts)
    decreases |parts|
  {
    if parts != [] {
      assert IsPart(parts[0]);
      DepthFront(parts);
      if parts[0] == ".." {
        var init, last := stack[..|stack| - 1], stack[|stack| - 1];
        ResolveKeepsNames(init, parts[1..]);
        assert stack == init + [last];
        WeightConcat(init, [last]);
      } else {
        ResolveKeepsNames(stack + [parts[0]], parts[1..]);
        WeightConcat(stack, [parts[0]]);
        assert [parts[0]][1..] == [];
      }
    }
  }

  lemma {:induction false} DepthFront(parts: seq<string>)
    requires parts != []
    ensures Depth(parts) == Depth(parts[1..]) + if parts[0] == ".." then -1 else 1
    decreases |parts|
  {
    var init := parts[..|parts| - 1];
    if init != [] {
      DepthFront(init);
      assert parts[1..][..|parts[1..]| - 1] == init[1..];
    }
  }

  // No component that is kept holds an invalid character, and no prefix climbs above the stack.
  ghost predicate Resolvable(stack: seq<string>, parts: seq<string>) {
    && (forall i :: 0 <= i < |parts| && parts[i] != ".." ==> !HasInvalid(parts[i]))
    && (forall k :: 0 <= k <= |parts| ==> |stack| + Depth(parts[..k]) >= 0)
  }

  // The stack once the first component is dealt with, when there is no error.
  function Stepped(stack: seq<string>, part: string): seq<string> {
    if part != ".." then stack + [part] else if stack == [] then [] else stack[..|stack| - 1]
  }

  lemma DepthShift(stack: seq<string>, parts: seq<string>, k: nat)
    requires parts != [] && k < |parts| && (parts[0] != ".." || stack != [])
    ensures |Stepped(stack, parts[0])| + Depth(parts[1..][..k]) == |stack| + Depth(parts[..k + 1])
  {
    DepthFront(parts[..k + 1]);
    assert parts[..k + 1][1..] == parts[1..][..k];
  }

  lemma ResolvableTail(stack: seq<string>, parts: seq<string>)
    requires parts != [] && Resolvable(stack, parts) && (parts[0] != ".." || stack != [])
    ensures Resolvable(Stepped(stack, parts[0]), parts[1..])
  {
    var rest := parts[1..];
    assert forall i :: 0 <= i < |rest| ==> rest[i] == parts[i + 1];
    forall k | 0 <= k <= |rest|
        ensures |Stepped(stack, parts[0])| + Depth(rest[..k]) >= 0 { DepthShift(stack, parts, k); }
  }

  lemma ResolvableWhole(stack: seq<string>, parts: seq<string>)
    requires parts != [] && Resolvable(Stepped(stack, parts[0]), parts[1..]) && (parts[0] != ".." || stack != [])
    requires parts[0] == ".." || !HasInvalid(parts[0])
    ensures Resolvable(stack, parts)
  {
    var rest := parts[1..];
    assert forall i :: 0 < i < |parts| ==> parts[i] == rest[i - 1];
    forall k | 0 <= k <= |parts| ensures |stack| + Depth(parts[..k]) >= 0 {
      if k > 0 {
        DepthShift(stack, parts, k - 1);
        assert |Stepped(stack, parts[0])| + Depth(rest[..k - 1]) >= 0;
      }
    }
  }

  lemma ClimbsAbove(parts: seq<string>)
    requires parts != [] && parts[0] == ".."
    ensures !Resolvable([], parts)
  {
    DepthFront(parts[..1]);
    assert Depth(parts[..1]) < 0;
  }

  lemma {:induction false} ResolvesIff(stack: seq<string>, parts: seq<string>)
    ensures Resolve(stack, parts).Ok? <==> Resolvable(stack, parts)
    decreases |parts|
  {
    if parts != [] {
      if parts[0] == ".." && stack == [] {
        ClimbsAbove(parts);
      } else {
        ResolvesIff(Stepped(stack, parts[0]), parts[1..]);
        if Resolvable(stack, parts) {
          ResolvableTail(stack, parts);
        } else if (parts[0] == ".." || !HasInvalid(parts[0])) && Resolvable(Stepped(stack, parts[0]), parts[1..]) {
          ResolvableWhole(stack, parts);
        }
      }
    }
  }

  // ---------- the normal form ----------

  /** The canonical paths: the printed stacks of names. */
  ghost predicate IsCanonical(p: string) {
    exists stack :: AllNames(stack) && p == Print(stack)
  }

  lemma NamesAreParts(stack: seq<string>)
    requires AllNames(stack)
    ensures AllParts(stack)
  {
  }

  lemma NoNull(name: string)
    requires IsName(name)
    ensures '\0' !in name
  {
  }

  lemma {:induction false} SlashedHasNoNull(stack: seq<string>)
    requires AllNames(stack)
    ensures '\0' !in Slashed(stack)
  {
    if stack != [] {
      SlashedHasNoNull(stack[1..]);
      NoNull(stack[0]);
    }
  }

  /** A canonical path within the length limit is its own canonical form. */
  lemma PrintIsFixed(stack: seq<string>)
    requires AllNames(stack)
    ensures Canonical(Print(stack)) == if Size(Print(stack)) <= MAX_PATH_LEN then Ok(Print(stack)) else Err(TooLong)
  {
    NamesAreParts(stack);
    PartsOfPrint(stack);
    PrintSize(stack);
    SlashedHasNoNull(stack);
    ResolveNames([], stack);
    assert [] + stack == stack;
  }

  /** Success exactly when the limits hold and no prefix has more `..` than names. */
  lemma SucceedsIff(path: string)
    ensures Canonical(path).Ok? <==> Limits(path).Ok? && Resolvable([], Parts(path))
  {
    ResolvesIff([], Parts(path));
  }

  lemma ResolvedStack(path: string) returns (stack: seq<string>)
    requires Canonical(path).Ok?
    ensures Resolve([], Parts(path)) == Ok(stack) && Canonical(path) == Ok(Print(stack))
    ensures AllNames(stack) && |stack| == Depth(Parts(path)) && Weight(stack) <= Weight(Parts(path))
    ensures Parts(Print(stack)) == stack
  {
    stack := Resolve([], Parts(path)).value;
    PartsAreParts(path);
    ResolveKeepsNames([], Parts(path));
    NamesAreParts(stack);
    PartsOfPrint(stack);
  }

  /** The result is canonical, never longer than the path, and its own canonical form. */
  lemma ResultIsNormalForm(path: string)
    requires Canonical(path).Ok?
    ensures var p := Canonical(path).value;
            IsCanonical(p) && Size(p) <= Size(path) && Canonical(p) == Ok(p)
  {
    var stack := ResolvedStack(path);
    PartsWeight(path);
    PrintSize(stack);
    FirstByte(path);
    PrintIsFixed(stack);
  }

  lemma FirstByte(path: string)
    requires path != ""
    ensures Size(path) >= 1
  {
  }

  /** Fixed points are exactly the canonical paths within the limit. */
  lemma FixedIffCanonical(p: string)
    ensures Canonical(p) == Ok(p) <==> IsCanonical(p) && Size(p) <= 4096
  {
    if Canonical(p) == Ok(p) {
      ResultIsNormalForm(p);
    }
    if IsCanonical(p) {
      var stack :| AllNames(stack) && p == Print(stack);
      PrintIsFixed(stack);
    }
  }

  // ---------- what can be inserted without a change ----------

  /** An insertion that leads nowhere: `/`, `/.`, or down into a name and up again. */
  ghost predicate Neutral(ins: string) {
    ins == "/" || ins == "/." || exists name :: IsName(name) && ins == "/" + name + "/.."
  }

  lemma NeutralResolves(ins: string, stack: seq<string>)
    requires Neutral(ins)
    ensures ins != "" && ins[0] == '/' && '\0' !in ins
    ensures Resolve(stack, Parts(ins)) == Ok(stack)
  {
    PartsOfNothing();
    if ins == "/." {
      assert ins == "" + "/" + ".";
      PartsOfSlash("", ".");
    } else if ins != "/" {
      var name :| IsName(name) && ins == "/" + name + "/..";
      NoNull(name);
      assert ins == "" + "/" + (name + "/" + "..");
      PartsOfSlash("", name + "/" + "..");
      PartsOfSlash(name, "..");
      PartsOfPart(name);
      PartsOfPart("..");
      assert Parts(ins) == [name, ".."];
      assert [name, ".."][1..] == [".."] && [".."][1..] == [] && (stack + [name])[..|stack|] == stack;
    }
  }

  /**
   Inserting `/`, `/.` or `/name/..` at a segment boundary leaves the result as it was, errors
   included, exactly when it does not push the path over the length limit.
   */
  lemma InsertionChangesNothingIff(a: string, ins: string, b: string)
    requires a + b != "" && (a + b)[0] == '/' && AtBoundary(b) && Neutral(ins)
    ensures Canonical(a + ins + b) == Canonical(a + b) <==>
            Size(a + ins + b) <= 4096 || Size(a + b) > 4096
  {
    var p, q := a + ins + b, a + b;
    NeutralResolves(ins, []);
    SizeConcat(a + ins, b);
    SizeConcat(a, ins);
    SizeConcat(a, b);
    assert p[0] == '/' && ('\0' in p <==> '\0' in q);
    PartsConcat(a + ins, b);
    PartsConcat(a, ins);
    PartsConcat(a, b);
    ResolveConcat([], Parts(a) + Parts(ins), Parts(b));
    ResolveConcat([], Parts(a), Parts(ins));
    ResolveConcat([], Parts(a), Parts(b));
    if Resolve([], Parts(a)).Ok? { NeutralResolves(ins, Resolve([], Parts(a)).value); }
    assert Resolve([], Parts(p)) == Resolve([], Parts(q));
    if Size(q) <= MAX_PATH_LEN { NotTooLong(q); }
  }

  lemma {:induction false} NotTooLong(path: string)
    requires Size(path) <= MAX_PATH_LEN
    ensures Canonical(path) != Err(TooLong)
  {
    ResolveErrors([], Parts(path));
  }

  lemma {:induction false} ResolveErrors(stack: seq<string>, parts: seq<string>)
    ensures Resolve(stack, parts).Err? ==> Resolve(stack, parts).error in {BeyondRoot, InvalidCharacters}
    decreases |parts|
  {
    if parts != [] {
      if parts[0] == ".." {
        if stack != [] { ResolveErrors(stack[..|stack| - 1], parts[1..]); }
      } else {
        ResolveErrors(stack + [parts[0]], parts[1..]);
      }
    }
  }
}
