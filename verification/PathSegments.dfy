/**
 Virtual paths as text: UTF-8 length, splitting at slashes, and the components that the
 standard path iterator yields for an absolute path (empty and `.` segments are skipped).
 */
module PathSegments {
  import opened Sequences

  function Utf8Length(c: char): nat {
    var n := c as int;
    if n < 0x80 then 1 else if n < 0x800 then 2 else if n < 0x10000 then 3 else 4
  }

  /** Length in bytes. */
  function Size(s: string): nat {
    if s == "" then 0 else Utf8Length(s[0]) + Size(s[1..])
  }

  /** The stretches between slashes, empty ones included. */
  function Split(s: string): (segments: seq<string>)
    ensures |segments| >= 1
  {
    if s == "" then [""] else Prepend(s[0], Split(s[1..]))
  }

  function Prepend(c: char, segments: seq<string>): (r: seq<string>)
    requires |segments| >= 1
    ensures |r| >= 1
  {
    if c == '/' then [""] + segments else [[c] + segments[0]] + segments[1..]
  }

  function Keep(segments: seq<string>): seq<string> {
    if segments == [] then [] else KeepOne(segments[0]) + Keep(segments[1..])
  }

  // Empty and `.` segments are skipped.
  function KeepOne(segment: string): seq<string> {
    if segment == "" || segment == "." then [] else [segment]
  }

  /** The components of an absolute path: names and `..`. */
  function Parts(path: string): seq<string> {
    Keep(Split(path))
  }

  /** A path from its components, each preceded by a slash. */
  function Slashed(parts: seq<string>): string {
    if parts == [] then "" else "/" + parts[0] + Slashed(parts[1..])
  }

  function Print(stack: seq<string>): string {
    if stack == [] then "/" else Slashed(stack)
  }

  // What every component weighs in a path: its bytes and its slash.
  function Weight(parts: seq<string>): nat {
    if parts == [] then 0 else 1 + Size(parts[0]) + Weight(parts[1..])
  }

  // A boundary: the rest of the path is empty or begins with a slash.
  predicate AtBoundary(rest: string) { rest == "" || rest[0] == '/' }

  predicate IsPart(s: string) { s != "" && s != "." && '/' !in s }

  ghost predicate AllParts(parts: seq<string>) {
    forall i :: 0 <= i < |parts| ==> IsPart(parts[i])
  }

  // ---------- lengths ----------

  lemma {:induction false} SizeConcat(a: string, b: string)
    ensures Size(a + b) == Size(a) + Size(b)
  {
    if a == "" {
      assert a + b == b;
    } else {
      SizeConcat(a[1..], b);
      assert (a + b)[1..] == a[1..] + b;
    }
  }

  lemma {:induction false} WeightConcat(a: seq<string>, b: seq<string>)
    ensures Weight(a + b) == Weight(a) + Weight(b)
  {
    if a == [] {
      assert a + b == b;
    } else {
      WeightConcat(a[1..], b);
      assert (a + b)[1..] == a[1..] + b;
    }
  }

  lemma {:induction false} SlashedSize(parts: seq<string>)
    ensures Size(Slashed(parts)) == Weight(parts)
  {
    if parts != [] {
      SlashedSize(parts[1..]);
      SizeConcat("/" + parts[0], Slashed(parts[1..]));
      SizeConcat("/", parts[0]);
      assert Size("/") == 1 + Size("/"[1..]);
    }
  }

  /** The segments of a text weigh one slash more than the text. */
  lemma {:induction false} SplitWeight(s: string)
    ensures Weight(Split(s)) == Size(s) + 1
  {
    if s != "" {
      SplitWeight(s[1..]);
      var rest := Split(s[1..]);
      assert Weight(rest) == 1 + Size(rest[0]) + Weight(rest[1..]);
      if s[0] == '/' {
        assert ([""] + rest)[1..] == rest;
      } else {
        var head := [s[0]] + rest[0];
        assert head[1..] == rest[0];
        assert ([head] + rest[1..])[1..] == rest[1..];
      }
    }
  }

  lemma {:induction false} KeepWeight(segments: seq<string>)
    ensures Weight(Keep(segments)) <= Weight(segments)
  {
    if segments != [] {
      KeepWeight(segments[1..]);
      WeightConcat(KeepOne(segments[0]), Keep(segments[1..]));
      assert [segments[0]][1..] == [];
    }
  }

  /** The components of an absolute path weigh no more than the path. */
  lemma PartsWeight(path: string)
    requires path != "" && path[0] == '/'
    ensures Weight(Parts(path)) <= Size(path)
  {
    SplitWeight(path);
    var segments := Split(path);
    assert segments[1..] == Split(path[1..]);
    KeepWeight(segments[1..]);
    assert Keep(segments) == Keep(segments[1..]);
  }

  // ---------- splitting ----------

  lemma {:induction false} SplitConcat(a: string, b: string)
    ensures Split(a + "/" + b) == Split(a) + Split(b)
  {
    var s := a + "/" + b;
    if a == "" {
      assert s[1..] == b;
    } else {
      SplitConcat(a[1..], b);
      assert s[1..] == a[1..] + "/" + b && s[0] == a[0];
      PrependConcat(a[0], Split(a[1..]), Split(b));
    }
  }

  lemma PrependConcat(c: char, x: seq<string>, y: seq<string>)
    requires |x| >= 1
    ensures Prepend(c, x + y) == Prepend(c, x) + y
  {
  }

  lemma {:induction false} KeepConcat(a: seq<string>, b: seq<string>)
    ensures Keep(a + b) == Keep(a) + Keep(b)
  {
    if a == [] {
      assert a + b == b;
    } else {
      KeepConcat(a[1..], b);
      assert (a + b)[0] == a[0] && (a + b)[1..] == a[1..] + b;
      Associate(KeepOne(a[0]), Keep(a[1..]), Keep(b));
    }
  }

  lemma PartsOfSlash(a: string, b: string)
    ensures Parts(a + "/" + b) == Parts(a) + Parts(b)
  {
    SplitConcat(a, b);
    KeepConcat(Split(a), Split(b));
  }

  // A leading slash adds no component.
  lemma PartsOfRooted(b: string)
    ensures Parts("/" + b) == Parts(b)
  {
  }

  lemma Reslash(a: string, b: string)
    requires b != "" && b[0] == '/'
    ensures a + b == a + "/" + b[1..] && b == "/" + b[1..]
  {
  }

  /** At a boundary the components of a path are those of its two halves. */
  lemma PartsConcat(a: string, b: string)
    requires AtBoundary(b)
    ensures Parts(a + b) == Parts(a) + Parts(b)
  {
    if b == "" {
      assert a + b == a;
    } else {
      Reslash(a, b);
      PartsOfSlash(a, b[1..]);
      PartsOfRooted(b[1..]);
    }
  }

  lemma {:induction false} SplitPlain(s: string)
    requires '/' !in s
    ensures Split(s) == [s]
  {
    if s != "" {
      SplitPlain(s[1..]);
      assert [s[0]] + s[1..] == s && [s[1..]][1..] == [];
    }
  }

  lemma PartsOfPart(s: string)
    requires IsPart(s)
    ensures Parts(s) == [s]
  {
    SplitPlain(s);
    assert Keep([s][1..]) == [];
  }

  /** Only components come out, and every one of them without a slash. */
  lemma {:induction false} SplitHasNoSlash(s: string)
    ensures forall i :: 0 <= i < |Split(s)| ==> '/' !in Split(s)[i]
  {
    if s != "" { SplitHasNoSlash(s[1..]); }
  }

  lemma {:induction false} KeepKeeps(segments: seq<string>)
    ensures forall i :: 0 <= i < |Keep(segments)| ==>
              Keep(segments)[i] in segments && Keep(segments)[i] != "" && Keep(segments)[i] != "."
  {
    if segments != [] { KeepKeeps(segments[1..]); }
  }

  lemma PartsAreParts(path: string)
    ensures AllParts(Parts(path))
  {
    SplitHasNoSlash(path);
    KeepKeeps(Split(path));
  }

  lemma HeadAndTail(parts: seq<string>)
    requires parts != []
    ensures [parts[0]] + parts[1..] == parts
  {
  }

  lemma SlashedBoundary(parts: seq<string>)
    ensures AtBoundary(Slashed(parts))
  {
  }

  lemma {:induction false} PartsOfSlashed(parts: seq<string>)
    requires AllParts(parts)
    ensures Parts(Slashed(parts)) == parts && AtBoundary(Slashed(parts))
  {
    SlashedBoundary(parts);
    if parts == [] {
      PartsOfNothing();
    } else {
      var rest := parts[1..];
      PartsOfSlashed(rest);
      PartsConcat("/" + parts[0], Slashed(rest));
      PartsOfRooted(parts[0]);
      PartsOfPart(parts[0]);
      HeadAndTail(parts);
    }
  }

  lemma {:induction false} SlashedAppend(stack: seq<string>, name: string)
    ensures Slashed(stack + [name]) == Slashed(stack) + "/" + name
  {
    if stack == [] {
      assert stack + [name] == [name] && [name][1..] == [];
      assert "/" + name + "" == "" + "/" + name;
    } else {
      SlashedAppend(stack[1..], name);
      assert (stack + [name])[1..] == stack[1..] + [name];
      assert "/" + stack[0] + (Slashed(stack[1..]) + "/" + name) == ("/" + stack[0] + Slashed(stack[1..])) + "/" + name;
    }
  }

  lemma PartsOfNothing()
    ensures Parts("") == [] && Parts("/") == [] && Parts(".") == []
  {
  }

  /** Printing a stack of components and reading it back returns the stack. */
  lemma PartsOfPrint(stack: seq<string>)
    requires AllParts(stack)
    ensures Parts(Print(stack)) == stack
  {
    PartsOfNothing();
    PartsOfSlashed(stack);
  }

  lemma PrintSize(stack: seq<string>)
    ensures Print(stack) != "" && Print(stack)[0] == '/'
    ensures Size(Print(stack)) == if stack == [] then 1 else Weight(stack)
  {
    SlashedSize(stack);
    assert Size("/") == 1 + Size("/"[1..]);
  }
}
