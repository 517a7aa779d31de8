/**
 File names against paths: a name the validator accepts, joined to a canonical path, can be taken
 apart again, and the join is canonical itself.
 */
module PathNames {
  import opened PathSegments
  import opened CanonicalPath

  const MAX_FILENAME_LEN: nat := 255

  const WINDOWS_RESERVED: set<string> :=
    {"CON", "PRN", "AUX", "NUL", "CONIN$", "CONOUT$",
     "COM1", "COM2", "COM3", "COM4", "COM5", "COM6", "COM7", "COM8", "COM9",
     "LPT1", "LPT2", "LPT3", "LPT4", "LPT5", "LPT6", "LPT7", "LPT8", "LPT9"}

  // The text before the first dot.
  function BeforeDot(s: string): string {
    if s == "" || s[0] == '.' then "" else [s[0]] + BeforeDot(s[1..])
  }

  function TrimDotsAndSpaces(s: string): string {
    if s != "" && s[|s| - 1] in {' ', '.'} then TrimDotsAndSpaces(s[..|s| - 1]) else s
  }

  function Upper(s: string): string {
    seq(|s|, i requires 0 <= i < |s| => if 'a' <= s[i] <= 'z' then ((s[i] as int) - 32) as char else s[i])
  }

  predicate IsWindowsReserved(name: string) {
    Upper(TrimDotsAndSpaces(BeforeDot(name))) in WINDOWS_RESERVED
  }

  datatype NameError = InvalidName | NameTooLong | NameCharacters | NameSeparator | NameReserved
  datatype NameCheck = Accepted | Refused(error: NameError)

  function ValidateFilename(name: string): NameCheck {
    if name == "" || name == "." || name == ".." then Refused(InvalidName)
    else if Size(name) > MAX_FILENAME_LEN then Refused(NameTooLong)
    else if HasInvalid(name) then Refused(NameCharacters)
    else if '/' in name then Refused(NameSeparator)
    else if IsWindowsReserved(name) then Refused(NameReserved)
    else Accepted
  }

  // ---------- taking paths apart ----------

  datatype Halves = NoSlash | Halves(before: string, after: string)

  /** Cut at the last slash. */
  function RSplitOnce(s: string): Halves {
    if s == "" then NoSlash
    else if s[|s| - 1] == '/' then Halves(s[..|s| - 1], "")
    else
      match RSplitOnce(s[..|s| - 1])
      case NoSlash => NoSlash
      case Halves(before, after) => Halves(before, after + [s[|s| - 1]])
  }

  function ParentPath(path: string): string {
    match RSplitOnce(path)
    case NoSlash => "/"
    case Halves(before, _) => if before == "" then "/" else before
  }

  function Basename(path: string): string {
    match RSplitOnce(path)
    case NoSlash => ""
    case Halves(_, after) => after
  }

  function JoinPath(parent: string, name: string): string {
    if parent == "/" then "/" + name else parent + "/" + name
  }

  lemma {:induction false} RSplitAt(before: string, after: string)
    requires '/' !in after
    ensures RSplitOnce(before + "/" + after) == Halves(before, after)
    decreases |after|
  {
    var s := before + "/" + after;
    if after == "" {
      assert s[..|s| - 1] == before;
    } else {
      var init := after[..|after| - 1];
      RSplitAt(before, init);
      assert s[..|s| - 1] == before + "/" + init;
      assert init + [after[|after| - 1]] == after;
    }
  }

  /** A name the validator accepts is one component of a path. */
  lemma AcceptedIsName(name: string)
    requires ValidateFilename(name).Accepted?
    ensures IsName(name)
  {
  }

  /** Joining a name to a printed stack prints the longer stack. */
  lemma JoinPrints(stack: seq<string>, name: string)
    requires AllNames(stack) && IsName(name)
    ensures JoinPath(Print(stack), name) == Print(stack + [name])
    ensures RSplitOnce(Print(stack + [name])) == Halves(Slashed(stack), name)
  {
    NamesAreParts(stack);
    PartsOfPrint(stack);
    PartsOfNothing();
    SlashedAppend(stack, name);
    RSplitAt(Slashed(stack), name);
    if stack == [] { assert "" + "/" + name == "/" + name; }
  }

  /**
   For a canonical path p and a name n, the parent and the basename of the join are p and n; and
   the join is its own canonical form exactly when it is within the length limit.
   */
  lemma JoinComesApart(p: string, n: string)
    requires IsCanonical(p) && ValidateFilename(n).Accepted?
    ensures ParentPath(JoinPath(p, n)) == p && Basename(JoinPath(p, n)) == n
    ensures IsCanonical(JoinPath(p, n))
    ensures Canonical(JoinPath(p, n)) == Ok(JoinPath(p, n)) <==> Size(JoinPath(p, n)) <= 4096
  {
    AcceptedIsName(n);
    var stack :| AllNames(stack) && p == Print(stack);
    JoinPrints(stack, n);
    assert AllNames(stack + [n]);
    FixedIffCanonical(JoinPath(p, n));
  }

  /** Every canonical path but the root is rebuilt from its parent and its basename. */
  lemma RebuiltFromHalves(p: string)
    requires IsCanonical(p) && p != "/"
    ensures IsCanonical(ParentPath(p)) && IsName(Basename(p))
    ensures JoinPath(ParentPath(p), Basename(p)) == p
  {
    var stack :| AllNames(stack) && p == Print(stack);
    var init, last := stack[..|stack| - 1], stack[|stack| - 1];
    assert stack == init + [last] && AllNames(init);
    JoinPrints(init, last);
  }

  /** Whatever the base and the name, the parent of the joined path's canonical form is the base's. */
  lemma ParentOfCanonicalJoin(path: string, n: string)
    requires Canonical(path).Ok? && ValidateFilename(n).Accepted?
             && Size(JoinPath(Canonical(path).value, n)) <= MAX_PATH_LEN
    ensures Canonical(JoinPath(Canonical(path).value, n)).Ok?
    ensures ParentPath(Canonical(JoinPath(Canonical(path).value, n)).value) == Canonical(path).value
  {
    ResultIsNormalForm(path);
    JoinComesApart(Canonical(path).value, n);
  }
}
