/**
 Numbered variants of a taken name, and why trying them in order ends: all variants differ.
 */
module UniqueFilename {

  function Digit(d: nat): char
    requires d < 10
  {
    ('0' as int + d) as char
  }

  function Decimal(n: nat): string {
    if n < 10 then [Digit(n)] else Decimal(n / 10) + [Digit(n % 10)]
  }

  function Value(s: string): int {
    if s == "" then 0 else Value(s[..|s| - 1]) * 10 + (s[|s| - 1] as int - '0' as int)
  }

  lemma {:induction false} DecimalReadsBack(n: nat)
    ensures Value(Decimal(n)) == n
  {
    if n < 10 {
      assert [Digit(n)][..0] == "";
    } else {
      DecimalReadsBack(n / 10);
      var s := Decimal(n);
      assert s[..|s| - 1] == Decimal(n / 10);
    }
  }

  // The last dot of a name, or its length.
  function LastDot(name: string): (k: nat)
    ensures k <= |name|
  {
    if name == "" then 0
    else if name[|name| - 1] == '.' then |name| - 1
    else
      var k := LastDot(name[..|name| - 1]);
      if k == |name| - 1 then |name| else k
  }

  function Stem(name: string): string { name[..LastDot(name)] }

  function Extension(name: string): string { name[LastDot(name)..] }

  function Candidate(name: string, i: nat): string {
    Stem(name) + " (" + Decimal(i) + ")" + Extension(name)
  }

  /** The number can be read off the candidate, so two candidates of one name differ. */
  lemma CandidateInjective(name: string, i: nat, j: nat)
    requires Candidate(name, i) == Candidate(name, j)
    ensures i == j
  {
    var a, b := |Stem(name)| + 2, |Extension(name)| + 1;
    var s := Candidate(name, i);
    assert s[a..|s| - b] == Decimal(i);
    assert s[a..|s| - b] == Decimal(j);
    DecimalReadsBack(i);
    DecimalReadsBack(j);
  }

  /** The digits of a number in decimal, without a zero in front. */
  lemma {:induction false} DecimalIs(n: nat)
    ensures Decimal(n) != "" && (forall i :: 0 <= i < |Decimal(n)| ==> '0' <= Decimal(n)[i] <= '9')
    ensures n > 0 ==> Decimal(n)[0] != '0'
  {
    if n >= 10 { DecimalIs(n / 10); }
  }

  /** A numbered name: the stem, a space, the number in brackets, the extension; stem and extension make up the name. */
  ghost predicate Numbered(name: string, r: string, n: nat) {
    exists stem, digits, ext ::
      && name == stem + ext && r == stem + " (" + digits + ")" + ext
      && (forall i :: 0 <= i < |digits| ==> '0' <= digits[i] <= '9') && Value(digits) == n
      && digits != "" && (n > 0 ==> digits[0] != '0')
      && (ext == "" ==> '.' !in name) && (ext != "" ==> ext[0] == '.' && '.' !in ext[1..])
  }

  lemma CandidateShape(name: string, n: nat)
    ensures Numbered(name, Candidate(name, n), n)
  {
    LastDotSplits(name);
    DecimalIs(n);
    DecimalReadsBack(n);
    var stem, digits, ext := Stem(name), Decimal(n), Extension(name);
    assert name == stem + ext && Candidate(name, n) == stem + " (" + digits + ")" + ext;
    assert ext != "" ==> ext[1..] == Extension(name)[if Extension(name) == "" then 0 else 1..];
  }

  ghost predicate AllTaken(existing: seq<string>, name: string, lo: nat, hi: nat) {
    forall i: nat :: lo <= i < hi ==> Candidate(name, i) in existing
  }

  /** Pigeonhole: as many candidates as there are names cannot be taken by fewer names. */
  lemma {:induction false} TakenAtMost(existing: seq<string>, name: string, lo: nat, hi: nat)
    requires lo <= hi && AllTaken(existing, name, lo, hi)
    ensures hi - lo <= |existing|
    decreases hi - lo
  {
    if lo < hi {
      assert Candidate(name, lo) in existing;
      var k :| 0 <= k < |existing| && existing[k] == Candidate(name, lo);
      var rest := existing[..k] + existing[k + 1..];
      forall i: nat | lo + 1 <= i < hi ensures Candidate(name, i) in rest {
        assert Candidate(name, i) in existing;
        if Candidate(name, i) == Candidate(name, lo) { CandidateInjective(name, i, lo); }
        var l :| 0 <= l < |existing| && existing[l] == Candidate(name, i);
        assert l < k ==> rest[l] == Candidate(name, i);
        assert l > k ==> rest[l - 1] == Candidate(name, i);
      }
      TakenAtMost(rest, name, lo + 1, hi);
    }
  }

  /** The unused candidate of least number, found within |existing| + 1 tries. */
  method GenerateUniqueFilename(existing: seq<string>, name: string) returns (unique: string, ghost tries: nat)
    ensures unique !in existing
    ensures 1 <= tries <= |existing| + 1 && unique == Candidate(name, tries) && Numbered(name, unique, tries)
    ensures forall i: nat :: 1 <= i < tries ==> Candidate(name, i) in existing
  {
    var i := 1;
    while Candidate(name, i) in existing
      invariant i >= 1 && AllTaken(existing, name, 1, i)
      invariant i - 1 <= |existing|
      decreases |existing| + 1 - i
    {
      TakenAtMost(existing, name, 1, i + 1);
      i := i + 1;
    }
    unique, tries := Candidate(name, i), i;
    CandidateShape(name, i);
  }

  /** The extension of a unique name is the original's: the number goes before the last dot. */
  lemma LastDotSplits(name: string)
    ensures Stem(name) + Extension(name) == name
    ensures '.' !in Extension(name)[if Extension(name) == "" then 0 else 1..]
    ensures Extension(name) == "" ==> '.' !in name
    ensures Extension(name) != "" ==> Extension(name)[0] == '.'
  {
    DotFacts(name);
  }

  lemma {:induction false} DotFacts(name: string)
    ensures LastDot(name) < |name| ==> name[LastDot(name)] == '.' && '.' !in name[LastDot(name) + 1..]
    ensures LastDot(name) == |name| ==> '.' !in name
    decreases |name|
  {
    if name != "" && name[|name| - 1] != '.' {
      var init := name[..|name| - 1];
      DotFacts(init);
      assert name == init + [name[|name| - 1]];
      if LastDot(init) < |init| {
        assert name[LastDot(init) + 1..] == init[LastDot(init) + 1..] + [name[|name| - 1]];
      }
    }
  }
}
