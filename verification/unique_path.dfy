/** `get_unique_filepath`: a snapshot never overwrites a file. If the target
    name is taken, `stem_1.suffix`, `stem_2.suffix`, ... are tried in turn
    and the first free one is used. The file system is a finite set of
    existing paths. */
module UniquePath {

  function DigitChar(d: nat): (c: char)
    requires d < 10
    ensures '0' <= c <= '9'
  {
    "0123456789"[d]
  }

  function DigitValue(c: char): (d: nat)
    requires '0' <= c <= '9'
    ensures d < 10
  {
    (c as int - '0' as int) as nat
  }

  predicate AllDigits(s: string)
  {
    forall k :: 0 <= k < |s| ==> '0' <= s[k] <= '9'
  }

  /** Python's `str(i)` for a natural number: its decimal digits. */
  function NatToString(n: nat): (s: string)
    ensures |s| > 0 && AllDigits(s)
    decreases n
  {
    if n < 10 then [DigitChar(n)] else NatToString(n / 10) + [DigitChar(n % 10)]
  }

  /** Reading decimal digits back as a number. */
  function ParseNat(s: string): nat
    requires AllDigits(s)
    decreases |s|
  {
    if |s| == 0 then 0 else ParseNat(s[..|s| - 1]) * 10 + DigitValue(s[|s| - 1])
  }

  lemma DigitRoundTrip(d: nat)
    requires d < 10
    ensures DigitValue(DigitChar(d)) == d
  {
  }

  /** Parsing the decimal form gives the number back. */
  lemma {:induction false} ParseNatToString(n: nat)
    ensures ParseNat(NatToString(n)) == n
    decreases n
  {
    var s := NatToString(n);
    if n < 10 {
      DigitRoundTrip(n);
      assert s[..0] == [];
    } else {
      ParseNatToString(n / 10);
      DigitRoundTrip(n % 10);
      assert s[..|s| - 1] == NatToString(n / 10);
    }
  }

  /** Distinct numbers have distinct decimal forms. */
  lemma NatToStringInjective(a: nat, b: nat)
    requires NatToString(a) == NatToString(b)
    ensures a == b
  {
    ParseNatToString(a);
    ParseNatToString(b);
  }

  /** `parent / name`. */
  function Join(parent: string, name: string): string
  {
    parent + "/" + name
  }

  /** `parent / f"{stem}_{i}{suffix}"`. */
  function Candidate(parent: string, stem: string, suffix: string, i: nat): string
  {
    Join(parent, stem + "_" + NatToString(i) + suffix)
  }

  /** Different indices give different candidate names. */
  lemma CandidateInjective(parent: string, stem: string, suffix: string, a: nat, b: nat)
    requires Candidate(parent, stem, suffix, a) == Candidate(parent, stem, suffix, b)
    ensures a == b
  {
    var prefix := parent + "/" + stem + "_";
    var sa := NatToString(a);
    var sb := NatToString(b);
    assert Candidate(parent, stem, suffix, a) == prefix + sa + suffix;
    assert Candidate(parent, stem, suffix, b) == prefix + sb + suffix;
    assert |sa| == |sb|;
    assert sa == (prefix + sa + suffix)[|prefix|..|prefix| + |sa|];
    assert sb == (prefix + sb + suffix)[|prefix|..|prefix| + |sb|];
    NatToStringInjective(a, b);
  }

  /** The candidates tried before index i. */
  ghost function Tried(parent: string, stem: string, suffix: string, i: nat): set<string>
  {
    set k | 1 <= k < i :: Candidate(parent, stem, suffix, k)
  }

  /** The unchanged path when it is free; otherwise the first free
      numbered candidate, all earlier ones being taken. */
  method UniqueFilepath(parent: string, stem: string, suffix: string, existing: set<string>)
    returns (path: string)
    ensures path !in existing
    ensures Join(parent, stem + suffix) !in existing ==> path == Join(parent, stem + suffix)
    ensures Join(parent, stem + suffix) in existing ==>
              exists i :: i >= 1 && path == Candidate(parent, stem, suffix, i)
                          && forall k :: 1 <= k < i ==> Candidate(parent, stem, suffix, k) in existing
  {
    var plain := Join(parent, stem + suffix);
    if plain !in existing {
      return plain;
    }
    var i: nat := 1;
    while Candidate(parent, stem, suffix, i) in existing
      invariant i >= 1
      invariant forall k :: 1 <= k < i ==> Candidate(parent, stem, suffix, k) in existing
      invariant Tried(parent, stem, suffix, i) <= existing
      decreases |existing - Tried(parent, stem, suffix, i)|
    {
      TriedGrows(parent, stem, suffix, i, existing);
      i := i + 1;
    }
    path := Candidate(parent, stem, suffix, i);
  }

  /** Trying one more taken candidate adds a name not tried before, so the
      untried part of the file system shrinks. */
  lemma TriedGrows(parent: string, stem: string, suffix: string, i: nat, existing: set<string>)
    requires i >= 1 && Tried(parent, stem, suffix, i) <= existing
    requires Candidate(parent, stem, suffix, i) in existing
    ensures Tried(parent, stem, suffix, i + 1) <= existing
    ensures |existing - Tried(parent, stem, suffix, i + 1)| < |existing - Tried(parent, stem, suffix, i)|
  {
    var c := Candidate(parent, stem, suffix, i);
    if c in Tried(parent, stem, suffix, i) {
      var k :| 1 <= k < i && Candidate(parent, stem, suffix, k) == c;
      CandidateInjective(parent, stem, suffix, k, i);
    }
    assert Tried(parent, stem, suffix, i + 1) == Tried(parent, stem, suffix, i) + {c};
    assert existing - Tried(parent, stem, suffix, i + 1) < existing - Tried(parent, stem, suffix, i);
  }
}
