/** How a teammate gets a name that nobody on the team has yet. */
module TeammateNames {
  import opened Prelude

  function SanitizeChar(c: char): char {
    if 'A' <= c <= 'Z' then (c as int + 32) as char
    else if ('a' <= c <= 'z') || ('0' <= c <= '9') || c == '-' || c >= 128 as char then c
    else '-'
  }

  /** Lower-case, with everything but letters, digits and '-' replaced by '-'. */
  function Sanitize(name: string): (s: string)
    ensures |s| == |name|
  {
    seq(|name|, i requires 0 <= i < |name| => SanitizeChar(name[i]))
  }

  /** A small letter, a digit, a hyphen, or anything outside ASCII. */
  predicate IsClean(c: char) {
    c == '-' || c as int >= 128 || 97 <= c as int <= 122 || 48 <= c as int <= 57
  }

  /** The names that stay as they are are the clean ones; capitals become the letter at the same place of the
      alphabet, and everything else hyphens. */
  lemma SanitizeMeaning(name: string)
    ensures Sanitize(name) == name <==> forall i :: 0 <= i < |name| ==> IsClean(name[i])
    ensures forall i :: 0 <= i < |name| && 65 <= name[i] as int <= 90 ==>
              Sanitize(name)[i] as int - 97 == name[i] as int - 65
    ensures forall i :: 0 <= i < |name| && !IsClean(name[i]) && !(65 <= name[i] as int <= 90) ==>
              Sanitize(name)[i] == '-'
  {
    if Sanitize(name) == name {
      forall i | 0 <= i < |name|
        ensures IsClean(name[i])
      {
        assert SanitizeChar(name[i]) == name[i];
      }
    }
  }

  predicate NoAt(s: string) { '@' !in s }

  /** A sanitized name is its own sanitized form and never contains the '@' of an agent id. */
  lemma SanitizedIsClean(name: string)
    ensures NoAt(Sanitize(name)) && Sanitize(Sanitize(name)) == Sanitize(name)
  {
    forall i | 0 <= i < |name|
      ensures Sanitize(name)[i] != '@' && SanitizeChar(Sanitize(name)[i]) == Sanitize(name)[i]
    {}
  }

  function Digit(d: nat): char
    requires d < 10
  {
    "0123456789"[d]
  }

  function Decimal(n: nat): string {
    (if n < 10 then "" else Decimal(n / 10)) + [Digit(n % 10)]
  }

  /** The number a string of digits stands for. */
  function NumberOf(s: string): nat {
    if s == "" then 0
    else 10 * NumberOf(s[..|s| - 1]) + (if '0' <= s[|s| - 1] <= '9' then s[|s| - 1] as int - '0' as int else 0)
  }

  /** Reading the digits gives the number back, and there is no leading zero. */
  lemma {:induction false} DecimalReadsBack(n: nat)
    ensures NumberOf(Decimal(n)) == n && (Decimal(n)[0] == '0' <==> n == 0)
    ensures forall i :: 0 <= i < |Decimal(n)| ==> '0' <= Decimal(n)[i] <= '9'
  {
    var s := Decimal(n);
    assert s[|s| - 1] == Digit(n % 10);
    if n < 10 {
      assert s[..|s| - 1] == "";
    } else {
      DecimalReadsBack(n / 10);
      assert s[..|s| - 1] == Decimal(n / 10);
    }
  }

  lemma DecimalInjective(a: nat, b: nat)
    requires Decimal(a) == Decimal(b)
    ensures a == b
  {
    DecimalReadsBack(a);
    DecimalReadsBack(b);
  }

  const FIRST_SUFFIX: nat := 2
  const SUFFIX_END: nat := 100

  function Suffixed(base: string, k: nat): string {
    base + "-" + Decimal(k)
  }

  function Fallback(base: string, fragment: string): string {
    base + "-" + fragment
  }

  /** The names tried in order: the plain one, then suffixes 2 to 99. */
  function Candidates(base: string): (names: seq<string>)
    ensures |names| == SUFFIX_END - FIRST_SUFFIX + 1
  {
    [base] + seq(SUFFIX_END - FIRST_SUFFIX, i requires 0 <= i => Suffixed(base, i + FIRST_SUFFIX))
  }

  function FirstFree(names: seq<string>, existing: seq<string>, i: nat): Option<string>
    decreases |names| - i
  {
    if i >= |names| then None
    else if names[i] !in existing then Some(names[i])
    else FirstFree(names, existing, i + 1)
  }

  /** The generated name; `fragment` is the random part used when every candidate is taken. */
  function UniqueName(base: string, existing: seq<string>, fragment: string): string {
    match FirstFree(Candidates(base), existing, 0)
    case Some(name) => name
    case None => Fallback(base, fragment)
  }

  /** `k` is the first position at or after `i` whose name is free. */
  ghost predicate IsFirstFree(names: seq<string>, existing: seq<string>, i: nat, k: nat) {
    i <= k < |names| && names[k] !in existing && forall j :: i <= j < k ==> names[j] in existing
  }

  lemma {:induction false} FirstFreeMeaning(names: seq<string>, existing: seq<string>, i: nat)
    ensures FirstFree(names, existing, i).Some? ==>
              exists k: nat :: IsFirstFree(names, existing, i, k) && FirstFree(names, existing, i).value == names[k]
    ensures FirstFree(names, existing, i).None? ==> forall j :: i <= j < |names| ==> names[j] in existing
    decreases |names| - i
  {
    if i < |names| {
      if names[i] !in existing {
        assert IsFirstFree(names, existing, i, i);
      } else {
        FirstFreeMeaning(names, existing, i + 1);
        if FirstFree(names, existing, i + 1).Some? {
          var k: nat :| IsFirstFree(names, existing, i + 1, k) && FirstFree(names, existing, i + 1).value == names[k];
          assert IsFirstFree(names, existing, i, k);
        }
      }
    }
  }

  lemma SuffixesDiffer(base: string, a: nat, b: nat)
    requires Suffixed(base, a) == Suffixed(base, b)
    ensures a == b
  {
    assert Suffixed(base, a)[|base| + 1..] == Decimal(a);
    assert Suffixed(base, b)[|base| + 1..] == Decimal(b);
    DecimalInjective(a, b);
  }

  lemma CandidatesDistinct(base: string)
    ensures Distinct(Candidates(base))
  {
    var names := Candidates(base);
    forall i, j | 0 <= i < j < |names|
      ensures names[i] != names[j]
    {
      assert names[j] == Suffixed(base, j - 1 + FIRST_SUFFIX);
      if i == 0 {
        assert |names[j]| > |base|;
      } else if names[i] == names[j] {
        assert names[i] == Suffixed(base, i - 1 + FIRST_SUFFIX);
        SuffixesDiffer(base, i - 1 + FIRST_SUFFIX, j - 1 + FIRST_SUFFIX);
      }
    }
  }

  lemma {:induction false} MembersFit<T>(s: seq<T>, members: set<T>)
    requires forall x :: x in members ==> x in s
    ensures |members| <= |s|
    decreases |s|
  {
    if s == [] {
      assert members == {};
    } else {
      var last := s[|s| - 1];
      MembersFit(s[..|s| - 1], members - {last});
    }
  }

  /** By pigeonhole, a team of fewer than 99 always leaves one of the candidates free. */
  lemma FallbackNeedsAFullTeam(base: string, existing: seq<string>)
    requires |existing| < 99
    ensures FirstFree(Candidates(base), existing, 0).Some?
  {
    var names := Candidates(base);
    FirstFreeMeaning(names, existing, 0);
    if FirstFree(names, existing, 0).None? {
      CandidatesDistinct(base);
      var taken := set x | x in existing;
      DistinctFits(names, taken);
      MembersFit(existing, taken);
      assert false;
    }
  }

  /** The name is new exactly when some candidate was free or the random fallback happens to be. */
  lemma UniqueNameIsNewIff(base: string, existing: seq<string>, fragment: string)
    ensures UniqueName(base, existing, fragment) !in existing <==>
              ((exists i :: 0 <= i < |Candidates(base)| && Candidates(base)[i] !in existing)
               || Fallback(base, fragment) !in existing)
  {
    FirstFreeMeaning(Candidates(base), existing, 0);
  }

  /** The base name when it is free, else the least suffix from 2 to 99 that makes it so, else the fragment. */
  ghost predicate IsGenerated(name: string, base: string, existing: seq<string>, fragment: string) {
    if base !in existing then name == base
    else if forall k: nat :: 2 <= k <= 99 ==> Suffixed(base, k) in existing then name == base + "-" + fragment
    else exists k: nat ::
      && 2 <= k <= 99 && name == Suffixed(base, k) && name !in existing
      && forall j: nat :: 2 <= j < k ==> Suffixed(base, j) in existing
  }

  lemma UniqueNameIsGenerated(base: string, existing: seq<string>, fragment: string)
    ensures IsGenerated(UniqueName(base, existing, fragment), base, existing, fragment)
  {
    var names := Candidates(base);
    FirstFreeMeaning(names, existing, 0);
    assert forall k: nat :: 2 <= k <= 99 ==> names[k - 1] == Suffixed(base, k);
    if FirstFree(names, existing, 0).Some? {
      var i: nat :| IsFirstFree(names, existing, 0, i) && FirstFree(names, existing, 0).value == names[i];
      if i > 0 {
        assert names[0] == base && names[i] == Suffixed(base, i + 1);
        forall j: nat | 2 <= j < i + 1
          ensures Suffixed(base, j) in existing
        {
          assert names[j - 1] in existing;
        }
      }
    }
  }

  method GenerateUniqueTeammateName(base: string, existing: seq<string>, fragment: string) returns (name: string)
    ensures name == UniqueName(base, existing, fragment)
    ensures IsGenerated(name, base, existing, fragment)
    ensures |existing| < 99 ==> name !in existing
  {
    UniqueNameIsGenerated(base, existing, fragment);
    UniqueNameIsNewIff(base, existing, fragment);
    if |existing| < 99 {
      FallbackNeedsAFullTeam(base, existing);
      FirstFreeMeaning(Candidates(base), existing, 0);
    }
    name := SearchName(base, existing, fragment);
  }

  /** The base name, then the suffixes in turn, then the fragment. */
  method SearchName(base: string, existing: seq<string>, fragment: string) returns (name: string)
    ensures name == UniqueName(base, existing, fragment)
  {
    ghost var names := Candidates(base);
    if base !in existing {
      return base;
    }
    var suffix := FIRST_SUFFIX;
    while suffix < SUFFIX_END
      invariant FIRST_SUFFIX <= suffix <= SUFFIX_END
      invariant FirstFree(names, existing, 0) == FirstFree(names, existing, suffix - 1)
    {
      var candidate := base + "-" + Decimal(suffix);
      assert names[suffix - 1] == Suffixed(base, suffix);
      if candidate !in existing {
        return candidate;
      }
      suffix := suffix + 1;
    }
    name := base + "-" + fragment;
  }
}
