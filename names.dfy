/**
 * Name comparison used throughout the charset tables.
 *
 * lcStrCmp and compare1 (charset.c) compare two names ignoring ASCII case and
 * skipping whitespace, '-', '_' and '/' on either side; strcasecmp (used by the
 * conversion cache and the alias table of luitconv.c) compares ignoring case
 * only. Strings are sequences of characters whose end plays the part of the C
 * terminator; the locale-dependent tolower/isspace are restricted to ASCII.
 */
module Names {

  /** isspace in the C locale: space, tab, newline, vertical tab, form feed, carriage return. */
  predicate IsSpace(c: char) {
    c == ' ' || c == '\t' || c == '\n' || c == '\U{B}' || c == '\U{C}' || c == '\r'
  }

  /** tolower in the C locale. */
  function ToLower(c: char): char {
    if 'A' <= c <= 'Z' then (c as int + 32) as char else c
  }

  /** lcIgnore: characters the fuzzy comparison skips. */
  predicate Ignorable(c: char) {
    IsSpace(c) || c == '-' || c == '_' || c == '/'
  }

  /** The significant characters of a name: ignorable ones deleted, the rest lower-cased. */
  function Normalize(s: string): (r: string)
    ensures |r| <= |s|
  {
    if s == [] then []
    else (if Ignorable(s[0]) then [] else [ToLower(s[0])]) + Normalize(s[1..])
  }

  /** Two names denote the same charset when their significant characters agree. */
  predicate NamesMatch(s: string, t: string) {
    Normalize(s) == Normalize(t)
  }

  /**
   * The comparison loop of lcStrCmp run from positions i of s and j of t:
   * true when it reaches the end of both names without a mismatch.
   */
  predicate MatchFrom(s: string, t: string, i: nat, j: nat)
    requires i <= |s| && j <= |t|
    decreases |s| - i + |t| - j
  {
    if i >= |s| && j >= |t| then true
    else if i < |s| && Ignorable(s[i]) then MatchFrom(s, t, i + 1, j)
    else if j < |t| && Ignorable(t[j]) then MatchFrom(s, t, i, j + 1)
    else if i < |s| && j < |t| && ToLower(s[i]) == ToLower(t[j]) then MatchFrom(s, t, i + 1, j + 1)
    else false
  }

  /** lcStrCmp(s, t) == 0, as the catalog scans use it. */
  predicate LcMatch(s: string, t: string) {
    MatchFrom(s, t, 0, 0)
  }

  /**
   * The comparison loop of compare1 run from positions i and j with at most n
   * steps left: every step skips one ignorable character or consumes one
   * matching pair; 1 means a mismatch was met within the budget.
   */
  function StepsFrom(s: string, t: string, i: nat, j: nat, n: nat): (r: int)
    ensures r == 0 || r == 1
    decreases n
  {
    if n == 0 || (i >= |s| && j >= |t|) then 0
    else if i < |s| && Ignorable(s[i]) then StepsFrom(s, t, i + 1, j, n - 1)
    else if j < |t| && Ignorable(t[j]) then StepsFrom(s, t, i, j + 1, n - 1)
    else if i < |s| && j < |t| && ToLower(s[i]) == ToLower(t[j]) then StepsFrom(s, t, i + 1, j + 1, n - 1)
    else 1
  }

  /** compare1(s, t, n), as the prefix rewriting uses it. */
  function Compare1Result(s: string, t: string, n: nat): int {
    StepsFrom(s, t, 0, 0, n)
  }

  /** lcStrCmp: 0 when the names match, 1 otherwise. */
  method LcStrCmp(s: string, t: string) returns (r: int)
    ensures r == 0 || r == 1
    ensures r == 0 <==> NamesMatch(s, t)
    ensures r == 0 <==> LcMatch(s, t)
  {
    var i, j := 0, 0;
    r := 0;
    while i < |s| || j < |t|
      invariant 0 <= i <= |s| && 0 <= j <= |t|
      invariant MatchFrom(s, t, i, j) == LcMatch(s, t)
      decreases |s| - i + |t| - j
    {
      if i < |s| && Ignorable(s[i]) {
        i := i + 1;
      } else if j < |t| && Ignorable(t[j]) {
        j := j + 1;
      } else if i < |s| && j < |t| && ToLower(s[i]) == ToLower(t[j]) {
        i, j := i + 1, j + 1;
      } else {
        r := 1;
        break;
      }
    }
    MatchFromMeaning(s, t, 0, 0);
  }

  /** compare1: the lcStrCmp loop cut off after n steps. */
  method Compare1(s: string, t: string, n: nat) returns (r: int)
    ensures r == Compare1Result(s, t, n)
  {
    var i, j, budget := 0, 0, n;
    r := 0;
    while budget > 0 && (i < |s| || j < |t|)
      invariant 0 <= i <= |s| && 0 <= j <= |t|
      invariant StepsFrom(s, t, i, j, budget) == StepsFrom(s, t, 0, 0, n)
    {
      budget := budget - 1;
      if i < |s| && Ignorable(s[i]) {
        i := i + 1;
      } else if j < |t| && Ignorable(t[j]) {
        j := j + 1;
      } else if i < |s| && j < |t| && ToLower(s[i]) == ToLower(t[j]) {
        i, j := i + 1, j + 1;
      } else {
        r := 1;
        break;
      }
    }
  }

  /** The comparison loop succeeds exactly when the remaining significant characters agree. */
  lemma {:induction false} MatchFromMeaning(s: string, t: string, i: nat, j: nat)
    requires i <= |s| && j <= |t|
    ensures MatchFrom(s, t, i, j) <==> Normalize(s[i..]) == Normalize(t[j..])
    decreases |s| - i + |t| - j
  {
    if i == |s| && j == |t| {
    } else if i < |s| && Ignorable(s[i]) {
      assert s[i..][1..] == s[i + 1..];
      MatchFromMeaning(s, t, i + 1, j);
    } else if j < |t| && Ignorable(t[j]) {
      assert t[j..][1..] == t[j + 1..];
      MatchFromMeaning(s, t, i, j + 1);
    } else if i < |s| && j < |t| && ToLower(s[i]) == ToLower(t[j]) {
      assert s[i..][1..] == s[i + 1..];
      assert t[j..][1..] == t[j + 1..];
      MatchFromMeaning(s, t, i + 1, j + 1);
      var x, y := Normalize(s[i..]), Normalize(t[j..]);
      assert x == [ToLower(s[i])] + Normalize(s[i + 1..]);
      assert y == [ToLower(t[j])] + Normalize(t[j + 1..]);
      assert x == y ==> x[1..] == y[1..];
    } else {
      if i < |s| { assert Normalize(s[i..])[0] == ToLower(s[i]); }
      if j < |t| { assert Normalize(t[j..])[0] == ToLower(t[j]); }
    }
  }

  /** lcStrCmp(s, t) == 0 exactly when the names agree after deleting ignorable characters and lower-casing. */
  lemma LcMatchMeaning(s: string, t: string)
    ensures LcMatch(s, t) <==> NamesMatch(s, t)
  {
    MatchFromMeaning(s, t, 0, 0);
  }

  /** With a budget that covers what is left of both names, the bounded loop is the unbounded one. */
  lemma {:induction false} StepsDecide(s: string, t: string, i: nat, j: nat, n: nat)
    requires i <= |s| && j <= |t| && n >= |s| - i + |t| - j
    ensures StepsFrom(s, t, i, j, n) == 0 <==> MatchFrom(s, t, i, j)
    decreases n
  {
    if i == |s| && j == |t| {
    } else if i < |s| && Ignorable(s[i]) {
      StepsDecide(s, t, i + 1, j, n - 1);
    } else if j < |t| && Ignorable(t[j]) {
      StepsDecide(s, t, i, j + 1, n - 1);
    } else if i < |s| && j < |t| && ToLower(s[i]) == ToLower(t[j]) {
      StepsDecide(s, t, i + 1, j + 1, n - 1);
    }
  }

  /** Names that match pass every bounded comparison: compare1 never rejects them, whatever n is. */
  lemma {:induction false} MatchImpliesBoundedMatch(s: string, t: string, i: nat, j: nat, n: nat)
    requires i <= |s| && j <= |t|
    requires MatchFrom(s, t, i, j)
    ensures StepsFrom(s, t, i, j, n) == 0
    decreases n
  {
    if n == 0 || (i >= |s| && j >= |t|) {
    } else if i < |s| && Ignorable(s[i]) {
      MatchImpliesBoundedMatch(s, t, i + 1, j, n - 1);
    } else if j < |t| && Ignorable(t[j]) {
      MatchImpliesBoundedMatch(s, t, i, j + 1, n - 1);
    } else {
      MatchImpliesBoundedMatch(s, t, i + 1, j + 1, n - 1);
    }
  }

  /** compare1 with a zero budget accepts anything; with a budget covering both names it is lcStrCmp. */
  lemma Compare1Bounds(s: string, t: string, n: nat)
    ensures Compare1Result(s, t, 0) == 0
    ensures LcMatch(s, t) ==> Compare1Result(s, t, n) == 0
    ensures n >= |s| + |t| ==> (Compare1Result(s, t, n) == 0 <==> LcMatch(s, t))
  {
    if LcMatch(s, t) {
      MatchImpliesBoundedMatch(s, t, 0, 0, n);
    }
    if n >= |s| + |t| {
      StepsDecide(s, t, 0, 0, n);
    }
  }

  /** Matching is an equivalence: reflexive, symmetric and transitive. */
  lemma LcMatchIsEquivalence(s: string, t: string, u: string)
    ensures LcMatch(s, s)
    ensures LcMatch(s, t) == LcMatch(t, s)
    ensures LcMatch(s, t) && LcMatch(t, u) ==> LcMatch(s, u)
  {
    LcMatchMeaning(s, s);
    LcMatchMeaning(s, t);
    LcMatchMeaning(t, s);
    LcMatchMeaning(t, u);
    LcMatchMeaning(s, u);
  }

  /** "ISO-8859-1" and "iso8859_1" name the same charset; "ISO-8859-2" does not. */
  lemma IsoNamesExample()
    ensures LcMatch("ISO-8859-1", "iso8859_1")
    ensures !LcMatch("ISO-8859-1", "ISO-8859-2")
  {
  }

  /** strcasecmp(a, b) == 0: equal length and equal up to ASCII case. */
  predicate StrCaseEqual(a: string, b: string) {
    |a| == |b| && forall i :: 0 <= i < |a| ==> ToLower(a[i]) == ToLower(b[i])
  }
}
