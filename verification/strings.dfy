/** The string operations the summary filter relies on, with Python's `str`
    semantics restricted to what the filter uses: ordinal comparison, ASCII
    lower-casing, whitespace stripping and the `in` (substring) test. */
module Strings {

  // ---------------------------------------------------------------------------
  // Ordinal (code point) lexicographic order, as Python compares `str` values
  // ---------------------------------------------------------------------------

  /** `a <= b` for Python strings: compare code points left to right; a proper
      prefix sorts before the longer string. */
  predicate LessEq(a: string, b: string)
  {
    if |a| == 0 then true
    else if |b| == 0 then false
    else if a[0] != b[0] then a[0] < b[0]
    else LessEq(a[1..], b[1..])
  }

  /** `a < b` for Python strings. */
  predicate Less(a: string, b: string)
  {
    LessEq(a, b) && a != b
  }

  /** Independent characterisation of the order: `a` and `b` agree on a common
      prefix of length `k`, after which either `a` ends or `a` has the smaller
      code point. */
  ghost predicate LessEqAt(a: string, b: string, k: int)
  {
    && 0 <= k <= |a|
    && k <= |b|
    && a[..k] == b[..k]
    && (k == |a| || (k < |b| && a[k] < b[k]))
  }

  lemma {:induction false} LessEqHasWitness(a: string, b: string)
    requires LessEq(a, b)
    ensures exists k :: LessEqAt(a, b, k)
    decreases |a|
  {
    if |a| == 0 {
      assert LessEqAt(a, b, 0);
    } else if a[0] != b[0] {
      assert LessEqAt(a, b, 0);
    } else {
      LessEqHasWitness(a[1..], b[1..]);
      var k :| LessEqAt(a[1..], b[1..], k);
      assert a[..k + 1] == [a[0]] + a[1..][..k];
      assert b[..k + 1] == [b[0]] + b[1..][..k];
      assert LessEqAt(a, b, k + 1);
    }
  }

  lemma {:induction false} WitnessGivesLessEq(a: string, b: string, k: int)
    requires LessEqAt(a, b, k)
    ensures LessEq(a, b)
    decreases |a|
  {
    if |a| == 0 {
    } else if k == 0 {
      assert a[0] < b[0];
    } else {
      assert a[0] == a[..k][0] == b[..k][0] == b[0];
      assert a[1..][..k - 1] == a[..k][1..];
      assert b[1..][..k - 1] == b[..k][1..];
      WitnessGivesLessEq(a[1..], b[1..], k - 1);
    }
  }

  /** The recursive order agrees with the prefix-and-first-difference definition. */
  lemma LessEqIffWitness(a: string, b: string)
    ensures LessEq(a, b) <==> exists k :: LessEqAt(a, b, k)
  {
    if LessEq(a, b) {
      LessEqHasWitness(a, b);
    }
    if exists k :: LessEqAt(a, b, k) {
      var k :| LessEqAt(a, b, k);
      WitnessGivesLessEq(a, b, k);
    }
  }

  lemma {:induction false} LessEqReflexive(a: string)
    ensures LessEq(a, a)
    decreases |a|
  {
    if |a| > 0 {
      LessEqReflexive(a[1..]);
    }
  }

  lemma {:induction false} LessEqAntisymmetric(a: string, b: string)
    requires LessEq(a, b) && LessEq(b, a)
    ensures a == b
    decreases |a|
  {
    if |a| > 0 {
      LessEqAntisymmetric(a[1..], b[1..]);
      assert a == [a[0]] + a[1..];
      assert b == [b[0]] + b[1..];
    }
  }

  lemma {:induction false} LessEqTransitive(a: string, b: string, c: string)
    requires LessEq(a, b) && LessEq(b, c)
    ensures LessEq(a, c)
    decreases |a|
  {
    if |a| > 0 && a[0] == b[0] && b[0] == c[0] {
      LessEqTransitive(a[1..], b[1..], c[1..]);
    }
  }

  lemma {:induction false} LessEqTotal(a: string, b: string)
    ensures LessEq(a, b) || LessEq(b, a)
    decreases |a|
  {
    if |a| > 0 && |b| > 0 && a[0] == b[0] {
      LessEqTotal(a[1..], b[1..]);
    }
  }

  /** The strict order is a strict total order on distinct strings. */
  lemma LessTrichotomy(a: string, b: string)
    ensures a == b || Less(a, b) || Less(b, a)
    ensures !(Less(a, b) && Less(b, a))
    ensures !(Less(a, b) && a == b)
  {
    LessEqTotal(a, b);
    if LessEq(a, b) && LessEq(b, a) {
      LessEqAntisymmetric(a, b);
    }
  }

  /** Antisymmetry stated for every pair, so that a minimum of a set is unique. */
  lemma AllAntisymmetric()
    ensures forall a, b :: LessEq(a, b) && LessEq(b, a) ==> a == b
  {
    forall a, b | LessEq(a, b) && LessEq(b, a)
      ensures a == b
    {
      LessEqAntisymmetric(a, b);
    }
  }

  // ---------------------------------------------------------------------------
  // Sorting a finite set of strings (used to enumerate keys deterministically)
  // ---------------------------------------------------------------------------

  ghost predicate IsLeast(k: string, s: set<string>)
  {
    k in s && forall j :: j in s ==> LessEq(k, j)
  }

  lemma {:induction false} LeastExists(s: set<string>)
    requires s != {}
    ensures exists k :: IsLeast(k, s)
    decreases |s|
  {
    var x :| x in s;
    if s == {x} {
      LessEqReflexive(x);
      assert IsLeast(x, s);
    } else {
      LeastExists(s - {x});
      var m :| IsLeast(m, s - {x});
      LessEqTotal(x, m);
      if LessEq(x, m) {
        LessEqReflexive(x);
        forall j | j in s
          ensures LessEq(x, j)
        {
          if j != x {
            LessEqTransitive(x, m, j);
          }
        }
        assert IsLeast(x, s);
      } else {
        assert IsLeast(m, s);
      }
    }
  }

  /** Strictly increasing in the ordinal order, hence without duplicates. */
  predicate StrictlyIncreasing(r: seq<string>)
  {
    forall i, j :: 0 <= i < j < |r| ==> Less(r[i], r[j])
  }

  /** The elements of a finite set of strings in ascending ordinal order. */
  function SortedElements(s: set<string>): (r: seq<string>)
    ensures |r| == |s|
    ensures forall k :: k in r <==> k in s
    ensures StrictlyIncreasing(r)
    decreases |s|
  {
    if s == {} then []
    else
      LeastExists(s);
      AllAntisymmetric();
      var k :| k in s && forall j :: j in s ==> LessEq(k, j);
      var rest := SortedElements(s - {k});
      ConsIncreasing(k, rest);
      [k] + rest
  }

  lemma ConsIncreasing(k: string, rest: seq<string>)
    requires StrictlyIncreasing(rest)
    requires forall j :: j in rest ==> LessEq(k, j) && j != k
    ensures StrictlyIncreasing([k] + rest)
  {
    var r := [k] + rest;
    forall i, j | 0 <= i < j < |r|
      ensures Less(r[i], r[j])
    {
      if i > 0 {
        assert r[i] == rest[i - 1] && r[j] == rest[j - 1];
      } else {
        assert r[j] in rest;
      }
    }
  }

  // ---------------------------------------------------------------------------
  // ASCII lower-casing and whitespace stripping
  // ---------------------------------------------------------------------------

  predicate IsUpper(c: char)
  {
    'A' <= c <= 'Z'
  }

  /** `c.lower()` restricted to ASCII: upper-case letters map to the letter 32 code
      points higher. */
  function LowerChar(c: char): (r: char)
    ensures !IsUpper(r)
    ensures IsUpper(c) ==> r as int == c as int + 32
    ensures !IsUpper(c) ==> r == c
  {
    if IsUpper(c) then (c as int + 32) as char else c
  }

  /** `s.lower()`: the same length, every character lowered in place. */
  function Lower(s: string): (r: string)
    ensures |r| == |s|
    ensures forall i :: 0 <= i < |s| ==> r[i] == LowerChar(s[i])
  {
    if s == [] then [] else [LowerChar(s[0])] + Lower(s[1..])
  }

  /** Lower-casing changes nothing in a string without upper-case letters. */
  lemma LowerKeepsLowercase(s: string)
    requires forall i :: 0 <= i < |s| ==> !IsUpper(s[i])
    ensures Lower(s) == s
  {
  }

  lemma {:induction false} LowerIdempotent(s: string)
    ensures Lower(Lower(s)) == Lower(s)
  {
    var t := Lower(s);
    assert forall i :: 0 <= i < |t| ==> Lower(t)[i] == t[i];
  }

  /** The ASCII characters Python's `str.isspace` accepts: tab, line feed,
      vertical tab, form feed, carriage return (9-13), the separators
      0x1C-0x1F, and space (32). */
  predicate IsSpace(c: char)
  {
    (9 <= c as int <= 13) || (28 <= c as int <= 32)
  }

  /** Number of leading whitespace characters. */
  function LeadingSpaces(s: string): (n: nat)
    ensures n <= |s|
    ensures forall i :: 0 <= i < n ==> IsSpace(s[i])
    ensures n < |s| ==> !IsSpace(s[n])
  {
    if s == [] || !IsSpace(s[0]) then 0 else 1 + LeadingSpaces(s[1..])
  }

  /** Number of trailing whitespace characters. */
  function TrailingSpaces(s: string): (n: nat)
    ensures n <= |s|
    ensures forall i :: |s| - n <= i < |s| ==> IsSpace(s[i])
    ensures n < |s| ==> !IsSpace(s[|s| - n - 1])
  {
    if s == [] || !IsSpace(s[|s| - 1]) then 0 else 1 + TrailingSpaces(s[..|s| - 1])
  }

  /** `r` is the slice of `s` starting at `i`, and everything of `s` outside
      that slice is whitespace. */
  ghost predicate SliceBetweenSpaces(r: string, s: string, i: int)
  {
    && 0 <= i <= |s| - |r|
    && s[i..i + |r|] == r
    && (forall k :: 0 <= k < i ==> IsSpace(s[k]))
    && (forall k :: i + |r| <= k < |s| ==> IsSpace(s[k]))
  }

  /** `s.strip()`: a slice of `s` with only whitespace cut away, neither
      starting nor ending with whitespace. */
  function Strip(s: string): (r: string)
    ensures exists i :: SliceBetweenSpaces(r, s, i)
    ensures |r| > 0 ==> !IsSpace(r[0]) && !IsSpace(r[|r| - 1])
  {
    var i := LeadingSpaces(s);
    var t := s[i..];
    var r := t[..|t| - TrailingSpaces(t)];
    assert SliceBetweenSpaces(r, s, i);
    r
  }

  /** A string that neither starts nor ends with whitespace strips to itself. */
  lemma StripKeepsTrimmed(s: string)
    requires |s| > 0 ==> !IsSpace(s[0]) && !IsSpace(s[|s| - 1])
    ensures Strip(s) == s
  {
    var r := Strip(s);
    var i :| SliceBetweenSpaces(r, s, i);
    assert |s| > 0 ==> i == 0 && i + |r| == |s|;
    assert s[0..|s|] == s;
  }

  /** Stripping leaves nothing exactly when the string is all whitespace. */
  lemma StripEmptyIffBlank(s: string)
    ensures Strip(s) == [] <==> forall k :: 0 <= k < |s| ==> IsSpace(s[k])
  {
    var r := Strip(s);
    var i :| SliceBetweenSpaces(r, s, i);
    if r == [] {
      forall k | 0 <= k < |s|
        ensures IsSpace(s[k])
      {
        assert k < i || i + |r| <= k;
      }
    } else {
      assert s[i] == r[0];
    }
  }

  lemma StripIdempotent(s: string)
    ensures Strip(Strip(s)) == Strip(s)
  {
    var r := Strip(s);
    var r2 := Strip(r);
    var i :| SliceBetweenSpaces(r2, r, i);
    assert |r| > 0 ==> !IsSpace(r[0]) && !IsSpace(r[|r| - 1]);
    assert r[0..|r|] == r;
  }

  // ---------------------------------------------------------------------------
  // Substring test, as Python's `needle in haystack`
  // ---------------------------------------------------------------------------

  ghost predicate OccursAt(p: string, s: string, i: int)
  {
    0 <= i <= |s| - |p| && s[i..i + |p|] == p
  }

  /** Without a match at offset 0, `p` occurs in `s` exactly when it occurs
      in `s[1..]`. */
  lemma OccursInTail(p: string, s: string)
    requires |p| <= |s| && s[..|p|] != p
    ensures |s| > 0
    ensures (exists i :: OccursAt(p, s, i)) <==> (exists i :: OccursAt(p, s[1..], i))
  {
    if exists i :: OccursAt(p, s[1..], i) {
      var i :| OccursAt(p, s[1..], i);
      assert s[1..][i..i + |p|] == s[i + 1..i + 1 + |p|];
      assert OccursAt(p, s, i + 1);
    }
    if exists i :: OccursAt(p, s, i) {
      var i :| OccursAt(p, s, i);
      assert i != 0;
      assert s[1..][i - 1..i - 1 + |p|] == s[i..i + |p|];
      assert OccursAt(p, s[1..], i - 1);
    }
  }

  /** `p in s`: true exactly when `p` occurs in `s` at some offset (the empty
      string occurs everywhere). */
  function Contains(p: string, s: string): (b: bool)
    ensures b <==> exists i :: OccursAt(p, s, i)
    decreases |s|
  {
    if |p| > |s| then false
    else if s[..|p|] == p then
      assert OccursAt(p, s, 0);
      true
    else
      OccursInTail(p, s);
      Contains(p, s[1..])
  }
}
