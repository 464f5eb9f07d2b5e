/** Character classes and small string scanners shared by the pattern matchers. */
module Text {
  import opened Wrappers

  /** `\d` and `[0-9]` in a JavaScript regular expression without the `u` flag. */
  predicate IsDigit(c: char) { '0' <= c <= '9' }

  /** `[a-z]`. */
  predicate IsLower(c: char) { 'a' <= c <= 'z' }

  predicate IsDigits(s: string) { forall i :: 0 <= i < |s| ==> IsDigit(s[i]) }

  /** `[0-9.]*`. */
  predicate IsDigitsOrDots(s: string) { forall i :: 0 <= i < |s| ==> IsDigit(s[i]) || s[i] == '.' }

  /** `v` stands in `s` at position `p`, read one character at a time. */
  predicate OccursAt(s: string, p: nat, v: string)
    ensures OccursAt(s, p, v) ==> p + |v| <= |s|
    decreases |v|
  {
    if |v| == 0 then p <= |s| else p < |s| && s[p] == v[0] && OccursAt(s, p + 1, v[1..])
  }

  /** An occurrence is a fit in length and a match at every index. */
  lemma {:induction false} OccursAtIff(s: string, p: nat, v: string)
    ensures OccursAt(s, p, v) <==> p + |v| <= |s| && forall j :: 0 <= j < |v| ==> s[p + j] == v[j]
    decreases |v|
  {
    if |v| > 0 {
      OccursAtIff(s, p + 1, v[1..]);
      if p + |v| <= |s| && forall j :: 0 <= j < |v| ==> s[p + j] == v[j] {
        forall j | 0 <= j < |v| - 1
          ensures s[p + 1 + j] == v[1..][j]
        {
          assert s[p + (j + 1)] == v[j + 1];
        }
      }
      if OccursAt(s, p, v) {
        forall j | 0 <= j < |v|
          ensures s[p + j] == v[j]
        {
          if j > 0 {
            assert s[p + 1 + (j - 1)] == v[1..][j - 1];
          }
        }
      }
    }
  }

  lemma OccursAtChar(s: string, p: nat, v: string, j: nat)
    requires OccursAt(s, p, v) && j < |v|
    ensures s[p + j] == v[j]
  {
    OccursAtIff(s, p, v);
  }

  /** An occurrence of `a + b` is an occurrence of `a` followed by one of `b`. */
  lemma OccursAtSplit(s: string, p: nat, a: string, b: string)
    requires OccursAt(s, p, a + b)
    ensures OccursAt(s, p, a) && OccursAt(s, p + |a|, b)
  {
    OccursAtIff(s, p, a + b);
    OccursAtIff(s, p, a);
    OccursAtIff(s, p + |a|, b);
    forall j | 0 <= j < |a|
      ensures s[p + j] == a[j]
    {
      assert (a + b)[j] == a[j];
    }
    forall j | 0 <= j < |b|
      ensures s[p + |a| + j] == b[j]
    {
      assert (a + b)[|a| + j] == b[j];
    }
  }

  /** An occurrence of `v` holds an occurrence of each prefix of `v`. */
  lemma OccursAtTake(s: string, p: nat, v: string, k: nat)
    requires OccursAt(s, p, v) && k <= |v|
    ensures OccursAt(s, p, v[..k])
  {
    OccursAtIff(s, p, v);
    OccursAtIff(s, p, v[..k]);
    forall j | 0 <= j < k
      ensures s[p + j] == v[..k][j]
    {
      assert v[..k][j] == v[j];
    }
  }

  /** An occurrence of `v` holds an occurrence of what follows its character `k`, further along. */
  lemma OccursAtAfter(s: string, p: nat, v: string, k: nat)
    requires OccursAt(s, p, v) && k < |v|
    ensures OccursAt(s, p + k + 1, v[k + 1..])
  {
    var q := p + k + 1;
    var w := v[k + 1..];
    OccursAtIff(s, p, v);
    OccursAtIff(s, q, w);
    forall j | 0 <= j < |w|
      ensures s[q + j] == w[j]
    {
      assert w[j] == v[k + 1 + j];
    }
  }

  /** What occurs at `p` is the slice of `s` there. */
  lemma OccursAtSlice(s: string, p: nat, v: string)
    requires OccursAt(s, p, v)
    ensures s[p..p + |v|] == v
  {
    OccursAtIff(s, p, v);
    forall j | 0 <= j < |v|
      ensures s[p..p + |v|][j] == v[j]
    {
      assert s[p..p + |v|][j] == s[p + j];
    }
  }

  /** A slice of `s` ending at `e`, followed by an occurrence at `e`, occurs as one piece. */
  lemma OccursAtJoin(s: string, p: nat, e: nat, suffix: string)
    requires p <= e <= |s| && OccursAt(s, e, suffix)
    ensures OccursAt(s, p, s[p..e] + suffix)
  {
    var v := s[p..e] + suffix;
    OccursAtIff(s, e, suffix);
    OccursAtIff(s, p, v);
    forall j | 0 <= j < |v|
      ensures s[p + j] == v[j]
    {
      if j < e - p {
        assert v[j] == s[p..e][j];
      } else {
        assert v[j] == suffix[j - (e - p)];
        assert s[e + (j - (e - p))] == suffix[j - (e - p)];
      }
    }
  }

  /** The second part of a join occurs where the first part ends. */
  lemma OccursAtEnd(a: string, w: string)
    ensures OccursAt(a + w, |a|, w)
  {
    OccursAtIff(a + w, |a|, w);
    forall j | 0 <= j < |w|
      ensures (a + w)[|a| + j] == w[j]
    {
    }
  }

  /** The length of the longest run of digits starting at position `i`,
      which is what a greedy `\d+` or `\d*` consumes there. */
  function DigitRun(s: string, i: nat): (n: nat)
    requires i <= |s|
    ensures i + n <= |s|
    decreases |s| - i
  {
    if i < |s| && IsDigit(s[i]) then 1 + DigitRun(s, i + 1) else 0
  }

  /** What `DigitRun` measures is all digits, and it stops at a non-digit or the end. */
  lemma {:induction false} DigitRunSpec(s: string, i: nat)
    requires i <= |s|
    ensures forall k :: i <= k < i + DigitRun(s, i) ==> IsDigit(s[k])
    ensures i + DigitRun(s, i) == |s| || !IsDigit(s[i + DigitRun(s, i)])
    decreases |s| - i
  {
    if i < |s| && IsDigit(s[i]) {
      DigitRunSpec(s, i + 1);
    }
  }

  /** Text standing where `s` has only digits is digits. */
  lemma OccursAtDigits(s: string, p: nat, w: string)
    requires OccursAt(s, p, w) && forall k :: p <= k < p + |w| ==> IsDigit(s[k])
    ensures IsDigits(w)
  {
    forall j | 0 <= j < |w|
      ensures IsDigit(w[j])
    {
      OccursAtChar(s, p, w, j);
    }
  }

  /** Every slice of `s` occurs where it was taken. */
  lemma SliceOccurs(s: string, p: nat, e: nat)
    requires p <= e <= |s|
    ensures OccursAt(s, p, s[p..e])
  {
    OccursAtIff(s, p, s[p..e]);
    forall j | 0 <= j < e - p
      ensures s[p + j] == s[p..e][j]
    {
    }
  }

  /** The position of the last occurrence of `c` in `s`. */
  function LastIndexOf(s: string, c: char): (r: Option<nat>)
    ensures r.Some? ==> r.value < |s| && s[r.value] == c
    ensures r.Some? ==> forall k :: r.value < k < |s| ==> s[k] != c
    ensures r.None? ==> forall k :: 0 <= k < |s| ==> s[k] != c
  {
    if |s| == 0 then None
    else if s[|s| - 1] == c then Some(|s| - 1)
    else LastIndexOf(s[..|s| - 1], c)
  }

  /** The text before the first `c`, or all of `s` when it holds no `c`:
      JavaScript's `s.split(c)[0]`. */
  function BeforeFirst(s: string, c: char): (r: string)
    ensures |r| <= |s| && r == s[..|r|]
    ensures forall k :: 0 <= k < |r| ==> r[k] != c
    ensures |r| == |s| || s[|r|] == c
  {
    if |s| == 0 || s[0] == c then [] else [s[0]] + BeforeFirst(s[1..], c)
  }

  /** Text before the first `c` of `a + b`, when `a` holds no `c` and `b` is empty or starts with `c`, is `a`. */
  lemma {:induction false} BeforeFirstOfJoin(a: string, b: string, c: char)
    requires forall k :: 0 <= k < |a| ==> a[k] != c
    requires b == [] || b[0] == c
    ensures BeforeFirst(a + b, c) == a
  {
    if a != [] {
      assert (a + b)[1..] == a[1..] + b;
      BeforeFirstOfJoin(a[1..], b, c);
    }
  }
}
