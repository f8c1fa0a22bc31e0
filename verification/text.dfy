/** Text matching and ordering used by the listings: the ORM's `icontains` lookup
    (case-insensitive substring test) and the ordering of room names. */
module Text {

  /** Folds an ASCII upper-case letter to lower case; other characters are kept. */
  function LowerChar(c: char): char {
    if 'A' <= c <= 'Z' then (c as int + 32) as char else c
  }

  function Lower(s: string): (r: string)
    ensures |r| == |s|
    ensures forall i :: 0 <= i < |s| ==> r[i] == LowerChar(s[i])
  {
    seq(|s|, i requires 0 <= i < |s| => LowerChar(s[i]))
  }

  /** Lower-casing twice is lower-casing once. */
  lemma LowerIdempotent(s: string)
    ensures Lower(Lower(s)) == Lower(s)
  {
    assert forall i :: 0 <= i < |s| ==> LowerChar(LowerChar(s[i])) == LowerChar(s[i]);
  }

  /** `n` occurs in `h` starting at position `i`. */
  ghost predicate OccursAt(n: string, h: string, i: int) {
    0 <= i && i + |n| <= |h| && h[i..i + |n|] == n
  }

  /** Substring test, scanning `h` from the left. */
  function Contains(h: string, n: string): (b: bool)
    ensures b <==> exists i :: OccursAt(n, h, i)
    decreases |h|
  {
    if |n| > |h| then
      false
    else if h[..|n|] == n then
      assert OccursAt(n, h, 0);
      true
    else
      var rest := Contains(h[1..], n);
      ShiftOccurrence(n, h);
      rest
  }

  /** When `n` does not start `h`, it occurs in `h` exactly when it occurs in `h[1..]`. */
  lemma ShiftOccurrence(n: string, h: string)
    requires |n| <= |h| && h[..|n|] != n
    ensures (exists i :: OccursAt(n, h, i)) <==> (exists i :: OccursAt(n, h[1..], i))
  {
    forall i | OccursAt(n, h[1..], i) ensures OccursAt(n, h, i + 1) {
      assert h[i + 1..i + 1 + |n|] == h[1..][i..i + |n|];
    }
    forall i | OccursAt(n, h, i) ensures i > 0 && OccursAt(n, h[1..], i - 1) {
      assert i != 0;
      assert h[1..][i - 1..i - 1 + |n|] == h[i..i + |n|];
    }
  }

  /** The `icontains` lookup: `n` occurs in `h` when both are lower-cased. */
  function IContains(h: string, n: string): bool {
    Contains(Lower(h), Lower(n))
  }

  /** The empty filter text matches every value. */
  lemma IContainsEmpty(h: string)
    ensures IContains(h, "")
  {
    assert OccursAt(Lower(""), Lower(h), 0);
  }

  /** The case of either argument does not change the outcome of `icontains`. */
  lemma IContainsIgnoresCase(h: string, n: string)
    ensures IContains(Lower(h), n) == IContains(h, n)
    ensures IContains(h, Lower(n)) == IContains(h, n)
  {
    LowerIdempotent(h);
    LowerIdempotent(n);
  }

  /** Lexicographic order on code points: `a` is a prefix of `b`, or at the first
      difference `a` has the smaller character. */
  predicate StrLe(a: string, b: string)
    decreases |a|
  {
    |a| == 0 || (|b| > 0 && (a[0] < b[0] || (a[0] == b[0] && StrLe(a[1..], b[1..]))))
  }

  lemma {:induction false} StrLeTotal(a: string, b: string)
    ensures StrLe(a, b) || StrLe(b, a)
    decreases |a|
  {
    if |a| > 0 && |b| > 0 && a[0] == b[0] {
      StrLeTotal(a[1..], b[1..]);
    }
  }

  lemma {:induction false} StrLeTransitive(a: string, b: string, c: string)
    requires StrLe(a, b) && StrLe(b, c)
    ensures StrLe(a, c)
    decreases |a|
  {
    if |a| > 0 && a[0] == b[0] && b[0] == c[0] {
      StrLeTransitive(a[1..], b[1..], c[1..]);
    }
  }

  /** Only equal strings precede each other. */
  lemma {:induction false} StrLeAntisymmetric(a: string, b: string)
    requires StrLe(a, b) && StrLe(b, a)
    ensures a == b
    decreases |a|
  {
    if |a| > 0 {
      StrLeAntisymmetric(a[1..], b[1..]);
      assert a == [a[0]] + a[1..] && b == [b[0]] + b[1..];
    }
  }
}
