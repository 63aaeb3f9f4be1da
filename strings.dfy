/**
 * The two string operations the price machine relies on: the substring
 * test of Python's `in` on strings, and the code-point order Python uses
 * when it compares two strings with `<`.
 */
module Strings {

  /** `t` occurs in `s` starting at position `i`. */
  ghost predicate OccursAt(t: string, s: string, i: nat)
  {
    i + |t| <= |s| && s[i..i + |t|] == t
  }

  /** Python's `t in s` for two strings: `t` is a contiguous part of `s`. */
  function IsSubstring(t: string, s: string): bool
    decreases |s|
  {
    if |t| > |s| then false
    else if s[..|t|] == t then true
    else IsSubstring(t, s[1..])
  }

  /** The recursive test agrees with the positional definition, in both directions. */
  lemma {:induction false} IsSubstringCorrect(t: string, s: string)
    ensures IsSubstring(t, s) <==> exists i: nat :: OccursAt(t, s, i)
    decreases |s|
  {
    if |t| > |s| {
      forall i: nat ensures !OccursAt(t, s, i) { }
    } else if s[..|t|] == t {
      assert OccursAt(t, s, 0);
    } else {
      IsSubstringCorrect(t, s[1..]);
      if IsSubstring(t, s[1..]) {
        var i: nat :| OccursAt(t, s[1..], i);
        assert s[i + 1..i + 1 + |t|] == s[1..][i..i + |t|];
        assert OccursAt(t, s, i + 1);
      } else {
        forall i: nat | OccursAt(t, s, i) ensures false {
          if i > 0 {
            assert s[1..][i - 1..i - 1 + |t|] == s[i..i + |t|];
            assert OccursAt(t, s[1..], i - 1);
          }
        }
      }
    }
  }

  /** The empty string occurs in every string. */
  lemma EmptyIsSubstring(s: string)
    ensures IsSubstring("", s)
  {
  }

  /** Python's `a <= b` on strings: lexicographic order on code points. */
  predicate StrLe(a: string, b: string)
  {
    if a == [] then true
    else if b == [] then false
    else if a[0] != b[0] then a[0] < b[0]
    else StrLe(a[1..], b[1..])
  }

  lemma {:induction false} StrLeTotal(a: string, b: string)
    ensures StrLe(a, b) || StrLe(b, a)
  {
    if a != [] && b != [] && a[0] == b[0] {
      StrLeTotal(a[1..], b[1..]);
    }
  }

  lemma {:induction false} StrLeAntisymmetric(a: string, b: string)
    requires StrLe(a, b) && StrLe(b, a)
    ensures a == b
  {
    if a != [] && b != [] {
      StrLeAntisymmetric(a[1..], b[1..]);
      assert a == [a[0]] + a[1..] && b == [b[0]] + b[1..];
    }
  }

  lemma {:induction false} StrLeTransitive(a: string, b: string, c: string)
    requires StrLe(a, b) && StrLe(b, c)
    ensures StrLe(a, c)
  {
    if a != [] && b != [] && c != [] && a[0] == b[0] && b[0] == c[0] {
      StrLeTransitive(a[1..], b[1..], c[1..]);
    }
  }
}
