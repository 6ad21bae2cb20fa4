/** Small shared vocabulary: an optional value, integer helpers that mirror
    Python built-ins, and sequence helpers. */
module Util {

  datatype Option<T> = None | Some(value: T)

  function Min(a: int, b: int): int { if a <= b then a else b }

  function Max(a: int, b: int): int { if a >= b then a else b }

  /** Python's `int(a / b)` for b > 0: the exact quotient truncated toward zero. */
  function TruncDiv(a: int, b: int): int
    requires b > 0
  {
    if a >= 0 then a / b else -((-a) / b)
  }

  /** No value occurs twice in `s`. */
  predicate NoDups<T(==)>(s: seq<T>)
  {
    forall i, j :: 0 <= i < j < |s| ==> s[i] != s[j]
  }

  /** `t` is the last |t| elements of `s`, in order. */
  predicate SuffixOf<T(==)>(t: seq<T>, s: seq<T>)
  {
    |t| <= |s| && forall i :: 0 <= i < |t| ==> t[i] == s[|s| - |t| + i]
  }

  /** Python's `s[-k:]` for k >= 1: the last k elements, or all of `s` when it is shorter. */
  function Tail<T(==)>(s: seq<T>, k: nat): (t: seq<T>)
    requires k >= 1
    ensures |t| == Min(|s|, k)
    ensures SuffixOf(t, s)
  {
    if |s| <= k then s else s[|s| - k..]
  }

  /** A permutation of a duplicate-free sequence is duplicate-free. */
  lemma {:induction false} PermutationKeepsNoDups<T>(a: seq<T>, b: seq<T>)
    requires multiset(a) == multiset(b)
    requires NoDups(b)
    ensures NoDups(a)
  {
    forall i, j | 0 <= i < j < |a| ensures a[i] != a[j] {
      if a[i] == a[j] {
        TwiceCounted(a, i, j);
        CountedOnce(b, a[i]);
        assert false;
      }
    }
  }

  lemma {:induction false} TwiceCounted<T>(s: seq<T>, i: nat, j: nat)
    requires i < j < |s| && s[i] == s[j]
    ensures multiset(s)[s[i]] >= 2
  {
    var x := s[i];
    assert s == s[..i] + [x] + s[i + 1..j] + [x] + s[j + 1..];
    calc {
      multiset(s)[x];
      == { assert s == s[..i] + [x] + s[i + 1..j] + [x] + s[j + 1..]; }
      multiset(s[..i] + [x] + s[i + 1..j] + [x] + s[j + 1..])[x];
      == multiset(s[..i])[x] + 1 + multiset(s[i + 1..j])[x] + 1 + multiset(s[j + 1..])[x];
      >= 2;
    }
  }

  lemma {:induction false} CountedOnce<T>(s: seq<T>, x: T)
    requires NoDups(s)
    ensures multiset(s)[x] <= 1
  {
    if s != [] {
      assert s == [s[0]] + s[1..];
      assert NoDups(s[1..]) by {
        forall i, j | 0 <= i < j < |s[1..]| ensures s[1..][i] != s[1..][j] {
          assert s[1..][i] == s[i + 1] && s[1..][j] == s[j + 1];
        }
      }
      CountedOnce(s[1..], x);
      if s[0] == x {
        assert x !in s[1..] by {
          forall k | 0 <= k < |s[1..]| ensures s[1..][k] != x {
            assert s[1..][k] == s[k + 1];
          }
        }
      }
    }
  }
}
