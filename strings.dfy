/** String helpers of Rust's standard library that the core relies on. */
module Strings {

  /** `x.repeat(n)` for a one-element string, and `vec![x; n]`. */
  function Repeat<T>(x: T, n: nat): (r: seq<T>)
    ensures |r| == n && forall i :: 0 <= i < n ==> r[i] == x
  {
    seq(n, _ => x)
  }

  /** `s.repeat(n)` for an arbitrary piece `s`. */
  function RepeatStr(s: string, n: nat): (r: string)
    ensures |r| == n * |s|
    ensures |s| > 0 ==> forall i :: 0 <= i < |r| ==> r[i] == s[i % |s|]
  {
    if n == 0 then [] else
      var rest := RepeatStr(s, n - 1);
      assert forall i :: |s| <= i < |s| + |rest| ==> (i - |s|) % |s| == i % |s| by {
        forall i | |s| <= i < |s| + |rest| {
          ModStep(i, |s|);
        }
      }
      s + rest
  }

  lemma ModStep(i: nat, m: nat)
    requires 0 < m <= i
    ensures (i - m) % m == i % m
  {
    var a, b := (i - m) / m, (i - m) % m;
    var q, r := i / m, i % m;
    assert i == m * (a + 1) + b;
    var k := a + 1 - q;
    assert m * k == r - b;
    if k > 0 {
      MulAtLeast(m, k);
    } else if k < 0 {
      MulAtLeast(m, -k);
    }
  }

  lemma {:induction false} MulAtLeast(m: nat, k: nat)
    requires 0 < k
    ensures m <= m * k
  {
    if k > 1 {
      MulAtLeast(m, k - 1);
    }
  }

  lemma AppendAssoc<T>(a: seq<T>, b: seq<T>, c: seq<T>)
    ensures a + b + c == a + (b + c)
  {
  }

  /** `format!("{:0<n}", s)`: right-pad with '0' up to width n, never truncate. */
  function PadRight(s: string, n: nat): (r: string)
    ensures |r| == if |s| < n then n else |s|
    ensures r[..|s|] == s
    ensures forall i :: |s| <= i < |r| ==> r[i] == '0'
  {
    if |s| < n then s + Repeat('0', n - |s|) else s
  }

  /** `str::contains` for a string pattern, scanning start positions left to right. */
  function Contains(s: string, p: string): bool
    decreases |s|
  {
    if |p| > |s| then false
    else if s[..|p|] == p then true
    else s != [] && Contains(s[1..], p)
  }

  /** p occurs in s starting at position i. */
  predicate OccursAt(s: string, p: string, i: nat) {
    i + |p| <= |s| && s[i..i + |p|] == p
  }

  /** `Contains` holds exactly when p occurs at some position of s. */
  lemma {:induction false} ContainsAt(s: string, p: string)
    ensures Contains(s, p) <==> exists i: nat :: OccursAt(s, p, i)
    decreases |s|
  {
    if |p| > |s| {
      assert forall i: nat :: !OccursAt(s, p, i);
    } else if s[..|p|] == p {
      assert OccursAt(s, p, 0);
    } else {
      ContainsAt(s[1..], p);
      if Contains(s, p) {
        var i: nat :| OccursAt(s[1..], p, i);
        assert s[i + 1..i + 1 + |p|] == s[1..][i..i + |p|];
        assert OccursAt(s, p, i + 1);
      }
      if exists i: nat :: OccursAt(s, p, i) {
        var i: nat :| OccursAt(s, p, i);
        assert i != 0;
        assert s[1..][i - 1..i - 1 + |p|] == s[i..i + |p|];
        assert OccursAt(s[1..], p, i - 1);
      }
    }
  }
}
