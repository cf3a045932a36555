/** Counting the cells of a sequence that hold a value. */
module Tally {

  /** How many cells of `s` hold `v`. */
  function Count(s: seq<int>, v: int): nat {
    if |s| == 0 then 0 else (if s[0] == v then 1 else 0) + Count(s[1..], v)
  }

  lemma {:induction false} CountAppend(a: seq<int>, b: seq<int>, v: int)
    ensures Count(a + b, v) == Count(a, v) + Count(b, v)
  {
    if |a| == 0 {
      assert a + b == b;
    } else {
      assert (a + b)[1..] == a[1..] + b;
      CountAppend(a[1..], b, v);
    }
  }

  lemma {:induction false} CountZeros(n: nat, v: int)
    requires v != 0
    ensures Count(seq(n, _ => 0), v) == 0
  {
    if n > 0 {
      assert seq(n, _ => 0)[1..] == seq(n - 1, _ => 0);
      CountZeros(n - 1, v);
    }
  }

  lemma CountHit(s: seq<int>, v: int, i: int)
    requires 0 <= i < |s| && s[i] == v
    ensures Count(s, v) >= 1
  {
    assert s == s[..i] + s[i..];
    CountAppend(s[..i], s[i..], v);
  }

  /** A value counted once occurs at exactly one index. */
  lemma CountOnce(s: seq<int>, v: int)
    requires Count(s, v) == 1
    ensures exists i :: 0 <= i < |s| && s[i] == v
    ensures forall i, j | 0 <= i < |s| && 0 <= j < |s| && s[i] == v && s[j] == v :: i == j
  {
    if forall i | 0 <= i < |s| :: s[i] != v {
      CountAbsent(s, v);
    }
    forall i, j | 0 <= i < |s| && 0 <= j < |s| && s[i] == v && s[j] == v ensures i == j {
      if i < j {
        CountTwice(s, v, i, j);
      } else if j < i {
        CountTwice(s, v, j, i);
      }
    }
  }

  /** A value at two indices is counted at least twice. */
  lemma CountTwice(s: seq<int>, v: int, i: int, j: int)
    requires 0 <= i < j < |s| && s[i] == v && s[j] == v
    ensures Count(s, v) >= 2
  {
    assert s == s[..j] + s[j..];
    CountAppend(s[..j], s[j..], v);
    CountHit(s[..j], v, i);
    CountHit(s[j..], v, 0);
  }

  lemma {:induction false} CountAbsent(s: seq<int>, v: int)
    requires forall i | 0 <= i < |s| :: s[i] != v
    ensures Count(s, v) == 0
  {
    if |s| > 0 { CountAbsent(s[1..], v); }
  }

  /** A value at exactly one index is counted once. */
  lemma CountUnique(s: seq<int>, v: int, i: int)
    requires 0 <= i < |s| && s[i] == v
    requires forall j | 0 <= j < |s| && s[j] == v :: j == i
    ensures Count(s, v) == 1
  {
    assert s == s[..i] + [s[i]] + s[i + 1..];
    CountAppend(s[..i] + [s[i]], s[i + 1..], v);
    CountAppend(s[..i], [s[i]], v);
    CountAbsent(s[..i], v);
    CountAbsent(s[i + 1..], v);
  }

}
