// Facts about taking sequences apart, for the proofs by induction on them.
module Sequences {

  lemma InitOfAppend<T>(a: seq<T>, b: seq<T>)
    requires b != []
    ensures (a + b)[..|a + b| - 1] == a + b[..|b| - 1]
    ensures (a + b)[|a + b| - 1] == b[|b| - 1]
  {
  }

  lemma TailOfAppend<T>(a: seq<T>, b: seq<T>)
    requires a != []
    ensures (a + b)[1..] == a[1..] + b
    ensures (a + b)[0] == a[0]
  {
  }

  lemma AppendNothing<T>(a: seq<T>)
    ensures a + [] == a && [] + a == a
  {
  }

  lemma AppendLast<T>(a: seq<T>, b: seq<T>)
    requires b != []
    ensures b[..|b| - 1] + [b[|b| - 1]] == b
    ensures (a + b[..|b| - 1]) + [b[|b| - 1]] == a + b
  {
  }

  lemma AppendAppend<T>(a: seq<T>, b: seq<T>, c: seq<T>)
    ensures (a + b) + c == a + (b + c)
  {
  }

  lemma TakeMore<T>(s: seq<T>, k: nat)
    requires k < |s|
    ensures s[..k + 1][..k] == s[..k] && s[..k + 1] == s[..k] + [s[k]]
  {
  }

  lemma DropOfTail<T>(s: seq<T>, k: nat)
    requires 0 < k <= |s|
    ensures s[1..][k - 1..] == s[k..]
  {
  }

  lemma TakeAll<T>(s: seq<T>)
    ensures s[..|s|] == s
  {
  }

  /** The first n elements satisfy the test. */
  ghost predicate AllUpTo<T>(test: T -> bool, s: seq<T>, n: nat)
    requires n <= |s|
  {
    n == 0 || (AllUpTo(test, s, n - 1) && test(s[n - 1]))
  }

  lemma {:induction false} AllUpToMeans<T>(test: T -> bool, s: seq<T>, n: nat)
    requires n <= |s|
    ensures AllUpTo(test, s, n) <==> forall k :: 0 <= k < n ==> test(s[k])
  {
    if n > 0 {
      AllUpToMeans(test, s, n - 1);
    }
  }

  lemma {:induction false} AllUpToStops<T>(test: T -> bool, s: seq<T>, k: nat, n: nat)
    requires k <= n <= |s| && !AllUpTo(test, s, k)
    ensures !AllUpTo(test, s, n)
  {
    if k < n {
      AllUpToStops(test, s, k, n - 1);
    }
  }
}
