/** Definitions that several components use. */
module Common {
  const TWO32: nat := 0x1_0000_0000
  const TWO64: nat := 0x1_0000_0000_0000_0000
  const MAX_TASKS: nat := 32

  datatype Option<+T> = None | Some(value: T)

  /** The state field of struct task. */
  datatype TaskState = Dead | Ready | Running | Blocked

  ghost predicate NoDup<T>(xs: seq<T>) {
    forall i, j :: 0 <= i < j < |xs| ==> xs[i] != xs[j]
  }

  ghost function Elems<T>(xs: seq<T>): set<T> { set x | x in xs }

  /** The numbers below n. */
  ghost function UpTo(n: nat): (s: set<nat>)
    ensures forall d :: d in s <==> 0 <= d < n
    ensures |s| == n
  {
    if n == 0 then {} else UpTo(n - 1) + {n - 1}
  }

  /** A set of numbers below n has at most n of them, and n only if it has them all. */
  lemma BelowSize(s: set<nat>, n: nat)
    requires forall x :: x in s ==> x < n
    ensures |s| <= n
    ensures |s| == n <==> forall x :: 0 <= x < n ==> x in s
  {
    var all := UpTo(n);
    assert all == s + (all - s);
    assert |all| == |s| + |all - s|;
    if |s| == n {
      assert all - s == {};
    }
    if forall x :: 0 <= x < n ==> x in s {
      assert all == s;
    }
  }

  lemma {:induction false} ElemsSize(xs: seq<nat>)
    requires NoDup(xs)
    ensures |Elems(xs)| == |xs|
  {
    if xs != [] {
      var rest := xs[1..];
      ElemsSize(rest);
      assert xs[0] !in rest;
      assert Elems(xs) == Elems(rest) + {xs[0]};
    }
  }

  /** A duplicate-free sequence of numbers below n has at most n of them. */
  lemma Pigeonhole(xs: seq<nat>, n: nat)
    requires NoDup(xs) && forall k :: 0 <= k < |xs| ==> xs[k] < n
    ensures |xs| <= n
  {
    ElemsSize(xs);
    BelowSize(Elems(xs), n);
  }
}
