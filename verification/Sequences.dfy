/** Facts about sequences: what the loops collecting a part of one rest on, and what such a part is. */
module Sequences {

  lemma Tail<T>(s: seq<T>, n: nat)
    requires n < |s|
    ensures s[n..] != [] && s[n..][0] == s[n] && s[n..][1..] == s[n + 1..]
  {
  }

  lemma Moves<T>(done: seq<T>, x: T, rest: seq<T>)
    ensures done + ([x] + rest) == (done + [x]) + rest
    ensures done + ([] + rest) == done + rest
  {
  }

  lemma Regroup<T>(a: seq<T>, b: seq<T>, c: seq<T>)
    ensures a + (b + c) == (a + b) + c
  {
  }

  /** `r` holds the elements of `l` at the increasing positions `at`. */
  predicate PickedAt<T(==)>(at: seq<nat>, l: seq<T>, r: seq<T>) {
    && |at| == |r|
    && (forall k, m :: 0 <= k < m < |at| ==> at[k] < at[m])
    && (forall k :: 0 <= k < |at| ==> at[k] < |l| && r[k] == l[at[k]])
  }

  function Shifted(at: seq<nat>): seq<nat> {
    seq(|at|, k requires 0 <= k < |at| => at[k] + 1)
  }

  lemma InShifted(at: seq<nat>, i: nat)
    ensures i in Shifted(at) <==> i > 0 && i - 1 in at
  {
    if i > 0 && i - 1 in at {
      var k :| 0 <= k < |at| && at[k] == i - 1;
      assert Shifted(at)[k] == i;
    }
  }

  lemma PickedNext<T>(at: seq<nat>, l: seq<T>, r: seq<T>, first: bool) returns (all: seq<nat>)
    requires l != [] && PickedAt(at, l[1..], r)
    ensures PickedAt(all, l, (if first then [l[0]] else []) + r)
    ensures forall i :: 0 <= i < |l| ==> (i in all <==> if i == 0 then first else i - 1 in at)
  {
    all := (if first then [0] else []) + Shifted(at);
    assert PickedAt(all, l, (if first then [l[0]] else []) + r);
    hide PickedAt, Shifted;
    forall i | 0 <= i < |l| ensures i in all <==> if i == 0 then first else i - 1 in at {
      InShifted(at, i);
    }
  }

  lemma PickedLast<T>(at: seq<nat>, l: seq<T>, r: seq<T>, last: bool) returns (all: seq<nat>)
    requires l != [] && PickedAt(at, l[..|l| - 1], r)
    ensures PickedAt(all, l, r + if last then [l[|l| - 1]] else [])
    ensures forall i :: 0 <= i < |l| ==> (i in all <==> if i == |l| - 1 then last else i in at)
  {
    all := at + if last then [|l| - 1] else [];
  }
}
