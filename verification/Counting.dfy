/** Sums over lists of counts, and the contents of lists. */
module Counting {
  function Sum(s: seq<nat>): nat {
    if s == [] then 0 else s[0] + Sum(s[1..])
  }

  lemma {:induction false} SumConcat(a: seq<nat>, b: seq<nat>)
    ensures Sum(a + b) == Sum(a) + Sum(b)
  {
    if a == [] {
      assert a + b == b;
    } else {
      assert (a + b)[1..] == a[1..] + b;
      SumConcat(a[1..], b);
    }
  }

  lemma SumSnoc(s: seq<nat>, x: nat)
    ensures Sum(s + [x]) == Sum(s) + x
  {
    SumConcat(s, [x]);
  }

  function Sizes<T>(ranges: seq<seq<T>>): (r: seq<nat>)
    ensures |r| == |ranges|
    ensures forall i :: 0 <= i < |r| ==> r[i] == |ranges[i]|
  {
    seq(|ranges|, i requires 0 <= i < |ranges| => |ranges[i]|)
  }

  lemma SizesConcat<T>(a: seq<seq<T>>, b: seq<seq<T>>)
    ensures Sizes(a + b) == Sizes(a) + Sizes(b)
  {
  }

  lemma Joined<T>(a: seq<T>, b: seq<T>, c: seq<T>, all: seq<T>)
    requires all == b + c
    ensures a + all == a + b + c
  {
  }

  lemma TailContents<T>(s: seq<T>)
    requires s != []
    ensures multiset(s[1..]) == multiset(s) - multiset{s[0]}
  {
    assert s == [s[0]] + s[1..];
  }
}
