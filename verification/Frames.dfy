/** Frames and the order in which `std::sort` keeps them in the jitter buffer. */
module Frames {
  import opened Counting

  /** A `VoipFrame`: the sender's timestamp and the RTP sequence number. */
  datatype Frame = Frame(timestamp: real, seqNo: nat)

  /** The lexicographic order of `boost::tuple`. */
  predicate Before(a: Frame, b: Frame) {
    a.timestamp < b.timestamp || (a.timestamp == b.timestamp && a.seqNo <= b.seqNo)
  }

  predicate IsSorted(s: seq<Frame>) {
    forall i, j :: 0 <= i < j < |s| ==> Before(s[i], s[j])
  }

  function Insert(f: Frame, s: seq<Frame>): seq<Frame> {
    if s == [] then [f]
    else if Before(f, s[0]) then [f] + s
    else [s[0]] + Insert(f, s[1..])
  }

  /** `std::sort`. The order is total on frames, so there is only one sorted arrangement. */
  function Sort(s: seq<Frame>): seq<Frame> {
    if s == [] then [] else Insert(s[0], Sort(s[1..]))
  }

  lemma {:induction false} InsertPermutes(f: Frame, s: seq<Frame>)
    ensures multiset(Insert(f, s)) == multiset(s) + multiset{f}
  {
    if s != [] && !Before(f, s[0]) {
      InsertPermutes(f, s[1..]);
      assert s == [s[0]] + s[1..];
    }
  }

  lemma {:induction false} InsertSorts(f: Frame, s: seq<Frame>)
    requires IsSorted(s)
    ensures IsSorted(Insert(f, s))
  {
    if s != [] && !Before(f, s[0]) {
      var rest := Insert(f, s[1..]);
      InsertSorts(f, s[1..]);
      InsertPermutes(f, s[1..]);
      forall g | g in rest ensures Before(s[0], g) {
        assert g in multiset(rest);
        assert g == f || g in s[1..];
      }
    }
  }

  lemma {:induction false} SortPermutes(s: seq<Frame>)
    ensures multiset(Sort(s)) == multiset(s)
  {
    if s != [] {
      SortPermutes(s[1..]);
      InsertPermutes(s[0], Sort(s[1..]));
      assert s == [s[0]] + s[1..];
    }
  }

  lemma {:induction false} SortSorts(s: seq<Frame>)
    ensures IsSorted(Sort(s))
  {
    if s != [] {
      SortSorts(s[1..]);
      InsertSorts(s[0], Sort(s[1..]));
    }
  }

  /** Whatever algorithm `std::sort` uses, a sorted permutation is this one. */
  lemma {:induction false} SortIsUnique(s: seq<Frame>, t: seq<Frame>)
    requires IsSorted(t) && multiset(t) == multiset(s)
    ensures t == Sort(s)
  {
    SortSorts(s);
    SortPermutes(s);
    SortedEqual(t, Sort(s));
  }

  lemma SameFirst(a: seq<Frame>, b: seq<Frame>)
    requires IsSorted(a) && IsSorted(b) && multiset(a) == multiset(b) && a != [] && b != []
    ensures a[0] == b[0]
  {
    assert a[0] in multiset(b) && b[0] in multiset(a);
    assert Before(a[0], b[0]) && Before(b[0], a[0]);
  }

  lemma {:induction false} SortedEqual(a: seq<Frame>, b: seq<Frame>)
    requires IsSorted(a) && IsSorted(b) && multiset(a) == multiset(b)
    ensures a == b
  {
    assert |a| == |multiset(a)| == |multiset(b)| == |b|;
    if a != [] {
      SameFirst(a, b);
      TailContents(a);
      TailContents(b);
      SortedEqual(a[1..], b[1..]);
      assert a == [a[0]] + a[1..] && b == [b[0]] + b[1..];
    }
  }

  lemma {:induction false} InsertLength(f: Frame, s: seq<Frame>)
    ensures |Insert(f, s)| == |s| + 1
  {
    if s != [] {
      InsertLength(f, s[1..]);
    }
  }

  lemma {:induction false} SortKeepsLength(s: seq<Frame>)
    ensures |Sort(s)| == |s|
  {
    if s != [] {
      SortKeepsLength(s[1..]);
      InsertLength(s[0], Sort(s[1..]));
    }
  }

  lemma SortKeepsMembers(s: seq<Frame>)
    ensures forall f :: f in Sort(s) <==> f in s
  {
    SortPermutes(s);
    assert forall f :: f in Sort(s) <==> f in multiset(Sort(s));
    assert forall f :: f in s <==> f in multiset(s);
  }
}
