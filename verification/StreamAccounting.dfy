/** Constant-rate streams from source to sink: fragments with consecutive sequence numbers
    (Applications/BRModel/BRSrcModel.cc) and the sink's count of received and lost
    fragments per source (Applications/BRModel/BRSink.cc). Counters are 32 bits wide. */
module StreamAccounting {
  import opened Counting

  const WORD: nat := 0x1_0000_0000

  // ----- The source -----

  datatype Fragment = Fragment(size: nat, sequenceNo: nat)

  function SizesOf(fs: seq<Fragment>): (s: seq<nat>)
    ensures |s| == |fs| && forall i :: 0 <= i < |s| ==> s[i] == fs[i].size
  {
    seq(|fs|, i requires 0 <= i < |fs| => fs[i].size)
  }

  class BRSource {
    const fragmentLen: nat
    var sequenceNo: nat
    var out: seq<Fragment>

    constructor (fragmentLen: nat)
      ensures this.fragmentLen == fragmentLen && sequenceNo == 1 && out == []
    {
      this.fragmentLen := fragmentLen;
      sequenceNo, out := 1, [];
    }

    /** The packet's sequence number is narrower than the counter. */
    method SendFragment(size: nat)
      modifies this
      ensures out == old(out) + [Fragment(size, old(sequenceNo) % WORD)] && sequenceNo == old(sequenceNo) + 1
    {
      out := out + [Fragment(size, sequenceNo % WORD)];
      sequenceNo := sequenceNo + 1;
    }

    /** The fragments of one packet: full ones and a last one that is not longer, of sizes that
        add up, numbered consecutively. With a fragment length of 0 the loop ends only for an
        empty packet. */
    method FragmentAndSend(pktSize: nat)
      requires 0 < fragmentLen || pktSize == 0
      modifies this
      ensures |old(out)| < |out| && old(out) == out[..|old(out)|]
      ensures var fs := out[|old(out)|..];
              && Sum(SizesOf(fs)) == pktSize
              && sequenceNo == old(sequenceNo) + |fs|
              && (forall i :: 0 <= i < |fs| - 1 ==> fs[i].size == fragmentLen)
              && fs[|fs| - 1].size <= fragmentLen
              && (0 < pktSize ==> 0 < fs[|fs| - 1].size)
              && (forall i :: 0 <= i < |fs| ==> fs[i].sequenceNo == (old(sequenceNo) + i) % WORD)
    {
      ghost var before, first := out, sequenceNo;
      ghost var fs: seq<Fragment> := [];
      var left: nat := pktSize;
      while left > fragmentLen
        invariant out == before + fs && sequenceNo == first + |fs|
        invariant Sum(SizesOf(fs)) + left == pktSize && (0 < pktSize ==> 0 < left)
        invariant forall i :: 0 <= i < |fs| ==> fs[i] == Fragment(fragmentLen, (first + i) % WORD)
        decreases left
      {
        SumMore(fs, Fragment(fragmentLen, sequenceNo % WORD));
        fs := fs + [Fragment(fragmentLen, sequenceNo % WORD)];
        SendFragment(fragmentLen);
        left := left - fragmentLen;
      }
      SumMore(fs, Fragment(left, sequenceNo % WORD));
      fs := fs + [Fragment(left, sequenceNo % WORD)];
      SendFragment(left);
      assert out == before + fs;
      assert out[|before|..] == fs;
    }
  }

  lemma SumMore(fs: seq<Fragment>, f: Fragment)
    ensures Sum(SizesOf(fs + [f])) == Sum(SizesOf(fs)) + f.size
  {
    assert SizesOf(fs + [f]) == SizesOf(fs) + [f.size];
    SumSnoc(SizesOf(fs), f.size);
  }

  // ----- The sink -----

  datatype Stream = Stream(src: string, numReceived: nat, numLost: nat, numPrevious: nat, expectedSeq: nat)

  datatype Arrival = Arrival(src: string, sequenceNo: nat)

  function NewStream(src: string): Stream {
    Stream(src, 0, 0, 0, 1)
  }

  function Update(s: Stream, sequenceNo: nat): Stream {
    Stream(s.src,
           (s.numReceived + 1) % WORD,
           (s.numLost + sequenceNo - s.expectedSeq) % WORD,
           if sequenceNo < s.expectedSeq then (s.numPrevious + 1) % WORD else s.numPrevious,
           (sequenceNo + 1) % WORD)
  }

  /** One stream after its own arrivals, in their order. */
  function Track(src: string, seqs: seq<nat>): Stream {
    if seqs == [] then NewStream(src) else Update(Track(src, seqs[..|seqs| - 1]), seqs[|seqs| - 1])
  }

  /** The numbers that arrived from one source. */
  function From(arrivals: seq<Arrival>, src: string): seq<nat> {
    if arrivals == [] then []
    else
      var a := arrivals[|arrivals| - 1];
      From(arrivals[..|arrivals| - 1], src) + if a.src == src then [a.sequenceNo] else []
  }

  function Heard(s: Stream, a: Arrival): Stream {
    if s.src == a.src then Update(s, a.sequenceNo) else s
  }

  predicate Listed(list: seq<Stream>, src: string) {
    exists i :: 0 <= i < |list| && list[i].src == src
  }

  /** Each source that was heard has one entry, and it depends on that source only. */
  ghost predicate Agrees(list: seq<Stream>, arrivals: seq<Arrival>) {
    && (forall i, j :: 0 <= i < j < |list| ==> list[i].src != list[j].src)
    && (forall i :: 0 <= i < |list| ==> list[i] == Track(list[i].src, From(arrivals, list[i].src)))
    && (forall src: string :: !Listed(list, src) ==> From(arrivals, src) == [])
  }

  /** One entry after the source `a.src` was heard. */
  lemma EntryFollows(s: Stream, arrivals: seq<Arrival>, a: Arrival)
    requires s == Track(s.src, From(arrivals, s.src))
    ensures Heard(s, a) == Track(s.src, From(arrivals + [a], s.src))
  {
    if s.src != a.src {
      assert From(arrivals + [a], s.src) == From(arrivals, s.src);
    }
  }

  /** Entries keep their sources. */
  lemma ListedKept(list: seq<Stream>, after: seq<Stream>, src: string)
    requires |list| <= |after| && forall i :: 0 <= i < |list| ==> after[i].src == list[i].src
    ensures Listed(list, src) ==> Listed(after, src)
  {
  }

  /** Updating the entry of the source that was heard. */
  lemma UpdateAgrees(list: seq<Stream>, arrivals: seq<Arrival>, i: nat, a: Arrival)
    requires Agrees(list, arrivals) && i < |list| && list[i].src == a.src
    ensures Agrees(list[i := Update(list[i], a.sequenceNo)], arrivals + [a])
  {
    var after := list[i := Update(list[i], a.sequenceNo)];
    forall j | 0 <= j < |after| ensures after[j] == Track(after[j].src, From(arrivals + [a], after[j].src)) {
      assert j != i ==> list[j].src != a.src;
      EntryFollows(list[j], arrivals, a);
    }
    UnheardStayUnheard(list, after, arrivals, i, a);
  }

  lemma UnheardStayUnheard(list: seq<Stream>, after: seq<Stream>, arrivals: seq<Arrival>, i: nat, a: Arrival)
    requires forall src: string :: !Listed(list, src) ==> From(arrivals, src) == []
    requires |list| == |after| && forall j :: 0 <= j < |list| ==> after[j].src == list[j].src
    requires i < |list| && list[i].src == a.src
    ensures forall src: string :: !Listed(after, src) ==> From(arrivals + [a], src) == []
  {
  }

  /** An entry for a source not heard before agrees with the history so far. */
  lemma NewAgrees(list: seq<Stream>, arrivals: seq<Arrival>, src: string)
    requires Agrees(list, arrivals) && !Listed(list, src)
    ensures Agrees(list + [NewStream(src)], arrivals)
  {
    var after := list + [NewStream(src)];
    assert From(arrivals, src) == [];
    forall other: string | !Listed(after, other) ensures From(arrivals, other) == [] {
      ListedKept(list, after, other);
    }
  }

  class BRSink {
    var streamList: seq<Stream>
    ghost var arrivals: seq<Arrival>

    ghost predicate Valid()
      reads this
    {
      Agrees(streamList, arrivals)
    }

    constructor ()
      ensures Valid() && streamList == [] && arrivals == []
    {
      streamList, arrivals := [], [];
    }

    method FindStream(src: string) returns (i: nat)
      ensures i <= |streamList| && (i < |streamList| <==> Listed(streamList, src))
      ensures i < |streamList| ==> streamList[i].src == src
    {
      i := 0;
      while i < |streamList| && streamList[i].src != src
        invariant i <= |streamList|
        invariant forall j :: 0 <= j < i ==> streamList[j].src != src
      {
        i := i + 1;
      }
    }

    /** Finds the entry of the source, or makes one, and updates it. */
    method UpdateList(msg: Arrival)
      requires Valid()
      modifies this
      ensures Valid() && arrivals == old(arrivals) + [msg]
      ensures |streamList| == |old(streamList)| + if Listed(old(streamList), msg.src) then 0 else 1
      ensures forall j :: 0 <= j < |old(streamList)| ==>
        streamList[j] == Heard(old(streamList)[j], msg)
      ensures !Listed(old(streamList), msg.src) ==>
        streamList[|old(streamList)|] == Update(NewStream(msg.src), msg.sequenceNo)
    {
      ghost var before := streamList;
      var i := FindStream(msg.src);
      if i == |streamList| {
        NewAgrees(streamList, arrivals, msg.src);
        streamList := streamList + [NewStream(msg.src)];
      }
      UpdateAgrees(streamList, arrivals, i, msg);
      OneEntryHeard(before, streamList, i, msg);
      streamList := streamList[i := Update(streamList[i], msg.sequenceNo)];
      arrivals := arrivals + [msg];
    }
  }

  lemma OneEntryHeard(before: seq<Stream>, list: seq<Stream>, i: nat, a: Arrival)
    requires forall j, k :: 0 <= j < k < |before| ==> before[j].src != before[k].src
    requires i < |list| && list[i].src == a.src && (i == |before| ==> !Listed(before, a.src))
    requires list == before || (i == |before| && list == before + [NewStream(a.src)])
    ensures var after := list[i := Update(list[i], a.sequenceNo)];
            forall j :: 0 <= j < |before| ==> after[j] == Heard(before[j], a)
  {
    forall j | 0 <= j < |before| && j != i ensures before[j].src != a.src {
      assert i < |before| ==> before[i] == list[i];
    }
  }

  // ----- What the counters mean -----

  /** For any arrivals in any order: the next expected number is one more than received plus
      lost, and lost is what separates the number received from the last number, all
      modulo the width of the counters. */
  lemma {:induction false} CountersAgree(src: string, seqs: seq<nat>)
    requires forall i :: 0 <= i < |seqs| ==> seqs[i] < WORD
    ensures var s := Track(src, seqs);
            && (s.numReceived + s.numLost + 1) % WORD == s.expectedSeq
            && s.numReceived == |seqs| % WORD
            && s.numLost < WORD && s.expectedSeq < WORD
            && (seqs != [] ==> s.expectedSeq == (seqs[|seqs| - 1] + 1) % WORD
                               && s.numLost == (seqs[|seqs| - 1] - |seqs|) % WORD)
  {
    if seqs != [] {
      var n := |seqs| - 1;
      CountersAgree(src, seqs[..n]);
      var s := Track(src, seqs[..n]);
      LostByLast(s.numReceived, s.numLost, s.expectedSeq, n, seqs[n]);
    }
  }

  /** The modular step, on plain numbers. */
  lemma LostByLast(received: nat, lost: nat, expected: nat, n: nat, seqNo: nat)
    requires (received + lost + 1) % WORD == expected && received == n % WORD && lost < WORD && seqNo < WORD
    ensures var l := (lost + seqNo - expected) % WORD;
            && l == (seqNo - (n + 1)) % WORD
            && ((received + 1) % WORD + l + 1) % WORD == (seqNo + 1) % WORD
            && (received + 1) % WORD == (n + 1) % WORD
  {
    var q, k := (received + lost + 1) / WORD, n / WORD;
    assert received + lost + 1 == q * WORD + expected;
    assert n == k * WORD + received;
    assert lost + seqNo - expected == seqNo - (n + 1) + (q + k) * WORD;
    SameRemainder(seqNo - (n + 1), q + k);
    var l := (seqNo - (n + 1)) % WORD;
    var m := (seqNo - (n + 1)) / WORD;
    assert seqNo - (n + 1) == m * WORD + l;
    var r := (received + 1) % WORD;
    var c := (received + 1) / WORD;
    assert received + 1 == c * WORD + r;
    assert r + l + 1 == seqNo + 1 + (0 - k - m - c) * WORD;
    SameRemainder(seqNo + 1, 0 - k - m - c);
    SameRemainder(received + 1, k);
  }

  lemma SameRemainder(a: int, k: int)
    ensures (a + k * WORD) % WORD == a % WORD
  {
  }

  /** How many numbers are below the one expected, which is 1 at first and then one more than the
      number before, modulo the width. */
  function Late(seqs: seq<nat>): nat {
    if seqs == [] then 0
    else
      var n := |seqs| - 1;
      Late(seqs[..n]) + if seqs[n] < (if n == 0 then 1 else (seqs[n - 1] + 1) % WORD) then 1 else 0
  }

  lemma {:induction false} PreviousCountsLate(src: string, seqs: seq<nat>)
    requires forall i :: 0 <= i < |seqs| ==> seqs[i] < WORD
    ensures Track(src, seqs).numPrevious == Late(seqs) % WORD
  {
    if seqs != [] {
      var n := |seqs| - 1;
      PreviousCountsLate(src, seqs[..n]);
      CountersAgree(src, seqs[..n]);
      NextModulo(Late(seqs[..n]));
    }
  }

  lemma NextModulo(n: nat)
    ensures (n % WORD + 1) % WORD == (n + 1) % WORD
  {
  }

  // ----- Lost fragments -----

  predicate Distinct(seqs: seq<nat>) {
    forall i, j :: 0 <= i < j < |seqs| ==> seqs[i] != seqs[j]
  }

  /** How many of the numbers 1 to `last` are missing. */
  function Missing(last: nat, seqs: seq<nat>): nat {
    if last == 0 then 0 else Missing(last - 1, seqs) + if last in seqs then 0 else 1
  }

  /** The numbers up to `last` that arrived. */
  function Seen(last: nat, seqs: seq<nat>): set<nat> {
    set x | x in seqs && x <= last
  }

  lemma {:induction false} MissingCounts(last: nat, seqs: seq<nat>)
    requires 0 !in seqs
    ensures Missing(last, seqs) == last - |Seen(last, seqs)|
  {
    if last == 0 {
      assert Seen(0, seqs) == {};
    } else {
      MissingCounts(last - 1, seqs);
      var before := Seen(last - 1, seqs);
      assert Seen(last, seqs) == if last in seqs then before + {last} else before;
    }
  }

  /** No number arrived twice and none is greater than `last`. */
  predicate OnceUpTo(last: nat, seqs: seq<nat>) {
    Distinct(seqs) && forall i :: 0 <= i < |seqs| ==> seqs[i] <= last
  }

  lemma {:induction false} SeenCounts(last: nat, seqs: seq<nat>)
    ensures |Seen(last, seqs)| <= |seqs|
    ensures |Seen(last, seqs)| == |seqs| <==> OnceUpTo(last, seqs)
  {
    if seqs == [] {
      assert Seen(last, seqs) == {};
    } else {
      var n := |seqs| - 1;
      SeenCounts(last, seqs[..n]);
      SeenGrows(last, seqs[..n], seqs[n]);
      OnceGrows(last, seqs[..n], seqs[n]);
      assert seqs == seqs[..n] + [seqs[n]];
    }
  }

  lemma SeenGrows(last: nat, seqs: seq<nat>, x: nat)
    ensures |Seen(last, seqs + [x])| == |Seen(last, seqs)| + if x <= last && x !in seqs then 1 else 0
  {
    var before := Seen(last, seqs);
    assert Seen(last, seqs + [x]) == if x <= last then before + {x} else before;
  }

  lemma OnceGrows(last: nat, seqs: seq<nat>, x: nat)
    ensures OnceUpTo(last, seqs + [x]) <==> OnceUpTo(last, seqs) && x <= last && x !in seqs
  {
    var t := seqs + [x];
    assert forall i :: 0 <= i < |seqs| ==> t[i] == seqs[i];
    assert t[|seqs|] == x;
  }

  /** The count wraps around if more arrived than the last number says. */
  lemma DifferenceKept(last: nat, n: nat, seen: nat)
    requires 1 <= n < WORD && last < WORD && seen <= n && seen <= last
    ensures (last - n) % WORD == last - seen <==> seen == n
  {
  }

  /** The sink's count is the number of fragments missing up to the last arrival exactly if none
      arrived twice and no earlier one had a higher number. */
  lemma LostIsMissingIff(src: string, seqs: seq<nat>)
    requires seqs != [] && |seqs| < WORD && forall i :: 0 <= i < |seqs| ==> 1 <= seqs[i] < WORD
    ensures var last := seqs[|seqs| - 1];
            Track(src, seqs).numLost == Missing(last, seqs) <==>
              Distinct(seqs) && forall i :: 0 <= i < |seqs| ==> seqs[i] <= last
  {
    var last := seqs[|seqs| - 1];
    CountersAgree(src, seqs);
    MissingCounts(last, seqs);
    SeenCounts(last, seqs);
    DifferenceKept(last, |seqs|, |Seen(last, seqs)|);
  }

  lemma MissingInOrder(numbers: seq<nat>)
    requires numbers != [] && 1 <= numbers[0]
    requires forall i, j :: 0 <= i < j < |numbers| ==> numbers[i] < numbers[j]
    ensures var last := numbers[|numbers| - 1]; Missing(last, numbers) == last - |numbers|
  {
    var last := numbers[|numbers| - 1];
    MissingCounts(last, numbers);
    SeenCounts(last, numbers);
  }

  /** A number as a packet carries it. */
  function Narrow(number: nat): (r: nat)
    ensures r < WORD
    ensures number < WORD ==> r == number
  {
    number % WORD
  }

  function Carried(numbers: seq<nat>): (seqs: seq<nat>)
    ensures |seqs| == |numbers|
    ensures forall i :: 0 <= i < |seqs| ==> seqs[i] == Narrow(numbers[i])
  {
    seq(|numbers|, i requires 0 <= i < |numbers| => Narrow(numbers[i]))
  }

  lemma SameDifference(a: nat, n: nat)
    ensures (a - n) % WORD == (Narrow(a) - n) % WORD
  {
    SameRemainder(a % WORD - n, a / WORD);
  }

  /** Over a channel that loses but does not reorder the count is right modulo the width of
      the counter, however often the numbers wrap around; before they do, nothing is taken
      for a late arrival. */
  lemma InOrderLossesCounted(src: string, numbers: seq<nat>)
    requires numbers != [] && 1 <= numbers[0]
    requires forall i, j :: 0 <= i < j < |numbers| ==> numbers[i] < numbers[j]
    ensures var last := numbers[|numbers| - 1];
            && Track(src, Carried(numbers)).numLost == Narrow(Missing(last, numbers))
            && (last < WORD ==> Track(src, Carried(numbers)).numPrevious == 0)
  {
    var last := numbers[|numbers| - 1];
    CountersAgree(src, Carried(numbers));
    MissingInOrder(numbers);
    SameDifference(last, |numbers|);
    if last < WORD {
      NothingTakenForLate(src, numbers);
    }
  }

  lemma NothingTakenForLate(src: string, numbers: seq<nat>)
    requires numbers != [] && 1 <= numbers[0] && numbers[|numbers| - 1] < WORD
    requires forall i, j :: 0 <= i < j < |numbers| ==> numbers[i] < numbers[j]
    ensures Track(src, Carried(numbers)).numPrevious == 0
  {
    forall i | 0 <= i < |numbers| ensures 1 <= numbers[i] < WORD {
      assert 0 < i ==> numbers[0] < numbers[i];
      assert i < |numbers| - 1 ==> numbers[i] < numbers[|numbers| - 1];
    }
    assert Carried(numbers) == numbers;
    PreviousCountsLate(src, numbers);
    NoneLate(numbers);
  }

  lemma {:induction false} NoneLate(seqs: seq<nat>)
    requires forall i :: 0 <= i < |seqs| ==> 1 <= seqs[i] < WORD
    requires forall i, j :: 0 <= i < j < |seqs| ==> seqs[i] < seqs[j]
    ensures Late(seqs) == 0
  {
    if seqs != [] {
      NoneLate(seqs[..|seqs| - 1]);
    }
  }
}
