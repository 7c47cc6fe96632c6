/** Sequence numbers of one sender: `update_seq` of Transport/RTP/RTP.cc with the two
    handlers that Applications/RTPApp/RTPVoip.cc overrides. */
module SequenceTracking {
  import opened Counting
  import opened Frames
  import JitterBuffer

  const SEQ_MOD: nat := 65536
  const MAX_DROPOUT: nat := 3000
  const MAX_MISORDER: nat := 100
  const MISORDERED_MAX: nat := 50

  /** `dropped` is `probableDropped`: the gaps seen in the current interval. `misordered`
      is a ring of the reordered frames seen so far. */
  datatype Member = Member(maxSeq: nat, cycles: nat, badSeq: nat, dropped: seq<seq<nat>>, misordered: seq<Frame>) {
    predicate Valid() {
      && maxSeq < SEQ_MOD && cycles % SEQ_MOD == 0
      && |misordered| <= MISORDERED_MAX
      && NoneEmpty(dropped)
    }

    /** The extended highest sequence number received. */
    function Extended(): nat {
      cycles + maxSeq
    }

    function DroppedCount(): nat {
      Total(dropped)
    }
  }

  /** `Ignored` frames do not reach `processRTPData`. `Resynced` is the assertion that
      fails when the sender seems to restart. `NullFrame` is a duplicate of a reordered
      frame: its frame is deleted, and then processed through the null pointer left behind. */
  datatype Tracked = Delivered(member: Member) | Ignored(member: Member) | Resynced | NullFrame

  function InitSeq(seqNo: nat): Member {
    Member(seqNo, 0, SEQ_MOD + 1, [], [])
  }

  /** The 16-bit difference. */
  function Delta(m: Member, seqNo: nat): nat {
    (seqNo - m.maxSeq) % SEQ_MOD
  }

  /** The sequence numbers strictly between two others. */
  function Between(lo: nat, hi: nat): (r: seq<nat>)
    requires lo < hi
    ensures |r| == hi - lo - 1
  {
    seq(hi - lo - 1, i requires 0 <= i < hi - lo - 1 => lo + 1 + i)
  }

  function RemoveFirst(range: seq<nat>, x: nat): seq<nat> {
    if range == [] then [] else if range[0] == x then range[1..] else [range[0]] + RemoveFirst(range[1..], x)
  }

  predicate Listed(ranges: seq<seq<nat>>, x: nat) {
    exists i :: 0 <= i < |ranges| && x in ranges[i]
  }

  /** Takes `x` out of the first range that lists it, and the range out when it empties. */
  function Unlist(ranges: seq<seq<nat>>, x: nat): seq<seq<nat>> {
    if ranges == [] then []
    else if x in ranges[0] then
      var range := RemoveFirst(ranges[0], x);
      (if range == [] then [] else [range]) + ranges[1..]
    else [ranges[0]] + Unlist(ranges[1..], x)
  }

  /** What the two loops over these lists arrive at. */
  lemma {:induction false} RemoveFirstAt(range: seq<nat>, i: nat, x: nat)
    requires i <= |range| && (forall j :: 0 <= j < i ==> range[j] != x) && (i < |range| ==> range[i] == x)
    ensures RemoveFirst(range, x) == if i < |range| then range[..i] + range[i + 1..] else range
  {
    if 0 < i {
      var rest := range[1..];
      RemoveFirstAt(rest, i - 1, x);
      assert RemoveFirst(range, x) == [range[0]] + RemoveFirst(rest, x) && [range[0]] + rest == range;
      assert [range[0]] + rest[..i - 1] == range[..i];
      assert i < |range| ==> rest[i..] == range[i + 1..];
    }
  }

  lemma {:induction false} UnlistAt(ranges: seq<seq<nat>>, i: nat, x: nat)
    requires i <= |ranges| && (forall j :: 0 <= j < i ==> x !in ranges[j]) && (i < |ranges| ==> x in ranges[i])
    ensures Unlist(ranges, x) ==
            if i < |ranges| then
              var range := RemoveFirst(ranges[i], x);
              ranges[..i] + (if range == [] then [] else [range]) + ranges[i + 1..]
            else ranges
  {
    if 0 < i {
      var rest := ranges[1..];
      UnlistAt(rest, i - 1, x);
      assert [ranges[0]] + rest[..i - 1] == ranges[..i];
      assert i < |ranges| ==> rest[i..] == ranges[i + 1..];
    }
  }

  function Track(m: Member, f: Frame): Tracked {
    var udelta := Delta(m, f.seqNo);
    if udelta < MAX_DROPOUT then
      if f.seqNo < m.maxSeq then
        Delivered(m.(cycles := m.cycles + SEQ_MOD, maxSeq := f.seqNo))
      else if udelta > 1 then
        Delivered(m.(dropped := m.dropped + [Between(m.maxSeq, f.seqNo)], maxSeq := f.seqNo))
      else
        Delivered(m.(maxSeq := f.seqNo))
    else if udelta <= SEQ_MOD - MAX_MISORDER then
      if f.seqNo == m.badSeq then Resynced else Ignored(m.(badSeq := (f.seqNo + 1) % SEQ_MOD))
    else if f in m.misordered then
      NullFrame
    else
      Delivered(m.(dropped := Unlist(m.dropped, f.seqNo),
                   misordered := JitterBuffer.PushBack(MISORDERED_MAX, m.misordered, f)))
  }

  lemma {:induction false} RemoveFirstLength(range: seq<nat>, x: nat)
    requires x in range
    ensures |RemoveFirst(range, x)| == |range| - 1
  {
    if range[0] != x {
      RemoveFirstLength(range[1..], x);
    }
  }

  function Total(ranges: seq<seq<nat>>): nat {
    Sum(Sizes(ranges))
  }

  lemma TotalCons(range: seq<nat>, ranges: seq<seq<nat>>)
    ensures Total([range] + ranges) == |range| + Total(ranges)
  {
    assert Sizes([range] + ranges)[1..] == Sizes(ranges);
  }

  lemma TotalSnoc(ranges: seq<seq<nat>>, range: seq<nat>)
    ensures Total(ranges + [range]) == Total(ranges) + |range|
  {
    SizesConcat(ranges, [range]);
    assert Sizes([range]) == [|range|];
    SumSnoc(Sizes(ranges), |range|);
  }

  lemma {:induction false} UnlistCount(ranges: seq<seq<nat>>, x: nat)
    ensures Total(Unlist(ranges, x)) == Total(ranges) - (if Listed(ranges, x) then 1 else 0)
  {
    if ranges != [] {
      var rest := ranges[1..];
      assert [ranges[0]] + rest == ranges;
      TotalCons(ranges[0], rest);
      if x in ranges[0] {
        RemoveFirstLength(ranges[0], x);
        TotalCons(RemoveFirst(ranges[0], x), rest);
        assert [] + rest == rest;
      } else {
        UnlistCount(rest, x);
        TotalCons(ranges[0], Unlist(rest, x));
      }
    }
  }

  predicate NoneEmpty(ranges: seq<seq<nat>>) {
    forall i :: 0 <= i < |ranges| ==> ranges[i] != []
  }

  lemma {:induction false} UnlistKeepsNonEmpty(ranges: seq<seq<nat>>, x: nat)
    requires NoneEmpty(ranges)
    ensures NoneEmpty(Unlist(ranges, x))
  {
    if ranges != [] && x !in ranges[0] {
      UnlistKeepsNonEmpty(ranges[1..], x);
    }
  }

  /** By how much a delivered frame moves the highest sequence number beyond what it
      adds to the gaps, less the frame itself. Zero exactly for a frame that is in order
      (a wrap must not hide a gap) and for a reordered frame whose number is still listed. */
  function Drift(m: Member, seqNo: nat): int {
    var udelta := Delta(m, seqNo);
    if udelta < MAX_DROPOUT then
      if seqNo < m.maxSeq then 1 - udelta else if udelta == 0 then 1 else 0
    else if Listed(m.dropped, seqNo) then 0
    else 1
  }

  /** The extended number counts every frame from the first: each one is a delivered
      frame or a listed gap, up to the drift. */
  lemma TrackShifts(m: Member, f: Frame)
    requires m.Valid() && f.seqNo < SEQ_MOD && Track(m, f).Delivered?
    ensures var n := Track(m, f).member;
            && n.Valid()
            && m.Extended() <= n.Extended()
            && n.DroppedCount() + 1 - n.Extended() == m.DroppedCount() - m.Extended() + Drift(m, f.seqNo)
  {
    var udelta := Delta(m, f.seqNo);
    if m.maxSeq < f.seqNo && 1 < udelta < MAX_DROPOUT {
      TotalSnoc(m.dropped, Between(m.maxSeq, f.seqNo));
    } else if udelta > SEQ_MOD - MAX_MISORDER {
      UnlistCount(m.dropped, f.seqNo);
      UnlistKeepsNonEmpty(m.dropped, f.seqNo);
    }
  }

  // ----- In terms of numbers that do not wrap -----

  lemma SameResidue(a: int, b: int, k: int)
    requires a - b == k * SEQ_MOD
    ensures a % SEQ_MOD == b % SEQ_MOD
  {
  }

  /** A sequence number stands for the number `y` near the extended highest one that it is the
      residue of: up to 3000 ahead it becomes the new highest, up to 100 behind it is a straggler,
      and otherwise the frame is not delivered. */
  lemma TrackNearest(m: Member, f: Frame, y: int)
    requires m.Valid() && f.seqNo < SEQ_MOD && y % 65536 == f.seqNo
    ensures m.Extended() <= y < m.Extended() + 3000 ==> Track(m, f).Delivered? && Track(m, f).member.Extended() == y
    ensures m.Extended() - 100 < y < m.Extended() ==>
              (f !in m.misordered ==> Track(m, f).Delivered? && Track(m, f).member.Extended() == m.Extended())
              && (f in m.misordered ==> Track(m, f) == NullFrame)
    ensures m.Extended() + 3000 <= y <= m.Extended() + 65436 ==> Track(m, f).Ignored? || Track(m, f) == Resynced
  {
    var d := y - m.Extended();
    if -100 < d <= 65436 {
      var k := (y - f.seqNo) / SEQ_MOD - m.cycles / SEQ_MOD;
      assert y - f.seqNo == ((y - f.seqNo) / SEQ_MOD) * SEQ_MOD;
      assert m.cycles == (m.cycles / SEQ_MOD) * SEQ_MOD;
      SameResidue(d, f.seqNo - m.maxSeq, k);
      DeltaIs(m, f.seqNo, d);
      if 0 <= d < 3000 {
        assert d - (f.seqNo - m.maxSeq) == k * SEQ_MOD;
      }
    }
  }

  lemma DeltaIs(m: Member, seqNo: nat, d: int)
    requires -100 < d <= 65436 && d % SEQ_MOD == (seqNo - m.maxSeq) % SEQ_MOD
    ensures Delta(m, seqNo) == if 0 <= d then d else d + 65536
  {
  }

  /** A gap lists the numbers strictly between, in ascending order. */
  lemma BetweenNumbers(lo: nat, hi: nat)
    requires lo < hi
    ensures forall x: nat :: x in Between(lo, hi) <==> lo < x < hi
    ensures forall i, j :: 0 <= i < j < |Between(lo, hi)| ==> Between(lo, hi)[i] < Between(lo, hi)[j]
  {
    forall x: nat | lo < x < hi ensures x in Between(lo, hi) {
      assert Between(lo, hi)[x - lo - 1] == x;
    }
  }

  // ----- How often a number is listed -----

  function Occurrences(range: seq<nat>, x: nat): nat {
    if range == [] then 0 else (if range[0] == x then 1 else 0) + Occurrences(range[1..], x)
  }

  function Times(ranges: seq<seq<nat>>, x: nat): nat {
    if ranges == [] then 0 else Occurrences(ranges[0], x) + Times(ranges[1..], x)
  }

  lemma {:induction false} OccursIff(range: seq<nat>, x: nat)
    ensures 0 < Occurrences(range, x) <==> x in range
  {
    if range != [] {
      OccursIff(range[1..], x);
    }
  }

  lemma {:induction false} OccursOnce(range: seq<nat>, x: nat)
    requires forall i, j :: 0 <= i < j < |range| ==> range[i] < range[j]
    ensures Occurrences(range, x) == if x in range then 1 else 0
  {
    if range != [] {
      OccursOnce(range[1..], x);
    }
  }

  lemma {:induction false} RemoveFirstOccurs(range: seq<nat>, x: nat, y: nat)
    requires x in range
    ensures Occurrences(RemoveFirst(range, x), y) == Occurrences(range, y) - (if y == x then 1 else 0)
    ensures 0 < Occurrences(range, x)
  {
    if range[0] != x {
      RemoveFirstOccurs(range[1..], x, y);
    }
  }

  lemma {:induction false} TimesSnoc(ranges: seq<seq<nat>>, range: seq<nat>, x: nat)
    ensures Times(ranges + [range], x) == Times(ranges, x) + Occurrences(range, x)
  {
    if ranges == [] {
      assert [] + [range] == [range];
    } else {
      assert (ranges + [range])[1..] == ranges[1..] + [range];
      TimesSnoc(ranges[1..], range, x);
    }
  }

  lemma {:induction false} UnlistTimes(ranges: seq<seq<nat>>, x: nat, y: nat)
    ensures Times(Unlist(ranges, x), y) ==
            Times(ranges, y) - (if y == x && 0 < Times(ranges, x) then 1 else 0)
  {
    if ranges != [] {
      OccursIff(ranges[0], x);
      if x in ranges[0] {
        var range := RemoveFirst(ranges[0], x);
        RemoveFirstOccurs(ranges[0], x, y);
        assert [] + ranges[1..] == ranges[1..];
        assert ([range] + ranges[1..])[1..] == ranges[1..];
      } else {
        UnlistTimes(ranges[1..], x, y);
      }
    }
  }
}
