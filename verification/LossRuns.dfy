/** Loss events as run lengths, Applications/RTPApp/RTPVoip.cc: the flag `discarded` and
    the list `elossEvents` against the history of what happened to the frames. */
module LossRuns {
  import opened Counting

  /** A frame was discarded or overwritten; a frame was admitted or played; the
      counters of an interval were taken and cleared. */
  datatype Mark = Loss | Clean | Calculated

  /** `NoLastEvent` is `elossEvents.back()` of an empty list, which is undefined. */
  datatype LossResult = Counted(events: seq<nat>) | NoLastEvent

  function Bump(events: seq<nat>): seq<nat>
    requires events != []
  {
    events[..|events| - 1] + [events[|events| - 1] + 1]
  }

  function NoteLoss(discarded: bool, events: seq<nat>): LossResult {
    if !discarded then Counted(events + [1])
    else if events == [] then NoLastEvent
    else Counted(Bump(events))
  }

  // ----- What the list should hold: the lengths of the maximal runs of losses -----

  function LeadingLosses(h: seq<Mark>): (k: nat)
    ensures k <= |h|
    ensures forall i :: 0 <= i < k ==> h[i] == Loss
    ensures k < |h| ==> h[k] != Loss
  {
    if h == [] || h[0] != Loss then 0 else 1 + LeadingLosses(h[1..])
  }

  function Runs(h: seq<Mark>): seq<nat>
    decreases |h|
  {
    if h == [] then []
    else if h[0] != Loss then Runs(h[1..])
    else
      var k := LeadingLosses(h);
      [k] + Runs(h[k..])
  }

  function SinceCalculation(h: seq<Mark>): seq<Mark> {
    if h == [] || h[|h| - 1] == Calculated then []
    else SinceCalculation(h[..|h| - 1]) + [h[|h| - 1]]
  }

  /** Whether the last frame that was not merely counted was lost. */
  predicate EndsInLoss(h: seq<Mark>) {
    h != [] && (h[|h| - 1] == Loss || (h[|h| - 1] == Calculated && EndsInLoss(h[..|h| - 1])))
  }

  ghost predicate Agrees(h: seq<Mark>, discarded: bool, events: seq<nat>) {
    discarded == EndsInLoss(h) && events == Runs(SinceCalculation(h))
  }

  lemma {:induction false} RunsOfLossesOnly(h: seq<Mark>)
    requires h != [] && LeadingLosses(h) == |h|
    ensures Runs(h) == [|h|]
  {
  }

  lemma {:induction false} LeadingGrows(h: seq<Mark>, m: Mark)
    ensures LeadingLosses(h + [m]) ==
            if LeadingLosses(h) == |h| && m == Loss then |h| + 1 else LeadingLosses(h)
  {
    var g := h + [m];
    assert g[|h|] == m;
    assert forall i :: 0 <= i < |h| ==> g[i] == h[i];
  }

  /** A new mark extends the last run if that is still open, starts one, or leaves the runs alone. */
  function Grown(runs: seq<nat>, m: Mark, open: bool): seq<nat> {
    if m != Loss then runs
    else if open && runs != [] then Bump(runs)
    else runs + [1]
  }

  predicate Open(h: seq<Mark>) {
    h != [] && h[|h| - 1] == Loss
  }

  lemma LeadingRunGrows(h: seq<Mark>, m: Mark)
    requires h != [] && LeadingLosses(h) == |h|
    ensures Runs(h + [m]) == Grown(Runs(h), m, true)
  {
    var g := h + [m];
    LeadingGrows(h, m);
    RunsOfLossesOnly(h);
    if m == Loss {
      RunsOfLossesOnly(g);
    } else {
      assert g[|h|..] == [m];
      assert [m][1..] == [];
    }
  }

  lemma RunsCons(h: seq<Mark>)
    requires h != [] && h[0] == Loss
    ensures Runs(h) == [LeadingLosses(h)] + Runs(h[LeadingLosses(h)..])
  {
  }

  lemma GrownCons(k: nat, runs: seq<nat>, m: Mark, open: bool)
    requires open ==> runs != []
    ensures Grown([k] + runs, m, open) == [k] + Grown(runs, m, open)
  {
    if open {
      assert ([k] + runs)[..|runs|] == [k] + runs[..|runs| - 1];
    }
  }

  lemma LaterRunsGrow(h: seq<Mark>, m: Mark, rest: seq<Mark>, later: seq<nat>)
    requires h != [] && 0 < LeadingLosses(h) < |h| && rest == h[LeadingLosses(h)..]
    requires later == Runs(rest) && Runs(rest + [m]) == Grown(later, m, Open(rest))
    ensures Runs(h + [m]) == Grown(Runs(h), m, Open(h))
  {
    RunsCons(h);
    FirstRunStays(h, m);
    NoLossNoRuns(rest);
    assert Open(rest) == Open(h);
    GrownCons(LeadingLosses(h), later, m, Open(h));
  }

  lemma FirstRunStays(h: seq<Mark>, m: Mark)
    requires h != [] && 0 < LeadingLosses(h) < |h|
    ensures Runs(h + [m]) == [LeadingLosses(h)] + Runs(h[LeadingLosses(h)..] + [m])
  {
    var g, k := h + [m], LeadingLosses(h);
    LeadingGrows(h, m);
    assert g[k..] == h[k..] + [m];
    RunsCons(g);
  }

  lemma {:induction false} RunsGrow(h: seq<Mark>, m: Mark)
    ensures Runs(h + [m]) == Grown(Runs(h), m, Open(h))
    decreases |h|
  {
    if h == [] {
      assert h + [m] == [m] && [m][1..] == [];
      if m == Loss {
        RunsOfLossesOnly([m]);
      }
    } else if h[0] != Loss {
      assert (h + [m])[1..] == h[1..] + [m];
      RunsGrow(h[1..], m);
      NoLossNoRuns(h);
    } else if LeadingLosses(h) == |h| {
      LeadingRunGrows(h, m);
    } else {
      var rest := h[LeadingLosses(h)..];
      RunsGrow(rest, m);
      LaterRunsGrow(h, m, rest, Runs(rest));
    }
  }

  lemma {:induction false} NoLossNoRuns(h: seq<Mark>)
    ensures Runs(h) == [] <==> Loss !in h
  {
    if h != [] && h[0] != Loss {
      NoLossNoRuns(h[1..]);
    }
  }

  // ----- Every step keeps the list equal to the runs since the last calculation -----

  lemma SinceGrows(h: seq<Mark>, m: Mark)
    requires m != Calculated
    ensures SinceCalculation(h + [m]) == SinceCalculation(h) + [m]
  {
  }

  lemma {:induction false} EndsInLossWithin(h: seq<Mark>)
    requires SinceCalculation(h) != []
    ensures EndsInLoss(h) <==> SinceCalculation(h)[|SinceCalculation(h)| - 1] == Loss
  {
  }

  lemma LossAgrees(h: seq<Mark>, discarded: bool, events: seq<nat>)
    requires Agrees(h, discarded, events)
    ensures match NoteLoss(discarded, events)
            case Counted(e) => Agrees(h + [Loss], true, e)
            case NoLastEvent => true
  {
    var since := SinceCalculation(h);
    SinceGrows(h, Loss);
    RunsGrow(since, Loss);
    NoLossNoRuns(since);
    assert (h + [Loss])[..|h|] == h;
    if since != [] { EndsInLossWithin(h); }
  }

  lemma CleanAgrees(h: seq<Mark>, discarded: bool, events: seq<nat>)
    requires Agrees(h, discarded, events)
    ensures Agrees(h + [Clean], false, events)
  {
    SinceGrows(h, Clean);
    RunsGrow(SinceCalculation(h), Clean);
    assert (h + [Clean])[..|h|] == h;
  }

  lemma CalculatedAgrees(h: seq<Mark>, discarded: bool, events: seq<nat>)
    requires Agrees(h, discarded, events)
    ensures Agrees(h + [Calculated], discarded, [])
  {
  }

  /** The history ends in a loss followed by nothing but calculations, at least one. */
  ghost predicate LossThenCalculated(h: seq<Mark>) {
    exists k :: 0 <= k < |h| - 1 && h[k] == Loss && forall j :: k < j < |h| ==> h[j] == Calculated
  }

  lemma {:induction false} EndsInLossMeans(h: seq<Mark>)
    requires EndsInLoss(h)
    ensures exists k :: 0 <= k < |h| && h[k] == Loss && forall j :: k < j < |h| ==> h[j] == Calculated
  {
    if h[|h| - 1] == Loss {
      assert h[|h| - 1] == Loss;
    } else {
      var g := h[..|h| - 1];
      EndsInLossMeans(g);
      var k :| 0 <= k < |g| && g[k] == Loss && forall j :: k < j < |g| ==> g[j] == Calculated;
      assert h[k] == Loss && forall j :: k < j < |h| ==> h[j] == (if j < |g| then g[j] else Calculated);
    }
  }

  lemma {:induction false} TrailingCalculations(h: seq<Mark>, k: nat)
    requires k < |h| && h[k] == Loss && forall j :: k < j < |h| ==> h[j] == Calculated
    ensures EndsInLoss(h)
    decreases |h|
  {
    if k < |h| - 1 {
      assert h[|h| - 1] == Calculated;
      TrailingCalculations(h[..|h| - 1], k);
    }
  }

  /** A calculation clears the list but not the flag, so the next loss reads the last
      event of an empty list exactly when the frame before the calculation was lost too. */
  lemma UndefinedIff(h: seq<Mark>, discarded: bool, events: seq<nat>)
    requires Agrees(h, discarded, events)
    ensures NoteLoss(discarded, events) == NoLastEvent <==> LossThenCalculated(h)
  {
    var since := SinceCalculation(h);
    NoLossNoRuns(since);
    if NoteLoss(discarded, events) == NoLastEvent {
      EndsInLossMeans(h);
      var k :| 0 <= k < |h| && h[k] == Loss && forall j :: k < j < |h| ==> h[j] == Calculated;
      assert h[|h| - 1] == Loss ==> Loss in since;
    }
    if LossThenCalculated(h) {
      var k :| 0 <= k < |h| - 1 && h[k] == Loss && forall j :: k < j < |h| ==> h[j] == Calculated;
      TrailingCalculations(h, k);
      assert h[|h| - 1] == Calculated;
      assert since == [];
    }
  }
}
