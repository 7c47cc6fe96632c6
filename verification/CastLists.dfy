/** The cast lists of the SWIG run-time, Etc/Scalars/datasorter_wrap.cc: a doubly linked
    list per type that a successful lookup reorders by moving the match to the top. */
module CastLists {

  class CastInfo {
    const name: string
    var next: CastInfo?
    var prev: CastInfo?

    constructor (name: string)
      ensures this.name == name
    {
      this.name := name;
      next, prev := null, null;
    }
  }

  // ----- The list as a sequence -----

  /** The index of the first cast with that name, or the length. */
  function Find(s: seq<CastInfo>, c: string): (k: nat)
    ensures k <= |s|
    ensures k < |s| ==> s[k].name == c
    ensures forall j :: 0 <= j < k ==> s[j].name != c
  {
    if s == [] || s[0].name == c then 0 else 1 + Find(s[1..], c)
  }

  function Answer(s: seq<CastInfo>, c: string): CastInfo? {
    var k := Find(s, c);
    if k < |s| then s[k] else null
  }

  function ToTop(s: seq<CastInfo>, k: nat): seq<CastInfo>
    requires k <= |s|
  {
    if k == |s| then s else [s[k]] + s[..k] + s[k + 1..]
  }

  function AfterLookup(s: seq<CastInfo>, c: string): seq<CastInfo> {
    ToTop(s, Find(s, c))
  }

  function AfterLookups(s: seq<CastInfo>, cs: seq<string>): seq<CastInfo> {
    if cs == [] then s else AfterLookup(AfterLookups(s, cs[..|cs| - 1]), cs[|cs| - 1])
  }

  predicate Distinct(s: seq<CastInfo>) {
    forall i, j :: 0 <= i < j < |s| ==> s[i] != s[j]
  }

  predicate DistinctNames(s: seq<CastInfo>) {
    forall i, j :: 0 <= i < j < |s| ==> s[i].name != s[j].name
  }

  // ----- The list in the heap -----

  class TypeInfo {
    var cast: CastInfo?
    ghost var casts: seq<CastInfo>

    /** The links run through `casts` in both directions. */
    ghost predicate Valid()
      reads this, casts
    {
      Linked(cast, casts)
    }

    /** Finds the first cast of that name and moves it to the top of the list. */
    method TypeCheck(c: string) returns (found: CastInfo?)
      requires Valid()
      modifies this, casts
      ensures Valid()
      ensures found == Answer(old(casts), c)
      ensures casts == AfterLookup(old(casts), c)
    {
      var iter := cast;
      ghost var k := 0;
      while iter != null
        invariant k <= |casts| && iter == if k < |casts| then casts[k] else null
        invariant forall j :: 0 <= j < k ==> casts[j].name != c
        decreases |casts| - k
      {
        if iter.name == c {
          assert Find(casts, c) == k;
          if iter == cast {
            assert k == 0;
            assert [casts[0]] + casts[..0] + casts[1..] == casts;
            return iter;
          }
          Relink(iter, k);
          return iter;
        }
        iter := iter.next;
        k := k + 1;
      }
      return null;
    }

    /** Takes the node at `k` out of the list and puts it in front. */
    method Relink(iter: CastInfo, ghost k: nat)
      requires Valid() && 0 < k < |casts| && casts[k] == iter
      modifies this, casts
      ensures Valid() && casts == ToTop(old(casts), k)
    {
      ghost var before := casts;
      Unlink(iter, k);
      PutFirst(iter);
      assert casts == ToTop(before, k);
    }

    /** Links the neighbours of a node that is not the first past it. */
    method Unlink(iter: CastInfo, ghost k: nat)
      requires Valid() && 0 < k < |casts| && casts[k] == iter
      modifies this`casts, casts
      ensures casts == old(casts)[..k] + old(casts)[k + 1..]
      ensures Linked(cast, casts) && iter !in casts
    {
      iter.prev.next := iter.next;
      if iter.next != null {
        iter.next.prev := iter.prev;
      }
      casts := casts[..k] + casts[k + 1..];
    }

    method PutFirst(iter: CastInfo)
      requires Linked(cast, casts) && iter !in casts
      modifies this, casts, iter
      ensures Valid() && casts == [iter] + old(casts)
    {
      iter.next := cast;
      iter.prev := null;
      if cast != null {
        cast.prev := iter;
      }
      cast := iter;
      casts := [iter] + casts;
    }
  }

  ghost predicate Linked(head: CastInfo?, s: seq<CastInfo>)
    reads s
  {
    && Distinct(s)
    && (if s == [] then head == null else head == s[0] && s[0].prev == null && s[|s| - 1].next == null)
    && (forall i {:trigger s[i].next} :: 0 <= i < |s| - 1 ==> s[i].next == s[i + 1])
    && (forall i {:trigger s[i].prev} :: 1 <= i < |s| ==> s[i].prev == s[i - 1])
  }

  // ----- Lookups are lookups in a fixed map -----

  lemma FindIs(s: seq<CastInfo>, c: string, k: nat)
    requires k < |s| && s[k].name == c
    requires forall j :: 0 <= j < k ==> s[j].name != c
    ensures Find(s, c) == k
  {
  }

  lemma ToTopMembers(s: seq<CastInfo>, k: nat)
    requires k <= |s|
    ensures forall x :: x in ToTop(s, k) <==> x in s
    ensures |ToTop(s, k)| == |s|
  {
  }

  /** One lookup changes no answer, not even when names are repeated: only the first cast of
      a name is ever moved, and it stays the first. */
  lemma LookupKeepsAnswers(s: seq<CastInfo>, c: string, d: string)
    ensures Answer(AfterLookup(s, c), d) == Answer(s, d)
  {
    var k, m := Find(s, c), Find(s, d);
    var r := AfterLookup(s, c);
    ToTopMembers(s, k);
    if k < |s| {
      if m == |s| {
        forall x | x in r ensures x.name != d {
          assert x in s;
          var j :| 0 <= j < |s| && s[j] == x;
          assert s[j].name != d;
        }
        var f := Find(r, d);
        assert f < |r| ==> r[f] in r;
      } else if m == k {
        FindIs(r, d, 0);
      } else if m < k {
        assert r[m + 1] == s[m];
        FindIs(r, d, m + 1);
      } else {
        assert r[m] == s[m];
        FindIs(r, d, m);
      }
    }
  }

  /** After any history of lookups every name is answered as in the beginning, and the list
      consists of the same casts. */
  lemma {:induction false} HistoryKeepsAnswers(s: seq<CastInfo>, cs: seq<string>, d: string)
    ensures Answer(AfterLookups(s, cs), d) == Answer(s, d)
    ensures forall x :: x in AfterLookups(s, cs) <==> x in s
    ensures |AfterLookups(s, cs)| == |s|
  {
    if cs != [] {
      var n := |cs| - 1;
      var t := AfterLookups(s, cs[..n]);
      HistoryKeepsAnswers(s, cs[..n], d);
      LookupKeepsAnswers(t, cs[n], d);
      ToTopMembers(t, Find(t, cs[n]));
    }
  }

  /** The map in question: a lookup finds a cast exactly if some cast of the original list
      has the name, and with distinct names it is that cast. */
  lemma AnswersAreAMap(s: seq<CastInfo>, cs: seq<string>, d: string)
    ensures var a := Answer(AfterLookups(s, cs), d);
            && (a != null <==> exists i :: 0 <= i < |s| && s[i].name == d)
            && (forall i :: 0 <= i < |s| && s[i].name == d && DistinctNames(s) ==> a == s[i])
  {
    HistoryKeepsAnswers(s, cs, d);
    var k := Find(s, d);
    assert k < |s| ==> s[k].name == d;
  }

  /** The name just looked up is on top. */
  lemma LookedUpIsOnTop(s: seq<CastInfo>, c: string)
    requires Answer(s, c) != null
    ensures Find(AfterLookup(s, c), c) == 0
  {
  }

  /** What a lookup finds moves to the front; the casts before it move up by one, all others stay. A
      lookup that finds nothing changes nothing. */
  lemma OthersKeepTheirOrder(s: seq<CastInfo>, c: string, k: nat)
    requires k <= |s| && (forall j :: 0 <= j < k ==> s[j].name != c) && (k < |s| ==> s[k].name == c)
    ensures var r := AfterLookup(s, c);
            if k == |s| then r == s
            else
              |r| == |s| && r[0] == s[k]
              && (forall j :: 0 <= j < k ==> r[j + 1] == s[j]) && (forall j :: k < j < |s| ==> r[j] == s[j])
  {
    if k < |s| {
      FindIs(s, c, k);
    } else {
      var f := Find(s, c);
    }
  }
}
