/** Type names compared up to spaces, and lists of them separated by bars, in
    Etc/Scalars/datasorter_wrap.cc. Positions stand for the pointers into the strings. */
module TypeNames {

  /** `PastEnd` is a comparison whose pointers leave the strings, which C does not define. */
  datatype Comparison = Same | Different | PastEnd

  datatype Equivalence = Equivalent | NotEquivalent | Undefined

  /** A name without its spaces. */
  function Squeeze(s: string): (r: string)
    ensures ' ' !in r
    ensures |r| <= |s|
  {
    if s == [] then [] else (if s[0] == ' ' then [] else [s[0]]) + Squeeze(s[1..])
  }

  predicate EndsInSpace(s: string) {
    s != [] && s[|s| - 1] == ' '
  }

  /** What the comparison of two names should say, `more` if another name of the list follows the
      first one. A space at the end of a name is not skipped like others: it makes the names
      different, or takes the comparison past the ends of both. */
  function Compare(a: string, b: string, more: bool): Comparison {
    if Squeeze(a) != Squeeze(b) then Different
    else if !EndsInSpace(a) && !EndsInSpace(b) then Same
    else if EndsInSpace(a) && EndsInSpace(b) && !more then PastEnd
    else Different
  }

  // ----- One name -----

  lemma SqueezeStep(s: string, i: nat)
    requires i < |s|
    ensures Squeeze(s[i..]) == (if s[i] == ' ' then [] else [s[i]]) + Squeeze(s[i + 1..])
  {
    assert s[i..][1..] == s[i + 1..];
  }

  method SkipSpaces(s: string, from: nat) returns (i: nat)
    requires from < |s|
    ensures from <= i <= |s| && Squeeze(s[i..]) == Squeeze(s[from..])
    ensures i < |s| ==> s[i] != ' '
    ensures i == |s| ==> EndsInSpace(s)
  {
    i := from;
    while i != |s| && s[i] == ' '
      invariant from <= i <= |s| && Squeeze(s[i..]) == Squeeze(s[from..])
      invariant i == |s| ==> EndsInSpace(s)
    {
      SqueezeStep(s, i);
      i := i + 1;
    }
  }

  /** The rests from `i` and `j` on are as equal as the whole names, and a name that has been read
      to its end does not end in a space. */
  ghost predicate ReadTo(a: string, b: string, i: nat, j: nat) {
    && i <= |a| && j <= |b|
    && (Squeeze(a) == Squeeze(b) <==> Squeeze(a[i..]) == Squeeze(b[j..]))
    && (i == |a| ==> !EndsInSpace(a)) && (j == |b| ==> !EndsInSpace(b))
  }

  lemma BothRead(a: string, b: string, i: nat, j: nat, more: bool)
    requires ReadTo(a, b, i, j) && (i == |a| || j == |b|)
    ensures Compare(a, b, more) == if |a| - i == |b| - j then Same else Different
  {
    SpacesOnly(a[i..]);
    SpacesOnly(b[j..]);
  }

  /** Nothing but spaces is left of a name only if it ends in one. */
  lemma {:induction false} SpacesOnly(s: string)
    ensures s != [] && Squeeze(s) == [] ==> EndsInSpace(s)
  {
    if s != [] && s[1..] != [] {
      SpacesOnly(s[1..]);
    }
  }

  /** Both names compared up to a character that is not a space. */
  lemma OneMore(a: string, b: string, i: nat, j: nat, i1: nat, j1: nat)
    requires ReadTo(a, b, i, j) && i <= i1 < |a| && j <= j1 < |b| && a[i1] != ' ' && b[j1] != ' '
    requires Squeeze(a[i1..]) == Squeeze(a[i..]) && Squeeze(b[j1..]) == Squeeze(b[j..])
    ensures a[i1] == b[j1] ==> ReadTo(a, b, i1 + 1, j1 + 1)
    ensures a[i1] != b[j1] ==> Squeeze(a) != Squeeze(b)
  {
    SqueezeStep(a, i1);
    SqueezeStep(b, j1);
    var x, y := Squeeze(a[i1 + 1..]), Squeeze(b[j1 + 1..]);
    assert ([a[i1]] + x)[0] == a[i1] && ([b[j1]] + y)[0] == b[j1];
    assert ([a[i1]] + x)[1..] == x && ([b[j1]] + y)[1..] == y;
  }

  /** The characters compared, where `a` is followed by a bar or by the end of the string. */
  predicate Alike(a: string, b: string, i: nat, j: nat, more: bool)
    requires i <= |a| && j <= |b|
  {
    if i < |a| then j < |b| && a[i] == b[j]
    else if j < |b| then more && b[j] == '|'
    else !more
  }

  /** What one comparison of characters decides. */
  lemma Decides(a: string, b: string, i: nat, j: nat, i1: nat, j1: nat, more: bool)
    requires '|' !in b && ReadTo(a, b, i, j) && i <= i1 <= |a| && j <= j1 <= |b|
    requires Squeeze(a[i1..]) == Squeeze(a[i..]) && Squeeze(b[j1..]) == Squeeze(b[j..])
    requires (if i1 < |a| then a[i1] != ' ' else EndsInSpace(a)) && (if j1 < |b| then b[j1] != ' ' else EndsInSpace(b))
    ensures !Alike(a, b, i1, j1, more) ==> Compare(a, b, more) == Different
    ensures Alike(a, b, i1, j1, more) ==>
              if i1 == |a| || j1 == |b| then Compare(a, b, more) == PastEnd else ReadTo(a, b, i1 + 1, j1 + 1)
  {
    if i1 < |a| && j1 < |b| {
      OneMore(a, b, i, j, i1, j1);
    } else {
      OneEnded(a, b, i1, j1);
    }
  }

  method TypeNameComp(a: string, b: string, more: bool) returns (r: Comparison)
    requires '|' !in a
    ensures '|' !in b ==> r == Compare(a, b, more)
  {
    var i, j := 0, 0;
    assert a[0..] == a && b[0..] == b;
    while i != |a| && j != |b|
      invariant i <= |a| && j <= |b|
      invariant '|' !in b ==> ReadTo(a, b, i, j)
      decreases |a| - i
    {
      var i1 := SkipSpaces(a, i);
      var j1 := SkipSpaces(b, j);
      if '|' !in b {
        Decides(a, b, i, j, i1, j1, more);
      }
      if !Alike(a, b, i1, j1, more) {
        return Different;
      }
      if i1 == |a| || j1 == |b| {
        return PastEnd;
      }
      i, j := i1 + 1, j1 + 1;
    }
    if '|' !in b {
      BothRead(a, b, i, j, more);
    }
    r := if |a| - i == |b| - j then Same else Different;
  }

  /** A name that is at its end has no other character left than the other one. */
  lemma OneEnded(a: string, b: string, i: nat, j: nat)
    requires i <= |a| && j <= |b| && (i == |a| || j == |b|)
    requires (i < |a| ==> a[i] != ' ') && (j < |b| ==> b[j] != ' ')
    ensures Squeeze(a[i..]) == Squeeze(b[j..]) <==> i == |a| && j == |b|
  {
    if i < |a| {
      SqueezeStep(a, i);
    }
    if j < |b| {
      SqueezeStep(b, j);
    }
  }

  // ----- A list of names -----

  function UpToBar(s: string): (k: nat)
    ensures k <= |s| && '|' !in s[..k]
    ensures k < |s| ==> s[k] == '|'
  {
    if s == [] || s[0] == '|' then 0
    else
      var k := UpToBar(s[1..]);
      assert s[..k + 1] == [s[0]] + s[1..][..k];
      k + 1
  }

  /** The names of a list; a bar at its end is not followed by an empty one. */
  function Names(list: string): seq<string>
    decreases |list|
  {
    if list == [] then []
    else
      var k := UpToBar(list);
      [list[..k]] + if k < |list| then Names(list[k + 1..]) else []
  }

  /** The first name that is the same, or whose comparison is undefined, decides. */
  function EquivalentTo(list: string, b: string): Equivalence
    decreases |list|
  {
    if list == [] then NotEquivalent
    else
      var k := UpToBar(list);
      match Compare(list[..k], b, k < |list|)
      case Same => Equivalent
      case PastEnd => Undefined
      case Different => if k < |list| then EquivalentTo(list[k + 1..], b) else NotEquivalent
  }

  method FindBar(s: string, from: nat) returns (k: nat)
    requires from <= |s|
    ensures k == from + UpToBar(s[from..])
  {
    k := from;
    while k != |s| && s[k] != '|'
      invariant from <= k <= |s| && from + UpToBar(s[from..]) == k + UpToBar(s[k..])
    {
      assert s[k..][1..] == s[k + 1..];
      k := k + 1;
    }
  }

  method TypeEquiv(nb: string, tb: string) returns (r: Equivalence)
    ensures '|' !in tb ==> r == EquivalentTo(nb, tb)
  {
    var ne := 0;
    assert nb[0..] == nb;
    while ne != |nb|
      invariant ne <= |nb|
      invariant '|' !in tb ==> EquivalentTo(nb, tb) == EquivalentTo(nb[ne..], tb)
      decreases |nb| - ne
    {
      var k := FindBar(nb, ne);
      ghost var rest := nb[ne..];
      assert nb[ne..k] == rest[..k - ne];
      assert k < |nb| ==> nb[k + 1..] == rest[k - ne + 1..];
      var c := TypeNameComp(nb[ne..k], tb, k < |nb|);
      if c == Same {
        return Equivalent;
      }
      if c == PastEnd {
        return Undefined;
      }
      ne := if k < |nb| then k + 1 else k;
    }
    r := NotEquivalent;
  }

  predicate SameName(name: string, b: string) {
    Squeeze(name) == Squeeze(b) && !EndsInSpace(name)
  }

  predicate SomeSame(names: seq<string>, b: string) {
    exists i :: 0 <= i < |names| && SameName(names[i], b)
  }

  lemma SomeSameCons(name: string, rest: seq<string>, b: string)
    ensures SomeSame([name] + rest, b) <==> SameName(name, b) || SomeSame(rest, b)
  {
    var names := [name] + rest;
    assert names[0] == name;
    assert forall i :: 0 <= i < |rest| ==> rest[i] == names[i + 1];
    assert forall i :: 1 <= i < |names| ==> names[i] == rest[i - 1];
  }

  /** A name is found in a list exactly if some name of the list is equal to it up to spaces, and
      neither of the two ends in a space; only for a name that ends in a space can the
      comparison be undefined. */
  lemma {:induction false} EquivalentIff(list: string, b: string)
    ensures EquivalentTo(list, b) == Equivalent <==> !EndsInSpace(b) && SomeSame(Names(list), b)
    ensures !EndsInSpace(b) ==> EquivalentTo(list, b) != Undefined
    decreases |list|
  {
    if list != [] {
      var k := UpToBar(list);
      if k < |list| {
        SomeSameCons(list[..k], Names(list[k + 1..]), b);
        EquivalentIff(list[k + 1..], b);
      } else {
        SomeSameCons(list[..k], [], b);
      }
    }
  }

  /** What comes behind the last bar. */
  function LastName(list: string): string
    decreases |list|
  {
    var k := UpToBar(list);
    if k < |list| then LastName(list[k + 1..]) else list
  }

  /** The comparison is undefined exactly for the last name of a list, if it ends in a space, for a
      name that ends in a space too and is equal to it up to spaces. */
  lemma {:induction false} UndefinedIff(list: string, b: string)
    ensures EquivalentTo(list, b) == Undefined <==>
              EndsInSpace(b) && EndsInSpace(LastName(list)) && Squeeze(LastName(list)) == Squeeze(b)
    decreases |list|
  {
    var k := UpToBar(list);
    if k < |list| {
      UndefinedIff(list[k + 1..], b);
    } else {
      assert list[..k] == list;
    }
  }
}
