/** Type lookup by name in the SWIG run-time, Etc/Scalars/datasorter_wrap.cc: a binary
    search in each module's table, over the circular list of modules. */
module TypeModules {
  import opened Options
  import opened TypeNames

  /** A `swig_type_info`; a null pointer is `None`. */
  datatype TypeEntry = TypeEntry(name: Option<string>, str: Option<string>)

  /** The sign of `strcmp`. */
  function StrCmp(a: string, b: string): int {
    if a == [] then (if b == [] then 0 else -1)
    else if b == [] then 1
    else if a[0] < b[0] then -1
    else if b[0] < a[0] then 1
    else StrCmp(a[1..], b[1..])
  }

  lemma {:induction false} StrCmpEqual(a: string, b: string)
    ensures StrCmp(a, b) == 0 <==> a == b
  {
    if a != [] && b != [] && a[0] == b[0] {
      StrCmpEqual(a[1..], b[1..]);
      assert a == [a[0]] + a[1..] && b == [b[0]] + b[1..];
    }
  }

  /** The first character in which two names differ decides, and a name comes after its prefixes. */
  lemma {:induction false} StrCmpSign(prefix: string, a: string, b: string)
    requires b != [] && (a == [] || a[0] < b[0])
    ensures StrCmp(prefix + a, prefix + b) < 0 < StrCmp(prefix + b, prefix + a)
  {
    if prefix == [] {
      assert prefix + a == a && prefix + b == b;
    } else {
      StrCmpSign(prefix[1..], a, b);
      assert (prefix + a)[1..] == prefix[1..] + a && (prefix + b)[1..] == prefix[1..] + b;
    }
  }

  predicate Named(types: seq<TypeEntry>) {
    forall i :: 0 <= i < |types| ==> types[i].name.Some?
  }

  /** The order in which the generator emits a module's types. */
  predicate Sorted(types: seq<TypeEntry>)
    requires Named(types)
  {
    forall i, j :: 0 <= i < j < |types| ==> StrCmp(types[i].name.value, types[j].name.value) <= 0
  }

  predicate Searchable(types: seq<TypeEntry>) {
    Named(types) && Sorted(types)
  }

  predicate Holds(types: seq<TypeEntry>, name: string) {
    exists i :: 0 <= i < |types| && types[i].name == Some(name)
  }

  /** Names before one that is smaller, and after one that is larger, do not match. */
  lemma RuledOut(types: seq<TypeEntry>, name: string, i: nat, j: nat)
    requires Searchable(types) && i < |types| && j < |types|
    requires var c := StrCmp(name, types[i].name.value); (c < 0 && i <= j) || (0 < c && j <= i)
    ensures types[j].name != Some(name)
  {
    var n, m := types[i].name.value, types[j].name.value;
    StrCmpEqual(name, n);
    if m == name {
      StrCmpEqual(m, name);
      StrCmpEqual(n, n);
      assert i != j;
      StrCmpAntisymmetric(name, n);
    }
  }

  lemma {:induction false} StrCmpAntisymmetric(a: string, b: string)
    ensures StrCmp(a, b) == -StrCmp(b, a)
  {
    if a != [] && b != [] && a[0] == b[0] {
      StrCmpAntisymmetric(a[1..], b[1..]);
    }
  }

  /** The binary search in one module. `l` and `r` are unsigned: they stay natural numbers,
      and their sum stays below twice the size. A missing name ends the search. */
  method SearchModule(types: seq<TypeEntry>, name: string) returns (found: Option<TypeEntry>)
    ensures found.Some? ==> found.value in types && found.value.name == Some(name)
    ensures Searchable(types) ==> (found.Some? <==> Holds(types, name))
  {
    found := None;
    if |types| == 0 {
      return;
    }
    var l: nat := 0;
    var r: nat := |types| - 1;
    var more := true;
    while more
      invariant r < |types| && l <= |types|
      invariant more ==> l <= r && l + r < 2 * |types|
      invariant Searchable(types) ==> forall j :: 0 <= j < |types| && (j < l || r < j) ==> types[j].name != Some(name)
      invariant !more && Searchable(types) ==> !Holds(types, name)
      decreases more, r + 1 - l
    {
      var i := (l + r) / 2;
      var iname := types[i].name;
      if iname == None {
        return;
      }
      var compare := StrCmp(name, iname.value);
      StrCmpEqual(name, iname.value);
      if compare == 0 {
        return Some(types[i]);
      }
      if Searchable(types) {
        forall j | 0 <= j < |types| && (if compare < 0 then i <= j else j <= i)
          ensures types[j].name != Some(name)
        {
          RuledOut(types, name, i, j);
        }
      }
      if compare < 0 {
        if i == 0 {
          return;
        }
        r := i - 1;
      } else {
        l := i + 1;
      }
      more := l <= r;
    }
  }

  // ----- The circular list of modules -----

  class ModuleInfo {
    const types: seq<TypeEntry>
    var next: ModuleInfo

    constructor (types: seq<TypeEntry>)
      ensures this.types == types && next == this
    {
      this.types := types;
      next := this;
    }
  }

  /** The modules in the order of their links, the last one leading back to the first. */
  ghost predicate IsRing(ring: seq<ModuleInfo>)
    reads ring
  {
    && ring != []
    && (forall i, j :: 0 <= i < j < |ring| ==> ring[i] != ring[j])
    && (forall i :: 0 <= i < |ring| - 1 ==> ring[i].next == ring[i + 1])
    && ring[|ring| - 1].next == ring[0]
  }

  /** The modules searched from the first up to, not including, `end`; all of them when
      the search ends where it starts. */
  ghost function Visited(ring: seq<ModuleInfo>, e: nat): seq<ModuleInfo>
    requires e < |ring|
  {
    if e == 0 then ring else ring[..e]
  }

  lemma VisitedUpToEnd(ring: seq<ModuleInfo>, e: nat, i: nat)
    requires IsRing(ring) && e < |ring| && i < |ring|
    ensures ring[i] in Visited(ring, e) <==> e == 0 || i < e
  {
    if e == 0 || i < e {
      assert Visited(ring, e)[i] == ring[i];
    }
  }

  /** Following the link of a visited module leads to the next one, and back to `end`
      exactly after the last. */
  lemma RingStep(ring: seq<ModuleInfo>, e: nat, at: nat)
    requires IsRing(ring) && e < |ring| && at < |Visited(ring, e)|
    ensures ring[at].next == ring[e] <==> at + 1 == |Visited(ring, e)|
    ensures at + 1 < |Visited(ring, e)| ==> ring[at].next == ring[at + 1]
  {
    assert ring[at].next == if at == |ring| - 1 then ring[0] else ring[at + 1];
  }

  predicate AllSearchable(modules: seq<ModuleInfo>) {
    forall i :: 0 <= i < |modules| ==> Searchable(modules[i].types)
  }

  /** Stops at the first visited module that holds the name, and only there. */
  method MangledTypeQueryModule(start: ModuleInfo, end: ModuleInfo, name: string,
                                ghost ring: seq<ModuleInfo>, ghost e: nat)
    returns (found: Option<TypeEntry>, ghost at: nat)
    requires IsRing(ring) && e < |ring| && start == ring[0] && end == ring[e]
    ensures at <= |Visited(ring, e)|
    ensures found.Some? ==> at < |Visited(ring, e)| && found.value in ring[at].types && found.value.name == Some(name)
    ensures AllSearchable(ring) ==>
              (found.Some? <==> exists m :: 0 <= m < |Visited(ring, e)| && Holds(ring[m].types, name))
    ensures AllSearchable(ring) ==> forall m :: 0 <= m < at ==> !Holds(ring[m].types, name)
  {
    var iter := start;
    at := 0;
    var more := true;
    ghost var n := |Visited(ring, e)|;
    while more
      invariant at <= n && (more <==> at < n)
      invariant more ==> iter == ring[at]
      invariant AllSearchable(ring) ==> forall m :: 0 <= m < at ==> !Holds(ring[m].types, name)
      decreases n - at
    {
      found := SearchModule(iter.types, name);
      if found.Some? {
        return;
      }
      RingStep(ring, e, at);
      iter := iter.next;
      at := at + 1;
      more := iter != end;
    }
    found := None;
  }

  /** Whether an entry's readable names match. */
  predicate Readable(t: TypeEntry, name: string) {
    t.str.Some? && EquivalentTo(t.str.value, name) == Equivalent
  }

  /** Looks through one module for a readable name. */
  method SearchReadable(types: seq<TypeEntry>, name: string) returns (found: Option<TypeEntry>, defined: bool)
    ensures found.Some? ==> found.value in types && ('|' !in name ==> Readable(found.value, name))
    ensures '|' !in name && !EndsInSpace(name) ==> defined
    ensures '|' !in name && defined && found == None ==> forall i :: 0 <= i < |types| ==> !Readable(types[i], name)
  {
    for i := 0 to |types|
      invariant '|' !in name ==> forall j :: 0 <= j < i ==> !Readable(types[j], name)
    {
      if types[i].str.Some? {
        var equiv := TypeEquiv(types[i].str.value, name);
        EquivalentIff(types[i].str.value, name);
        if equiv == Equivalent {
          return Some(types[i]), true;
        }
        if equiv == Undefined {
          return None, false;
        }
      }
    }
    return None, true;
  }

  /** A mangled name is preferred; failing that, the first entry whose readable names match.
      `defined` says whether all comparisons of readable names were. What readable names match is
      promised for a single name, without a bar. */
  method TypeQueryModule(start: ModuleInfo, end: ModuleInfo, name: string, ghost ring: seq<ModuleInfo>, ghost e: nat)
    returns (found: Option<TypeEntry>, defined: bool, ghost at: nat)
    requires IsRing(ring) && e < |ring| && start == ring[0] && end == ring[e]
    ensures '|' !in name && !EndsInSpace(name) ==> defined
    ensures found.Some? ==> at < |Visited(ring, e)| && found.value in ring[at].types
    ensures found.Some? && '|' !in name ==> found.value.name == Some(name) || Readable(found.value, name)
    ensures (AllSearchable(ring) && exists m :: 0 <= m < |Visited(ring, e)| && Holds(ring[m].types, name))
            ==> found.Some? && found.value.name == Some(name)
    ensures AllSearchable(ring) && defined && '|' !in name ==> (found.Some? <==>
              exists m, i :: 0 <= m < |Visited(ring, e)| && 0 <= i < |ring[m].types|
                && (ring[m].types[i].name == Some(name) || Readable(ring[m].types[i], name)))
  {
    defined := true;
    found, at := MangledTypeQueryModule(start, end, name, ring, e);
    if found.Some? {
      return;
    }
    var iter := start;
    at := 0;
    var more := true;
    ghost var n := |Visited(ring, e)|;
    while more
      invariant at <= n && (more <==> at < n)
      invariant more ==> iter == ring[at]
      invariant defined && found == None
      invariant '|' !in name ==>
                  forall m, i :: 0 <= m < at && 0 <= i < |ring[m].types| ==> !Readable(ring[m].types[i], name)
      decreases n - at
    {
      found, defined := SearchReadable(iter.types, name);
      if found.Some? || !defined {
        return;
      }
      RingStep(ring, e, at);
      iter := iter.next;
      at := at + 1;
      more := iter != end;
    }
  }
}
