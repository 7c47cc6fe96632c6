/** `quadForm` of Etc/scripts/NedFile.rb: groups of four hex digits joined by colons, with
    needless zeros taken out by two regular-expression substitutions. */
module QuadForms {
  import opened HexDigits

  /** `NilSubstitution` is the method call on nil that follows when the first substitution
      finds nothing to replace. */
  datatype QuadResult = Quads(s: string) | NotPadded | NilSubstitution

  // ----- The substitutions, as scans from the left -----

  predicate StartsWithRun(s: string) {
    4 <= |s| && s[0] == '0' && s[1] == '0' && s[2] == '0' && s[3] == '0'
  }

  /** Whether `/0{4,4}/` matches anywhere. */
  predicate HasZeroRun(s: string) {
    s != [] && (StartsWithRun(s) || HasZeroRun(s[1..]))
  }

  /** `gsub!(/0{4,4}/, "0")`. */
  function GsubZeroRuns(s: string): string {
    if s == [] then []
    else if StartsWithRun(s) then "0" + GsubZeroRuns(s[4..])
    else [s[0]] + GsubZeroRuns(s[1..])
  }

  function LeadingZeros(s: string): (k: nat)
    ensures k <= |s|
    ensures forall i :: 0 <= i < k ==> s[i] == '0'
    ensures k < |s| ==> s[k] != '0'
  {
    if s == [] || s[0] != '0' then 0 else 1 + LeadingZeros(s[1..])
  }

  /** `gsub!(/:0+([^0:])/, ':\1')`. */
  function GsubLeadingZeros(s: string): string
    decreases |s|
  {
    if s == [] then []
    else
      var k := LeadingZeros(s[1..]);
      if s[0] == ':' && 0 < k && 1 + k < |s| && s[1 + k] != ':' then
        [':', s[1 + k]] + GsubLeadingZeros(s[k + 2..])
      else
        [s[0]] + GsubLeadingZeros(s[1..])
  }

  // ----- Colons between groups -----

  function Colons(s: string): string {
    if |s| <= 4 then s else s[..4] + ":" + Colons(s[4..])
  }

  function Head(s: string, k: nat): (r: string)
    requires 4 * k <= |s|
    ensures |r| == 5 * k
  {
    if k == 0 then [] else Head(s, k - 1) + s[4 * (k - 1)..4 * k] + ":"
  }

  lemma {:induction false} ColonsFromHead(s: string, k: nat)
    requires 4 * k < |s|
    ensures Colons(s) == Head(s, k) + Colons(s[4 * k..])
  {
    if k == 0 {
      assert s[0..] == s;
    } else {
      ColonsFromHead(s, k - 1);
      var t := s[4 * (k - 1)..];
      assert t[..4] == s[4 * (k - 1)..4 * k] && t[4..] == s[4 * k..];
      assert Head(s, k - 1) + (t[..4] + ":" + Colons(t[4..])) == Head(s, k - 1) + t[..4] + ":" + Colons(t[4..]);
    }
  }

  /** The first `k` groups have their delimiters. */
  predicate Delimited(hexstr: string, k: nat, s: string) {
    4 * k < |hexstr| && s == Head(hexstr, k) + hexstr[4 * k..]
  }

  /** One insertion, behind the `i`-th group. */
  lemma HeadGrows(hexstr: string, i: nat, s: string)
    requires 1 <= i && 4 * i < |hexstr| && Delimited(hexstr, i - 1, s)
    ensures 5 * i - 1 <= |s| && Delimited(hexstr, i, s[..5 * i - 1] + ":" + s[5 * i - 1..])
  {
  }

  lemma AllDelimited(hexstr: string, k: nat, s: string)
    requires Delimited(hexstr, k, s) && |hexstr| <= 4 * k + 4
    ensures s == Colons(hexstr)
  {
    ColonsFromHead(hexstr, k);
  }

  /** Inserts the delimiters one by one at positions that count those already there. */
  method InsertDelimiters(hexstr: string) returns (s: string)
    requires |hexstr| % 4 == 0
    ensures s == Colons(hexstr)
  {
    s := hexstr;
    var i := 1;
    while i <= |hexstr| / 4 - 1
      invariant 1 <= i
      invariant |hexstr| == 0 ==> s == hexstr
      invariant |hexstr| > 0 ==> Delimited(hexstr, i - 1, s)
    {
      HeadGrows(hexstr, i, s);
      var at := 4 * i + i - 1;
      s := s[..at] + ":" + s[at..];
      i := i + 1;
    }
    if |hexstr| > 0 {
      AllDelimited(hexstr, i - 1, s);
    }
  }

  method QuadForm(hexstr: string) returns (r: QuadResult)
    ensures r == QuadFormOf(hexstr)
  {
    if |hexstr| % 4 != 0 {
      return NotPadded;
    }
    var s := InsertDelimiters(hexstr);
    if !HasZeroRun(s) {
      return NilSubstitution;
    }
    s := GsubZeroRuns(s);
    s := GsubLeadingZeros(s);
    r := Quads(s);
  }

  function QuadFormOf(hexstr: string): QuadResult {
    if |hexstr| % 4 != 0 then NotPadded
    else if !HasZeroRun(Colons(hexstr)) then NilSubstitution
    else Quads(GsubLeadingZeros(GsubZeroRuns(Colons(hexstr))))
  }

  // ----- What the two substitutions do to a group -----

  predicate IsGroup(g: string) {
    |g| == 4 && AllHex(g)
  }

  /** What the first substitution leaves of a group. */
  function Shortened(g: string): string {
    if StartsWithRun(g) then "0" else g
  }

  /** A group without needless zeros. */
  function Compressed(g: string): string {
    if StartsWithRun(g) then "0" else g[LeadingZeros(g)..]
  }

  lemma Assoc(a: string, b: string, c: string)
    ensures (a + b) + c == a + (b + c)
  {
  }

  /** No run of zeros reaches across a colon. */
  lemma {:induction false} KeepGroup(g: string, rest: string)
    requires |g| <= 4 && !StartsWithRun(g) && (rest == [] || rest[0] == ':')
    ensures HasZeroRun(g + rest) <==> HasZeroRun(rest)
    ensures GsubZeroRuns(g + rest) == g + GsubZeroRuns(rest)
    decreases |g|
  {
    if g == [] {
      assert g + rest == rest;
    } else {
      var c, h := g[0], g[1..];
      assert g == [c] + h;
      KeepGroup(h, rest);
      Assoc([c], h, rest);
      Assoc([c], h, GsubZeroRuns(rest));
    }
  }

  lemma ShortenGroup(g: string, rest: string)
    requires IsGroup(g) && (rest == [] || rest[0] == ':')
    ensures HasZeroRun(g + rest) <==> StartsWithRun(g) || HasZeroRun(rest)
    ensures GsubZeroRuns(g + rest) == Shortened(g) + GsubZeroRuns(rest)
  {
    if !StartsWithRun(g) {
      KeepGroup(g, rest);
    }
  }

  lemma {:induction false} DigitsPass(g: string, rest: string)
    requires ':' !in g
    ensures GsubLeadingZeros(g + rest) == g + GsubLeadingZeros(rest)
    decreases |g|
  {
    if g == [] {
      assert g + rest == rest;
    } else {
      var c, h := g[0], g[1..];
      assert g == [c] + h;
      DigitsPass(h, rest);
      Assoc([c], h, rest);
      Assoc([c], h, GsubLeadingZeros(rest));
    }
  }

  lemma {:induction false} ZerosBefore(g: string, rest: string)
    requires LeadingZeros(g) < |g| || rest == [] || rest[0] != '0'
    ensures LeadingZeros(g + rest) == LeadingZeros(g)
  {
    if g == [] {
      assert g + rest == rest;
    } else {
      assert (g + rest)[1..] == g[1..] + rest;
      if g[0] == '0' {
        ZerosBefore(g[1..], rest);
      }
    }
  }

  lemma {:induction false} CountZeros(z: string, c: char, tail: string)
    requires c != '0' && forall i :: 0 <= i < |z| ==> z[i] == '0'
    ensures LeadingZeros(z + [c] + tail) == |z|
  {
    var s := z + [c] + tail;
    assert s[|z|] == c;
    assert forall i :: 0 <= i < |z| ==> s[i] == '0';
  }

  lemma SkipZeros(z: string, c: char, tail: string)
    requires z != [] && IsHex(c) && c != '0' && forall i :: 0 <= i < |z| ==> z[i] == '0'
    ensures GsubLeadingZeros(":" + (z + [c] + tail)) == [':', c] + GsubLeadingZeros(tail)
  {
    var s, k := ":" + (z + [c] + tail), |z|;
    assert s[1..] == z + [c] + tail;
    CountZeros(z, c, tail);
    assert s[1 + k] == c && s[k + 2..] == tail;
  }

  /** A group that keeps its digits from the first non-zero one on. */
  lemma StripGroup(g: string, rest: string)
    requires IsGroup(g) && !StartsWithRun(g)
    ensures GsubLeadingZeros(":" + (g + rest)) == ":" + (g[LeadingZeros(g)..] + GsubLeadingZeros(rest))
  {
    var k := LeadingZeros(g);
    if k == 0 {
      PassUnstripped(g, rest);
      assert g[0..] == g;
    } else {
      var z, c, t := g[..k], g[k], g[k + 1..];
      assert g == z + [c] + t;
      assert g[k..] == [c] + t;
      StripZeros(z, c, t, rest);
    }
  }

  lemma PassUnstripped(g: string, rest: string)
    requires AllHex(g) && LeadingZeros(g) == 0 && g != []
    ensures GsubLeadingZeros(":" + (g + rest)) == ":" + (g + GsubLeadingZeros(rest))
  {
    var s := ":" + (g + rest);
    assert s[1..] == g + rest;
    ZerosBefore(g, rest);
    DigitsPass(g, rest);
  }

  lemma StripZeros(z: string, c: char, t: string, rest: string)
    requires z != [] && IsHex(c) && c != '0' && (forall i :: 0 <= i < |z| ==> z[i] == '0') && AllHex(t)
    ensures GsubLeadingZeros(":" + ((z + [c] + t) + rest)) == ":" + (([c] + t) + GsubLeadingZeros(rest))
  {
    Assoc(z + [c], t, rest);
    SkipZeros(z, c, t + rest);
    DigitsPass(t, rest);
    var after := GsubLeadingZeros(rest);
    assert [':', c] == ":" + [c];
    Assoc(":", [c], t + after);
    Assoc([c], t, after);
  }

  // ----- Any number of groups -----

  predicate AllGroups(gs: seq<string>) {
    forall i :: 0 <= i < |gs| ==> IsGroup(gs[i])
  }

  function Concat(gs: seq<string>): string {
    if gs == [] then [] else gs[0] + Concat(gs[1..])
  }

  /** Every group with a colon in front. */
  function Tail(gs: seq<string>): (s: string)
    ensures s == [] || s[0] == ':'
  {
    if gs == [] then [] else ":" + (gs[0] + Tail(gs[1..]))
  }

  function ShortenAll(gs: seq<string>): seq<string> {
    if gs == [] then [] else [Shortened(gs[0])] + ShortenAll(gs[1..])
  }

  function CompressAll(gs: seq<string>): seq<string> {
    if gs == [] then [] else [Compressed(gs[0])] + CompressAll(gs[1..])
  }

  predicate SomeZero(gs: seq<string>) {
    exists i :: 0 <= i < |gs| && StartsWithRun(gs[i])
  }

  lemma {:induction false} ConcatLength(gs: seq<string>)
    requires AllGroups(gs)
    ensures |Concat(gs)| == 4 * |gs|
  {
    if gs != [] {
      ConcatLength(gs[1..]);
    }
  }

  lemma {:induction false} ColonsOfGroups(g: string, gs: seq<string>)
    requires IsGroup(g) && AllGroups(gs)
    ensures Colons(g + Concat(gs)) == g + Tail(gs)
    decreases |gs|
  {
    ConcatLength(gs);
    var s := g + Concat(gs);
    if gs == [] {
      assert s == g;
    } else {
      assert s[..4] == g && s[4..] == gs[0] + Concat(gs[1..]);
      ColonsOfGroups(gs[0], gs[1..]);
      assert g + ":" + (gs[0] + Tail(gs[1..])) == g + (":" + (gs[0] + Tail(gs[1..])));
    }
  }

  lemma SomeZeroSplit(g: string, gs: seq<string>)
    ensures SomeZero([g] + gs) <==> StartsWithRun(g) || SomeZero(gs)
  {
    var all := [g] + gs;
    assert all[0] == g;
    assert forall i :: 0 <= i < |gs| ==> all[i + 1] == gs[i];
    if SomeZero(all) {
      var i :| 0 <= i < |all| && StartsWithRun(all[i]);
      assert i == 0 || StartsWithRun(gs[i - 1]);
    }
    if SomeZero(gs) {
      var i :| 0 <= i < |gs| && StartsWithRun(gs[i]);
      assert StartsWithRun(all[i + 1]);
    }
  }

  lemma ZeroRunsCons(g: string, rest: string)
    requires IsGroup(g) && (rest == [] || rest[0] == ':')
    ensures HasZeroRun(":" + (g + rest)) <==> StartsWithRun(g) || HasZeroRun(rest)
    ensures GsubZeroRuns(":" + (g + rest)) == ":" + (Shortened(g) + GsubZeroRuns(rest))
  {
    ShortenGroup(g, rest);
  }

  lemma {:induction false} ZeroRunsOfTail(gs: seq<string>)
    requires AllGroups(gs)
    ensures HasZeroRun(Tail(gs)) <==> SomeZero(gs)
    ensures GsubZeroRuns(Tail(gs)) == Tail(ShortenAll(gs))
  {
    if gs != [] {
      ZeroRunsOfTail(gs[1..]);
      ZeroRunsCons(gs[0], Tail(gs[1..]));
      SomeZeroSplit(gs[0], gs[1..]);
      assert [gs[0]] + gs[1..] == gs;
    }
  }

  lemma CompressGroup(g: string, rest: string)
    requires IsGroup(g) && (rest == [] || rest[0] == ':')
    ensures GsubLeadingZeros(":" + (Shortened(g) + rest)) == ":" + (Compressed(g) + GsubLeadingZeros(rest))
  {
    if !StartsWithRun(g) {
      StripGroup(g, rest);
    }
  }

  lemma {:induction false} LeadingZerosOfTail(gs: seq<string>)
    requires AllGroups(gs)
    ensures GsubLeadingZeros(Tail(ShortenAll(gs))) == Tail(CompressAll(gs))
  {
    if gs != [] {
      LeadingZerosOfTail(gs[1..]);
      CompressGroup(gs[0], Tail(ShortenAll(gs[1..])));
    }
  }

  lemma GroupsAfterColons(g: string, gs: seq<string>)
    requires IsGroup(g) && AllGroups(gs)
    ensures HasZeroRun(g + Tail(gs)) <==> SomeZero([g] + gs)
    ensures GsubZeroRuns(g + Tail(gs)) == Shortened(g) + Tail(ShortenAll(gs))
  {
    ShortenGroup(g, Tail(gs));
    ZeroRunsOfTail(gs);
    SomeZeroSplit(g, gs);
  }

  lemma GroupsAfterZeroRuns(g: string, gs: seq<string>)
    requires IsGroup(g) && AllGroups(gs)
    ensures GsubLeadingZeros(Shortened(g) + Tail(ShortenAll(gs))) == Shortened(g) + Tail(CompressAll(gs))
  {
    DigitsPass(Shortened(g), Tail(ShortenAll(gs)));
    LeadingZerosOfTail(gs);
  }

  /** Groups of hex digits are printed without needless zeros, except that the first only
      gives up a run of four; and this works exactly if some group is all zeros. */
  lemma QuadFormOfGroups(g: string, gs: seq<string>)
    requires IsGroup(g) && AllGroups(gs)
    ensures QuadFormOf(g + Concat(gs)) ==
            if SomeZero([g] + gs) then Quads(Shortened(g) + Tail(CompressAll(gs))) else NilSubstitution
  {
    LengthOfGroups(g, gs);
    ColonsOfGroups(g, gs);
    GroupsAfterColons(g, gs);
    GroupsAfterZeroRuns(g, gs);
  }

  lemma LengthOfGroups(g: string, gs: seq<string>)
    requires IsGroup(g) && AllGroups(gs)
    ensures |g + Concat(gs)| % 4 == 0
  {
    ConcatLength(gs);
  }

  // ----- Reading the printed form back -----

  function UpToColon(s: string): (k: nat)
    ensures k <= |s|
    ensures forall i :: 0 <= i < k ==> s[i] != ':'
    ensures k < |s| ==> s[k] == ':'
  {
    if s == [] || s[0] == ':' then 0 else 1 + UpToColon(s[1..])
  }

  /** Splits at colons and pads every group to four digits. */
  function Expand(s: string): string
    decreases |s|
  {
    var k := UpToColon(s);
    Padded(s[..k], 4, true) + if k < |s| then Expand(s[k + 1..]) else []
  }

  lemma ColonBehind(g: string, rest: string)
    requires AllHex(g) && (rest == [] || rest[0] == ':')
    ensures UpToColon(g + rest) == |g|
  {
    var s := g + rest;
    assert forall i :: 0 <= i < |g| ==> s[i] == g[i];
    assert rest != [] ==> s[|g|] == ':';
  }

  lemma ExpandGroup(g: string, rest: string)
    requires AllHex(g) && (rest == [] || rest[0] == ':')
    ensures Expand(g + rest) == Padded(g, 4, true) + if rest == [] then [] else Expand(rest[1..])
  {
    var s, k := g + rest, |g|;
    ColonBehind(g, rest);
    assert s[..k] == g;
    if rest != [] {
      assert s[k + 1..] == rest[1..];
    }
  }

  lemma PadRestores(g: string)
    requires IsGroup(g)
    ensures Padded(Compressed(g), 4, true) == g && Padded(Shortened(g), 4, true) == g
    ensures AllHex(Compressed(g)) && AllHex(Shortened(g))
  {
  }

  lemma {:induction false} ExpandTail(p: string, g: string, gs: seq<string>)
    requires AllHex(p) && Padded(p, 4, true) == g && AllGroups(gs)
    ensures Expand(p + Tail(CompressAll(gs))) == g + Concat(gs)
    decreases |gs|
  {
    var rest := Tail(CompressAll(gs));
    ExpandGroup(p, rest);
    if gs != [] {
      var next := Compressed(gs[0]) + Tail(CompressAll(gs[1..]));
      PadRestores(gs[0]);
      ExpandTail(Compressed(gs[0]), gs[0], gs[1..]);
      assert rest[1..] == next;
    }
  }

  /** Whenever the digits are printed at all, they can be read back. */
  lemma ExpandUndoesQuadForm(g: string, gs: seq<string>)
    requires IsGroup(g) && AllGroups(gs) && QuadFormOf(g + Concat(gs)).Quads?
    ensures Expand(QuadFormOf(g + Concat(gs)).s) == g + Concat(gs)
  {
    QuadFormOfGroups(g, gs);
    PadRestores(g);
    ExpandTail(Shortened(g), g, gs);
  }

  /** What is printed of a group: nothing but zeros in front is left out, a group of zeros is one zero,
      and the first group keeps its zeros unless it has no other digits. */
  lemma PrintedGroup(g: string)
    requires IsGroup(g)
    ensures Compressed(g) != [] && Zeros(4 - |Compressed(g)|) + Compressed(g) == g
    ensures Compressed(g) == "0" || Compressed(g)[0] != '0'
    ensures Shortened(g) == if g == "0000" then "0" else g
  {
  }

  /** The sixteen digits of a prefix. */
  lemma FourGroups(a: string, b: string, c: string, d: string)
    requires IsGroup(a) && IsGroup(b) && IsGroup(c) && IsGroup(d)
    ensures QuadFormOf(a + (b + (c + d))) ==
            if "0000" in [a, b, c, d] then
              Quads(Shortened(a) + (":" + (Compressed(b) + (":" + (Compressed(c) + (":" + Compressed(d)))))))
            else NilSubstitution
  {
    var gs := [b, c, d];
    assert gs[1..] == [c, d] && gs[1..][1..] == [d] && gs[1..][1..][1..] == [];
    ConcatThree(b, c, d);
    TailThree(b, c, d);
    QuadFormOfGroups(a, gs);
    assert [a] + gs == [a, b, c, d];
    ZeroAmong([a, b, c, d]);
  }

  lemma ConcatThree(a: string, b: string, c: string)
    ensures Concat([a, b, c]) == a + (b + c)
  {
    assert [a, b, c][1..] == [b, c] && [b, c][1..] == [c] && [c][1..] == [];
    assert Concat([c]) == c + Concat([]) && c + [] == c;
    assert Concat([b, c]) == b + Concat([c]);
  }

  lemma TailThree(b: string, c: string, d: string)
    ensures Tail(CompressAll([b, c, d])) == ":" + (Compressed(b) + (":" + (Compressed(c) + (":" + Compressed(d)))))
  {
    assert [b, c, d][1..] == [c, d] && [c, d][1..] == [d] && [d][1..] == [];
    assert CompressAll([d]) == [Compressed(d)] + CompressAll([]) == [Compressed(d)];
    assert CompressAll([c, d]) == [Compressed(c)] + CompressAll([d]);
    TailOne(Compressed(d));
    assert ([Compressed(c)] + CompressAll([d]))[1..] == CompressAll([d]);
    assert ([Compressed(b)] + CompressAll([c, d]))[1..] == CompressAll([c, d]);
  }

  lemma TailOne(g: string)
    ensures Tail([g]) == ":" + g
  {
    assert [g][1..] == [] && g + [] == g;
  }

  lemma ZeroAmong(gs: seq<string>)
    requires AllGroups(gs)
    ensures SomeZero(gs) <==> "0000" in gs
  {
    forall i | 0 <= i < |gs| ensures StartsWithRun(gs[i]) <==> gs[i] == "0000" {
      assert IsGroup(gs[i]);
    }
    if "0000" in gs {
      var i :| 0 <= i < |gs| && gs[i] == "0000";
      assert StartsWithRun(gs[i]);
    }
  }
}
