/** The IPv6 prefixes that Etc/scripts/NedFile.rb generates for the edges of a network,
    one per pair of node numbers: `30f`, the source's hex digits in reverse, the target's. */
module Netmasks {
  import opened HexDigits
  import opened QuadForms

  /** Four ways to fail: the three throws of the source, and the call on nil inside `quadForm`. */
  datatype NetmaskResult = Netmask(s: string) | PrefixTooLong | SuffixTooLong | NotUnique | NilError

  function Prefix(source: nat): string {
    Padded("30f" + Reverse(ToHex(source)), 8, false)
  }

  function Suffix(target: nat): string {
    Padded(ToHex(target), 8, true)
  }

  function Key(source: nat, target: nat): string {
    Prefix(source) + Suffix(target)
  }

  predicate Fits(source: nat, target: nat) {
    |Prefix(source)| <= 8 && |Suffix(target)| <= 8
  }

  // ----- Reading a key back -----

  function SourceOf(key: string): nat
    requires |key| == 16 && AllHex(key)
  {
    FromHex(Reverse(key[3..8]))
  }

  function TargetOf(key: string): nat
    requires |key| == 16 && AllHex(key)
  {
    FromHex(key[8..])
  }

  lemma FitsMeans(source: nat, target: nat)
    ensures |Prefix(source)| <= 8 <==> source < Pow16(5)
    ensures |Suffix(target)| <= 8 <==> target < Pow16(8)
  {
    HexLength(source, 5);
    HexLength(target, 8);
  }

  /** The five digits after `30f`, reversed, are the source's numeral with zeros in front. */
  lemma PrefixDigits(source: nat)
    requires |Prefix(source)| <= 8
    ensures |Prefix(source)| == 8 && AllHex(Prefix(source)) && Prefix(source)[0] == '3'
    ensures Reverse(Prefix(source)[3..8]) == Padded(ToHex(source), 5, true)
  {
  }

  lemma SuffixDigits(target: nat)
    requires |Suffix(target)| <= 8
    ensures |Suffix(target)| == 8 && AllHex(Suffix(target)) && FromHex(Suffix(target)) == target
  {
    PadFrontKeepsValue(ToHex(target), 8);
    FromToHex(target);
  }

  lemma KeyReadsBack(source: nat, target: nat)
    requires Fits(source, target)
    ensures |Key(source, target)| == 16 && AllHex(Key(source, target))
    ensures SourceOf(Key(source, target)) == source && TargetOf(Key(source, target)) == target
  {
    var key := Key(source, target);
    PrefixDigits(source);
    SuffixDigits(target);
    assert key[3..8] == Prefix(source)[3..8] && key[8..] == Suffix(target);
    PadFrontKeepsValue(ToHex(source), 5);
    FromToHex(source);
  }

  lemma PrefixDigit(source: nat, i: nat)
    requires |Prefix(source)| <= 8 && i < 5
    ensures |Prefix(source)| == 8 && Prefix(source)[3 + i] == "0123456789abcdef"[source / Pow16(i) % 16]
  {
    PrefixDigits(source);
    PaddedDigit(source, 5, i, Pow16(i));
    var five := Prefix(source)[3..8];
    assert five[i] == Reverse(five)[4 - i];
  }

  lemma SuffixDigit(target: nat, i: nat)
    requires |Suffix(target)| <= 8 && i < 8
    ensures |Suffix(target)| == 8 && Suffix(target)[7 - i] == "0123456789abcdef"[target / Pow16(i) % 16]
  {
    PaddedDigit(target, 8, i, Pow16(i));
  }

  lemma JoinedAt(p: string, s: string, i: nat)
    requires |p| == |s| == 8
    ensures (p + s)[..3] == p[..3]
    ensures i < 5 ==> (p + s)[3 + i] == p[3 + i]
    ensures i < 8 ==> (p + s)[15 - i] == s[7 - i]
  {
  }

  /** The sixteen digits, one by one: `30f`, the source's five from the lowest, the target's eight
      from the highest. */
  lemma KeyDigits(source: nat, target: nat, i: nat)
    requires Fits(source, target)
    ensures |Key(source, target)| == 16 && Key(source, target)[..3] == "30f"
    ensures i < 5 ==> Key(source, target)[3 + i] == "0123456789abcdef"[source / Pow16(i) % 16]
    ensures i < 8 ==> Key(source, target)[15 - i] == "0123456789abcdef"[target / Pow16(i) % 16]
  {
    PrefixStart(source);
    SuffixDigit(target, 0);
    JoinedAt(Prefix(source), Suffix(target), i);
    if i < 5 {
      PrefixDigit(source, i);
    }
    if i < 8 {
      SuffixDigit(target, i);
    }
  }

  lemma PrefixStart(source: nat)
    requires |Prefix(source)| <= 8
    ensures |Prefix(source)| == 8 && Prefix(source)[..3] == "30f"
  {
  }

  // ----- When the key can be printed -----

  lemma ZeroGroupValue(g: string)
    requires IsGroup(g)
    ensures StartsWithRun(g) <==> FromHex(g) == 0
  {
    ValueZero(g);
    if StartsWithRun(g) {
      assert g == Zeros(4);
    }
  }

  /** The second group holds all but the lowest digit of the source. */
  lemma SecondGroup(source: nat)
    requires |Prefix(source)| == 8 && AllHex(Prefix(source))
    ensures StartsWithRun(Prefix(source)[4..8]) <==> source < 16
  {
    PrefixDigits(source);
    PadFrontKeepsValue(ToHex(source), 5);
    FromToHex(source);
    var w := Padded(ToHex(source), 5, true);
    var g := w[..4];
    ZeroGroupValue(g);
    assert FromHex(w) == FromHex(g) * 16 + DigitValue(w[4]);
    var p := Prefix(source)[4..8];
    assert g == Reverse(p) by {
      assert forall i :: 0 <= i < 5 ==> w[i] == Prefix(source)[3..8][4 - i];
    }
    assert g[0] == p[3] && g[1] == p[2] && g[2] == p[1] && g[3] == p[0];
  }

  /** The last two groups are the high and the low half of the target. */
  lemma LastGroups(target: nat)
    requires |Suffix(target)| == 8 && AllHex(Suffix(target))
    ensures StartsWithRun(Suffix(target)[..4]) <==> target < 65536
    ensures StartsWithRun(Suffix(target)[4..]) <==> target % 65536 == 0
  {
    SuffixDigits(target);
    var s := Suffix(target);
    var high, low := s[..4], s[4..];
    assert s == high + low;
    FromHexSplit(high, low, FromHex(high), Pow16(4), FromHex(low), FromHex(s));
    FromHexBound(low);
    SixtyFiveThousand();
    Halves(FromHex(high), FromHex(low), target);
    ZeroGroupValue(high);
    ZeroGroupValue(low);
  }

  lemma SixtyFiveThousand()
    ensures Pow16(4) == 65536
  {
  }

  lemma Halves(high: nat, low: nat, n: nat)
    requires n == high * 65536 + low && low < 65536
    ensures high == 0 <==> n < 65536
    ensures low == 0 <==> n % 65536 == 0
  {
  }

  /** At least one of the groups has to be all zeros for the substitution to succeed. */
  predicate Printable(source: nat, target: nat) {
    source < 16 || target < 65536 || target % 65536 == 0
  }

  lemma KeyGroups(source: nat, target: nat)
    requires Fits(source, target)
    ensures var p, s := Prefix(source), Suffix(target);
            && |p| == 8 && |s| == 8
            && IsGroup(p[..4]) && AllGroups([p[4..8], s[..4], s[4..]])
            && Key(source, target) == p[..4] + Concat([p[4..8], s[..4], s[4..]])
            && (SomeZero([p[..4]] + [p[4..8], s[..4], s[4..]]) <==> Printable(source, target))
  {
    var p, s := Prefix(source), Suffix(target);
    PrefixDigits(source);
    SuffixDigits(target);
    var gs := [p[4..8], s[..4], s[4..]];
    ConcatThree(p[4..8], s[..4], s[4..]);
    assert p + s == p[..4] + (p[4..8] + (s[..4] + s[4..]));
    SecondGroup(source);
    LastGroups(target);
    assert !StartsWithRun(p[..4]);
    SomeZeroOfFour(p[..4], p[4..8], s[..4], s[4..]);
  }

  lemma SomeZeroOfFour(a: string, b: string, c: string, d: string)
    ensures SomeZero([a] + [b, c, d]) <==> StartsWithRun(a) || StartsWithRun(b) || StartsWithRun(c) || StartsWithRun(d)
  {
    var gs := [a] + [b, c, d];
    assert gs[0] == a && gs[1] == b && gs[2] == c && gs[3] == d;
  }

  /** The printed prefix of a pair, if there is one, determines the pair; and there is one
      exactly if some group of the sixteen digits is zero. */
  lemma PrintedReadsBack(source: nat, target: nat)
    requires Fits(source, target)
    ensures QuadFormOf(Key(source, target)).Quads? <==> Printable(source, target)
    ensures Printable(source, target) ==>
              Expand(QuadFormOf(Key(source, target)).s) == Key(source, target)
    ensures QuadFormOf(Key(source, target)) != NotPadded
  {
    KeyGroups(source, target);
    var p, s := Prefix(source), Suffix(target);
    QuadFormOfGroups(p[..4], [p[4..8], s[..4], s[4..]]);
    if Printable(source, target) {
      ExpandUndoesQuadForm(p[..4], [p[4..8], s[..4], s[4..]]);
    }
  }

  /** Different pairs of node numbers have different keys and different printed prefixes. */
  lemma NetmasksDiffer(s1: nat, t1: nat, s2: nat, t2: nat)
    requires Fits(s1, t1) && Fits(s2, t2) && (s1, t1) != (s2, t2)
    ensures Key(s1, t1) != Key(s2, t2)
    ensures QuadFormOf(Key(s1, t1)).Quads? && QuadFormOf(Key(s2, t2)).Quads? ==>
              QuadFormOf(Key(s1, t1)).s != QuadFormOf(Key(s2, t2)).s
  {
    KeyReadsBack(s1, t1);
    KeyReadsBack(s2, t2);
    PrintedReadsBack(s1, t1);
    PrintedReadsBack(s2, t2);
  }

  // ----- The generator -----

  class NedFile {
    var netmaskUnique: seq<string>
    /** The pairs behind the keys recorded so far. */
    ghost var pairs: seq<(nat, nat)>

    ghost predicate Valid()
      reads this
    {
      && |pairs| == |netmaskUnique|
      && forall i :: 0 <= i < |pairs| ==>
           Fits(pairs[i].0, pairs[i].1) && netmaskUnique[i] == Key(pairs[i].0, pairs[i].1)
    }

    constructor ()
      ensures Valid() && pairs == []
    {
      netmaskUnique, pairs := [], [];
    }

    lemma KeyRecorded(source: nat, target: nat)
      requires Valid() && Fits(source, target)
      ensures Key(source, target) in netmaskUnique <==> (source, target) in pairs
    {
      if Key(source, target) in netmaskUnique {
        var i :| 0 <= i < |netmaskUnique| && netmaskUnique[i] == Key(source, target);
        if pairs[i] != (source, target) {
          NetmasksDiffer(pairs[i].0, pairs[i].1, source, target);
        }
        assert pairs[i] == (source, target);
      }
      if (source, target) in pairs {
        var i :| 0 <= i < |pairs| && pairs[i] == (source, target);
        assert netmaskUnique[i] == Key(source, target);
      }
    }

    /** The throw for a prefix that is not unique fires only for a pair seen before, and its
        message prints the prefix, so that a pair that cannot be printed fails on nil both
        times. It is recorded before that happens. */
    method CreateNetmask(source: nat, target: nat) returns (r: NetmaskResult)
      requires Valid()
      modifies this
      ensures Valid()
      ensures r == PrefixTooLong <==> Pow16(5) <= source
      ensures r == SuffixTooLong <==> source < Pow16(5) && Pow16(8) <= target
      ensures r == NotUnique <==> Fits(source, target) && (source, target) in old(pairs) && Printable(source, target)
      ensures r == NilError <==> Fits(source, target) && !Printable(source, target)
      ensures r.Netmask? ==> Expand(r.s) == Key(source, target)
      ensures pairs == if Fits(source, target) && (source, target) !in old(pairs)
                       then old(pairs) + [(source, target)] else old(pairs)
    {
      FitsMeans(source, target);
      var prefix := "30f" + Reverse(ToHex(source));
      prefix := PadWithZero(prefix, 8, false);
      if |prefix| > 8 {
        return PrefixTooLong;
      }
      var suffix := ToHex(target);
      suffix := PadWithZero(suffix, 8, true);
      if |suffix| > 8 {
        return SuffixTooLong;
      }
      KeyRecorded(source, target);
      PrintedReadsBack(source, target);
      if prefix + suffix in netmaskUnique {
        var shown := QuadForm(prefix + suffix);
        return if shown.Quads? then NotUnique else NilError;
      }
      netmaskUnique, pairs := netmaskUnique + [prefix + suffix], pairs + [(source, target)];
      var quads := QuadForm(prefix + suffix);
      r := if quads.Quads? then Netmask(quads.s) else NilError;
    }
  }

  /** A pair that fails to print: neither number is small and the target's low half is not zero. */
  lemma UnprintablePair()
    ensures Fits(16, 65537) && QuadFormOf(Key(16, 65537)) == NilSubstitution
  {
    FitsMeans(16, 65537);
    assert Pow16(1) == 16 && Pow16(2) == 256 && Pow16(3) == 4096 && Pow16(4) == 65536 && Pow16(5) == 1048576;
    assert Pow16(6) == 16777216 && Pow16(7) == 268435456 && Pow16(8) == 4294967296;
    PrintedReadsBack(16, 65537);
  }
}
