/** Hexadecimal numerals as Etc/scripts/NedFile.rb writes and pads them. */
module HexDigits {

  predicate IsHex(c: char) {
    '0' <= c <= '9' || 'a' <= c <= 'f'
  }

  predicate AllHex(s: string) {
    forall i :: 0 <= i < |s| ==> IsHex(s[i])
  }

  function Digit(d: nat): (c: char)
    requires d < 16
    ensures IsHex(c) && (c == '0' <==> d == 0) && DigitValue(c) == d
  {
    "0123456789abcdef"[d]
  }

  function DigitValue(c: char): (v: nat)
    requires IsHex(c)
    ensures v < 16 && (v == 0 <==> c == '0')
  {
    if c <= '9' then c as int - '0' as int else c as int - 'a' as int + 10
  }

  /** `"%x" % n`. */
  function ToHex(n: nat): (s: string)
    ensures s != [] && AllHex(s)
  {
    if n < 16 then [Digit(n)] else ToHex(n / 16) + [Digit(n % 16)]
  }

  function FromHex(s: string): nat
    requires AllHex(s)
  {
    if s == [] then 0 else FromHex(s[..|s| - 1]) * 16 + DigitValue(s[|s| - 1])
  }

  function Pow16(k: nat): (p: nat)
    ensures 1 <= p
  {
    if k == 0 then 1 else 16 * Pow16(k - 1)
  }

  function Zeros(k: nat): (s: string)
    ensures |s| == k && AllHex(s) && forall i :: 0 <= i < k ==> s[i] == '0'
  {
    seq(k, _ => '0')
  }

  function Reverse(s: string): (r: string)
    ensures |r| == |s| && forall i :: 0 <= i < |s| ==> r[i] == s[|s| - 1 - i]
  {
    seq(|s|, i requires 0 <= i < |s| => s[|s| - 1 - i])
  }

  /** Zeros are added at the end, or in front, up to the width; a longer string is kept. */
  function Padded(value: string, width: nat, fromFront: bool): string {
    var zeros := Zeros(if |value| < width then width - |value| else 0);
    if fromFront then zeros + value else value + zeros
  }

  lemma ZerosGrow(s: string, k: nat)
    ensures s + Zeros(k) + "0" == s + Zeros(k + 1)
  {
  }

  lemma ReverseZeros(value: string, k: nat)
    ensures Reverse(Reverse(value) + Zeros(k)) == Zeros(k) + value
  {
  }

  method PadWithZero(value: string, width: nat, fromFront: bool) returns (padded: string)
    ensures padded == Padded(value, width, fromFront)
  {
    padded := if fromFront then Reverse(value) else value;
    ghost var start, k := padded, 0;
    while |padded| < width
      invariant padded == start + Zeros(k) && (k == 0 || |start| + k <= width)
    {
      ZerosGrow(start, k);
      padded, k := padded + "0", k + 1;
    }
    if fromFront {
      ReverseZeros(value, k);
      padded := Reverse(padded);
    }
  }

  lemma {:induction false} FromToHex(n: nat)
    ensures FromHex(ToHex(n)) == n
  {
    if n >= 16 {
      FromToHex(n / 16);
      assert ToHex(n)[..|ToHex(n)| - 1] == ToHex(n / 16);
    }
  }

  lemma {:induction false} FromHexBound(s: string)
    requires AllHex(s)
    ensures FromHex(s) < Pow16(|s|)
  {
    if s != [] {
      FromHexBound(s[..|s| - 1]);
    }
  }

  lemma ShiftIn(high: nat, p0: nat, low0: nat, value0: nat, d: nat, p: nat, low: nat, value: nat)
    requires value0 == high * p0 + low0
    requires p == 16 * p0 && low == low0 * 16 + d && value == value0 * 16 + d
    ensures value == high * p + low
  {
  }

  /** The numbers are parameters so that the products stay out of the recursion. */
  lemma {:induction false} FromHexSplit(a: string, b: string, high: nat, p: nat, low: nat, value: nat)
    requires AllHex(a) && AllHex(b) && AllHex(a + b)
    requires high == FromHex(a) && p == Pow16(|b|) && low == FromHex(b) && value == FromHex(a + b)
    ensures value == high * p + low
  {
    if b == [] {
      assert a + b == a;
    } else {
      var n := |b| - 1;
      assert (a + b)[..|a| + n] == a + b[..n];
      assert AllHex((a + b)[..|a| + n]);
      var p0, low0, value0 := Pow16(n), FromHex(b[..n]), FromHex(a + b[..n]);
      FromHexSplit(a, b[..n], high, p0, low0, value0);
      ShiftIn(high, p0, low0, value0, DigitValue(b[n]), p, low, value);
    }
  }

  lemma FromHexConcat(a: string, b: string)
    requires AllHex(a) && AllHex(b)
    ensures AllHex(a + b) && FromHex(a + b) == FromHex(a) * Pow16(|b|) + FromHex(b)
  {
    FromHexSplit(a, b, FromHex(a), Pow16(|b|), FromHex(b), FromHex(a + b));
  }

  lemma {:induction false} FromZeros(k: nat)
    ensures FromHex(Zeros(k)) == 0
  {
    if k > 0 {
      assert Zeros(k)[..k - 1] == Zeros(k - 1);
      FromZeros(k - 1);
    }
  }

  lemma PadFrontKeepsValue(s: string, width: nat)
    requires AllHex(s)
    ensures AllHex(Padded(s, width, true)) && FromHex(Padded(s, width, true)) == FromHex(s)
  {
    var k := if |s| < width then width - |s| else 0;
    FromZeros(k);
    FromHexConcat(Zeros(k), s);
  }

  /** A string of hex digits stands for zero exactly if it consists of zeros. */
  lemma {:induction false} ValueZero(s: string)
    requires AllHex(s)
    ensures FromHex(s) == 0 <==> s == Zeros(|s|)
  {
    if s != [] {
      var n := |s| - 1;
      ValueZero(s[..n]);
      assert Zeros(|s|)[..n] == Zeros(n);
      assert s == s[..n] + [s[n]];
      assert Zeros(|s|) == Zeros(n) + ['0'];
    }
  }

  /** A numeral fits `k` digits exactly if the number is below 16 to the power `k`. */
  lemma {:induction false} HexLength(n: nat, k: nat)
    requires 0 < k
    ensures |ToHex(n)| <= k <==> n < Pow16(k)
  {
    if n < 16 {
      assert 16 <= Pow16(k);
    } else if k == 1 {
      assert Pow16(1) == 16;
    } else {
      HexLength(n / 16, k - 1);
      assert n / 16 < Pow16(k - 1) <==> n < 16 * Pow16(k - 1);
    }
  }

  lemma AtLeastOnce(k: int, d: nat)
    ensures 1 <= k ==> d <= k * d
    ensures k <= -1 ==> k * d + d <= 0
  {
    if 1 <= k {
      assert k * d == (k - 1) * d + d;
    } else if k <= -1 {
      assert k * d == (k + 1) * d - d;
    }
  }

  lemma QuotientIs(n: nat, d: nat, q: nat, r: nat, m: nat, s: nat)
    requires r < d && n == q * d + r && s < d && n == m * d + s
    ensures m == q
  {
    assert (q - m) * d == s - r;
    AtLeastOnce(q - m, d);
  }

  lemma Regrouped(n: nat, h: nat, l: nat, q: nat, p: nat, r: nat, d: nat)
    requires n == 16 * h + l && h == q * p + r && d == 16 * p
    ensures n == q * d + (16 * r + l)
  {
    assert q * d == 16 * (q * p);
  }

  lemma Divided(n: nat, d: nat) returns (q: nat, r: nat)
    requires 0 < d
    ensures q == n / d && r == n % d && n == q * d + r && r < d
  {
    q, r := n / d, n % d;
  }

  /** Dividing by 16 and then by `p` divides by 16 `p`. */
  lemma DivideTwice(n: nat, p: nat, d: nat)
    requires 0 < p && d == 16 * p
    ensures n / 16 / p == n / d
  {
    var h, l := Divided(n, 16);
    var q, r := Divided(h, p);
    var m, s := Divided(n, d);
    Regrouped(n, h, l, q, p, r, d);
    QuotientIs(n, d, q, 16 * r + l, m, s);
  }

  lemma PaddedSnoc(n: nat, width: nat)
    requires 16 <= n && |ToHex(n)| <= width
    ensures 1 < width && |ToHex(n / 16)| <= width - 1
    ensures Padded(ToHex(n), width, true) == Padded(ToHex(n / 16), width - 1, true) + [Digit(n % 16)]
  {
  }

  /** Without the last `i` digits. */
  function Shifted(n: nat, i: nat): nat {
    if i == 0 then n else Shifted(n / 16, i - 1)
  }

  lemma {:induction false} ShiftedDivides(n: nat, i: nat, p: nat)
    requires p == Pow16(i)
    ensures Shifted(n, i) == n / p
  {
    if i > 0 {
      ShiftedDivides(n / 16, i - 1, Pow16(i - 1));
      DivideTwice(n, Pow16(i - 1), p);
    }
  }

  lemma {:induction false} ShiftedOut(i: nat)
    ensures Shifted(0, i) == 0
  {
    if i > 0 {
      ShiftedOut(i - 1);
    }
  }

  lemma {:induction false} ShiftedDigit(n: nat, width: nat, i: nat)
    requires |ToHex(n)| <= width && i < width
    ensures var s := Padded(ToHex(n), width, true);
            |s| == width && s[width - 1 - i] == Digit(Shifted(n, i) % 16)
  {
    if 16 <= n {
      PaddedSnoc(n, width);
      if i > 0 {
        ShiftedDigit(n / 16, width - 1, i - 1);
      }
    } else if i > 0 {
      ShiftedOut(i - 1);
    }
  }

  /** The digits by position: the one `i` places from the right counts `p`, sixteen to the power `i`. */
  lemma PaddedDigit(n: nat, width: nat, i: nat, p: nat)
    requires |ToHex(n)| <= width && i < width && p == Pow16(i)
    ensures var s := Padded(ToHex(n), width, true);
            |s| == width && s[width - 1 - i] == "0123456789abcdef"[n / p % 16]
  {
    ShiftedDigit(n, width, i);
    ShiftedDivides(n, i, p);
  }
}
