// Numbers as text, as printf writes them, and the way back.
module Text {
  function DigitChar(d: nat): (c: char)
    requires d < 16
  {
    if d < 10 then '0' + d as char else 'a' + (d - 10) as char
  }

  function DigitValue(c: char): (d: nat)
    ensures d <= 16
  {
    if '0' <= c <= '9' then (c - '0') as nat
    else if 'a' <= c <= 'f' then (c - 'a') as nat + 10
    else 16
  }

  lemma DigitBack(d: nat)
    requires d < 16
    ensures DigitValue(DigitChar(d)) == d
  {
  }

  ghost predicate IsBase(base: nat) {
    base == 10 || base == 16
  }

  lemma DivMod(n: nat, base: nat)
    requires IsBase(base)
    ensures n == n / base * base + n % base && 0 <= n % base < base
    ensures 0 <= n / base && (n >= base ==> n / base < n)
  {
    if base == 10 {
      assert n == n / 10 * 10 + n % 10;
    } else {
      assert n == n / 16 * 16 + n % 16;
    }
  }

  // %d, %zu and %x, for a number that is not negative.
  function Digits(n: nat, base: nat): (s: string)
    requires IsBase(base)
    ensures |s| > 0
    ensures forall c | c in s :: DigitValue(c) < base
    decreases n
  {
    DivMod(n, base);
    DigitBack(n % base);
    if n < base then [DigitChar(n)]
    else Digits(n / base, base) + [DigitChar(n % base)]
  }

  // The number that a row of digits stands for.
  function Number(s: string, base: nat): nat
    requires forall c | c in s :: DigitValue(c) < base
  {
    if s == [] then 0
    else Number(s[..|s| - 1], base) * base + DigitValue(s[|s| - 1])
  }

  lemma NumberSnoc(s: string, c: char, base: nat)
    requires DigitValue(c) < base && forall x | x in s :: DigitValue(x) < base
    ensures Number(s + [c], base) == Number(s, base) * base + DigitValue(c)
  {
    assert (s + [c])[..|s|] == s;
  }

  lemma {:induction false} DigitsBack(n: nat, base: nat)
    requires IsBase(base)
    ensures Number(Digits(n, base), base) == n
    decreases n
  {
    DivMod(n, base);
    DigitBack(n % base);
    if n >= base {
      var s, d := Digits(n / base, base), DigitChar(n % base);
      DigitsBack(n / base, base);
      NumberSnoc(s, d, base);
    } else {
      DigitBack(n);
      NumberSnoc([], DigitChar(n), base);
      assert [] + [DigitChar(n)] == Digits(n, base);
    }
  }

  // No digit too many: only zero begins with a zero.
  lemma {:induction false} DigitsLead(n: nat, base: nat)
    requires IsBase(base)
    ensures Digits(n, base)[0] == '0' <==> n == 0
    ensures n < base ==> |Digits(n, base)| == 1
    decreases n
  {
    DivMod(n, base);
    if n >= base {
      DigitsLead(n / base, base);
    }
  }

  function Ten(k: nat): (p: nat)
    ensures p >= 1
  {
    if k == 0 then 1 else 10 * Ten(k - 1)
  }

  lemma {:induction false} DigitsLength(n: nat, k: nat)
    requires k > 0
    ensures |Digits(n, 10)| <= k <==> n < Ten(k)
    decreases k
  {
    DivMod(n, 10);
    if n >= 10 && k > 1 {
      DigitsLength(n / 10, k - 1);
    }
  }

  // %0wd
  function Zeros(k: nat): (s: string)
    ensures |s| == k && forall c | c in s :: c == '0'
  {
    seq(k, i => '0')
  }

  function Padded(n: nat, width: nat): (s: string)
    ensures forall c | c in s :: DigitValue(c) < 10
  {
    var s := Digits(n, 10);
    if |s| < width then Zeros(width - |s|) + s else s
  }

  lemma {:induction false} ZerosAhead(k: nat, s: string, base: nat)
    requires base > 0 && forall c | c in s :: DigitValue(c) < base
    ensures Number(Zeros(k) + s, base) == Number(s, base)
    decreases k, |s|
  {
    var z := Zeros(k) + s;
    if s != [] {
      assert z[..|z| - 1] == Zeros(k) + s[..|s| - 1];
      ZerosAhead(k, s[..|s| - 1], base);
    } else if k > 0 {
      assert z[..k - 1] == Zeros(k - 1) + s;
      ZerosAhead(k - 1, s, base);
    }
  }

  lemma PaddedBack(n: nat, width: nat)
    ensures Number(Padded(n, width), 10) == n
  {
    DigitsBack(n, 10);
    var s := Digits(n, 10);
    if |s| < width {
      ZerosAhead(width - |s|, s, 10);
    }
  }

  // The width is the one asked for, and more only for a number that needs it.
  lemma PaddedForm(n: nat, width: nat)
    requires width > 0
    ensures |Padded(n, width)| >= width && (|Padded(n, width)| == width <==> n < Ten(width))
    ensures |Padded(n, width)| > width ==> Padded(n, width)[0] != '0'
    ensures Number(Padded(n, width), 10) == n
  {
    PaddedBack(n, width);
    DigitsLength(n, width);
    DigitsLead(n, 10);
  }

  // What stands before and behind the first dash.
  lemma AtDash(a: string, b: string, c: string, d: string)
    requires '-' !in a && '-' !in c && a + "-" + b == c + "-" + d
    ensures a == c && b == d
  {
    var s := a + "-" + b;
    assert s[|a|] == '-' && s[|c|] == '-';
    assert forall i | 0 <= i < |a| :: s[i] == a[i] != '-';
    assert forall i | 0 <= i < |c| :: s[i] == c[i] != '-';
    assert s[..|a|] == a && s[..|c|] == c && s[|a| + 1..] == b && s[|c| + 1..] == d;
  }

  lemma NoDash(n: nat, base: nat)
    requires IsBase(base)
    ensures '-' !in Digits(n, base)
  {
    assert DigitValue('-') == 16;
  }

  // The place of the first dash, or the end.
  function FirstDash(s: string): (d: nat)
    ensures d <= |s| && (d < |s| ==> s[d] == '-') && '-' !in s[..d]
  {
    if s == "" || s[0] == '-' then 0 else
      var d := 1 + FirstDash(s[1..]);
      assert s[..d] == [s[0]] + s[1..][..d - 1];
      d
  }

  lemma {:induction false} DashFound(a: string, b: string)
    requires '-' !in a
    ensures FirstDash(a + "-" + b) == |a|
  {
    var s := a + "-" + b;
    if a != "" {
      assert s[0] == a[0] && a[0] in a && s[1..] == a[1..] + "-" + b;
      DashFound(a[1..], b);
    }
  }
}
