/** Numbers and addresses as text, and when concatenated text can be taken apart again. */
module Text {
  import opened FlowTypes

  predicate IsDigit(c: char) {
    '0' <= c <= '9'
  }

  predicate AllDigits(s: string) {
    forall i :: 0 <= i < |s| ==> IsDigit(s[i])
  }

  function Digit(d: nat): (c: char)
    requires d < 10
    ensures IsDigit(c)
  {
    "0123456789"[d]
  }

  /** A number in decimal. */
  function Decimal(n: nat): (s: string)
    ensures s != [] && AllDigits(s)
  {
    if n < 10 then [Digit(n)] else Decimal(n / 10) + [Digit(n % 10)]
  }

  lemma {:induction false} DecimalInjective(m: nat, n: nat)
    requires Decimal(m) == Decimal(n)
    ensures m == n
  {
    var a, b := Decimal(m), Decimal(n);
    assert a[|a| - 1] == Digit(m % 10) && b[|b| - 1] == Digit(n % 10);
    if m >= 10 && n >= 10 {
      assert a[..|a| - 1] == Decimal(m / 10) && b[..|b| - 1] == Decimal(n / 10);
      DecimalInjective(m / 10, n / 10);
    }
  }

  /** What a decimal text denotes. */
  function ValueOf(s: string): int {
    if s == [] then 0 else ValueOf(s[..|s| - 1]) * 10 + (s[|s| - 1] as int - '0' as int)
  }

  lemma {:induction false} DecimalDenotes(n: nat)
    ensures ValueOf(Decimal(n)) == n
  {
    var s := Decimal(n);
    if n >= 10 {
      DecimalDenotes(n / 10);
      assert s[..|s| - 1] == Decimal(n / 10);
    }
    DigitDenotes(n % 10);
  }

  lemma DigitDenotes(d: nat)
    requires d < 10
    ensures Digit(d) as int - '0' as int == d
  {
  }

  /** What Java's String.valueOf prints of an int. */
  function IntText(n: int): string {
    if n < 0 then "-" + Decimal(-n) else Decimal(n)
  }

  /** The first separator of a text is where two readings of it agree. */
  lemma SplitAt(a: string, b: string, c: string, d: string, sep: char)
    requires a + [sep] + b == c + [sep] + d && sep !in a && sep !in c
    ensures a == c && b == d
  {
    var s, t := a + [sep] + b, c + [sep] + d;
    assert s[|a|] == sep && t[|c|] == sep;
    assert s[..|a|] == a && t[..|c|] == c;
    assert s[|a| + 1..] == b && t[|c| + 1..] == d;
  }

  // ----- addresses

  /** The four bytes of an address, the first one first. */
  function Octet(ip: uint32, k: nat): (r: nat)
    requires k < 4
    ensures r < 256
  {
    match k
    case 0 => ip / 0x100 / 0x100 / 0x100
    case 1 => ip / 0x100 / 0x100 % 0x100
    case 2 => ip / 0x100 % 0x100
    case 3 => ip % 0x100
  }

  lemma OctetsDecide(a: uint32, b: uint32)
    requires forall k :: 0 <= k < 4 ==> Octet(a, k) == Octet(b, k)
    ensures a == b
  {
    assert Octet(a, 0) == Octet(b, 0) && Octet(a, 1) == Octet(b, 1);
    assert Octet(a, 2) == Octet(b, 2) && Octet(a, 3) == Octet(b, 3);
    OctetsAdd(a);
    OctetsAdd(b);
  }

  lemma OctetsAdd(a: uint32)
    ensures a == Octet(a, 0) * 0x100_0000 + Octet(a, 1) * 0x1_0000 + Octet(a, 2) * 0x100 + Octet(a, 3)
  {
  }

  /** inet_ntop. */
  function Dotted(ip: uint32): string {
    Decimal(Octet(ip, 0)) + "." + (Decimal(Octet(ip, 1)) + "." + (Decimal(Octet(ip, 2)) + "." + Decimal(Octet(ip, 3))))
  }

  /** For example. */
  lemma OneAddress()
    ensures Dotted(0xC0A8_0001) == "192.168.0.1"
  {
    var ip: uint32 := 0xC0A8_0001;
    assert Octet(ip, 0) == 192 && Octet(ip, 1) == 168 && Octet(ip, 2) == 0 && Octet(ip, 3) == 1;
    assert Decimal(192) == "192" && Decimal(168) == "168";
  }

  lemma NoSeparator(n: nat, sep: char)
    requires !IsDigit(sep)
    ensures sep !in Decimal(n)
  {
  }

  lemma DottedHas(ip: uint32, c: char)
    requires c in Dotted(ip)
    ensures IsDigit(c) || c == '.'
  {
    forall k | 0 <= k < 4
      ensures c in Decimal(Octet(ip, k)) ==> IsDigit(c)
    {
      if !IsDigit(c) {
        NoSeparator(Octet(ip, k), c);
      }
    }
  }

  lemma DottedInjective(a: uint32, b: uint32)
    requires Dotted(a) == Dotted(b)
    ensures a == b
  {
    forall k | 0 <= k < 4
      ensures '.' !in Decimal(Octet(a, k)) && '.' !in Decimal(Octet(b, k))
    {
      NoSeparator(Octet(a, k), '.');
      NoSeparator(Octet(b, k), '.');
    }
    SplitDot(Octet(a, 0), Octet(b, 0), Decimal(Octet(a, 1)) + "." + (Decimal(Octet(a, 2)) + "." + Decimal(Octet(a, 3))),
             Decimal(Octet(b, 1)) + "." + (Decimal(Octet(b, 2)) + "." + Decimal(Octet(b, 3))));
    SplitDot(Octet(a, 1), Octet(b, 1), Decimal(Octet(a, 2)) + "." + Decimal(Octet(a, 3)),
             Decimal(Octet(b, 2)) + "." + Decimal(Octet(b, 3)));
    SplitDot(Octet(a, 2), Octet(b, 2), Decimal(Octet(a, 3)), Decimal(Octet(b, 3)));
    DecimalInjective(Octet(a, 3), Octet(b, 3));
    OctetsDecide(a, b);
  }

  /** A number and a dot, in front of anything. */
  lemma SplitDot(m: nat, n: nat, b: string, d: string)
    requires Decimal(m) + "." + b == Decimal(n) + "." + d
    ensures m == n && b == d
  {
    NoSeparator(m, '.');
    NoSeparator(n, '.');
    SplitAt(Decimal(m), b, Decimal(n), d, '.');
    DecimalInjective(m, n);
  }
}
