/** Numbers and bytes as text. */
module Text {
  import opened Bytes
  import opened Primitives

  function Digit(d: nat): (c: char)
    requires d < 10
    ensures '0' <= c <= '9'
  {
    ('0' as int + d) as char
  }

  function Decimal(n: nat): (s: string)
    ensures |s| > 0 && forall i :: 0 <= i < |s| ==> '0' <= s[i] <= '9'
  {
    if n < 10 then [Digit(n)] else Decimal(n / 10) + [Digit(n % 10)]
  }

  lemma {:induction false} DecimalInjective(m: nat, n: nat)
    requires Decimal(m) == Decimal(n)
    ensures m == n
  {
    var s, t := Decimal(m), Decimal(n);
    assert s[|s| - 1] == t[|t| - 1];
    assert m >= 10 ==> |Decimal(m / 10)| > 0 && s[..|s| - 1] == Decimal(m / 10);
    assert n >= 10 ==> |Decimal(n / 10)| > 0 && t[..|t| - 1] == Decimal(n / 10);
    if m >= 10 && n >= 10 { DecimalInjective(m / 10, n / 10); }
  }

  /** The number that decimal digits stand for. */
  function FromDecimal(s: string): nat
    requires forall i :: 0 <= i < |s| ==> '0' <= s[i] <= '9'
  {
    if s == "" then 0 else 10 * FromDecimal(s[..|s| - 1]) + (s[|s| - 1] as int - '0' as int)
  }

  lemma {:induction false} DecimalReads(n: nat)
    ensures FromDecimal(Decimal(n)) == n
  {
    if n >= 10 {
      DecimalReads(n / 10);
      assert Decimal(n)[..|Decimal(n)| - 1] == Decimal(n / 10);
    }
  }

  function HexDigit(d: nat): char
    requires d < 16
  {
    if d < 10 then Digit(d) else ('a' as int + (d - 10)) as char
  }

  function Hex(b: Bytes): string {
    if b == [] then "" else [HexDigit(b[0] as int / 16), HexDigit(b[0] as int % 16)] + Hex(b[1..])
  }

  /** Two digits for each byte, the higher half first. */
  lemma {:induction false} HexDigits(b: Bytes, i: nat)
    requires i < |b|
    ensures |Hex(b)| == 2 * |b|
    ensures Hex(b)[2 * i] == "0123456789abcdef"[b[i] as int / 16]
    ensures Hex(b)[2 * i + 1] == "0123456789abcdef"[b[i] as int % 16]
  {
    if i > 0 {
      HexDigits(b[1..], i - 1);
    } else if |b| > 1 {
      HexDigits(b[1..], 0);
    }
  }

  lemma AsciiInjective(s: string, t: string)
    requires Ascii(s) == Ascii(t)
    requires (forall i :: 0 <= i < |s| ==> s[i] as int < 256) && (forall i :: 0 <= i < |t| ==> t[i] as int < 256)
    ensures s == t
  {
    assert |s| == |Ascii(s)| == |Ascii(t)| == |t|;
    forall i | 0 <= i < |s|
      ensures s[i] == t[i]
    {
      assert Ascii(s)[i] as int == s[i] as int % 256 && Ascii(t)[i] as int == t[i] as int % 256;
    }
  }

  lemma AsciiOfSum(s: string, t: string)
    ensures Ascii(s + t) == Ascii(s) + Ascii(t)
  {
  }

  /** Decimal numbers after one prefix stay apart. */
  lemma NumberedLabelInjective(prefix: string, m: nat, n: nat)
    requires Ascii(prefix + Decimal(m)) == Ascii(prefix + Decimal(n))
    ensures m == n
  {
    AsciiOfSum(prefix, Decimal(m));
    AsciiOfSum(prefix, Decimal(n));
    SplitEqual(Ascii(prefix), Ascii(Decimal(m)), Ascii(prefix), Ascii(Decimal(n)));
    AsciiInjective(Decimal(m), Decimal(n));
    DecimalInjective(m, n);
  }
}
