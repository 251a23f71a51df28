/** Guid.ToString(): the canonical "D" format, 32 lower-case hexadecimal digits in
    groups of 8-4-4-4-12 separated by hyphens. */
module GuidText {
  import opened Domain

  function Pow16(n: nat): (r: nat)
    ensures r >= 1
  {
    if n == 0 then 1 else 16 * Pow16(n - 1)
  }

  const HexAlphabet: string := "0123456789abcdef"

  function HexChar(d: nat): char
    requires d < 16
  {
    HexAlphabet[d]
  }

  function HexValue(c: char): nat {
    if '0' <= c <= '9' then c as int - '0' as int
    else if 'a' <= c <= 'f' then c as int - 'a' as int + 10
    else 0
  }

  /** The low `width` hexadecimal digits of n, most significant first. */
  function Digits(n: nat, width: nat): (s: string)
    ensures |s| == width
  {
    if width == 0 then [] else Digits(n / 16, width - 1) + [HexChar(n % 16)]
  }

  /** The number a string of hexadecimal digits spells. */
  function Value(s: string): nat {
    if |s| == 0 then 0 else 16 * Value(s[..|s| - 1]) + HexValue(s[|s| - 1])
  }

  lemma HexCharValue(d: nat)
    requires d < 16
    ensures HexValue(HexChar(d)) == d
  {
  }

  lemma {:induction false} ValueOfDigits(n: nat, width: nat)
    requires n < Pow16(width)
    ensures Value(Digits(n, width)) == n
  {
    if width > 0 {
      var s := Digits(n, width);
      assert s[..width - 1] == Digits(n / 16, width - 1);
      assert s[width - 1] == HexChar(n % 16);
      ValueOfDigits(n / 16, width - 1);
      HexCharValue(n % 16);
    }
  }

  lemma GuidBoundIsPow16()
    ensures Pow16(32) == GuidBound
  {
    assert Pow16(8) == 0x1_0000_0000;
    assert Pow16(16) == Pow16(8) * Pow16(8) by { Pow16Add(8, 8); }
    assert Pow16(32) == Pow16(16) * Pow16(16) by { Pow16Add(16, 16); }
  }

  lemma {:induction false} Pow16Add(a: nat, b: nat)
    ensures Pow16(a + b) == Pow16(a) * Pow16(b)
  {
    if a > 0 {
      Pow16Add(a - 1, b);
    }
  }

  /** The canonical text of a Guid. */
  function Text(g: Guid): (t: string)
    ensures |t| == 36
    ensures t[8] == t[13] == t[18] == t[23] == '-'
  {
    var d := Digits(g, 32);
    d[..8] + "-" + d[8..12] + "-" + d[12..16] + "-" + d[16..20] + "-" + d[20..]
  }

  /** The 32 digits of a canonical text, hyphens removed. */
  function Strip(t: string): string
    requires |t| == 36
  {
    t[..8] + t[9..13] + t[14..18] + t[19..23] + t[24..]
  }

  /** Two different identifiers never print the same. */
  lemma TextInjective(a: Guid, b: Guid)
    requires Text(a) == Text(b)
    ensures a == b
  {
    StripText(a);
    StripText(b);
    GuidBoundIsPow16();
    ValueOfDigits(a, 32);
    ValueOfDigits(b, 32);
  }

  lemma StripText(g: Guid)
    ensures Strip(Text(g)) == Digits(g, 32)
  {
    var d := Digits(g, 32);
    var t := Text(g);
    assert t[..8] == d[..8];
    assert t[9..13] == d[8..12];
    assert t[14..18] == d[12..16];
    assert t[19..23] == d[16..20];
    assert t[24..] == d[20..];
    assert d == d[..8] + d[8..12] + d[12..16] + d[16..20] + d[20..];
  }
}
