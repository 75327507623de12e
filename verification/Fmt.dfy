/** The number formats of fmt.Sprintf that the program uses. */
module Fmt {
  import opened Base

  function Digit(d: nat): (c: char)
    requires d < 10
    ensures '0' <= c <= '9' && c as int - '0' as int == d
  {
    '0' + d as char
  }

  /** %d */
  function Decimal(n: nat): (s: string)
    ensures s != []
    ensures forall i :: 0 <= i < |s| ==> '0' <= s[i] <= '9'
  {
    if n < 10 then [Digit(n)] else Decimal(n / 10) + [Digit(n % 10)]
  }

  function DecimalValue(s: string): int {
    if s == [] then 0 else 10 * DecimalValue(s[..|s| - 1]) + (s[|s| - 1] as int - '0' as int)
  }

  lemma {:induction false} DecimalValueOfDecimal(n: nat)
    ensures DecimalValue(Decimal(n)) == n
  {
    if n < 10 {
      assert Decimal(n)[..0] == [];
    } else {
      DecimalValueOfDecimal(n / 10);
      assert Decimal(n)[..|Decimal(n)| - 1] == Decimal(n / 10);
    }
  }

  /** One digit of %X */
  function HexDigit(d: nat): (c: char)
    requires d < 16
    ensures ' ' < c < 127 as char
  {
    if d < 10 then Digit(d) else 'A' + (d - 10) as char
  }

  function HexValue(c: char): int {
    if '0' <= c <= '9' then c as int - '0' as int else c as int - 'A' as int + 10
  }

  /** %02X of a byte */
  function Hex2(b: Byte): (s: string)
    ensures |s| == 2
    ensures s[0] != ' ' && s[1] != ' '
    ensures 16 * HexValue(s[0]) + HexValue(s[1]) == b
  {
    [HexDigit(b / 16), HexDigit(b % 16)]
  }

  /** hex.EncodeToString: two lower-case digits for every byte */
  function HexEncode(b: seq<Byte>): (s: string)
    ensures |s| == 2 * |b|
    ensures forall i :: 0 <= i < |b| ==> s[2 * i] == "0123456789abcdef"[b[i] / 16] && s[2 * i + 1] == "0123456789abcdef"[b[i] % 16]
  {
    if b == [] then ""
    else [LowerHexDigit(b[0] / 16), LowerHexDigit(b[0] % 16)] + HexEncode(b[1..])
  }

  function LowerHexDigit(d: nat): char
    requires d < 16
  {
    if d < 10 then Digit(d) else 'a' + (d - 10) as char
  }
}
