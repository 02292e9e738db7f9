/** Hexadecimal digits, as Java's %02X and Character.digit and Python's bytes.hex see them. */
module Hex {
  import opened Prelude

  const LOWER: string := "0123456789abcdef"
  const UPPER: string := "0123456789ABCDEF"

  type Nibble = n: int | 0 <= n < 16

  /** What a character is worth in radix 16, ASCII only. */
  function DigitValue(c: char): Option<Nibble> {
    if '0' <= c <= '9' then Some(c as int - '0' as int)
    else if 'a' <= c <= 'f' then Some(c as int - 'a' as int + 10)
    else if 'A' <= c <= 'F' then Some(c as int - 'A' as int + 10)
    else None
  }

  predicate IsTable(digits: string) {
    |digits| == 16 && forall v :: 0 <= v < 16 ==> DigitValue(digits[v]) == Some(v)
  }

  lemma TablesAreTables()
    ensures IsTable(LOWER) && IsTable(UPPER)
  {
    forall v | 0 <= v < 16
      ensures DigitValue(LOWER[v]) == Some(v) && DigitValue(UPPER[v]) == Some(v)
    {
      Entry(v);
    }
  }

  lemma Entry(v: nat)
    requires v < 16
    ensures DigitValue(LOWER[v]) == Some(v) && DigitValue(UPPER[v]) == Some(v)
  {
    if v < 10 {
      assert LOWER[v] as int == '0' as int + v && UPPER[v] as int == '0' as int + v;
    } else {
      assert LOWER[v] as int == 'a' as int + v - 10 && UPPER[v] as int == 'A' as int + v - 10;
    }
  }

  function TwoDigits(digits: string, b: byte): string
    requires |digits| == 16
  {
    [digits[b / 16], digits[b % 16]]
  }

  /** Two digits determine their byte, in either case. */
  lemma TwoDigitsRoundTrip(digits: string, b: byte)
    requires IsTable(digits)
    ensures var t := TwoDigits(digits, b);
      && DigitValue(t[0]).Some? && DigitValue(t[1]).Some?
      && DigitValue(t[0]).value * 16 + DigitValue(t[1]).value == b
  {
  }

  lemma TwoDigitsInjective(digits: string, a: byte, b: byte)
    requires IsTable(digits)
    ensures TwoDigits(digits, a) == TwoDigits(digits, b) <==> a == b
  {
    TwoDigitsRoundTrip(digits, a);
    TwoDigitsRoundTrip(digits, b);
  }
}
