/** How a counter value is printed: the nested `unit` helper of `counter_str`.
    `Units::None` prints the value in decimal; `Units::Bytes` reinterprets it as
    an `i64` and hands it to the humanized-size collaborator. */
module Units {
  import opened Base

  datatype Units = NoUnits | Bytes

  predicate IsDigit(c: char)
  {
    '0' <= c <= '9'
  }

  predicate AllDigits(s: string)
  {
    forall i | 0 <= i < |s| :: IsDigit(s[i])
  }

  function DigitChar(d: nat): (c: char)
    requires d < 10
    ensures IsDigit(c)
  {
    (('0' as int) + d) as char
  }

  function DigitValue(c: char): nat
    requires IsDigit(c)
  {
    (c as int) - ('0' as int)
  }

  /** The decimal rendering of `n` (`usize::to_string`): digits only, and no
      leading zero except for zero itself. */
  function Decimal(n: nat): (s: string)
    ensures |s| >= 1 && AllDigits(s)
    ensures s[0] == '0' <==> n == 0
    ensures n < 10 <==> |s| == 1
    decreases n
  {
    if n < 10 then [DigitChar(n)] else Decimal(n / 10) + [DigitChar(n % 10)]
  }

  /** Reads a string of decimal digits back into the number it denotes. */
  function DecimalValue(s: string): nat
    requires AllDigits(s)
  {
    if s == [] then 0 else DecimalValue(s[..|s| - 1]) * 10 + DigitValue(s[|s| - 1])
  }

  /** Reading back what `Decimal` prints gives the number printed. */
  lemma {:induction false} DecimalRoundTrip(n: nat)
    ensures DecimalValue(Decimal(n)) == n
    decreases n
  {
    var s := Decimal(n);
    if n >= 10 {
      DecimalRoundTrip(n / 10);
      assert s[..|s| - 1] == Decimal(n / 10);
    }
  }

  /** `Decimal` is injective: two counters print alike only when they are equal. */
  lemma DecimalInjective(m: nat, n: nat)
    requires Decimal(m) == Decimal(n)
    ensures m == n
  {
    DecimalRoundTrip(m);
    DecimalRoundTrip(n);
  }

  /** The `value as i64` cast: the same 64 bits read as two's complement. */
  function AsI64(value: nat): (r: int)
    requires value < WORD
    ensures -0x8000_0000_0000_0000 <= r < 0x8000_0000_0000_0000
    ensures r % WORD == value
  {
    if value < 0x8000_0000_0000_0000 then value else value - WORD
  }

  /** `unit(value, units)`; `capacity` stands for the humanized-size formatter. */
  function Unit(value: nat, units: Units, capacity: int -> string): (r: string)
    requires value < WORD
    ensures units == NoUnits ==> r == Decimal(value) && AllDigits(r) && DecimalValue(r) == value
    ensures units == Bytes ==> r == capacity(AsI64(value))
  {
    DecimalRoundTrip(value);
    match units
    case NoUnits => Decimal(value)
    case Bytes => capacity(AsI64(value))
  }
}
