/** Drain batch identifiers: `drain-` followed by a decimal sequence number. */
module DrainIds {
  import opened Wrappers

  const UINT64_LIMIT: nat := 0x1_0000_0000_0000_0000

  predicate IsDigit(c: char) { '0' <= c <= '9' }

  function Digit(d: nat): (c: char)
    requires d < 10
    ensures IsDigit(c) && (c as int - '0' as int) == d
  {
    '0' + d as char
  }

  /** `%d`. */
  function Decimal(n: nat): (s: string)
    ensures s != ""
  {
    if n < 10 then [Digit(n)] else Decimal(n / 10) + [Digit(n % 10)]
  }

  /** The value of a non-empty string of decimal digits, leading zeros allowed. */
  function DigitsValue(s: string): Option<nat> {
    if s == "" || !IsDigit(s[|s| - 1]) then None
    else
      var digit := s[|s| - 1] as int - '0' as int;
      if |s| == 1 then Some(digit)
      else
        match DigitsValue(s[..|s| - 1])
        case None => None
        case Some(high) => Some(10 * high + digit)
  }

  /** `strconv.ParseUint(s, 10, 64)`. */
  function ParseUint64(s: string): Option<nat> {
    match DigitsValue(s)
    case None => None
    case Some(n) => if n < UINT64_LIMIT then Some(n) else None
  }

  const DRAIN_PREFIX := "drain-"

  function DrainId(sequence: nat): string {
    DRAIN_PREFIX + Decimal(sequence)
  }

  /** `parseDrainSequence`: `None` stands for the "invalid drain batch ID" error. */
  function ParseDrainSequence(id: string): Option<nat> {
    if !(DRAIN_PREFIX <= id) then None
    else
      match ParseUint64(id[|DRAIN_PREFIX|..])
      case None => None
      case Some(n) => if n == 0 then None else Some(n)
  }

  lemma {:induction false} DecimalReadsBack(n: nat)
    ensures DigitsValue(Decimal(n)) == Some(n)
  {
    if n >= 10 {
      DecimalReadsBack(n / 10);
      var s := Decimal(n);
      assert s[..|s| - 1] == Decimal(n / 10);
    }
  }

  /** An identifier reads back as its sequence number, except 0 and numbers that need more than 64 bits. */
  lemma DrainIdReadsBack(n: nat)
    ensures ParseDrainSequence(DrainId(n)) == if 0 < n < UINT64_LIMIT then Some(n) else None
  {
    DecimalReadsBack(n);
    assert DrainId(n)[|DRAIN_PREFIX|..] == Decimal(n);
  }
}
