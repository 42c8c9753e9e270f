/**
  Framing and decimal text on the serial line of the DarkLight cover calibrator.

  Every command travels as `<` + code + `>`; every reply is a read section whose first
  byte is a marker and whose last byte is the `>` terminator. Numeric arguments and
  numeric replies are decimal digit strings.
 */
module Wire {
  import opened Optional

  const StartMarker: char := '<'
  const Terminator: char := '>'

  /** The outbound frame for a command code. */
  function Frame(code: string): (f: string)
    ensures |f| == |code| + 2
    ensures f[0] == StartMarker && f[|f| - 1] == Terminator
    ensures f[1..|f| - 1] == code
  {
    [StartMarker] + code + [Terminator]
  }

  /** Command codes sent without an argument. */
  const PlainCodes: set<string> :=
    {"O", "C", "H", "F", "B", "P", "L", "R", "A", "a", "Q", "q", "E", "e", "W", "w",
     "GB", "GN", "DB", "DN", "Z"}

  /** A code of the device's command set: a plain code, or `T` (brightness) or `S`
      (stabilize time) followed by decimal digits. */
  predicate KnownCode(c: string) {
    c in PlainCodes || (|c| >= 2 && (c[0] == 'T' || c[0] == 'S') && AllDigits(c[1..]))
  }

  /** The payload handed back to the caller: the read section without its leading
      marker byte and without its final (terminator) byte. */
  function Payload(section: string): (p: string)
    ensures |section| >= 2 ==> section == [section[0]] + p + [section[|section| - 1]]
    ensures |section| < 2 ==> p == []
  {
    if |section| >= 2 then section[1..|section| - 1] else []
  }

  /** Stripping a reply framed like a command gives back exactly its interior. */
  lemma PayloadOfFrame(code: string)
    ensures Payload(Frame(code)) == code
  {
  }

  predicate IsDigit(c: char) {
    '0' <= c <= '9'
  }

  predicate AllDigits(s: string) {
    forall i | 0 <= i < |s| :: IsDigit(s[i])
  }

  function DigitChar(d: nat): (c: char)
    requires d < 10
    ensures IsDigit(c)
  {
    (48 + d) as char
  }

  function DigitValue(c: char): (d: nat)
    requires IsDigit(c)
    ensures d < 10 && DigitChar(d) == c
  {
    c as int - 48
  }

  /** Decimal rendering of a natural number, as `std::to_string` writes it. */
  function Decimal(n: nat): (s: string)
    ensures |s| >= 1 && AllDigits(s)
    ensures (s[0] == '0') <==> n == 0
    decreases n
  {
    if n < 10 then [DigitChar(n)] else Decimal(n / 10) + [DigitChar(n % 10)]
  }

  /** The value of a digit string, most significant digit first. */
  function DigitsValue(s: string): nat
    requires AllDigits(s)
  {
    if |s| == 0 then 0 else DigitsValue(s[..|s| - 1]) * 10 + DigitValue(s[|s| - 1])
  }

  /** Reading a natural number from a reply: a non-empty string of digits. */
  function ParseNat(s: string): (r: Option<nat>)
    ensures r.Some? <==> |s| > 0 && AllDigits(s)
  {
    if |s| > 0 && AllDigits(s) then Some(DigitsValue(s)) else None
  }

  lemma {:induction false} DigitsValueOfDecimal(n: nat)
    ensures DigitsValue(Decimal(n)) == n
    decreases n
  {
    if n >= 10 {
      var s := Decimal(n);
      assert s[..|s| - 1] == Decimal(n / 10);
      DigitsValueOfDecimal(n / 10);
    }
  }

  /** Round trip: the number written into a command is the number read back. */
  lemma ParseDecimal(n: nat)
    ensures ParseNat(Decimal(n)) == Some(n)
  {
    DigitsValueOfDecimal(n);
  }

  /** Distinct numbers are written differently. */
  lemma DecimalInjective(a: nat, b: nat)
    requires Decimal(a) == Decimal(b)
    ensures a == b
  {
    ParseDecimal(a);
    ParseDecimal(b);
  }

  /** A number fits in three characters exactly when it is below 1000. */
  lemma {:induction false} DecimalWidth(n: nat)
    ensures |Decimal(n)| <= 3 <==> n < 1000
    decreases n
  {
    if n >= 10 {
      DecimalWidth(n / 10);
      if n / 10 >= 10 {
        DecimalWidth(n / 100);
      }
    }
  }
}
