/**
  Status replies of the three subsystems. Each status query answers one decimal digit;
  a reply of any other length, or a character outside the code table, is an invalid
  response (decoded here as `None`).
 */

/** Dust cover: reply to `P`. */
module Cover {
  import opened Optional
  import opened Wire

  datatype State = NotPresent | Closed | Moving | Open | Unknown | Error

  function Code(s: State): (d: nat)
    ensures d < 6
  {
    match s
    case NotPresent => 0
    case Closed => 1
    case Moving => 2
    case Open => 3
    case Unknown => 4
    case Error => 5
  }

  /** The one-character reply that reports `s`. */
  function Reply(s: State): string {
    [DigitChar(Code(s))]
  }

  /** States that end a movement: reaching one clears the moving flag. */
  predicate StopsMotion(s: State) {
    s == Closed || s == Open || s == Unknown || s == Error
  }

  function Decode(payload: string): (r: Option<State>)
    ensures r.Some? ==> payload == Reply(r.value)
    ensures forall s :: payload == Reply(s) ==> r == Some(s)
  {
    if |payload| != 1 then None
    else match payload[0]
      case '0' => Some(NotPresent)
      case '1' => Some(Closed)
      case '2' => Some(Moving)
      case '3' => Some(Open)
      case '4' => Some(Unknown)
      case '5' => Some(Error)
      case _ => None
  }

  /** Digits 6..9, longer replies and the empty reply are all invalid. */
  lemma InvalidReplies(payload: string)
    requires |payload| > 1 || payload == [] || (|payload| == 1 && '6' <= payload[0] <= '9')
    ensures Decode(payload) == None
  {
  }
}

/** Flat-field light panel: reply to `L`. */
module Calibrator {
  import opened Optional
  import opened Wire

  datatype State = NotPresent | Off | NotReady | Ready | Unknown | Error

  function Code(s: State): (d: nat)
    ensures d < 6
  {
    match s
    case NotPresent => 0
    case Off => 1
    case NotReady => 2
    case Ready => 3
    case Unknown => 4
    case Error => 5
  }

  function Reply(s: State): string {
    [DigitChar(Code(s))]
  }

  function Decode(payload: string): (r: Option<State>)
    ensures r.Some? ==> payload == Reply(r.value)
    ensures forall s :: payload == Reply(s) ==> r == Some(s)
  {
    if |payload| != 1 then None
    else match payload[0]
      case '0' => Some(NotPresent)
      case '1' => Some(Off)
      case '2' => Some(NotReady)
      case '3' => Some(Ready)
      case '4' => Some(Unknown)
      case '5' => Some(Error)
      case _ => None
  }

  /** For a reply of at most one character, whether the light switch is shown On:
      every reply except the codes of Not Present and Off (an empty or unknown
      character included, since only codes 0 and 1 turn the switch off). */
  predicate ShowsLit(payload: string)
    requires |payload| <= 1
  {
    payload != Reply(NotPresent) && payload != Reply(Off)
  }

  lemma LitIffNotOffOrAbsent(s: State)
    ensures ShowsLit(Reply(s)) <==> s != NotPresent && s != Off
  {
  }
}

/** Dew heater: reply to `R`. */
module Heater {
  import opened Optional
  import opened Wire

  datatype State = NotPresent | Off | Auto | On | Unknown | Error | Set

  function Code(s: State): (d: nat)
    ensures d < 7
  {
    match s
    case NotPresent => 0
    case Off => 1
    case Auto => 2
    case On => 3
    case Unknown => 4
    case Error => 5
    case Set => 6
  }

  function Reply(s: State): string {
    [DigitChar(Code(s))]
  }

  function Decode(payload: string): (r: Option<State>)
    ensures r.Some? ==> payload == Reply(r.value)
    ensures forall s :: payload == Reply(s) ==> r == Some(s)
  {
    if |payload| != 1 then None
    else match payload[0]
      case '0' => Some(NotPresent)
      case '1' => Some(Off)
      case '2' => Some(Auto)
      case '3' => Some(On)
      case '4' => Some(Unknown)
      case '5' => Some(Error)
      case '6' => Some(Set)
      case _ => None
  }
}

/** Current brightness: reply to `B`. */
module Brightness {
  import opened Optional
  import opened Wire

  /** Longest brightness reply that is read at all. */
  const MaxWidth: nat := 3

  /** A brightness reply is accepted when it is at most three characters, reads as a
      number, and lies in [0, max]. */
  function Decode(payload: string, max: nat): (r: Option<nat>)
    ensures r.Some? ==> r.value <= max && |payload| <= MaxWidth && ParseNat(payload) == Some(r.value)
    ensures r.None? ==> |payload| > MaxWidth || ParseNat(payload).None? || ParseNat(payload).value > max
  {
    if |payload| > MaxWidth then None
    else match ParseNat(payload)
      case None => None
      case Some(v) => if v <= max then Some(v) else None
  }

  /** A device that reports the value it was last sent is read back faithfully for
      every value in [0, max] below 1000. */
  lemma EchoedValueAccepted(v: nat, max: nat)
    requires v <= max && v < 1000
    ensures Decode(Decimal(v), max) == Some(v)
  {
    ParseDecimal(v);
    DecimalWidth(v);
  }
}
