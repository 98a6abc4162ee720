/** The vocabulary every component shares: machine integers, attribute values
    and the span lifecycle events that travel from producers to sinks. */
module Events {

  datatype Option<+T> = None | Some(value: T)

  const TWO_63: int := 0x8000_0000_0000_0000
  const TWO_64: int := 0x1_0000_0000_0000_0000

  type int64 = x: int | -TWO_63 <= x < TWO_63
  type uint64 = x: int | 0 <= x < TWO_64

  /** Span, trace and name-row identifiers: counted up from 1, so 0 is free to mean
      "none". */
  type ID = nat

  /** Two's-complement reading of an unbounded integer: what 64-bit addition,
      subtraction and conversion leave in an int64. */
  function Wrap64(x: int): (r: int64)
    ensures (r - x) % TWO_64 == 0
    ensures -TWO_63 <= x < TWO_63 ==> r == x
  {
    (x + TWO_63) % TWO_64 - TWO_63
  }

  /** Go's integer division: toward zero. */
  function Quo(a: int, b: int): int
    requires b > 0
  {
    if a >= 0 then a / b else -(-a / b)
  }

  function Abs(x: int): nat {
    if x < 0 then -x else x
  }

  /** A float64: a number or one of the values IEEE 754 sets aside. */
  datatype Float = Finite(r: real) | NaN | PosInf | NegInf

  /** A resolved attribute value. `Any` carries the text its value formats to. */
  datatype Value =
    | Text(text: string)
    | Int64(i: int64)
    | Uint64(u: uint64)
    | Float64(f: Float)
    | Bool(b: bool)
    | Duration(ns: int64)
    | Time(unixNS: int64)
    | Any(formatted: string)
    | Group(members: seq<Attr>)

  datatype Attr = Attr(key: string, value: Value)

  datatype Status = OK | Error | Canceled

  /** The numbers frozen into trace files. */
  function StatusCode(s: Status): (code: int) {
    match s
    case OK => 0
    case Error => 1
    case Canceled => 2
  }

  /** One lifecycle occurrence. `Other` stands for event kinds added later,
      which every sink must skip. A zero `parentID` marks a trace root. */
  datatype Event =
    | Start(spanID: ID, traceID: ID, parentID: ID, name: string, startNS: int64, attrs: seq<Attr>)
    | Attrs(spanID: ID, traceID: ID, attrs: seq<Attr>)
    | End(spanID: ID, traceID: ID, parentID: ID, name: string, startNS: int64,
          endNS: int64, status: Status, error: string)
    | Other(spanID: ID)

  /** How a call into user-supplied sink code can come back. */
  datatype Outcome = Ok | Err(error: string) | Panic

  /** One call the writer made on its sink, with how it came back. */
  datatype SinkCall =
    | WriteBatch(events: seq<Event>, outcome: Outcome)
    | Flush(outcome: Outcome)
    | Close(outcome: Outcome)

  /** Within each span a Start comes before everything else and nothing comes
      after an End; in particular there is at most one of either. */
  ghost predicate StrictOrder(es: seq<Event>) {
    forall i, j :: 0 <= i < j < |es| && es[i].spanID == es[j].spanID ==> !es[j].Start? && !es[i].End?
  }
}
