/** Small shared datatypes. */
module Types {

  /** A value that may be absent. */
  datatype Option<+T> = None | Some(value: T)

  /** A stream: one venue and one symbol, as the key every layer shares. */
  datatype StreamId = StreamId(venue: string, symbol: string)

  /** A moment observed locally, on both clocks. */
  datatype IngestTime = IngestTime(mono: int, wall: int)

  /** How strong a venue's guarantee is, weakest first. */
  datatype Integrity = OrderOnly | GapDetectable | Verified
  {
    function Rank(): nat {
      match this
      case OrderOnly => 0
      case GapDetectable => 1
      case Verified => 2
    }
  }

  /** A non-empty set has a member. */
  lemma SomeMember<T>(s: set<T>) returns (x: T)
    requires s != {}
    ensures x in s
  {
    x :| x in s;
  }

  function Max(a: int, b: int): int {
    if a >= b then a else b
  }

  function Min(a: int, b: int): int {
    if a <= b then a else b
  }
}
