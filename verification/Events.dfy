/** The events analyzers raise, and their severities. */
module Events {
  datatype EventType = Informational | Low | Medium | High {
    function Rank(): nat {
      match this
      case Informational => 0
      case Low => 1
      case Medium => 2
      case High => 3
    }
  }

  lemma SeverityOrder()
    ensures Informational.Rank() < Low.Rank() < Medium.Rank() < High.Rank()
  {
  }

  datatype Event = Event(eventType: EventType, message: string)

  function Max(a: EventType, b: EventType): EventType {
    if a.Rank() < b.Rank() then b else a
  }
}
