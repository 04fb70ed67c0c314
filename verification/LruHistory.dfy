/** What has happened to the keys of a store, as a sequence of events, and what a map that never evicts would hold. */
module LruHistory {
  import opened Wrappers
  import opened LruModel

  datatype Payload = Payload(value: string, flags: string, cas: string)

  function PayloadOf(e: Entry): Payload {
    Payload(e.value, e.flags, e.cas)
  }

  /** Quiet changed no key's contents; Fired is a flush. */
  datatype Event =
    | Quiet
    | Stored(key: Key, payload: Payload)
    | Deleted(key: Key)
    | Fetched(key: Key, payload: Payload)
    | Fired

  predicate About(e: Event, k: Key) {
    (e.Stored? || e.Deleted? || e.Fetched?) && e.key == k
  }

  /** What a plain map holds for k after the events: the latest write since the last delete. */
  function LastWrite(events: seq<Event>, k: Key): Option<Payload> {
    if events == [] then None
    else After(LastWrite(events[..|events| - 1], k), events[|events| - 1], k)
  }

  function After(held: Option<Payload>, e: Event, k: Key): Option<Payload> {
    match e
    case Stored(key, p) => if key == k then Some(p) else held
    case Deleted(key) => if key == k then None else held
    case _ => held
  }

  lemma LastWriteNext(events: seq<Event>, e: Event, k: Key)
    ensures LastWrite(events + [e], k) == After(LastWrite(events, k), e, k)
  {
    assert (events + [e])[..|events|] == events;
  }
}
