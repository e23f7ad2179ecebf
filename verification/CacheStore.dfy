/** A store behind the Cache interface: any store that refines the TTL map, while its backend is reachable. */
module CacheStore {
  import opened Basics
  import opened TtlMap

  datatype Backend = Backend(entries: Entries, up: bool)

  /** A store that is down answers every operation with an error and changes nothing. */
  function BackendStep(b: Backend, op: Op, now: int): (Backend, Answer) {
    if !b.up then (b, Fail(Unavailable))
    else
      var (entries, answer) := Perform(b.entries, op, now);
      (b.(entries := entries), answer)
  }

  class Store {
    var entries: Entries
    var up: bool

    constructor ()
      ensures State() == Backend(map[], true)
    {
      entries, up := map[], true;
    }

    ghost function State(): Backend
      reads this
    {
      Backend(entries, up)
    }

    /** One of Get, Set, Take, Exists, Increment, TTL and Delete. */
    method Call(op: Op, now: int) returns (answer: Answer)
      modifies this
      ensures (State(), answer) == BackendStep(old(State()), op, now)
    {
      if !up {
        return Fail(Unavailable);
      }
      var (after, result) := Perform(entries, op, now);
      entries := after;
      answer := result;
    }
  }
}
