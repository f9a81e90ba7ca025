/** The single thread that may wait in `linger` until every socket is gone. */
module Lingering {

  /** Not there, asleep on the condition, woken by a signal, or gone. */
  datatype Lingerer = Absent | Asleep | Woken | Returned {

    /** `signal` wakes the lingerer if it sleeps; a signal nobody waits for is lost. */
    function Signalled(): (r: Lingerer) {
      if this == Asleep then Woken else this
    }

    /** The test at the head of the waiting loop: leave, or sleep (again). */
    static function Tested(done: bool): (r: Lingerer) {
      if done then Returned else Asleep
    }
  }
}
