/**
 The limiter as the source writes it: two semaphores and a dictionary of tile counts, updated in
 place on entry and exit of a request. Its contracts tie the fields to LimiterProtocol.
 */
module ConcurrencyLimiter {
  import opened LimiterProtocol

  class ConcurrencyLimiter {
    const maximum: nat
    var tileSemaphore: nat
    var querySemaphore: nat
    var tileQueries: map<string, nat>

    ghost predicate Valid()
      reads this
    {
      && maximum >= 1
      && tileSemaphore <= maximum * 8 && querySemaphore <= maximum
      && forall i :: i in tileQueries ==> 0 < tileQueries[i] <= maximum
    }

    /** What is in use: the semaphores count what is free. */
    ghost function InUse(): Permits
      reads this
      requires Valid()
    {
      Permits(maximum * 8 - tileSemaphore, maximum - querySemaphore, tileQueries)
    }

    constructor (maximum: nat)
      requires maximum >= 1
      ensures Valid() && this.maximum == maximum && InUse() == Permits(0, 0, map[])
    {
      this.maximum := maximum;
      tileSemaphore, querySemaphore, tileQueries := maximum * 8, maximum, map[];
    }

    /** Fails fast when the lane is full, and otherwise takes a permit of it. */
    method Enter(lane: Lane) returns (admitted: bool)
      requires Valid()
      modifies this
      ensures Valid()
      ensures admitted == Admits(old(InUse()), maximum, lane)
      ensures InUse() == if admitted then Acquire(old(InUse()), lane) else old(InUse())
    {
      match lane {
      case Tiles(identity) =>
        var held := if identity in tileQueries then tileQueries[identity] else 0;
        if tileSemaphore == 0 || held >= maximum {
          return false;
        }
        tileSemaphore := tileSemaphore - 1;
        tileQueries := tileQueries[identity := held + 1];
      case Queries =>
        if querySemaphore == 0 {
          return false;
        }
        querySemaphore := querySemaphore - 1;
      }
      admitted := true;
    }

    /** Gives the permit back; an identity with no tile left is forgotten. */
    method Exit(lane: Lane)
      requires Valid() && CanRelease(InUse(), lane)
      modifies this
      ensures Valid()
      ensures InUse() == Release(old(InUse()), lane)
    {
      match lane
      case Tiles(identity) =>
        tileSemaphore := tileSemaphore + 1;
        var remaining := tileQueries[identity] - 1;
        if remaining != 0 {
          tileQueries := tileQueries[identity := remaining];
        } else {
          tileQueries := tileQueries - {identity};
        }
      case Queries =>
        querySemaphore := querySemaphore + 1;
    }
  }
}
