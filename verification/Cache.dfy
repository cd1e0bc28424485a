/** The cache as the source has it: a map of flights under a mutex, one method per critical section. */
module CacheClass {
  import opened Wrappers
  import opened SingleFlight

  class Cache<K(==), R> {
    var flights: seq<Flight<K, R>>
    var inflight: map<K, nat>

    function Here(): Board<K, R>
      reads this
    {
      Board(flights, inflight)
    }

    constructor ()
      ensures Here() == Board([], map[])
    {
      flights, inflight := [], map[];
    }

    /** On a miss: wait on the key's flight, or become the leader of a new one. */
    method Enter(key: K, r: nat) returns (at: Progress<R>)
      modifies this
      ensures (Here(), at) == Join(old(Here()), key, r)
    {
      if key in inflight {
        return Waiting(inflight[key]);
      }
      var f := |flights|;
      flights := flights + [Flight(key, r, None, 0)];
      inflight := inflight[key := f];
      return Filling(f);
    }

    method StoreResult(f: nat, result: R)
      requires f < |flights|
      modifies this`flights
      ensures Here() == SetResult(old(Here()), f, result)
    {
      flights := flights[f := flights[f].(result := Some(result))];
    }

    method Forget(key: K)
      modifies this`inflight
      ensures Here() == Unregister(old(Here()), key)
    {
      inflight := inflight - {key};
    }

    method CloseDone(f: nat)
      requires f < |flights|
      modifies this`flights
      ensures Here() == CloseFlight(old(Here()), f)
    {
      flights := flights[f := flights[f].(closes := flights[f].closes + 1)];
    }

    /**
     The whole request, up to where it waits: a hit touches nothing, a registered
     flight is joined, and otherwise the fill's result is published on a flight closed
     once that leaves no registration behind. If the fill panics (`filled` is None),
     its flight stays registered and open.
     */
    method GetOrFill(key: K, cached: Option<R>, r: nat, filled: Option<R>) returns (at: Progress<R>)
      modifies this
      ensures cached.Some? ==> at == Answered(cached.value, FromCache) && Here() == old(Here())
      ensures cached.None? && key in old(inflight) ==> at == Waiting(old(inflight)[key]) && Here() == old(Here())
      ensures cached.None? && key !in old(inflight) && filled.Some? ==>
        && at == Answered(filled.value, Led(|old(flights)|)) && inflight == old(inflight)
        && flights == old(flights) + [Flight(key, r, filled, 1)]
      ensures cached.None? && key !in old(inflight) && filled.None? ==>
        && at == Panicked(|old(flights)|) && inflight == old(inflight)[key := |old(flights)|]
        && flights == old(flights) + [Flight(key, r, None, 0)]
    {
      if cached.Some? {
        return Answered(cached.value, FromCache);
      }
      at := Enter(key, r);
      if at.Waiting? {
        return at;
      }
      var f := at.f;
      if filled.None? {
        return Panicked(f);
      }
      StoreResult(f, filled.value);
      Forget(key);
      CloseDone(f);
      return Answered(flights[f].result.value, Led(f));
    }
  }
}
