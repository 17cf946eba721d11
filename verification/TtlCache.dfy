/**
 The shared cache of the service: keys with a deadline, read against a wall clock given in
 seconds. Formatted key strings become constructors. An entry past its deadline stays in the
 map; since clocks only move forward nobody can see it again.
 */
module TtlCache {
  import opened Results

  datatype Key =
    | Blacklist(jti: nat)
    | OtpRate(phone: string)
    | OtpVerify(phone: string)
    | Requests(client: string)
    | MinuteRequests(client: string, minute: int)
    | HourRequests(client: string, hour: int)

  datatype Entry = Entry(value: int, deadline: real)

  type Store = map<Key, Entry>

  predicate Live(store: Store, key: Key, now: real) {
    key in store && now < store[key].deadline
  }

  function Lookup(store: Store, key: Key, now: real): Option<int> {
    if Live(store, key, now) then Some(store[key].value) else None
  }

  /** The value of a counter, absent meaning zero. */
  function Count(store: Store, key: Key, now: real): int {
    if Live(store, key, now) then store[key].value else 0
  }

  class Cache {
    var store: Store

    constructor ()
      ensures store == map[]
    {
      store := map[];
    }

    method Get(key: Key, now: real) returns (found: Option<int>)
      ensures found == Lookup(store, key, now)
    {
      if key in store && now < store[key].deadline {
        found := Some(store[key].value);
      } else {
        found := None;
      }
    }

    method Set(key: Key, value: int, ttl: real, now: real)
      modifies this
      ensures store == old(store)[key := Entry(value, now + ttl)]
    {
      store := store[key := Entry(value, now + ttl)];
    }

    /** Adds one and keeps the deadline; `found` is false where the source raises ValueError. */
    method Incr(key: Key, now: real) returns (found: bool)
      modifies this
      ensures found == Live(old(store), key, now)
      ensures store == if found then old(store)[key := old(store)[key].(value := old(store)[key].value + 1)]
                       else old(store)
    {
      found := key in store && now < store[key].deadline;
      if found {
        store := store[key := store[key].(value := store[key].value + 1)];
      }
    }

    method Delete(key: Key)
      modifies this
      ensures store == old(store) - {key}
    {
      store := store - {key};
    }
  }
}
