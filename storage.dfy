/**
 * The state the route handlers share: the MySQL database behind `pool` and the Redis
 * key space behind `redisClient`. Redis is a map from key to value and time-to-live;
 * `DEL` removes exactly the key it is given (no pattern matching). The time-to-live is
 * recorded but expiry is not modelled: an entry stays until it is deleted.
 */
module Storage {
  import opened Db
  import opened Views

  datatype Entry = Entry(value: Json, ttl: nat)

  class Store {
    var db: Tables
    var cache: map<string, Entry>
    /** `CACHE_TTL`: from the environment, 3600 seconds when unset. */
    const cacheTtl: nat

    ghost predicate Valid()
      reads this
    {
      WellFormed(db) && cacheTtl > 0
    }

    constructor (initial: Tables, ttl: nat)
      requires WellFormed(initial) && ttl > 0
      ensures Valid()
      ensures db == initial && cache == map[] && cacheTtl == ttl
    {
      db := initial;
      cache := map[];
      cacheTtl := ttl;
    }

    /** `redisClient.get(key)`: the stored value, or nothing. */
    method Get(key: string) returns (v: Option<Json>)
      ensures key in cache ==> v == Some(cache[key].value)
      ensures key !in cache ==> v == None
    {
      v := if key in cache then Some(cache[key].value) else None;
    }

    /** `redisClient.setEx(key, ttl, value)`. */
    method SetEx(key: string, ttl: nat, value: Json)
      modifies this`cache
      ensures cache == old(cache)[key := Entry(value, ttl)]
    {
      cache := cache[key := Entry(value, ttl)];
    }

    /** `redisClient.del(key)`: removes that literal key, if present. */
    method Del(key: string)
      modifies this`cache
      ensures cache == old(cache) - {key}
      ensures forall k :: k in old(cache) && k != key ==> k in cache && cache[k] == old(cache)[k]
    {
      cache := cache - {key};
    }
  }
}
