/** The part of Redis the login-attempt store relies on: integer keys that may expire. */
module RedisModel {
  import opened Common

  datatype Entry = Entry(value: int, expiresAt: Option<nat>)

  predicate Visible(e: Entry, now: nat) {
    e.expiresAt.None? || now < e.expiresAt.value
  }

  function Find(db: map<string, Entry>, now: nat, key: string): Option<Entry> {
    if key in db && Visible(db[key], now) then Some(db[key]) else None
  }

  /** One server: a key space and a clock in whole seconds, which others move. Every command is atomic. */
  class Redis {
    var db: map<string, Entry>
    var now: nat

    constructor ()
      ensures db == map[] && now == 0
    {
      db := map[];
      now := 0;
    }

    method Incr(key: string) returns (n: int)
      modifies this`db
      ensures var e := Find(old(db), now, key);
              && n == (if e.Some? then e.value.value + 1 else 1)
              && db == old(db)[key := Entry(n, if e.Some? then e.value.expiresAt else None)]
    {
      var e := Find(db, now, key);
      n := if e.Some? then e.value.value + 1 else 1;
      db := db[key := Entry(n, if e.Some? then e.value.expiresAt else None)];
    }

    method Expire(key: string, seconds: nat)
      modifies this`db
      ensures Find(old(db), now, key).None? ==> db == old(db)
      ensures Find(old(db), now, key).Some? ==>
                db == old(db)[key := old(db)[key].(expiresAt := Some(now + seconds))]
    {
      if Find(db, now, key).Some? {
        db := db[key := db[key].(expiresAt := Some(now + seconds))];
      }
    }

    method Del(key: string)
      modifies this`db
      ensures db == old(db) - {key}
    {
      db := db - {key};
    }

    method SetEx(key: string, value: int, seconds: nat)
      modifies this`db
      ensures db == old(db)[key := Entry(value, Some(now + seconds))]
    {
      db := db[key := Entry(value, Some(now + seconds))];
    }

    /** -2 for a missing key, -1 for a key that never expires. */
    method Ttl(key: string) returns (seconds: int)
      ensures seconds == (match Find(db, now, key)
                          case None => -2
                          case Some(Entry(_, None)) => -1
                          case Some(Entry(_, Some(at))) => at - now)
    {
      var e := Find(db, now, key);
      if e.None? {
        seconds := -2;
      } else if e.value.expiresAt.None? {
        seconds := -1;
      } else {
        seconds := e.value.expiresAt.value - now;
      }
    }
  }
}
