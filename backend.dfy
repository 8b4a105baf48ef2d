/** The backend process's view of its two stores, updated in place by the
    request handlers. Each handler is proved to take the stores exactly as
    the matching specification function says. */
module Backend {

  import opened Wrappers
  import opened Stores
  import Visits
  import RedisProbe

  class Server {
    var cacheOpen: bool
    var cache: map<string, Entry>
    var ledger: seq<Row>
    var nextId: nat

    function State(): Stores
      reads this
    {
      Stores(cacheOpen, cache, ledger, nextId)
    }

    predicate Valid()
      reads this
    {
      WellFormed(State())
    }

    /** A process attached to stores as it finds them: the table is created
        only if missing, so a restarted backend sees the earlier rows, the
        sequence where it stopped, and whatever Redis still holds. */
    constructor (init: Stores)
      requires WellFormed(init)
      ensures Valid()
      ensures State() == init
    {
      cacheOpen := init.cacheOpen;
      cache := init.cache;
      ledger := init.ledger;
      nextId := init.nextId;
    }

    /** `redisClient.get(key)`: the stored entry, or none for an absent key. */
    method CacheGet(key: string, fails: bool) returns (ok: bool, value: Option<Entry>)
      ensures ok == !fails
      ensures ok ==> (value.Some? <==> key in cache)
      ensures ok && key in cache ==> value == Some(cache[key])
    {
      ok := !fails;
      if ok {
        value := if key in cache then Some(cache[key]) else None;
      } else {
        value := None;
      }
    }

    /** `redisClient.set(key, value)`: overwrites the key in place. */
    method CacheSet(key: string, value: Entry, fails: bool) returns (ok: bool)
      modifies this`cache
      ensures ok == !fails
      ensures cache == if ok then old(cache)[key := value] else old(cache)
    {
      ok := !fails;
      if ok {
        cache := cache[key := value];
      }
    }

    /** `INSERT INTO visits (visitor_count) VALUES ($1)`: appends a row with
        the next sequence value; a count outside the INTEGER column's range,
        or a sequence past the INTEGER maximum, fails like any other insert. */
    method LedgerInsert(count: int, now: int, fails: bool) returns (ok: bool)
      modifies this`ledger, this`nextId
      ensures ok == (!fails && FitsInteger(count) && IdAvailable(old(nextId)))
      ensures ledger == if ok then old(ledger) + [Row(old(nextId), now, count)] else old(ledger)
      ensures nextId == if ok then old(nextId) + 1 else old(nextId)
    {
      ok := !fails && FitsInteger(count) && IdAvailable(nextId);
      if ok {
        ledger := ledger + [Row(nextId, now, count)];
        nextId := nextId + 1;
      }
    }

    /** `GET /api/visits`. */
    method RecordVisit(f: Faults, now: int) returns (reply: Visits.VisitReply)
      requires Valid()
      modifies this
      ensures Valid()
      ensures (State(), reply) == Visits.Visit(old(State()), f, now)
    {
      Visits.VisitPreservesWellFormed(State(), f, now);
      var count := 0;
      if cacheOpen {
        var got, stored := CacheGet(CountKey, f.getFails);
        if !got {
          return Visits.ProcessError;
        }
        count := if stored.Some? then stored.value.n else 0;
        count := count + 1;
        var written := CacheSet(CountKey, Num(count), f.setFails);
        if !written {
          return Visits.ProcessError;
        }
      }
      var inserted := LedgerInsert(count, now, f.insertFails);
      if !inserted {
        return Visits.ProcessError;
      }
      reply := Visits.Recorded(count, Visits.RecordedMessage, cacheOpen);
    }

    /** `GET /api/redis-test`. */
    method RedisTest(f: Faults) returns (reply: RedisProbe.ProbeReply)
      requires Valid()
      modifies this
      ensures Valid()
      ensures (State(), reply) == RedisProbe.Probe(old(State()), f)
    {
      RedisProbe.ProbeKeepsCounterAndLedger(State(), f);
      if !cacheOpen {
        return RedisProbe.Disconnected(503, RedisProbe.UnavailableMessage);
      }
      var written := CacheSet(TestKey, Text(RedisProbe.Greeting), f.setFails);
      if !written {
        return RedisProbe.ProbeFailed(500);
      }
      var got, value := CacheGet(TestKey, f.getFails);
      if !got {
        return RedisProbe.ProbeFailed(500);
      }
      reply := RedisProbe.Connected(value);
    }
  }
}
