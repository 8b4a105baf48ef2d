/** The two stores behind the backend's visit endpoints, as values: the
    Redis counter cache (its connection flag and its key/value contents) and
    the PostgreSQL `visits` table (its rows and the SERIAL sequence that
    numbers them). */
module Stores {

  /** What the cache holds under one key. The visit handler writes numbers,
      the Redis probe writes text. */
  datatype Entry = Num(n: int) | Text(s: string)

  /** One row of the `visits` table: SERIAL id, TIMESTAMP, INTEGER count.
      Timestamps are opaque, totally ordered values supplied by the ledger. */
  datatype Row = Row(id: nat, timestamp: int, visitorCount: int)

  /** Everything one request can observe or change. */
  datatype Stores = Stores(
    cacheOpen: bool,               // `redisClient && redisClient.isOpen`
    cache: map<string, Entry>,     // the Redis keyspace
    ledger: seq<Row>,              // the `visits` table, in insertion order
    nextId: nat                    // the next value of the SERIAL sequence
  )

  /** Which store call throws during one request. A call that is never
      reached ignores its flag. */
  datatype Faults = Faults(getFails: bool, setFails: bool, insertFails: bool)

  const NoFaults := Faults(false, false, false)

  /** The cache key holding the running visit count. */
  const CountKey := "visitor_count"

  /** The cache key the Redis probe writes. */
  const TestKey := "test"

  /** A SERIAL sequence hands out 1 first. */
  const FirstId := 1

  /** Bounds of a PostgreSQL INTEGER column (32-bit signed). */
  const MinInteger := -0x8000_0000
  const MaxInteger := 0x7FFF_FFFF

  predicate FitsInteger(x: int) {
    MinInteger <= x <= MaxInteger
  }

  /** The SERIAL sequence (an INTEGER sequence) still has a value to hand
      out: it stops at the INTEGER maximum, after which every insert fails. */
  predicate IdAvailable(nextId: nat) {
    nextId <= MaxInteger
  }

  /** The counter key, when present, holds a number (so `parseInt` reads it). */
  predicate CountReadable(cache: map<string, Entry>) {
    CountKey in cache ==> cache[CountKey].Num?
  }

  /** The count the handler reads: the stored number, absent reading as 0. */
  function StoredCount(cache: map<string, Entry>): int
    requires CountReadable(cache)
  {
    if CountKey in cache then cache[CountKey].n else 0
  }

  /** Ids are handed out in increasing order. */
  predicate IdsIncreasing(ledger: seq<Row>) {
    forall i, j :: 0 <= i < j < |ledger| ==> ledger[i].id < ledger[j].id
  }

  /** The invariant every request keeps: ids come from the sequence, in
      order, and are below its next value, which is at most one past the
      INTEGER maximum; every stored count fits the INTEGER column; the
      counter key is readable. */
  predicate WellFormed(s: Stores) {
    && FirstId <= s.nextId <= MaxInteger + 1
    && (forall i :: 0 <= i < |s.ledger| ==> FirstId <= s.ledger[i].id < s.nextId)
    && (forall i :: 0 <= i < |s.ledger| ==> FitsInteger(s.ledger[i].visitorCount))
    && IdsIncreasing(s.ledger)
    && CountReadable(s.cache)
  }
}
