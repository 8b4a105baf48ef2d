/** `GET /api/visits`: read the counter from the cache (when connected), add
    one, write it back, then insert a ledger row with that count. Any store
    call that throws ends the request with a single 500 reply. */
module Visits {

  import opened Stores

  const RecordedMessage := "Visit recorded successfully"
  const FailureMessage := "Failed to process visit"

  datatype VisitReply =
    | Recorded(visits: int, message: string, cached: bool)   // 200
    | Failed(status: nat, error: string)                     // caught error

  /** The one error reply of the handler. */
  const ProcessError := Failed(500, FailureMessage)

  /** The ledger insert and the reply built after it. The INTEGER column
      rejects a count outside its range, and an exhausted SERIAL sequence
      has no id to give; both throw like any other failed insert. */
  function InsertAndReply(s: Stores, count: int, insertFails: bool, now: int): (Stores, VisitReply)
  {
    if insertFails || !FitsInteger(count) || !IdAvailable(s.nextId) then (s, ProcessError)
    else
      (s.(ledger := s.ledger + [Row(s.nextId, now, count)], nextId := s.nextId + 1),
       Recorded(count, RecordedMessage, s.cacheOpen))
  }

  /** One request, from the stores before it to the stores after it and the
      reply. The count starts at 0 and is only replaced when the cache is
      connected; the cache write comes before the ledger insert. */
  function Visit(s: Stores, f: Faults, now: int): (r: (Stores, VisitReply))
    requires CountReadable(s.cache)
    ensures CountReadable(r.0.cache)
  {
    if s.cacheOpen then
      if f.getFails then (s, ProcessError)
      else
        var count := StoredCount(s.cache) + 1;
        if f.setFails then (s, ProcessError)
        else InsertAndReply(s.(cache := s.cache[CountKey := Num(count)]), count, f.insertFails, now)
    else
      InsertAndReply(s, 0, f.insertFails, now)
  }

  /** With the cache connected and no store failing, the reply and the new
      row carry the stored count plus one (absent counting as 0), and that
      value is written back under the counter key. */
  lemma ConnectedVisitIncrements(s: Stores, now: int)
    requires s.cacheOpen && CountReadable(s.cache)
    requires FitsInteger(StoredCount(s.cache) + 1) && IdAvailable(s.nextId)
    ensures var (t, reply) := Visit(s, NoFaults, now);
      var next := StoredCount(s.cache) + 1;
      && reply == Recorded(next, RecordedMessage, true)
      && t.cache == s.cache[CountKey := Num(next)]
      && StoredCount(t.cache) == next
      && t.ledger == s.ledger + [Row(s.nextId, now, next)]
  {
  }

  /** With the cache disconnected the count stays 0: the row and the reply
      carry 0, `cached` is false and the cache is untouched. */
  lemma DisconnectedVisitRecordsZero(s: Stores, f: Faults, now: int)
    requires !s.cacheOpen && CountReadable(s.cache) && !f.insertFails && IdAvailable(s.nextId)
    ensures var (t, reply) := Visit(s, f, now);
      && reply == Recorded(0, RecordedMessage, false)
      && t.cache == s.cache
      && t.ledger == s.ledger + [Row(s.nextId, now, 0)]
  {
  }

  /** The request succeeds exactly when every store call it reaches
      succeeds, the count fits the column and the sequence has an id left.
      On success the ledger grows by exactly one row whose count is the
      reply's `visits`; on failure the reply is the single 500 error and the
      ledger is unchanged, and with the cache disconnected nothing changes. */
  lemma VisitOutcome(s: Stores, f: Faults, now: int)
    requires CountReadable(s.cache)
    ensures var (t, reply) := Visit(s, f, now);
      var count := if s.cacheOpen then StoredCount(s.cache) + 1 else 0;
      && (reply.Recorded? <==>
            && !f.insertFails && FitsInteger(count) && IdAvailable(s.nextId)
            && (s.cacheOpen ==> !f.getFails && !f.setFails))
      && t.cacheOpen == s.cacheOpen
      && (reply.Recorded? ==>
            && reply.visits == count
            && reply.cached == s.cacheOpen
            && t.ledger == s.ledger + [Row(s.nextId, now, reply.visits)]
            && t.nextId == s.nextId + 1)
      && (reply.Failed? ==>
            && reply == ProcessError
            && t.ledger == s.ledger
            && t.nextId == s.nextId
            && (!s.cacheOpen ==> t == s))
  {
  }

  /** A cache read or write that throws is fatal: the reply is the 500
      error and, the insert never being reached, nothing changes. */
  lemma CacheFailureIsFatal(s: Stores, f: Faults, now: int)
    requires s.cacheOpen && CountReadable(s.cache) && (f.getFails || f.setFails)
    ensures Visit(s, f, now) == (s, ProcessError)
  {
  }

  /** The cache reflects the last recorded row's count. */
  predicate InStep(s: Stores)
    requires CountReadable(s.cache)
  {
    StoredCount(s.cache) == if s.ledger == [] then 0 else s.ledger[|s.ledger| - 1].visitorCount
  }

  /** A successful connected request keeps cache and ledger in step. */
  lemma ConnectedVisitKeepsStep(s: Stores, now: int)
    requires s.cacheOpen && CountReadable(s.cache) && InStep(s)
    requires FitsInteger(StoredCount(s.cache) + 1) && IdAvailable(s.nextId)
    ensures CountReadable(Visit(s, NoFaults, now).0.cache) && InStep(Visit(s, NoFaults, now).0)
  {
  }

  /** The cache is written before the ledger: when the insert fails after a
      successful cache write, the reply is the 500 error, no row is added,
      and the cache is one ahead of where it was, so two stores that were
      in step no longer are. */
  lemma FailedInsertLeavesCacheAhead(s: Stores, insertFails: bool, now: int)
    requires s.cacheOpen && CountReadable(s.cache)
    requires insertFails || !FitsInteger(StoredCount(s.cache) + 1) || !IdAvailable(s.nextId)
    ensures var (t, reply) := Visit(s, Faults(false, false, insertFails), now);
      && reply == ProcessError
      && t.ledger == s.ledger
      && t.cache == s.cache[CountKey := Num(StoredCount(s.cache) + 1)]
      && (InStep(s) ==> !InStep(t))
  {
  }

  /** Once the sequence is past the INTEGER maximum, every visit fails with
      the 500 reply, whatever the cache does, and the sequence stays
      exhausted. */
  lemma ExhaustedSequenceFailsEveryVisit(s: Stores, f: Faults, now: int)
    requires CountReadable(s.cache) && !IdAvailable(s.nextId)
    ensures Visit(s, f, now).1 == ProcessError
    ensures Visit(s, f, now).0.ledger == s.ledger
    ensures !IdAvailable(Visit(s, f, now).0.nextId)
  {
  }

  /** Every request keeps the stores well formed, and a new row's id is
      larger than every id already in the ledger. */
  lemma VisitPreservesWellFormed(s: Stores, f: Faults, now: int)
    requires WellFormed(s)
    ensures var t := Visit(s, f, now).0;
      && WellFormed(t)
      && s.ledger <= t.ledger
      && |t.ledger| <= |s.ledger| + 1
      && forall i :: |s.ledger| <= i < |t.ledger| ==> forall j :: 0 <= j < |s.ledger| ==> s.ledger[j].id < t.ledger[i].id
  {
  }

  /** The rows a run of successful connected requests appends, starting at
      sequence value `id` and cached count `count`. */
  function CountedRows(id: nat, count: int, times: seq<int>): seq<Row>
  {
    seq(|times|, k requires 0 <= k < |times| => Row(id + k, times[k], count + k + 1))
  }

  lemma CountedRowsCons(id: nat, count: int, times: seq<int>)
    requires times != []
    ensures CountedRows(id, count, times)
         == [Row(id, times[0], count + 1)] + CountedRows(id + 1, count + 1, times[1..])
  {
  }

  /** Requests served one after another, none failing, the k-th at time
      `times[k]`. */
  function RecordAll(s: Stores, times: seq<int>): (r: (Stores, seq<VisitReply>))
    requires CountReadable(s.cache)
    ensures |r.1| == |times|
    ensures CountReadable(r.0.cache)
    decreases |times|
  {
    if times == [] then (s, [])
    else
      var step := Visit(s, NoFaults, times[0]);
      var rest := RecordAll(step.0, times[1..]);
      (rest.0, [step.1] + rest.1)
  }

  /** With the cache connected throughout and no store failing, the k-th
      request (from 0) replies with the stored count plus k + 1 and appends
      a row with that count and the next sequence value; afterwards the
      cache holds the stored count plus the number of requests. */
  lemma {:induction false} ConsecutiveVisits(s: Stores, times: seq<int>)
    requires s.cacheOpen && CountReadable(s.cache)
    requires FitsInteger(StoredCount(s.cache) + 1) && FitsInteger(StoredCount(s.cache) + |times|)
    requires s.nextId + |times| <= MaxInteger + 1
    ensures RecordAll(s, times).0.cacheOpen
    ensures RecordAll(s, times).0.ledger == s.ledger + CountedRows(s.nextId, StoredCount(s.cache), times)
    ensures RecordAll(s, times).0.nextId == s.nextId + |times|
    ensures StoredCount(RecordAll(s, times).0.cache) == StoredCount(s.cache) + |times|
    ensures forall k :: 0 <= k < |times| ==>
              RecordAll(s, times).1[k] == Recorded(StoredCount(s.cache) + k + 1, RecordedMessage, true)
    decreases |times|
  {
    if times != [] {
      var c := StoredCount(s.cache);
      ConnectedVisitIncrements(s, times[0]);
      var step := Visit(s, NoFaults, times[0]);
      var s1 := step.0;
      var rest := RecordAll(s1, times[1..]);
      assert RecordAll(s, times) == (rest.0, [step.1] + rest.1);
      if |times| > 1 {
        ConsecutiveVisits(s1, times[1..]);
      }
      CountedRowsCons(s.nextId, c, times);
      assert s1.ledger == s.ledger + [Row(s.nextId, times[0], c + 1)];
      assert rest.0.ledger == s1.ledger + CountedRows(s.nextId + 1, c + 1, times[1..]);
    }
  }

  /** From an absent counter key and a connected cache, the n-th request
      replies `visits == n` and its row records n. */
  lemma NthVisitCountsN(s: Stores, times: seq<int>, n: nat)
    requires s.cacheOpen && CountKey !in s.cache
    requires 1 <= n <= |times| && |times| <= MaxInteger
    requires s.nextId + |times| <= MaxInteger + 1
    ensures |RecordAll(s, times).0.ledger| == |s.ledger| + |times|
    ensures RecordAll(s, times).1[n - 1] == Recorded(n, RecordedMessage, true)
    ensures RecordAll(s, times).0.ledger[|s.ledger| + n - 1].visitorCount == n
  {
    ConsecutiveVisits(s, times);
  }
}
