# Visit counter backend: a verified model

The backend of this demonstration service records visits. It keeps a
running count in Redis under the key `visitor_count`. It also stores one
row per visit in the PostgreSQL table `visits` (`id SERIAL`, `timestamp`,
`visitor_count INTEGER`). This project models three request handlers over
those two stores:

- `GET /api/visits`: if the Redis connection is open, read the counter
  (an absent key reads as 0), add one and write it back. Then insert a
  row with that count and reply with `visits`, a message and `cached`,
  which is the connection flag. If any of these calls throws, the reply
  is a single 500 `Failed to process visit`.
- `GET /api/history`: the ten newest rows by timestamp, with their number.
  If the query fails, the reply is 500 `Failed to fetch history`.
- `GET /api/redis-test`: if connected, write `hello` under `test`, read it
  back and return it. If not connected, reply 503 `disconnected`.

Layout:

- `stores.dfy` (`Stores`): the state as a value. It has the connection
  flag, the keyspace (`map<string, Entry>`), the ledger (`seq<Row>`) and the
  next SERIAL value. It also defines the invariant `WellFormed`: ids
  increase, stay below the next value and start at 1; the next value is at
  most one past the 32-bit INTEGER maximum, where the sequence stops;
  counts fit INTEGER; the counter key holds a number.
- `visits.dfy` (`Visits`): `Visit` specifies one visit request as a
  function from stores to stores and reply. Store failures are the explicit
  `Faults` parameter, and the insert time is a parameter too. Lemmas state
  the handler's edge behaviour and what runs of requests do.
- `history.dfy` (`History`): `Fetch` is the history query as a pure
  function of the ledger. `IsRecentSelection` says what any correct answer
  to `ORDER BY timestamp DESC LIMIT 10` is, and a lemma proves that `Fetch`
  gives one.
- `redis_probe.dfy` (`RedisProbe`): `Probe` specifies the Redis test
  request.
- `backend.dfy` (`Backend.Server`): a class whose fields are the two
  stores. Its methods update those fields in place, step by step, as the
  handlers do. Each handler method (`RecordVisit`, `RedisTest`) is proved
  to take the state exactly as `Visit` or `Probe` says, and to keep
  `WellFormed`. The store-call methods (`CacheGet`, `CacheSet`,
  `LedgerInsert`) state what each call does to its own store.
- `scenarios.dfy` (`Scenarios`): concrete request sequences.

The model follows the code where the code departs from the service's
stated design intent:

- With Redis disconnected, the count stays at its initial 0. It is not
  restarted at 1.
- A throwing cache write fails the whole request. It is not just reported
  as `cached: false`.
- `cached` is the connection flag. It does not say whether the write
  succeeded.
- The history query names no tie-break for equal timestamps. The design
  intent is newest id first.

## Model

| member | source | states |
|---|---|---|
| `Visits.Visit` | apps/backend/server.js:74-98 | One visit request as a function of stores, faults and time. The counter key stays readable as a number afterwards. |
| `Visits.ConnectedVisitIncrements` | apps/backend/server.js:78-81 | Connected and nothing failing: the reply, the new row and the value written back under `visitor_count` are all the stored count plus one, with absent counting as 0. `cached` is true. |
| `Visits.DisconnectedVisitRecordsZero` | apps/backend/server.js:76-92 | Disconnected and the insert succeeding: the count stays 0. The row records 0, the reply is `visits: 0, cached: false` and the cache is untouched. |
| `Visits.VisitOutcome` | apps/backend/server.js:74-98 | The request succeeds if and only if every store call it reaches succeeds, the count fits the INTEGER column and the SERIAL sequence has not passed the INTEGER maximum. On success the ledger gains exactly one row, with the next id and the reply's `visits`. On failure the reply is 500 `Failed to process visit` and the ledger and the sequence are unchanged; with the cache disconnected nothing at all changes. |
| `Visits.ExhaustedSequenceFailsEveryVisit` | apps/backend/server.js:41 | Once the SERIAL sequence is past 2147483647, every visit replies 500 whatever the cache does, adds no row, and the sequence stays exhausted. |
| `Visits.CacheFailureIsFatal` | apps/backend/server.js:79-96 | A throwing cache read or write gives the 500 reply. Since the insert is never reached, the stores are unchanged. |
| `Visits.ConnectedVisitKeepsStep` | apps/backend/server.js:79-87 | A successful connected request keeps the cached count equal to the last row's count. |
| `Visits.FailedInsertLeavesCacheAhead` | apps/backend/server.js:79-96 | The cache write comes before the insert. So when the insert fails (or the count overflows the column, or the sequence is exhausted), the reply is 500, no row is added, the cache already holds the incremented count, and stores that were in step no longer are. |
| `Visits.VisitPreservesWellFormed` | apps/backend/server.js:40-44 | Every request keeps the `visits` table invariant: SERIAL ids increase and stay below the next value, which never passes one beyond the INTEGER maximum, and counts fit INTEGER. The ledger only grows at its end, by at most one row, and the new id is larger than every earlier one. |
| `Visits.RecordAll` | apps/backend/server.js:74-98 | A run of failure-free requests gives one reply per request and leaves the counter key readable. |
| `Visits.ConsecutiveVisits` | apps/backend/server.js:78-90 | With the cache connected throughout and nothing failing, the k-th request (counting from 0) replies with the stored count plus k + 1. It appends the row (next id + k, its time, that count). The cache ends at the stored count plus the number of requests. |
| `Visits.NthVisitCountsN` | apps/backend/server.js:79-90 | From an absent counter key with the cache connected, the n-th request replies `visits == n` and its row records n. |
| `History.Insert` | apps/backend/server.js:104 | Placing a row into a newest-first list adds exactly that row. |
| `History.SortNewestFirst` | apps/backend/server.js:104 | Ordering by timestamp descending is a permutation of the ledger. |
| `History.Fetch` | apps/backend/server.js:101-114 | The reply is an error exactly when the query fails, and then it is 500 `Failed to fetch history`. Otherwise `count` equals the number of rows, which is the smaller of 10 and the ledger size. |
| `History.InsertKeepsDescending` | apps/backend/server.js:104 | Placing a row keeps a list newest first. |
| `History.SortIsDescending` | apps/backend/server.js:104 | The ordered rows are newest first. |
| `History.PrefixIsRecentSelection` | apps/backend/server.js:104 | The first `LIMIT` rows of a newest-first permutation of the ledger answer the query. |
| `History.FetchSelectsMostRecent` | apps/backend/server.js:103-109 | For every ledger the history answers `ORDER BY timestamp DESC LIMIT 10`. It has at most 10 rows, all from the ledger and newest first. No row left out is newer than one returned, and `count` is the number of rows. |
| `History.ChronologicalHistory` | apps/backend/server.js:103-105 | When timestamps never decrease in insertion order, the history is the newest 10 rows in reverse insertion order. Among equal timestamps this is the model's tie order. |
| `RedisProbe.Probe` | apps/backend/server.js:133-154 | The Redis test request: a set then a get. It replies `connected` exactly when the cache is connected and neither call throws, and 503 `Redis client not available` exactly when the cache is disconnected. Any other reply is 500. It never touches the ledger, the sequence or the connection flag. |
| `RedisProbe.ConnectedProbeFailure` | apps/backend/server.js:135-153 | Connected, with the set or the get throwing: the reply is 500. A throwing set leaves the cache as it was. A throwing get comes after the write, so `test` already holds `hello`. |
| `RedisProbe.ConnectedProbeEchoes` | apps/backend/server.js:135-141 | Connected and nothing failing: the probe returns `test: 'hello'`. Only the `test` key changes, and the ledger is untouched. |
| `RedisProbe.DisconnectedProbeChangesNothing` | apps/backend/server.js:142-147 | Disconnected: 503 `Redis client not available`, and nothing changes. |
| `RedisProbe.ProbeKeepsCounterAndLedger` | apps/backend/server.js:133-154 | Whatever fails, the probe leaves `visitor_count`, the ledger, the sequence and the connection flag as they were, and keeps the stores well formed. |
| `Backend.Server.constructor` | apps/backend/server.js:40-44 | A process attaches to whatever well-formed stores it finds. The table is created only if missing, so after a restart the earlier rows, the sequence position and the Redis keys are all kept as they were. |
| `Backend.Server.CacheGet` | apps/backend/server.js:79 | `get` returns the stored entry, or none when the key is absent, and changes nothing. |
| `Backend.Server.CacheSet` | apps/backend/server.js:81 | `set` overwrites exactly that key when it succeeds and leaves the cache alone when it throws. |
| `Backend.Server.LedgerInsert` | apps/backend/server.js:87 | The insert appends one row with the next sequence value and the given count. It fails, appending nothing, when the store fails, the count is outside INTEGER, or the SERIAL sequence is past the INTEGER maximum. |
| `Backend.Server.RecordVisit` | apps/backend/server.js:74-98 | The in-place handler keeps the invariant. Its new state and reply are exactly those of `Visits.Visit` from the old state. |
| `Backend.Server.RedisTest` | apps/backend/server.js:133-154 | The in-place probe keeps the invariant. Its new state and reply are exactly those of `RedisProbe.Probe` from the old state. |
| `Scenarios.TwoVisitsThenHistory` | apps/backend/server.js:74-114 | No counter key and an empty ledger: two visits reply 1 then 2, and the history then lists the rows with counts 2, 1. |
| `Scenarios.FailedInsertInvisibleToHistory` | apps/backend/server.js:87-114 | A failed insert leaves no phantom row: the history reads the same before and after. |

## Left out

- Visits.Visit: requires the counter key, when present, to hold a number. With non-empty text that does not start with a number, `parseInt` yields NaN; an empty string reads as 0 through the `|| 0` and counts 1; text with a numeric prefix reads as that prefix. None of these is modelled. Every modelled request keeps this property (`WellFormed`).
- Backend.Server.RecordVisit: the connection flag is read once per request. A connection that drops or comes up between the insert and the reply (which would change `cached`) is not modelled.
- Backend.Server.RecordVisit: when the client object was never created, `cached` is `undefined` and is dropped from the JSON. The model reports `false`.
- Backend.Server.CacheSet: a throwing `set` is taken not to have written. A timeout after the server applied the write is not modelled.
- Backend.Server.LedgerInsert: a failed insert leaves the sequence as it was. PostgreSQL may consume a sequence value on some failures. The invariant only needs increasing ids, so it holds either way.
- Backend.Server.RedisTest: the 500 reply's `message` is the store's own error text, and the model does not carry that text.
- History.Fetch: it returns one fixed order among rows with equal timestamps (later-inserted first). The query leaves that order open. `History.FetchSelectsMostRecent` states the property that holds for every order.
- JavaScript numbers lose integer precision beyond 2^53. Counts are unbounded integers in the cache; the INTEGER range of the `visitor_count` column and of the SERIAL `id` sequence is modelled at the insert.
- Backend.Server: the connection flag is fixed for the object's lifetime. No member models the asynchronous connect or a later drop, so the class cannot show a process that counts 0 before Redis connects and then resumes from the stored count. A state with either flag value can be supplied to the constructor.
- Concurrency between requests, including the lost update on the non-atomic read-then-write of the counter. The model serves one request at a time.
- Real clocks and the SQL engine: timestamps are values supplied to each insert.
- The frontend (apps/frontend/src/App.js): presentation and network I/O.
- Process bootstrapping: Express and CORS setup, the pool configuration, the asynchronous Redis connect, table creation, `listen` and SIGTERM shutdown.
- `/health`, `/api/info` and `/api/db-test`: constant or environment responders and a bare `SELECT NOW()`.
- Log output and HTTP/JSON rendering.
