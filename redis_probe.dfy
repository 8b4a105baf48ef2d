/** `GET /api/redis-test`: when the cache is connected, write "hello" under
    the key `test`, read it back and return what was read; when it is not,
    answer 503. A store call that throws gives a 500 reply. */
module RedisProbe {

  import opened Wrappers
  import opened Stores

  const Greeting := "hello"
  const UnavailableMessage := "Redis client not available"

  datatype ProbeReply =
    | Connected(test: Option<Entry>)                // 200, status "connected"
    | Disconnected(status: nat, message: string)    // 503, status "disconnected"
    | ProbeFailed(status: nat)                      // 500, status "error"

  /** One probe request, from the stores before it to the stores after it
      and the reply. The write lands before the read, so a failing read
      still leaves the greeting in the cache. */
  function Probe(s: Stores, f: Faults): (r: (Stores, ProbeReply))
    ensures r.1.Connected? <==> s.cacheOpen && !f.setFails && !f.getFails
    ensures r.1.Disconnected? <==> !s.cacheOpen
    ensures r.1.Disconnected? ==> r.1 == Disconnected(503, UnavailableMessage)
    ensures r.1.ProbeFailed? ==> r.1 == ProbeFailed(500)
    ensures r.0.ledger == s.ledger && r.0.nextId == s.nextId && r.0.cacheOpen == s.cacheOpen
  {
    if !s.cacheOpen then (s, Disconnected(503, UnavailableMessage))
    else if f.setFails then (s, ProbeFailed(500))
    else
      var written := s.(cache := s.cache[TestKey := Text(Greeting)]);
      if f.getFails then (written, ProbeFailed(500))
      else (written, Connected(if TestKey in written.cache then Some(written.cache[TestKey]) else None))
  }

  /** With the cache connected and no call failing, the probe reads back the
      greeting it wrote, and only the `test` key changes. */
  lemma ConnectedProbeEchoes(s: Stores)
    requires s.cacheOpen
    ensures var (t, reply) := Probe(s, NoFaults);
      && reply == Connected(Some(Text(Greeting)))
      && t.cache == s.cache[TestKey := Text(Greeting)]
      && t.ledger == s.ledger && t.nextId == s.nextId
  {
  }

  /** With the cache connected, a throwing call gives the 500 reply. A
      throwing write leaves the cache as it was; a throwing read comes after
      the write, so the greeting is already stored. */
  lemma ConnectedProbeFailure(s: Stores, f: Faults)
    requires s.cacheOpen && (f.setFails || f.getFails)
    ensures var (t, reply) := Probe(s, f);
      && reply == ProbeFailed(500)
      && t.cache == (if f.setFails then s.cache else s.cache[TestKey := Text(Greeting)])
      && t.ledger == s.ledger && t.nextId == s.nextId
  {
  }

  /** With the cache disconnected the probe answers 503 and changes nothing. */
  lemma DisconnectedProbeChangesNothing(s: Stores, f: Faults)
    requires !s.cacheOpen
    ensures Probe(s, f) == (s, Disconnected(503, UnavailableMessage))
  {
  }

  /** Whatever fails, the probe leaves the ledger, the connection flag and
      the visit counter as they were, and keeps the stores well formed. */
  lemma ProbeKeepsCounterAndLedger(s: Stores, f: Faults)
    requires WellFormed(s)
    ensures var t := Probe(s, f).0;
      && t.ledger == s.ledger && t.nextId == s.nextId && t.cacheOpen == s.cacheOpen
      && (CountKey in t.cache <==> CountKey in s.cache)
      && (CountKey in s.cache ==> t.cache[CountKey] == s.cache[CountKey])
      && WellFormed(t)
  {
  }
}
