/** Concrete request sequences against the specification functions. */
module Scenarios {

  import opened Stores
  import opened Visits
  import History

  /** No counter key, empty ledger: two visits reply 1 then 2, and the
      history lists the second row before the first. */
  lemma TwoVisitsThenHistory(t1: int, t2: int)
    requires t1 < t2
    ensures var s0 := Stores(true, map[], [], FirstId);
      var (s1, r1) := Visit(s0, NoFaults, t1);
      var (s2, r2) := Visit(s1, NoFaults, t2);
      && r1 == Recorded(1, RecordedMessage, true)
      && r2 == Recorded(2, RecordedMessage, true)
      && History.Fetch(s2.ledger, false) == History.Listed([Row(2, t2, 2), Row(1, t1, 1)], 2)
  {
    var s0 := Stores(true, map[], [], FirstId);
    var s2 := Visit(Visit(s0, NoFaults, t1).0, NoFaults, t2).0;
    assert s2.ledger == [Row(1, t1, 1), Row(2, t2, 2)];
    History.ChronologicalHistory(s2.ledger);
  }

  /** A failing ledger insert leaves no phantom row: the history read
      afterwards is the one read before. */
  lemma FailedInsertInvisibleToHistory(s: Stores, f: Faults, now: int)
    requires CountReadable(s.cache) && f.insertFails
    ensures Visit(s, f, now).1 == ProcessError
    ensures History.Fetch(Visit(s, f, now).0.ledger, false) == History.Fetch(s.ledger, false)
  {
  }
}
