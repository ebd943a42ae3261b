/** Reconciling execution records with the store: the loop, its meaning, and when it succeeds. */
module WorkerReconcile {
  import opened Prelude
  import opened Campaign
  import opened Store
  import opened StoreRuns
  import opened StoreInvariants
  import opened StoreReconcile
  import opened StoreSafety
  import opened StoreObject
  import opened Worker
  import opened WorkerSafety
  import Money

  // ---------------------------------------------------------------- what the reconciler demands

  function KeyOf(e: Payload): Key
    requires e.token.Some?
  {
    Key(e.cell, e.token.value, e.attempt)
  }

  /** Same campaign, worker, state, reason and artifact, and costs within a unit. */
  predicate FieldsAgree(e: Payload, r: Record) {
    && r.campaign == e.campaign && Some(r.worker) == e.worker
    && r.next == e.next && r.reason == e.reason && r.artifact == e.artifact
    && AbsReal(r.cost - e.actual) <= Money.UNIT
  }

  predicate TerminalAt(events: seq<Event>, i: int) {
    0 <= i < |events| && WorkerTerminal(events[i].columns)
  }

  predicate KeyedAt(events: seq<Event>, i: int, key: Key) {
    TerminalAt(events, i) && events[i].columns.token.Some? && KeyOf(events[i].columns) == key
  }

  predicate RecordedAt(records: seq<Record>, i: int, key: Key) {
    0 <= i < |records| && RecordKey(records[i]) == key
  }

  /** A terminal event has a token, and no earlier one has the same key. */
  ghost predicate Identified(events: seq<Event>, i: int) {
    TerminalAt(events, i) ==>
      && events[i].columns.token.Some?
      && forall j | 0 <= j < i :: !KeyedAt(events, j, KeyOf(events[i].columns))
  }

  ghost predicate EventsIdentified(events: seq<Event>) {
    forall i | 0 <= i < |events| :: Identified(events, i)
  }

  ghost predicate FirstWithKey(records: seq<Record>, k: int)
    requires 0 <= k < |records|
  {
    forall j | 0 <= j < k :: !RecordedAt(records, j, RecordKey(records[k]))
  }

  ghost predicate RecordsIdentified(records: seq<Record>) {
    forall k | 0 <= k < |records| :: FirstWithKey(records, k)
  }

  /** Events and records identify each other uniquely, pair off completely and agree pairwise. */
  ghost predicate RecordsMatch(events: seq<Event>, records: seq<Record>) {
    && EventsIdentified(events)
    && RecordsIdentified(records)
    && (forall i, key | KeyedAt(events, i, key) :: exists k :: RecordedAt(records, k, key))
    && (forall k, key | RecordedAt(records, k, key) :: exists i :: KeyedAt(events, i, key))
    && (forall i, k, key | KeyedAt(events, i, key) && RecordedAt(records, k, key) ::
          FieldsAgree(events[i].columns, records[k]))
  }

  // ---------------------------------------------------------------- the loop

  /** The map holds an event for exactly the keys of the first n events that are terminal. */
  ghost predicate MapsEvents(events: seq<Event>, n: int, found: map<Key, Payload>) {
    && (forall key | key in found :: exists i :: i < n && KeyedAt(events, i, key) && events[i].columns == found[key])
    && (forall i, key | i < n && KeyedAt(events, i, key) :: key in found)
  }

  ghost predicate MapsRecords(records: seq<Record>, n: int, found: map<Key, Record>) {
    && (forall key | key in found :: exists k :: k < n && RecordedAt(records, k, key) && records[k] == found[key])
    && (forall k, key | k < n && RecordedAt(records, k, key) :: key in found)
  }

  method IndexEvents(events: seq<Event>) returns (found: map<Key, Payload>, ok: bool, count: nat)
    ensures MapsEvents(events, |events|, found)
    ensures ok <==> EventsIdentified(events)
    ensures count == |set i | 0 <= i < |events| && TerminalAt(events, i)|
  {
    found, ok, count := map[], true, 0;
    ghost var seen: set<int> := {};
    for i := 0 to |events|
      invariant MapsEvents(events, i, found)
      invariant ok <==> forall j | 0 <= j < i :: Identified(events, j)
      invariant seen == (set j | 0 <= j < i && TerminalAt(events, j)) && count == |seen|
    {
      var e := events[i].columns;
      ghost var was := found;
      if WorkerTerminal(e) {
        count, seen := count + 1, seen + {i};
        if e.token.None? || KeyOf(e) in found {
          ok := false;
        } else {
          found := found[KeyOf(e) := e];
        }
      }
      IndexEvent(events, i, was, found);
    }
    assert seen == set i | 0 <= i < |events| && TerminalAt(events, i);
  }

  lemma IndexEvent(events: seq<Event>, i: nat, was: map<Key, Payload>, found: map<Key, Payload>)
    requires i < |events| && MapsEvents(events, i, was)
    requires var e := events[i].columns;
      found == if WorkerTerminal(e) && e.token.Some? && KeyOf(e) !in was then was[KeyOf(e) := e] else was
    ensures MapsEvents(events, i + 1, found)
    ensures var e := events[i].columns;
      Identified(events, i) <==> (WorkerTerminal(e) ==> e.token.Some? && KeyOf(e) !in was)
  {
    hide WorkerTerminal;
    forall key | key in found
      ensures exists j :: j < i + 1 && KeyedAt(events, j, key) && events[j].columns == found[key]
    {
      if key in was {
        var j :| j < i && KeyedAt(events, j, key) && events[j].columns == was[key];
      } else {
        assert KeyedAt(events, i, key);
      }
    }
  }

  method IndexRecords(records: seq<Record>) returns (found: map<Key, Record>, ok: bool)
    ensures MapsRecords(records, |records|, found)
    ensures ok <==> RecordsIdentified(records)
  {
    found, ok := map[], true;
    for k := 0 to |records|
      invariant MapsRecords(records, k, found)
      invariant ok <==> forall j | 0 <= j < k :: FirstWithKey(records, j)
    {
      var key := RecordKey(records[k]);
      ghost var was := found;
      if key in found {
        ok := false;
      } else {
        found := found[key := records[k]];
      }
      IndexRecord(records, k, was, found);
    }
  }

  lemma IndexRecord(records: seq<Record>, k: nat, was: map<Key, Record>, found: map<Key, Record>)
    requires k < |records| && MapsRecords(records, k, was)
    requires var key := RecordKey(records[k]); found == if key in was then was else was[key := records[k]]
    ensures MapsRecords(records, k + 1, found)
    ensures FirstWithKey(records, k) <==> RecordKey(records[k]) !in was
  {
    forall key | key in found
      ensures exists j :: j < k + 1 && RecordedAt(records, j, key) && records[j] == found[key]
    {
      if key in was {
        var j :| j < k && RecordedAt(records, j, key) && records[j] == was[key];
      } else {
        assert RecordedAt(records, k, key);
      }
    }
  }

  datatype Reconciliation = Reconciliation(valid: bool, terminalEvents: nat, executionRecords: nat, matchedRecords: nat)

  ghost function EventKeys(events: seq<Event>): set<Key> {
    set i | 0 <= i < |events| && TerminalAt(events, i) && events[i].columns.token.Some? :: KeyOf(events[i].columns)
  }

  ghost function RecordKeys(records: seq<Record>): set<Key> {
    set k | 0 <= k < |records| :: RecordKey(records[k])
  }

  lemma KeysOfMaps(events: seq<Event>, records: seq<Record>, eventMap: map<Key, Payload>, recordMap: map<Key, Record>)
    requires MapsEvents(events, |events|, eventMap) && MapsRecords(records, |records|, recordMap)
    ensures eventMap.Keys == EventKeys(events) && recordMap.Keys == RecordKeys(records)
  {
    hide WorkerTerminal;
    forall key ensures key in eventMap <==> key in EventKeys(events) {
      if key in EventKeys(events) {
        var i :| 0 <= i < |events| && TerminalAt(events, i) && events[i].columns.token.Some?
                 && KeyOf(events[i].columns) == key;
        assert KeyedAt(events, i, key);
      }
    }
    forall key ensures key in recordMap <==> key in RecordKeys(records) {
      if key in RecordKeys(records) {
        var k :| 0 <= k < |records| && RecordKey(records[k]) == key;
        assert RecordedAt(records, k, key);
      }
    }
  }

  predicate PairFits(key: Key, events: map<Key, Payload>, records: map<Key, Record>) {
    key in events && key in records && FieldsAgree(events[key], records[key])
  }

  method ReconcileRecords(store: CampaignStore, records: seq<Record>) returns (r: Reconciliation)
    ensures r.valid <==> Reconciled(store.manifest, store.Contents()) && RecordsMatch(store.events, records)
    ensures r.terminalEvents == |set i | 0 <= i < |store.events| && TerminalAt(store.events, i)|
    ensures r.executionRecords == |records|
    ensures r.matchedRecords == |EventKeys(store.events) * RecordKeys(records)|
  {
    var report := store.Reconcile();
    var eventMap, eventsOk, terminals := IndexEvents(store.events);
    var recordMap, recordsOk := IndexRecords(records);
    var keys := eventMap.Keys + recordMap.Keys;
    var todo, fits := keys, true;
    while todo != {}
      invariant todo <= keys
      invariant fits <==> forall key | key in keys && key !in todo :: PairFits(key, eventMap, recordMap)
      decreases |todo|
    {
      var key :| key in todo;
      todo := todo - {key};
      if !PairFits(key, eventMap, recordMap) {
        fits := false;
      }
    }
    KeysOfMaps(store.events, records, eventMap, recordMap);
    if eventsOk && recordsOk {
      PairsMatch(store.events, records, eventMap, recordMap);
    }
    r := Reconciliation(report.valid && eventsOk && recordsOk && fits, terminals, |records|,
                        |eventMap.Keys * recordMap.Keys|);
  }

  lemma MappedEvent(events: seq<Event>, found: map<Key, Payload>, i: int, key: Key)
    requires MapsEvents(events, |events|, found) && EventsIdentified(events) && KeyedAt(events, i, key)
    ensures key in found && found[key] == events[i].columns
  {
    hide WorkerTerminal;
    var j :| j < |events| && KeyedAt(events, j, key) && events[j].columns == found[key];
    assert Identified(events, i) && Identified(events, j);
  }

  lemma MappedRecord(records: seq<Record>, found: map<Key, Record>, k: int, key: Key)
    requires MapsRecords(records, |records|, found) && RecordsIdentified(records) && RecordedAt(records, k, key)
    ensures key in found && found[key] == records[k]
  {
    var j :| j < |records| && RecordedAt(records, j, key) && records[j] == found[key];
    assert FirstWithKey(records, j) && FirstWithKey(records, k);
  }

  lemma PairsMatch(events: seq<Event>, records: seq<Record>, eventMap: map<Key, Payload>, recordMap: map<Key, Record>)
    requires MapsEvents(events, |events|, eventMap) && MapsRecords(records, |records|, recordMap)
    requires EventsIdentified(events) && RecordsIdentified(records)
    ensures RecordsMatch(events, records) <==>
      forall key | key in eventMap.Keys + recordMap.Keys :: PairFits(key, eventMap, recordMap)
  {
    hide WorkerTerminal, FieldsAgree;
    forall i, key | KeyedAt(events, i, key) ensures key in eventMap && eventMap[key] == events[i].columns {
      MappedEvent(events, eventMap, i, key);
    }
    forall k, key | RecordedAt(records, k, key) ensures key in recordMap && recordMap[key] == records[k] {
      MappedRecord(records, recordMap, k, key);
    }
    if RecordsMatch(events, records) {
      forall key | key in eventMap.Keys + recordMap.Keys ensures PairFits(key, eventMap, recordMap) {
        if key in eventMap {
          var i :| KeyedAt(events, i, key) && events[i].columns == eventMap[key];
          var k :| RecordedAt(records, k, key);
        }
      }
    }
    if forall key | key in eventMap.Keys + recordMap.Keys :: PairFits(key, eventMap, recordMap) {
      forall i, key | KeyedAt(events, i, key) ensures exists k :: RecordedAt(records, k, key) {
        assert PairFits(key, eventMap, recordMap);
      }
      forall k, key | RecordedAt(records, k, key) ensures exists i :: KeyedAt(events, i, key) {
        assert PairFits(key, eventMap, recordMap);
      }
      forall i, k, key | KeyedAt(events, i, key) && RecordedAt(records, k, key)
        ensures FieldsAgree(events[i].columns, records[k])
      {
        assert PairFits(key, eventMap, recordMap);
      }
    }
  }

  // ---------------------------------------------------------------- when reconciliation succeeds

  predicate NoArtifactIfFailed(r: Record) {
    r.next.Failed? ==> r.artifact.None?
  }

  ghost predicate NoFailedArtifact(records: set<Record>) {
    forall r | r in records :: NoArtifactIfFailed(r)
  }

  lemma RecordsMatchFrom(m: Manifest, sys: System, records: seq<Record>)
    requires SystemInv(m, sys) && Lists(records, sys.records)
    ensures RecordsMatch(sys.trace.db.events, records) <==> NothingUnwritten(sys) && NoFailedArtifact(sys.records)
  {
    hide SystemInv, RecordsMatch, NothingUnwritten, NoFailedArtifact;
    if NothingUnwritten(sys) && NoFailedArtifact(sys.records) {
      MatchWhenWritten(m, sys, records);
    }
    if RecordsMatch(sys.trace.db.events, records) {
      WrittenWhenMatch(m, sys, records);
    }
  }

  lemma AccountsKey(events: seq<Event>, i: int, r: Record)
    requires 0 <= i < |events| && Accounts(r, events[i].columns)
    ensures KeyedAt(events, i, RecordKey(r))
  {
  }

  lemma OneKey(events: seq<Event>, i: int, key: Key, key': Key)
    requires KeyedAt(events, i, key) && KeyedAt(events, i, key')
    ensures key == key'
  {
  }

  lemma AccountsAgree(e: Payload, r: Record)
    requires Accounts(r, e)
    ensures FieldsAgree(e, r) <==> (r.next.Failed? ==> r.artifact.None?)
  {
  }

  lemma MatchWhenWritten(m: Manifest, sys: System, records: seq<Record>)
    requires SystemInv(m, sys) && Lists(records, sys.records)
    requires NothingUnwritten(sys) && NoFailedArtifact(sys.records)
    ensures RecordsMatch(sys.trace.db.events, records)
  {
    hide Inv, Accounts, FieldsAgree, WorkerTerminal, Accounted;
    var events := sys.trace.db.events;
    BijectiveFrom(m, sys);
    forall i | 0 <= i < |events| && TerminalAt(events, i)
      ensures exists r :: r in sys.records && Accounts(r, events[i].columns) && KeyedAt(events, i, RecordKey(r))
    {
      assert Recorded(sys, events[i].columns);
      var r :| r in sys.records && Accounts(r, events[i].columns);
      AccountsKey(events, i, r);
    }
    forall i | 0 <= i < |events| ensures Identified(events, i) {
      if TerminalAt(events, i) {
        var r :| r in sys.records && KeyedAt(events, i, RecordKey(r));
        forall j | 0 <= j < i ensures !KeyedAt(events, j, KeyOf(events[i].columns)) {
          assert KeyedAt(events, j, KeyOf(events[i].columns)) ==>
            EventKey(events[i].columns) == EventKey(events[j].columns);
        }
      }
    }
    forall k | 0 <= k < |records| ensures FirstWithKey(records, k) {
      assert records[k] in sys.records;
      forall j | 0 <= j < k ensures !RecordedAt(records, j, RecordKey(records[k])) {
        assert records[j] in sys.records;
      }
    }
    forall k, key | RecordedAt(records, k, key) ensures exists i :: KeyedAt(events, i, key) {
      assert Accounted(events, records[k]);
      AccountedKey(events, records[k]);
    }
    forall i, key | KeyedAt(events, i, key) ensures exists k :: RecordedAt(records, k, key) {
      var r :| r in sys.records && KeyedAt(events, i, RecordKey(r));
      var k :| 0 <= k < |records| && records[k] == r;
      OneKey(events, i, key, RecordKey(r));
      assert RecordedAt(records, k, key);
    }
    forall i, k, key | KeyedAt(events, i, key) && RecordedAt(records, k, key)
      ensures FieldsAgree(events[i].columns, records[k])
    {
      var r :| r in sys.records && Accounts(r, events[i].columns) && KeyedAt(events, i, RecordKey(r));
      assert records[k] in sys.records && RecordKey(r) == RecordKey(records[k]);
      AccountsAgree(events[i].columns, r);
    }
  }

  lemma AccountedKey(events: seq<Event>, r: Record)
    requires Accounted(events, r)
    ensures exists i :: 0 <= i < |events| && KeyedAt(events, i, RecordKey(r)) && Accounts(r, events[i].columns)
  {
    var i :| 0 <= i < |events| && Accounts(r, events[i].columns);
    AccountsKey(events, i, r);
  }

  lemma WrittenWhenMatch(m: Manifest, sys: System, records: seq<Record>)
    requires SystemInv(m, sys) && Lists(records, sys.records)
    requires RecordsMatch(sys.trace.db.events, records)
    ensures NothingUnwritten(sys) && NoFailedArtifact(sys.records)
  {
    hide Inv, Accounts, FieldsAgree, WorkerTerminal, Accounted, KeyedAt;
    var events := sys.trace.db.events;
    forall r | Held(sys, r)
      ensures exists i :: 0 <= i < |events| && KeyedAt(events, i, RecordKey(r)) && Accounts(r, events[i].columns)
    {
      AccountedKey(events, r);
    }
    forall b | 0 <= b < |sys.batches| ensures sys.batches[b].unwritten.None? {
      assert sys.batches[b].unwritten.Some? ==> Held(sys, sys.batches[b].unwritten.value);
    }
    forall r | r in sys.records && r.next.Failed? ensures r.artifact.None? {
      assert Held(sys, r);
      var i :| 0 <= i < |events| && KeyedAt(events, i, RecordKey(r)) && Accounts(r, events[i].columns);
      var k :| 0 <= k < |records| && records[k] == r;
      assert RecordedAt(records, k, RecordKey(r));
      AccountsAgree(events[i].columns, r);
    }
  }

  // ---------------------------------------------------------------- in terms of the outcomes

  /** A result that the worker calls failed although its trial names an artifact. */
  predicate CarriesArtifact(outcome: Outcome) {
    && outcome.RunnerReturned?
    && (outcome.result.failed || outcome.result.score.None?)
    && outcome.result.trial.Some? && outcome.result.trial.value.artifact.Some?
  }

  lemma CarriedIntoRecord(m: Manifest, t: Ticket, outcome: Outcome)
    ensures var r := RecordFor(m, t, VerdictFor(t.estimate, outcome));
      r.next.Failed? && r.artifact.Some? <==> CarriesArtifact(outcome)
  {
  }

  /** The move is a completion that the store accepts. */
  predicate Completes(m: Manifest, sys: System, move: Move)
    requires Fits(m, sys.trace.db)
  {
    move.Complete? && Possible(sys, move) &&
    var t := sys.batches[move.batch].pending[0];
    Plan(m, sys.trace.db, CompletionCall(t, VerdictFor(t.estimate, move.outcome), move.at)).Ok?
  }

  /** The record such a completion leaves to be written. */
  function RecordFrom(m: Manifest, sys: System, move: Move): Record
    requires Fits(m, sys.trace.db) && Completes(m, sys, move)
  {
    var t := sys.batches[move.batch].pending[0];
    RecordFor(m, t, VerdictFor(t.estimate, move.outcome))
  }

  /** Only an accepted completion adds a record, and no move loses one. */
  lemma NextHeld(m: Manifest, sys: System, move: Move, r: Record)
    requires Fits(m, sys.trace.db)
    ensures Held(Next(m, sys, move), r) <==>
      Held(sys, r) || (Completes(m, sys, move) && r == RecordFrom(m, sys, move))
  {
    hide Plan, PlanLease, PlanReclaim, VerdictFor, After, Harmless, TicketsFrom;
    var next := Next(m, sys, move);
    if Held(sys, r) && r !in sys.records {
      var b :| 0 <= b < |sys.batches| && sys.batches[b].unwritten == Some(r);
      assert r in next.records || next.batches[b].unwritten == Some(r);
    }
    if Held(next, r) && r !in next.records {
      var b :| 0 <= b < |next.batches| && next.batches[b].unwritten == Some(r);
      if b < |sys.batches| && sys.batches[b].unwritten == Some(r) {
        assert Held(sys, r);
      }
    }
    if Completes(m, sys, move) {
      assert next.batches[move.batch].unwritten == Some(RecordFrom(m, sys, move));
    }
  }

  predicate CompletesAt(m: Manifest, createdAt: int, moves: seq<Move>, i: int) {
    0 <= i < |moves| && moves[i].Complete? && Completes(m, Execute(m, createdAt, moves[..i]), moves[i])
  }

  predicate MadeAt(m: Manifest, createdAt: int, moves: seq<Move>, i: int, r: Record) {
    CompletesAt(m, createdAt, moves, i) && r == RecordFrom(m, Execute(m, createdAt, moves[..i]), moves[i])
  }

  lemma CompletesIsComplete(m: Manifest, sys: System, move: Move)
    requires Fits(m, sys.trace.db)
    ensures Completes(m, sys, move) ==> move.Complete?
  {
  }

  /** The records held are exactly those made by the accepted completions. */
  lemma {:induction false} HeldWereMade(m: Manifest, createdAt: int, moves: seq<Move>, r: Record)
    ensures Held(Execute(m, createdAt, moves), r) <==> exists i :: MadeAt(m, createdAt, moves, i, r)
  {
    hide Next, Completes, RecordFrom, Start;
    if moves != [] {
      var n := |moves| - 1;
      var init := moves[..n];
      HeldWereMade(m, createdAt, init, r);
      NextHeld(m, Execute(m, createdAt, init), moves[n], r);
      CompletesIsComplete(m, Execute(m, createdAt, init), moves[n]);
      forall i | 0 <= i < n ensures MadeAt(m, createdAt, init, i, r) <==> MadeAt(m, createdAt, moves, i, r) {
        assert init[..i] == moves[..i];
      }
      if i :| MadeAt(m, createdAt, init, i, r) {
        assert MadeAt(m, createdAt, moves, i, r);
      }
      if i :| MadeAt(m, createdAt, moves, i, r) && i < n {
        assert MadeAt(m, createdAt, init, i, r);
      }
      assert MadeAt(m, createdAt, moves, n, r) <==>
        && moves[n].Complete? && Completes(m, Execute(m, createdAt, init), moves[n])
        && r == RecordFrom(m, Execute(m, createdAt, init), moves[n]);
    }
  }

  /** No accepted completion is of a result that failed and yet names an artifact. */
  ghost predicate NoneCarries(m: Manifest, createdAt: int, moves: seq<Move>) {
    forall i | CompletesAt(m, createdAt, moves, i) :: !CarriesArtifact(moves[i].outcome)
  }

  /**
   * After any interleaving the records match the events exactly when no batch holds an unwritten
   * record and no accepted completion was of a failed result whose trial names an artifact.
   */
  lemma ReconciliationExact(m: Manifest, createdAt: int, moves: seq<Move>, records: seq<Record>)
    requires NothingLeased(m)
    requires Lists(records, Execute(m, createdAt, moves).records)
    ensures var sys := Execute(m, createdAt, moves);
      RecordsMatch(sys.trace.db.events, records) <==> NothingUnwritten(sys) && NoneCarries(m, createdAt, moves)
  {
    hide RecordsMatch, Execute, SystemInv, NoFailedArtifact, NoneCarries;
    ExecuteInv(m, createdAt, moves);
    RecordsMatchFrom(m, Execute(m, createdAt, moves), records);
    if NothingUnwritten(Execute(m, createdAt, moves)) {
      CarriedExactly(m, createdAt, moves);
    }
  }

  lemma CarriedExactly(m: Manifest, createdAt: int, moves: seq<Move>)
    requires NothingUnwritten(Execute(m, createdAt, moves))
    ensures NoFailedArtifact(Execute(m, createdAt, moves).records) <==> NoneCarries(m, createdAt, moves)
  {
    hide Execute, Completes, CarriesArtifact, RecordFor, VerdictFor;
    var sys := Execute(m, createdAt, moves);
    if NoneCarries(m, createdAt, moves) {
      forall r | r in sys.records && r.next.Failed? ensures r.artifact.None? {
        HeldWereMade(m, createdAt, moves, r);
        assert Held(sys, r);
        var i :| MadeAt(m, createdAt, moves, i, r);
        MadeCarries(m, createdAt, moves, i, r);
      }
    }
    if NoFailedArtifact(sys.records) {
      forall i | CompletesAt(m, createdAt, moves, i) ensures !CarriesArtifact(moves[i].outcome) {
        var r := RecordFrom(m, Execute(m, createdAt, moves[..i]), moves[i]);
        assert MadeAt(m, createdAt, moves, i, r);
        HeldWereMade(m, createdAt, moves, r);
        MadeCarries(m, createdAt, moves, i, r);
        assert r in sys.records;
      }
    }
  }

  lemma MadeCarries(m: Manifest, createdAt: int, moves: seq<Move>, i: int, r: Record)
    requires MadeAt(m, createdAt, moves, i, r)
    ensures moves[i].Complete? && (r.next.Failed? && r.artifact.Some? <==> CarriesArtifact(moves[i].outcome))
  {
    hide Execute, CarriesArtifact, RecordFor, VerdictFor, Plan;
    var sys := Execute(m, createdAt, moves[..i]);
    CarriedIntoRecord(m, sys.batches[moves[i].batch].pending[0], moves[i].outcome);
  }

  // ---------------------------------------------------------------- orderly systems

  /** The outcome of a task the worker lacks, of a runner that raises, or of what the runner returns. */
  ghost predicate FromRunner(outcome: Outcome) {
    outcome.RunnerReturned? ==> exists g :: outcome.result == RunBenchmark(g)
  }

  /** The runner's results never fail with an artifact. */
  lemma RunnerCarriesNothing(outcome: Outcome)
    requires FromRunner(outcome)
    ensures !CarriesArtifact(outcome)
  {
  }

  /** Outcomes are the runner's; others charge whole units and requeue only cells that are not leased. */
  ghost predicate OrderlyMove(sys: System, move: Move) {
    match move
    case Complete(_, outcome, _) => FromRunner(outcome)
    case Other(Complete(_, _, _, _, _, actual, _, _)) => Money.Round8(actual) == actual
    case Other(RequeueFailed(c, _, _, _)) => c < |sys.trace.db.rows| ==> !sys.trace.db.rows[c].state.Leased?
    case _ => true
  }

  ghost predicate Orderly(m: Manifest, createdAt: int, moves: seq<Move>) {
    forall i | 0 <= i < |moves| :: OrderlyMove(Execute(m, createdAt, moves[..i]), moves[i])
  }

  ghost predicate Tidy(m: Manifest, sys: System) {
    NothingDangles(m, sys.trace) && MarksRounded(sys.trace) && forall r | Held(sys, r) :: NoArtifactIfFailed(r)
  }

  lemma NextTidy(m: Manifest, sys: System, move: Move)
    requires SystemInv(m, sys) && Tidy(m, sys) && OrderlyMove(sys, move)
    ensures Tidy(m, Next(m, sys, move))
  {
    hide Inv, Backed, Covered, KeysUnique, TicketsIssued, NothingDangles, MarksRounded, Plan, PlanLease, PlanReclaim,
      After, VerdictFor, Harmless, FromRunner;
    InvFits(m, sys.trace);
    var sys' := Next(m, sys, move);
    if Possible(sys, move) {
      match move {
        case Begin(request) =>
          CleanCall(m, sys.trace, Lease(request));
        case Complete(b, outcome, at) =>
          var t := sys.batches[b].pending[0];
          var v := VerdictFor(t.estimate, outcome);
          VerdictIsWorkerTerminal(t.estimate, outcome);
          FailedNamesNothing(m, t, outcome);
          CleanCall(m, sys.trace, CompletionCall(t, v, at));
        case Other(call) =>
          CleanCall(m, sys.trace, call);
        case _ =>
      }
      forall r | Held(sys', r) && !Held(sys, r) ensures NoArtifactIfFailed(r) {
        var b :| 0 <= b < |sys'.batches| && sys'.batches[b].unwritten == Some(r);
        assert b < |sys.batches| ==> sys.batches[b].unwritten != Some(r);
      }
    }
  }

  lemma FailedNamesNothing(m: Manifest, t: Ticket, outcome: Outcome)
    requires FromRunner(outcome)
    ensures NoArtifactIfFailed(RecordFor(m, t, VerdictFor(t.estimate, outcome)))
  {
    RunnerCarriesNothing(outcome);
    CarriedIntoRecord(m, t, outcome);
  }

  lemma {:induction false} ExecuteTidy(m: Manifest, createdAt: int, moves: seq<Move>)
    requires NothingLeased(m) && Orderly(m, createdAt, moves)
    ensures Tidy(m, Execute(m, createdAt, moves))
  {
    hide SystemInv, Next, OrderlyMove;
    if moves == [] {
      CleanStart(m, createdAt);
    } else {
      var n := |moves| - 1;
      forall i | 0 <= i < n ensures OrderlyMove(Execute(m, createdAt, moves[..n][..i]), moves[..n][i]) {
        assert moves[..n][..i] == moves[..i];
        assert OrderlyMove(Execute(m, createdAt, moves[..i]), moves[i]);
      }
      ExecuteTidy(m, createdAt, moves[..n]);
      ExecuteInv(m, createdAt, moves[..n]);
      NextTidy(m, Execute(m, createdAt, moves[..n]), moves[n]);
    }
  }

  /**
   * In every orderly system the store reconciles, and records match events exactly when no batch
   * holds an unwritten record; in particular when every batch has returned, or raised in its lease.
   */
  lemma OrderlyReconciles(m: Manifest, createdAt: int, moves: seq<Move>, records: seq<Record>)
    requires NothingLeased(m) && Orderly(m, createdAt, moves)
    requires Lists(records, Execute(m, createdAt, moves).records)
    ensures var sys := Execute(m, createdAt, moves);
      && Reconciled(m, sys.trace.db)
      && (RecordsMatch(sys.trace.db.events, records) <==> NothingUnwritten(sys))
      && ((forall b | 0 <= b < |sys.batches| :: sys.batches[b].status.Returned?) ==> NothingUnwritten(sys))
  {
    hide Reconciled, RecordsMatch, Execute, Orderly, Inv, NothingDangles, MarksRounded;
    var sys := Execute(m, createdAt, moves);
    ExecuteInv(m, createdAt, moves);
    ExecuteTidy(m, createdAt, moves);
    TidyTrace(m, sys);
    forall r | r in sys.records ensures NoArtifactIfFailed(r) {
      assert Held(sys, r);
    }
    RecordsMatchFrom(m, sys, records);
  }

  lemma TidyTrace(m: Manifest, sys: System)
    requires SystemInv(m, sys) && Tidy(m, sys)
    ensures Reconciled(m, sys.trace.db)
  {
    CleanTrace(m, sys.trace);
  }
}
