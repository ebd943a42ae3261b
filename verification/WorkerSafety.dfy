/** Every interleaving of worker batches keeps records and terminal events together. */
module WorkerSafety {
  import opened Prelude
  import opened Campaign
  import opened Store
  import opened StoreRuns
  import opened StoreInvariants
  import opened StoreSafety
  import opened Worker
  import Money

  // ---------------------------------------------------------------- the invariant

  ghost predicate Accounted(events: seq<Event>, r: Record) {
    exists i | 0 <= i < |events| :: Accounts(r, events[i].columns)
  }

  ghost predicate Recorded(sys: System, e: Payload) {
    exists r | r in sys.records :: Accounts(r, e)
  }

  ghost predicate AwaitsRecord(sys: System, b: nat, e: Payload) {
    b < |sys.batches| && sys.batches[b].unwritten.Some? && Accounts(sys.batches[b].unwritten.value, e)
  }

  /** The ticket's lease is in the log. */
  ghost predicate Issued(events: seq<Event>, t: Ticket) {
    exists i | 0 <= i < |events| ::
      && events[i].columns.token == Some(t.token)
      && events[i].columns.cell == t.cell && events[i].columns.attempt == t.attempt
  }

  ghost predicate AllIssued(events: seq<Event>, tickets: seq<Ticket>) {
    forall k | 0 <= k < |tickets| :: Issued(events, tickets[k])
  }

  /** A record, written or about to be. */
  ghost predicate Held(sys: System, r: Record) {
    r in sys.records || exists b | 0 <= b < |sys.batches| :: sys.batches[b].unwritten == Some(r)
  }

  ghost predicate Backed(sys: System) {
    forall r | Held(sys, r) :: Accounted(sys.trace.db.events, r)
  }

  ghost predicate Covered(sys: System) {
    forall i | 0 <= i < |sys.trace.db.events| && WorkerTerminal(sys.trace.db.events[i].columns) ::
      Recorded(sys, sys.trace.db.events[i].columns) || exists b :: AwaitsRecord(sys, b, sys.trace.db.events[i].columns)
  }

  ghost predicate KeysUnique(sys: System) {
    && (forall r, r' | r in sys.records && r' in sys.records && RecordKey(r) == RecordKey(r') :: r == r')
    && (forall b, r | 0 <= b < |sys.batches| && sys.batches[b].unwritten.Some? && r in sys.records ::
          RecordKey(sys.batches[b].unwritten.value) != RecordKey(r))
    && (forall b, b' |
          0 <= b < b' < |sys.batches| && sys.batches[b].unwritten.Some? && sys.batches[b'].unwritten.Some? ::
          RecordKey(sys.batches[b].unwritten.value) != RecordKey(sys.batches[b'].unwritten.value))
  }

  ghost predicate TicketsIssued(sys: System) {
    forall b, k | 0 <= b < |sys.batches| && 0 <= k < |sys.batches[b].pending| ::
      Issued(sys.trace.db.events, sys.batches[b].pending[k])
  }

  ghost predicate ReturnedDone(sys: System) {
    forall b | 0 <= b < |sys.batches| && sys.batches[b].status.Returned? :: sys.batches[b].unwritten.None?
  }

  ghost predicate SystemInv(m: Manifest, sys: System) {
    Inv(m, sys.trace) && Backed(sys) && Covered(sys) && KeysUnique(sys) && TicketsIssued(sys) && ReturnedDone(sys)
  }

  // ---------------------------------------------------------------- what calls append

  /** The log grew, and only by events no worker accounts for. */
  ghost predicate GrewQuietly(events: seq<Event>, events': seq<Event>) {
    && events <= events'
    && forall i | |events| <= i < |events'| :: !WorkerTerminal(events'[i].columns)
  }

  lemma {:induction false} QuietActions(m: Manifest, db: Db, actions: seq<Action>)
    requires InRange(db, actions)
    requires forall i | 0 <= i < |actions| && actions[i].Finish? ::
      !(actions[i].next in {Succeeded, Failed, Quarantined} && WorkerReason(actions[i].reason))
    ensures GrewQuietly(db.events, DoAll(m, db, actions).events)
  {
    hide WorkerReason, RowFor;
    if actions != [] {
      var n := |actions| - 1;
      QuietActions(m, db, actions[..n]);
      var before := DoAll(m, db, actions[..n]);
      var d := DraftFor(m, before, actions[n]);
      assert actions[n].Finish? || d.next.Ready? || d.next.Leased?;
    }
  }

  lemma HarmlessIsQuiet(m: Manifest, t: Trace, call: Call)
    requires Fits(m, t.db) && Harmless(call)
    ensures GrewQuietly(t.db.events, After(m, t, call).db.events)
  {
    hide WorkerReason, PlanLease, PlanReclaim, LeaseError;
    var r := Plan(m, t.db, call);
    if r.Ok? {
      PlanRequeues(m, t.db, call);
      if call.Complete? {
        assert r.value[0].next == call.next && r.value[0].reason == call.reason;
      }
      QuietActions(m, t.db, r.value);
    }
  }

  /** A quiet growth of the log disturbs nothing. */
  lemma QuietKeeps(m: Manifest, sys: System, trace: Trace)
    requires Backed(sys) && Covered(sys) && KeysUnique(sys) && TicketsIssued(sys) && ReturnedDone(sys)
    requires GrewQuietly(sys.trace.db.events, trace.db.events)
    ensures var sys' := sys.(trace := trace);
      Backed(sys') && Covered(sys') && KeysUnique(sys') && TicketsIssued(sys') && ReturnedDone(sys')
  {
    var events, events' := sys.trace.db.events, trace.db.events;
    var sys' := sys.(trace := trace);
    forall r | Held(sys', r) ensures Accounted(events', r) {
      assert Held(sys, r);
      var i :| 0 <= i < |events| && Accounts(r, events[i].columns);
      assert events'[i] == events[i];
    }
    forall i | 0 <= i < |events'| && WorkerTerminal(events'[i].columns)
      ensures Recorded(sys', events'[i].columns) || exists b :: AwaitsRecord(sys', b, events'[i].columns)
    {
      assert events'[i] == events[i];
      if !Recorded(sys, events[i].columns) {
        var b :| AwaitsRecord(sys, b, events[i].columns);
        assert AwaitsRecord(sys', b, events'[i].columns);
      }
    }
    forall b, k | 0 <= b < |sys.batches| && 0 <= k < |sys.batches[b].pending|
      ensures Issued(events', sys.batches[b].pending[k])
    {
      IssuedLater(events, events', sys.batches[b].pending[k]);
    }
  }

  lemma IssuedLater(events: seq<Event>, events': seq<Event>, t: Ticket)
    requires events <= events' && Issued(events, t)
    ensures Issued(events', t)
  {
    var i :| 0 <= i < |events| && events[i].columns.token == Some(t.token) && events[i].columns.cell == t.cell
             && events[i].columns.attempt == t.attempt;
    assert events'[i] == events[i];
  }

  // ---------------------------------------------------------------- each move keeps the invariant

  /** A batch without an unwritten record can join or replace another such batch. */
  lemma BatchesKeep(m: Manifest, sys: System, batches: seq<Batch>)
    requires SystemInv(m, sys) && |sys.batches| <= |batches|
    requires forall b | 0 <= b < |sys.batches| :: batches[b].unwritten == sys.batches[b].unwritten
    requires forall b | |sys.batches| <= b < |batches| :: batches[b].unwritten.None?
    requires forall b, k | 0 <= b < |batches| && 0 <= k < |batches[b].pending| ::
      Issued(sys.trace.db.events, batches[b].pending[k])
    requires forall b | 0 <= b < |batches| && batches[b].status.Returned? :: batches[b].unwritten.None?
    ensures SystemInv(m, sys.(batches := batches))
  {
    hide Inv, Accounts;
    var sys' := sys.(batches := batches);
    var events := sys.trace.db.events;
    forall r | Held(sys', r) ensures Accounted(events, r) {
      assert Held(sys, r);
    }
    forall i | 0 <= i < |events| && WorkerTerminal(events[i].columns)
      ensures Recorded(sys', events[i].columns) || exists b :: AwaitsRecord(sys', b, events[i].columns)
    {
      if !Recorded(sys, events[i].columns) {
        var b :| AwaitsRecord(sys, b, events[i].columns);
        assert AwaitsRecord(sys', b, events[i].columns);
      }
    }
  }

  /** The leases of a greedy pass log tokens. */
  lemma {:induction false} IssuesCarryTokens(m: Manifest, db: Db, issues: seq<Action>, i: nat)
    requires InRange(db, issues) && forall k | 0 <= k < |issues| :: issues[k].Issue?
    requires |db.events| <= i < |db.events| + |issues|
    ensures DoAll(m, db, issues).events[i].columns.token.Some?
  {
    hide RowFor;
    var n := |issues| - 1;
    if i < |db.events| + n {
      IssuesCarryTokens(m, db, issues[..n], i);
    } else {
      assert DraftFor(m, DoAll(m, db, issues[..n]), issues[n]).token.Some?;
    }
  }

  /** The tickets of a lease call are leases in its log. */
  lemma TicketsAreIssued(m: Manifest, db: Db, issues: seq<Action>, seconds: int)
    requires InRange(db, issues) && forall i | 0 <= i < |issues| :: issues[i].Issue?
    ensures var events := DoAll(m, db, issues).events;
      AllIssued(events, TicketsFrom(m, events, |db.events|, seconds))
  {
    hide Do;
    var events := DoAll(m, db, issues).events;
    var tickets := TicketsFrom(m, events, |db.events|, seconds);
    forall k | 0 <= k < |tickets| ensures Issued(events, tickets[k]) {
      var i := |db.events| + k;
      var e := events[i].columns;
      IssuesCarryTokens(m, db, issues, i);
      assert tickets[k] == TicketFrom(m, e, seconds);
    }
  }

  lemma LeaseTickets(m: Manifest, db: Db, request: LeaseRequest)
    requires Fits(m, db) && PlanLease(m, db, request).Ok?
    ensures PlanReclaim(m, db, request.at).Ok?
    ensures var events := Step(m, db, Lease(request)).events;
      var base := |db.events| + |PlanReclaim(m, db, request.at).value|;
      base <= |events| && AllIssued(events, TicketsFrom(m, events, base, request.seconds))
  {
    hide PlanReclaim, PlanGreedy, DoAll, Issued;
    var expirations := PlanReclaim(m, db, request.at).value;
    var middle := DoAll(m, db, expirations);
    var issues := PlanGreedy(m, middle, request, KeyOrder(m.cells), 0, 0).value;
    GreedyIssues(m, middle, request, KeyOrder(m.cells), 0, 0);
    forall i | 0 <= i < |issues| ensures issues[i].Issue? {
      assert IssueFor(request, KeyOrder(m.cells), issues[i]);
    }
    DoAllConcat(m, db, expirations, issues);
    TicketsAreIssued(m, middle, issues, request.seconds);
  }

  lemma BeginKeeps(m: Manifest, sys: System, request: LeaseRequest)
    requires SystemInv(m, sys)
    ensures SystemInv(m, Next(m, sys, Begin(request)))
  {
    hide PlanLease, PlanReclaim, Inv, Accounts, Backed, Covered, KeysUnique, Issued, After;
    InvFits(m, sys.trace);
    var call := Lease(request);
    if PlanLease(m, sys.trace.db, request).Err? {
      BatchesKeep(m, sys, sys.batches + [Batch(Aborted, [], None)]);
    } else {
      var trace := After(m, sys.trace, call);
      CallInv(m, sys.trace, call);
      HarmlessIsQuiet(m, sys.trace, call);
      QuietKeeps(m, sys, trace);
      LeaseTickets(m, sys.trace.db, request);
      var base := |sys.trace.db.events| + |PlanReclaim(m, sys.trace.db, request.at).value|;
      var tickets := TicketsFrom(m, trace.db.events, base, request.seconds);
      assert AllIssued(trace.db.events, tickets);
      var batches := sys.batches + [Batch(Running, tickets, None)];
      forall b, k | 0 <= b < |batches| && 0 <= k < |batches[b].pending|
        ensures Issued(trace.db.events, batches[b].pending[k])
      {
        if b < |sys.batches| {
          assert batches[b] == sys.batches[b];
        } else {
          assert batches[b].pending == tickets;
        }
      }
      BatchesKeep(m, sys.(trace := trace), batches);
    }
  }

  /** A completed lease's attempt is the ticket's, and no earlier record has its token. */
  lemma TicketIsCurrent(m: Manifest, sys: System, t: Ticket)
    requires SystemInv(m, sys) && Issued(sys.trace.db.events, t)
    requires t.cell < |m.cells| && sys.trace.db.rows[t.cell].state.Leased?
    requires sys.trace.db.rows[t.cell].token == Some(t.token)
    ensures sys.trace.db.rows[t.cell].attempts == t.attempt
    ensures forall r | Held(sys, r) :: r.token != t.token
  {
    hide LogAgrees, LeaseFields, Fenced, Horizons, WithinCaps, Covered, KeysUnique, ReturnedDone, Counted;
    InvFits(m, sys.trace);
    var db := sys.trace.db;
    var i :| 0 <= i < |db.events| && db.events[i].columns.token == Some(t.token)
             && db.events[i].columns.cell == t.cell && db.events[i].columns.attempt == t.attempt;
    assert Current(db.rows[t.cell], t.cell, db.events[i].columns);
    forall r | Held(sys, r) ensures r.token != t.token {
      var j :| 0 <= j < |db.events| && Accounts(r, db.events[j].columns);
      assert Current(db.rows[t.cell], t.cell, db.events[j].columns);
    }
  }

  /** The event a completion appends is the one its record accounts for. */
  lemma CompletionAccounted(m: Manifest, sys: System, t: Ticket, v: Verdict, at: int)
    requires SystemInv(m, sys) && Issued(sys.trace.db.events, t)
    requires v.next in {Succeeded, Failed, Quarantined} && WorkerReason(v.reason) && Money.Round8(v.cost) == v.cost
    requires Plan(m, sys.trace.db, CompletionCall(t, v, at)).Ok?
    ensures var events := After(m, sys.trace, CompletionCall(t, v, at)).db.events;
      && |events| == |sys.trace.db.events| + 1 && sys.trace.db.events == events[..|sys.trace.db.events|]
      && Accounts(RecordFor(m, t, v), events[|sys.trace.db.events|].columns)
    ensures forall r | Held(sys, r) :: r.token != t.token
  {
    hide Inv, Backed, Covered, KeysUnique, TicketsIssued, ReturnedDone, WorkerReason;
    var call := CompletionCall(t, v, at);
    var db := sys.trace.db;
    assert Fits(m, db) by { InvFits(m, sys.trace); }
    var a := Finish(t.cell, at, t.worker, t.token, v.next, v.reason, v.cost, v.EventArtifact());
    assert Plan(m, db, call) == Ok([a]);
    TicketIsCurrent(m, sys, t);
    StepOne(m, db, call, a);
    assert After(m, sys.trace, call).db == Do(m, db, a);
  }

  lemma InvFits(m: Manifest, t: Trace)
    requires Inv(m, t)
    ensures Fits(m, t.db)
  {
  }

  lemma CompleteKeeps(m: Manifest, sys: System, b: nat, outcome: Outcome, at: int)
    requires SystemInv(m, sys)
    ensures SystemInv(m, Next(m, sys, Move.Complete(b, outcome, at)))
  {
    hide Inv, VerdictFor, Plan, After, Accounts;
    InvFits(m, sys.trace);
    if Possible(sys, Move.Complete(b, outcome, at)) {
      var batch := sys.batches[b];
      var t := batch.pending[0];
      var v := VerdictFor(t.estimate, outcome);
      var call := CompletionCall(t, v, at);
      VerdictIsWorkerTerminal(t.estimate, outcome);
      if Plan(m, sys.trace.db, call).Err? {
        BatchesKeep(m, sys, sys.batches[b := batch.(status := Aborted)]);
      } else {
        CompletionAccounted(m, sys, t, v, at);
        CallInv(m, sys.trace, call);
        CompletedKeeps(m, sys, b, RecordFor(m, t, v), After(m, sys.trace, call));
      }
    }
  }

  lemma CompletedKeeps(m: Manifest, sys: System, b: nat, r: Record, trace: Trace)
    requires SystemInv(m, sys) && Inv(m, trace)
    requires b < |sys.batches| && sys.batches[b].status.Running? && sys.batches[b].unwritten.None?
    requires |trace.db.events| == |sys.trace.db.events| + 1
    requires sys.trace.db.events == trace.db.events[..|sys.trace.db.events|]
    requires Accounts(r, trace.db.events[|sys.trace.db.events|].columns)
    requires forall r' | Held(sys, r') :: r'.token != r.token
    ensures SystemInv(m, System(trace, sys.batches[b := sys.batches[b].(unwritten := Some(r))], sys.records))
  {
    hide Inv, Accounts;
    var n := |sys.trace.db.events|;
    var events, events' := sys.trace.db.events, trace.db.events;
    var sys' := System(trace, sys.batches[b := sys.batches[b].(unwritten := Some(r))], sys.records);
    forall i | 0 <= i < n ensures events'[i] == events[i] {}
    forall r' | Held(sys', r') ensures Accounted(events', r') {
      if r' != r {
        assert Held(sys, r') by {
          if r' !in sys.records {
            var b' :| 0 <= b' < |sys'.batches| && sys'.batches[b'].unwritten == Some(r');
            assert sys.batches[b'].unwritten == Some(r');
          }
        }
        var i :| 0 <= i < n && Accounts(r', events[i].columns);
        assert Accounts(r', events'[i].columns);
      }
    }
    forall i | 0 <= i < |events'| && WorkerTerminal(events'[i].columns)
      ensures Recorded(sys', events'[i].columns) || exists b :: AwaitsRecord(sys', b, events'[i].columns)
    {
      if i == n {
        assert AwaitsRecord(sys', b, events'[i].columns);
      } else if !Recorded(sys, events[i].columns) {
        var b' :| AwaitsRecord(sys, b', events[i].columns);
        assert AwaitsRecord(sys', b', events'[i].columns);
      }
    }
    forall r' | r' in sys.records ensures RecordKey(r') != RecordKey(r) {
      assert Held(sys, r');
    }
    forall b' | 0 <= b' < |sys.batches| && sys.batches[b'].unwritten.Some?
      ensures RecordKey(sys.batches[b'].unwritten.value) != RecordKey(r)
    {
      assert Held(sys, sys.batches[b'].unwritten.value);
    }
    forall b', k | 0 <= b' < |sys'.batches| && 0 <= k < |sys'.batches[b'].pending|
      ensures Issued(events', sys'.batches[b'].pending[k])
    {
      assert sys'.batches[b'].pending == sys.batches[b'].pending;
      IssuedLater(events, events', sys.batches[b'].pending[k]);
    }
  }

  lemma WriteKeeps(m: Manifest, sys: System, b: nat)
    requires SystemInv(m, sys) && Possible(sys, Write(b))
    ensures SystemInv(m, Next(m, sys, Write(b)))
  {
    hide Inv, Accounts;
    InvFits(m, sys.trace);
    var sys' := Next(m, sys, Write(b));
    var r := sys.batches[b].unwritten.value;
    var events := sys.trace.db.events;
    forall r' | Held(sys', r') ensures Accounted(events, r') {
      assert Held(sys, r');
    }
    forall i | 0 <= i < |events| && WorkerTerminal(events[i].columns)
      ensures Recorded(sys', events[i].columns) || exists b :: AwaitsRecord(sys', b, events[i].columns)
    {
      if !Recorded(sys, events[i].columns) {
        var b' :| AwaitsRecord(sys, b', events[i].columns);
        if b' == b {
          assert r in sys'.records && Accounts(r, events[i].columns);
        } else {
          assert AwaitsRecord(sys', b', events[i].columns);
        }
      }
    }
    forall b', k | 0 <= b' < |sys'.batches| && 0 <= k < |sys'.batches[b'].pending|
      ensures Issued(events, sys'.batches[b'].pending[k])
    {
      if b' == b {
        assert sys'.batches[b].pending[k] == sys.batches[b].pending[k + 1];
      }
    }
  }

  lemma NextKeeps(m: Manifest, sys: System, move: Move)
    requires SystemInv(m, sys)
    ensures SystemInv(m, Next(m, sys, move))
  {
    hide Inv, After, Backed, Covered, KeysUnique, Plan, PlanLease, PlanReclaim, VerdictFor, Harmless;
    InvFits(m, sys.trace);
    match move
    case Begin(request) => BeginKeeps(m, sys, request);
    case Complete(b, outcome, at) => CompleteKeeps(m, sys, b, outcome, at);
    case Write(b) => if Possible(sys, move) { WriteKeeps(m, sys, b); }
    case Return(b) =>
      if Possible(sys, move) { BatchesKeep(m, sys, sys.batches[b := sys.batches[b].(status := Returned)]); }
    case Abort(b) =>
      if Possible(sys, move) { BatchesKeep(m, sys, sys.batches[b := sys.batches[b].(status := Aborted)]); }
    case Other(call) =>
      if Possible(sys, move) {
        CallInv(m, sys.trace, call);
        HarmlessIsQuiet(m, sys.trace, call);
        QuietKeeps(m, sys, After(m, sys.trace, call));
      }
  }

  lemma StartKeeps(m: Manifest, createdAt: int)
    requires NothingLeased(m)
    ensures SystemInv(m, System(Start(m, createdAt), [], {}))
  {
    StartInv(m, createdAt);
  }

  lemma {:induction false} ExecuteInv(m: Manifest, createdAt: int, moves: seq<Move>)
    requires NothingLeased(m)
    ensures SystemInv(m, Execute(m, createdAt, moves))
  {
    hide SystemInv, Next, Start;
    if moves == [] {
      StartKeeps(m, createdAt);
    } else {
      ExecuteInv(m, createdAt, moves[..|moves| - 1]);
      NextKeeps(m, Execute(m, createdAt, moves[..|moves| - 1]), moves[|moves| - 1]);
    }
  }

  // ---------------------------------------------------------------- every interleaving

  /** Every record has its terminal event. */
  ghost predicate RecordsHaveEvents(sys: System) {
    forall r | r in sys.records :: Accounted(sys.trace.db.events, r)
  }

  /** A terminal event lacking a record waits in some batch, and no batch has two. */
  ghost predicate AtMostOneLags(sys: System) {
    var events := sys.trace.db.events;
    && (forall i | 0 <= i < |events| && Lags(sys, i) :: exists b :: AwaitsRecord(sys, b, events[i].columns))
    && (forall b, i, j | 0 <= i < j < |events| && AwaitsRecord(sys, b, events[i].columns) ::
          !AwaitsRecord(sys, b, events[j].columns))
  }

  ghost predicate Lags(sys: System, i: nat)
    requires i < |sys.trace.db.events|
  {
    WorkerTerminal(sys.trace.db.events[i].columns) && !Recorded(sys, sys.trace.db.events[i].columns)
  }

  /** Records and worker terminal events are in bijection on cell, token and attempt. */
  ghost predicate Bijective(sys: System) {
    var events := sys.trace.db.events;
    && (forall r | r in sys.records :: Accounted(events, r))
    && (forall i | 0 <= i < |events| && WorkerTerminal(events[i].columns) :: Recorded(sys, events[i].columns))
    && (forall r, r' | r in sys.records && r' in sys.records && RecordKey(r) == RecordKey(r') :: r == r')
    && EventKeysUnique(events)
  }

  function EventKey(e: Payload): (CellId, Option<string>, nat) {
    (e.cell, e.token, e.attempt)
  }

  /** No two worker terminal events carry the same token for the same attempt. */
  ghost predicate EventKeysUnique(events: seq<Event>) {
    forall i, j | 0 <= i < j < |events| && WorkerTerminal(events[i].columns) && WorkerTerminal(events[j].columns) ::
      events[i].columns.token.Some? ==> EventKey(events[i].columns) != EventKey(events[j].columns)
  }

  ghost predicate NothingUnwritten(sys: System) {
    forall b | 0 <= b < |sys.batches| :: sys.batches[b].unwritten.None?
  }

  lemma KeysFromFence(m: Manifest, t: Trace)
    requires Inv(m, t)
    ensures EventKeysUnique(t.db.events)
  {
    hide LogAgrees, LeaseFields, LiveTokens, Horizons, WithinCaps, WorkerReason;
    var events := t.db.events;
    forall i, j | 0 <= i < j < |events| && WorkerTerminal(events[i].columns) && WorkerTerminal(events[j].columns)
      ensures events[i].columns.token.Some? ==> EventKey(events[i].columns) != EventKey(events[j].columns)
    {
      assert FencedPair(events[i].columns, events[j].columns);
    }
  }

  /**
   * Whatever the interleaving of batches, heartbeats, reclaims and requeues, and wherever batches
   * die: every record has its terminal event, and each batch leaves at most one terminal event
   * without a record.
   */
  lemma RecordsFollowEvents(m: Manifest, createdAt: int, moves: seq<Move>)
    requires NothingLeased(m)
    ensures RecordsHaveEvents(Execute(m, createdAt, moves))
    ensures AtMostOneLags(Execute(m, createdAt, moves))
  {
    hide Inv;
    ExecuteInv(m, createdAt, moves);
    var sys := Execute(m, createdAt, moves);
    KeysFromFence(m, sys.trace);
    forall r | r in sys.records ensures Accounted(sys.trace.db.events, r) {
      assert Held(sys, r);
    }
    var events := sys.trace.db.events;
    forall b, i, j | 0 <= i < j < |events| && AwaitsRecord(sys, b, events[i].columns)
      ensures !AwaitsRecord(sys, b, events[j].columns)
    {
      assert WorkerTerminal(events[i].columns);
    }
  }

  /** Records and events are in bijection exactly when no batch holds an unwritten record. */
  lemma BijectiveIffNothingUnwritten(m: Manifest, createdAt: int, moves: seq<Move>)
    requires NothingLeased(m)
    ensures var sys := Execute(m, createdAt, moves);
      && (Bijective(sys) <==> NothingUnwritten(sys))
      && ((forall b | 0 <= b < |sys.batches| :: sys.batches[b].status.Returned?) ==> Bijective(sys))
  {
    hide Execute;
    ExecuteInv(m, createdAt, moves);
    BijectiveFrom(m, Execute(m, createdAt, moves));
  }

  lemma BijectiveFrom(m: Manifest, sys: System)
    requires SystemInv(m, sys)
    ensures Bijective(sys) <==> NothingUnwritten(sys)
  {
    hide Inv, Accounts, WorkerTerminal, Recorded, Accounted, Covered;
    KeysFromFence(m, sys.trace);
    forall r | r in sys.records ensures Accounted(sys.trace.db.events, r) {
      assert Held(sys, r);
    }
    if Bijective(sys) {
      forall b | 0 <= b < |sys.batches| ensures sys.batches[b].unwritten.None? {
        if sys.batches[b].unwritten.Some? {
          UnwrittenUnrecorded(m, sys, b);
        }
      }
    }
    if NothingUnwritten(sys) {
      AllRecorded(sys);
    }
  }

  /** An unwritten record's event has no other record. */
  lemma UnwrittenUnrecorded(m: Manifest, sys: System, b: nat)
    requires SystemInv(m, sys) && b < |sys.batches| && sys.batches[b].unwritten.Some?
    ensures exists i :: 0 <= i < |sys.trace.db.events| && Lags(sys, i)
  {
    hide Inv, WorkerTerminal, Covered;
    var r := sys.batches[b].unwritten.value;
    assert Held(sys, r);
    var i :| 0 <= i < |sys.trace.db.events| && Accounts(r, sys.trace.db.events[i].columns);
    assert Lags(sys, i) by {
      if Recorded(sys, sys.trace.db.events[i].columns) {
        var r' :| r' in sys.records && Accounts(r', sys.trace.db.events[i].columns);
        assert false;
      }
    }
  }

  lemma AllRecorded(sys: System)
    requires Covered(sys) && NothingUnwritten(sys)
    ensures forall i | 0 <= i < |sys.trace.db.events| && WorkerTerminal(sys.trace.db.events[i].columns) ::
      Recorded(sys, sys.trace.db.events[i].columns)
  {
    hide WorkerTerminal, Accounts;
  }
}
