/** What the event log says: states and costs by replay, and when the chain is intact. */
module StoreLog {
  import opened Campaign
  import opened Store
  import opened StoreRuns

  function StateAfter(m: Manifest, events: seq<Event>, c: CellId): CellState
    requires c < |m.cells|
  {
    if events == [] then m.cells[c].initial
    else
      var last := events[|events| - 1].columns;
      if last.cell == c then last.next else StateAfter(m, events[..|events| - 1], c)
  }

  /** The replayed cost of a cell: the rounded amounts the log holds. */
  function LoggedCost(events: seq<Event>, c: CellId): real {
    if events == [] then 0.0
    else
      var last := events[|events| - 1].columns;
      LoggedCost(events[..|events| - 1], c) + (if last.cell == c then last.actual else 0.0)
  }

  /** The unrounded charges the callers passed for a cell. */
  function ChargedCost(events: seq<Event>, marks: seq<Mark>, c: CellId): real
    requires |events| == |marks|
  {
    if events == [] then 0.0
    else
      var n := |events| - 1;
      ChargedCost(events[..n], marks[..n], c) + (if events[n].columns.cell == c then marks[n].charge else 0.0)
  }

  /** The reconciler's checks on one event row. */
  predicate Linked(m: Manifest, events: seq<Event>, i: nat)
    requires i < |events|
  {
    var e := events[i];
    && e.columns.sequence == i
    && e.columns.parent == LastHash(events[..i])
    && e.stored == e.columns
    && e.hash == ContentHash(e.stored)
    && e.columns.cell < |m.cells|
    && e.columns.previous == StateAfter(m, events[..i], e.columns.cell)
    && Allowed(e.columns.previous, e.columns.next)
  }

  ghost predicate ChainValid(m: Manifest, events: seq<Event>) {
    forall i | 0 <= i < |events| :: Linked(m, events, i)
  }

  lemma ChainSnoc(m: Manifest, events: seq<Event>, e: Event)
    ensures ChainValid(m, events + [e]) <==> ChainValid(m, events) && Linked(m, events + [e], |events|)
  {
    var all := events + [e];
    forall i | 0 <= i < |events| ensures Linked(m, all, i) <==> Linked(m, events, i) {
      assert all[..i] == events[..i];
    }
    if ChainValid(m, events) && Linked(m, all, |events|) {
      forall i | 0 <= i < |all| ensures Linked(m, all, i) {
        if i < |events| {
          assert Linked(m, events, i);
        }
      }
    }
    if ChainValid(m, all) {
      forall i | 0 <= i < |events| ensures Linked(m, events, i) {
        assert Linked(m, all, i);
      }
    }
  }

  /** A cell sent back to ready from a live lease by a requeue, and not leased since. */
  predicate Dangling(events: seq<Event>, c: CellId) {
    if events == [] then false
    else
      var last := events[|events| - 1].columns;
      if last.cell == c then last.previous.Leased? && last.next.Ready? && last.token.None?
      else Dangling(events[..|events| - 1], c)
  }

  /** Appending an event changes the replayed values of its own cell only. */
  lemma LogSnoc(m: Manifest, events: seq<Event>, marks: seq<Mark>, e: Event, k: Mark, c: CellId)
    requires |events| == |marks| && c < |m.cells|
    ensures StateAfter(m, events + [e], c) == if e.columns.cell == c then e.columns.next else StateAfter(m, events, c)
    ensures LoggedCost(events + [e], c)
         == LoggedCost(events, c) + (if e.columns.cell == c then e.columns.actual else 0.0)
    ensures ChargedCost(events + [e], marks + [k], c)
         == ChargedCost(events, marks, c) + (if e.columns.cell == c then k.charge else 0.0)
    ensures Dangling(events + [e], c) ==
      if e.columns.cell == c then e.columns.previous.Leased? && e.columns.next.Ready? && e.columns.token.None?
      else Dangling(events, c)
  {
    assert (events + [e])[..|events|] == events;
    assert (marks + [k])[..|marks|] == marks;
  }

  lemma {:induction false} DanglingIsReady(m: Manifest, events: seq<Event>, c: CellId)
    requires c < |m.cells|
    ensures Dangling(events, c) ==> StateAfter(m, events, c).Ready?
  {
    if events != [] {
      DanglingIsReady(m, events[..|events| - 1], c);
    }
  }
}
