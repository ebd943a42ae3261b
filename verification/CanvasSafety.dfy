/** What every run of the drawing environment keeps: replayability, undo brackets, bounds. */
module CanvasSafety {
  import opened Prelude
  import opened Canvas

  datatype Call = Perform(action: Action) | Reset

  function Next(maxElements: int, s: State, call: Call): State {
    match call
    case Reset => EMPTY
    case Perform(action) => Apply(maxElements, s, action).0
  }

  function Run(maxElements: int, calls: seq<Call>): State {
    if calls == [] then EMPTY
    else Next(maxElements, Run(maxElements, calls[..|calls| - 1]), calls[|calls| - 1])
  }

  // ---------------------------------------------------------------- event sourcing

  /** Performing the recorded actions from an empty environment. */
  function Replay(maxElements: int, events: seq<Event>): State {
    if events == [] then EMPTY
    else Apply(maxElements, Replay(maxElements, events[..|events| - 1]), events[|events| - 1].action).0
  }

  /** The log alone rebuilds elements, history, checkpoints and the log with its hashes. */
  predicate Replayable(maxElements: int, s: State) {
    Replay(maxElements, s.events) == s
  }

  /** A call that raised and still changed the elements. */
  predicate Partial(maxElements: int, s: State, action: Action) {
    var (s', problem) := Apply(maxElements, s, action);
    problem.Some? && s' != s
  }

  /** A step from a replayable state leads to one exactly when it is not a partial failure. */
  lemma StepReplays(maxElements: int, s: State, action: Action)
    requires Replayable(maxElements, s)
    ensures Replayable(maxElements, Apply(maxElements, s, action).0) <==> !Partial(maxElements, s, action)
  {
    var (s', problem) := Apply(maxElements, s, action);
    if problem.None? {
      assert s'.events == s.events + [Event(action, StateHash(s'.elements))];
      assert s'.events[..|s.events|] == s.events;
    } else {
      assert s'.events == s.events;
    }
  }

  /** No call of the run fails part way. */
  predicate NeverPartial(maxElements: int, calls: seq<Call>) {
    forall i | 0 <= i < |calls| && calls[i].Perform? ::
      !Partial(maxElements, Run(maxElements, calls[..i]), calls[i].action)
  }

  /** Every run without a partial failure is event-sourced. */
  lemma {:induction false} RunReplays(maxElements: int, calls: seq<Call>)
    requires NeverPartial(maxElements, calls)
    ensures Replayable(maxElements, Run(maxElements, calls))
  {
    if calls != [] {
      var n := |calls| - 1;
      assert NeverPartial(maxElements, calls[..n]) by {
        forall i | 0 <= i < n ensures calls[..n][..i] == calls[..i] {}
      }
      RunReplays(maxElements, calls[..n]);
      if calls[n].Perform? {
        StepReplays(maxElements, Run(maxElements, calls[..n]), calls[n].action);
      }
    }
  }

  /** The log rebuilds the state at every point of the run. */
  ghost predicate AlwaysReplayable(maxElements: int, calls: seq<Call>) {
    forall i | 0 <= i <= |calls| :: Replayable(maxElements, Run(maxElements, calls[..i]))
  }

  /** Every point of a run replays exactly when none of its calls fails part way. */
  lemma AlwaysReplaysExactly(maxElements: int, calls: seq<Call>)
    ensures AlwaysReplayable(maxElements, calls) <==> NeverPartial(maxElements, calls)
  {
    hide Replayable, Partial, Apply;
    if NeverPartial(maxElements, calls) {
      forall i | 0 <= i <= |calls| ensures Replayable(maxElements, Run(maxElements, calls[..i])) {
        forall j | 0 <= j < i ensures calls[..i][..j] == calls[..j] {}
        RunReplays(maxElements, calls[..i]);
      }
    }
    if AlwaysReplayable(maxElements, calls) {
      forall i | 0 <= i < |calls| && calls[i].Perform?
        ensures !Partial(maxElements, Run(maxElements, calls[..i]), calls[i].action)
      {
        assert calls[..i + 1][..i] == calls[..i];
        assert Replayable(maxElements, Run(maxElements, calls[..i]));
        assert Replayable(maxElements, Run(maxElements, calls[..i + 1]));
        StepReplays(maxElements, Run(maxElements, calls[..i]), calls[i].action);
      }
    }
  }

  /** An undo right after a partial failure discards what it left behind: the state replays again. */
  lemma UndoRepairs(maxElements: int, s: State, action: Action)
    requires Replayable(maxElements, s) && Partial(maxElements, s, action) && s.history != []
    ensures var undone := Apply(maxElements, Apply(maxElements, s, action).0, Undo);
      undone.1.None? && undone == Apply(maxElements, s, Undo) && Replayable(maxElements, undone.0)
  {
    StepReplays(maxElements, s, Undo);
  }

  /** The ids before the first missing one, if any is missing. */
  function BeforeMissing(e: Elements, ids: seq<string>): seq<string> {
    if ids == [] || ids[0] !in e then [] else [ids[0]] + BeforeMissing(e, ids[1..])
  }

  function GroupOf(action: Action): Option<string>
    requires action.Group? || action.Ungroup?
  {
    if action.Group? then action.name else None
  }

  predicate AllAssigned(e: Elements, ids: seq<string>, group: Option<string>) {
    forall i | 0 <= i < |ids| :: ids[i] in e && e[ids[i]].group == Some(group)
  }

  /** Assigning changes nothing else: same ids, and each ends with the last group assigned to it. */
  lemma {:induction false} AssignAllIs(e: Elements, ids: seq<string>, group: Option<string>)
    ensures var (e', ok) := AssignAll(e, ids, group);
      && e'.Keys == e.Keys
      && (ok <==> forall i | 0 <= i < |ids| :: ids[i] in e)
      && forall id | id in e ::
           e'[id] == if id in BeforeMissing(e, ids) then e[id].(group := Some(group)) else e[id]
  {
    if ids != [] && ids[0] in e {
      var more := Assigned(e, ids[0], group);
      AssignAllIs(more, ids[1..], group);
      SameMissing(e, more, ids[1..]);
      assert more.Keys == e.Keys;
      forall i | 0 < i < |ids| ensures ids[i] == ids[1..][i - 1] {}
      assert ids == [ids[0]] + ids[1..];
    }
  }

  lemma {:induction false} SameMissing(e: Elements, e': Elements, ids: seq<string>)
    requires e.Keys == e'.Keys
    ensures BeforeMissing(e, ids) == BeforeMissing(e', ids)
  {
    if ids != [] && ids[0] in e {
      assert ids[0] in e.Keys;
      SameMissing(e, e', ids[1..]);
    } else if ids != [] {
      assert ids[0] !in e'.Keys;
    }
  }

  /**
   * Exactly which calls fail part way: a group or ungroup naming a missing id, where some id
   * before the first missing one does not already have that very group.
   */
  lemma PartialExactly(maxElements: int, s: State, action: Action)
    ensures Partial(maxElements, s, action) <==>
      && (action.Group? || action.Ungroup?)
      && (exists i | 0 <= i < |action.ids| :: action.ids[i] !in s.elements)
      && !AllAssigned(s.elements, BeforeMissing(s.elements, action.ids), GroupOf(action))
  {
    if action.Group? || action.Ungroup? {
      var ids, group, e := action.ids, GroupOf(action), s.elements;
      AssignAllIs(e, ids, group);
      InRangeBefore(e, ids);
      var (e', ok) := AssignAll(e, ids, group);
      if AllAssigned(e, BeforeMissing(e, ids), group) {
        assert e' == e;
      } else {
        var before := BeforeMissing(e, ids);
        var i :| 0 <= i < |before| && !(before[i] in e && e[before[i]].group == Some(group));
        assert before[i] in before;
        assert e'[before[i]] != e[before[i]];
      }
    }
  }

  lemma {:induction false} InRangeBefore(e: Elements, ids: seq<string>)
    ensures forall id | id in BeforeMissing(e, ids) :: id in e
  {
    if ids != [] && ids[0] in e {
      InRangeBefore(e, ids[1..]);
    }
  }

  /** Grouping an element and a missing id: the group sticks, and the log does not know. */
  lemma PartialGroupIsNotReplayable()
    ensures var square := Object({}, Some("rect"), None, None, None);
      var calls := [Perform(Add("a", square)), Perform(Group(["a", "missing"], Some("g")))];
      !Replayable(10, Run(10, calls))
  {
    var square := Object({}, Some("rect"), None, None, None);
    var first := Perform(Add("a", square));
    var group := Group(["a", "missing"], Some("g"));
    var calls := [first, Perform(group)];
    var s := Run(10, [first]);
    assert [first][..0] == [] && calls[..1] == [first];
    assert s == Next(10, Run(10, []), first);
    assert Sanitize(square, false) == Ok(Element(Some("rect"), None, None, None));
    assert s.elements == map["a" := Element(Some("rect"), None, None, None)];
    assert NeverPartial(10, [first]);
    RunReplays(10, [first]);
    assert group.ids[1] !in s.elements && group.ids[0] in s.elements;
    var before := BeforeMissing(s.elements, group.ids);
    assert before[0] == "a";
    PartialExactly(10, s, group);
    StepReplays(10, s, group);
    assert Run(10, calls) == Next(10, s, Perform(group));
  }

  // ---------------------------------------------------------------- undo

  /** How a successful action moves the depth of the undo stack. */
  function Push(action: Action): int {
    if action.Undo? then -1 else if action.Checkpoint? then 0 else 1
  }

  function Depth(actions: seq<Action>): int {
    if actions == [] then 0 else Depth(actions[..|actions| - 1]) + Push(actions[|actions| - 1])
  }

  function PerformAll(maxElements: int, s: State, actions: seq<Action>): State {
    if actions == [] then s
    else Apply(maxElements, PerformAll(maxElements, s, actions[..|actions| - 1]), actions[|actions| - 1]).0
  }

  predicate AllSucceed(maxElements: int, s: State, actions: seq<Action>) {
    forall i | 0 <= i < |actions| :: Apply(maxElements, PerformAll(maxElements, s, actions[..i]), actions[i]).1.None?
  }

  /** At no point more undos than edits, and as many at the end. */
  predicate Bracketed(actions: seq<Action>) {
    (forall i | 0 <= i <= |actions| :: Depth(actions[..i]) >= 0) && Depth(actions) == 0
  }

  /** What one successful action does to the undo stack. */
  lemma StepDepth(maxElements: int, s: State, action: Action)
    requires Apply(maxElements, s, action).1.None?
    ensures var t := Apply(maxElements, s, action).0;
      if Push(action) == -1 then s.history != [] && s.history == t.history + [t.elements]
      else if Push(action) == 0 then t.history == s.history && t.elements == s.elements
      else Push(action) == 1 && t.history == s.history + [s.elements]
  {
    hide Edit, Digits;
  }

  lemma {:induction false} DepthKeeps(maxElements: int, s: State, actions: seq<Action>)
    requires AllSucceed(maxElements, s, actions) && forall i | 0 <= i <= |actions| :: Depth(actions[..i]) >= 0
    ensures Depth(actions) >= 0
    ensures var t := PerformAll(maxElements, s, actions);
      && |t.history| == |s.history| + Depth(actions) && t.history[..|s.history|] == s.history
      && (if Depth(actions) == 0 then t.elements == s.elements else t.history[|s.history|] == s.elements)
  {
    hide Apply, Push;
    assert actions[..|actions|] == actions;
    if actions != [] {
      var n := |actions| - 1;
      forall i | 0 <= i <= n ensures actions[..n][..i] == actions[..i] {}
      forall i | 0 <= i < n
        ensures Apply(maxElements, PerformAll(maxElements, s, actions[..n][..i]), actions[..n][i]).1.None?
      {
        assert actions[..n][..i] == actions[..i];
      }
      forall i | 0 <= i <= n ensures Depth(actions[..n][..i]) >= 0 {
        assert actions[..n][..i] == actions[..i];
      }
      DepthKeeps(maxElements, s, actions[..n]);
      StepDepth(maxElements, PerformAll(maxElements, s, actions[..n]), actions[n]);
    }
  }

  /** Any well-bracketed mix of edits, restores, checkpoints and undos restores elements and history. */
  lemma BracketsRestore(maxElements: int, s: State, actions: seq<Action>)
    requires Bracketed(actions) && AllSucceed(maxElements, s, actions)
    ensures var t := PerformAll(maxElements, s, actions);
      t.elements == s.elements && t.history == s.history
  {
    DepthKeeps(maxElements, s, actions);
  }

  // ---------------------------------------------------------------- bounds

  predicate SafeElement(e: Element) {
    && e.tag.Some? && e.tag.value in TAGS
    && (e.attributes.Some? ==> SafeAttributes(e.attributes.value))
  }

  predicate SafeElements(maxElements: int, e: Elements) {
    && |e| <= (if maxElements < 0 then 0 else maxElements)
    && forall id | id in e :: SafeElement(e[id])
  }

  /** Bounds hold in the present and in everything undo or restore can bring back. */
  predicate Safe(maxElements: int, s: State) {
    && SafeElements(maxElements, s.elements)
    && (forall i | 0 <= i < |s.history| :: SafeElements(maxElements, s.history[i]))
    && (forall id | id in s.checkpoints :: SafeElements(maxElements, s.checkpoints[id]))
  }

  lemma SanitizeIsSafe(raw: RawElement, partial: bool)
    requires Sanitize(raw, partial).Ok?
    ensures var e := Sanitize(raw, partial).value;
      && (!partial ==> SafeElement(e))
      && (e.tag.Some? ==> e.tag.value in TAGS)
      && (e.attributes.Some? ==> SafeAttributes(e.attributes.value))
  {
    hide Active;
  }

  lemma EditIsSafe(maxElements: int, e: Elements, action: Action)
    requires SafeElements(maxElements, e)
    ensures SafeElements(maxElements, Edit(maxElements, e, action).0)
  {
    hide Sanitize, SafeElements, SafeElement, Updated, AssignAll;
    match action
    case Add(id, raw) =>
      if id !in e && |e| < maxElements && Sanitize(raw, false).Ok? {
        SanitizeIsSafe(raw, false);
        PutIsSafe(maxElements, e, id, Sanitize(raw, false).value);
      }
    case Update(id, raw) =>
      if id in e && Sanitize(raw, true).Ok? {
        UpdatedIsSafe(maxElements, e, id, raw);
        PutIsSafe(maxElements, e, id, Updated(e[id], Sanitize(raw, true).value));
      }
    case Delete(id) => RemoveIsSafe(maxElements, e, id);
    case Group(ids, name) => AssignedIsSafe(maxElements, e, ids, name);
    case Ungroup(ids) => AssignedIsSafe(maxElements, e, ids, None);
    case _ =>
  }

  lemma PutIsSafe(maxElements: int, e: Elements, id: string, x: Element)
    requires SafeElements(maxElements, e) && SafeElement(x) && (id in e || |e| < maxElements)
    ensures SafeElements(maxElements, e[id := x])
  {
    hide SafeElement;
    var e' := e[id := x];
    assert e'.Keys == e.Keys + {id};
    assert |e'| == |e'.Keys| && |e| == |e.Keys|;
  }

  lemma RemoveIsSafe(maxElements: int, e: Elements, id: string)
    requires SafeElements(maxElements, e)
    ensures SafeElements(maxElements, e - {id})
  {
    hide SafeElement;
    var e' := e - {id};
    assert e'.Keys == e.Keys - {id};
    assert |e'| == |e'.Keys| && |e| == |e.Keys|;
  }

  lemma UpdatedIsSafe(maxElements: int, e: Elements, id: string, raw: RawElement)
    requires SafeElements(maxElements, e) && id in e && Sanitize(raw, true).Ok?
    ensures SafeElement(Updated(e[id], Sanitize(raw, true).value))
  {
    hide Active, Sanitize;
    SanitizeIsSafe(raw, true);
  }

  lemma AssignedIsSafe(maxElements: int, e: Elements, ids: seq<string>, group: Option<string>)
    requires SafeElements(maxElements, e)
    ensures SafeElements(maxElements, AssignAll(e, ids, group).0)
  {
    hide AssignAll, SafeAttributes;
    AssignAllIs(e, ids, group);
    SameSize(e, AssignAll(e, ids, group).0);
  }

  lemma SameSize(e: Elements, e': Elements)
    requires e.Keys == e'.Keys
    ensures |e| == |e'|
  {
    assert |e| == |e.Keys| && |e'| == |e'.Keys|;
  }

  /** Size and allow-list bounds hold in every snapshot after every run, failures included. */
  lemma {:induction false} EverySnapshotIsSafe(maxElements: int, calls: seq<Call>)
    ensures Safe(maxElements, Run(maxElements, calls))
  {
    hide SafeElements, Edit;
    assert SafeElements(maxElements, map[]) by { EmptyIsSafe(maxElements); }
    if calls != [] {
      var n := |calls| - 1;
      EverySnapshotIsSafe(maxElements, calls[..n]);
      var s := Run(maxElements, calls[..n]);
      if calls[n].Perform? {
        EditIsSafe(maxElements, s.elements, calls[n].action);
      }
    }
  }

  lemma EmptyIsSafe(maxElements: int)
    ensures SafeElements(maxElements, map[])
  {
  }
}
