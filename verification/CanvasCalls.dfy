/**
 * What each action of the drawing environment does, field by field: when it is accepted and what it
 * leaves, and that a restore brings back the drawing of its checkpoint, whatever happened since.
 */
module CanvasCalls {
  import opened Prelude
  import opened Canvas
  import opened CanvasSafety

  // ---------------------------------------------------------------- what may be stored

  function LowerCase(c: char): char {
    if 65 <= c as int <= 90 then (c as int + 32) as char else c
  }

  /** The text occurs somewhere, letter case apart. */
  predicate OccursIn(s: string, part: string, i: int) {
    && 0 <= i && i + |part| <= |s|
    && forall k | 0 <= k < |part| :: LowerCase(s[i + k]) == part[k]
  }

  ghost predicate Forbidden(value: string) {
    || (exists i :: OccursIn(value, "javascript:", i))
    || (exists i :: OccursIn(value, "url(", i))
    || (exists i :: OccursIn(value, "data:", i))
  }

  lemma ContainsMeans(value: string, part: string)
    ensures Contains(Lower(value), part) <==> exists i :: OccursIn(value, part, i)
  {
    var s := Lower(value);
    if Contains(s, part) {
      var i :| 0 <= i <= |s| && part <= s[i..];
      forall k | 0 <= k < |part| ensures LowerCase(value[i + k]) == part[k] {
        assert s[i..][k] == s[i + k];
      }
      assert OccursIn(value, part, i);
    }
    if i :| OccursIn(value, part, i) {
      forall k | 0 <= k < |part| ensures s[i..][k] == part[k] {
        assert LowerCase(value[i + k]) == part[k];
      }
      assert part <= s[i..];
    }
  }

  lemma ActiveMeans(value: string)
    ensures Active(value) <==> Forbidden(value)
  {
    hide Contains, Lower;
    ContainsMeans(value, "javascript:");
    ContainsMeans(value, "url(");
    ContainsMeans(value, "data:");
  }

  const ALLOWED_TAGS := {"g", "path", "circle", "ellipse", "rect", "line", "polyline", "polygon"}

  const ALLOWED_NAMES := {
    "x", "y", "x1", "x2", "y1", "y2", "cx", "cy", "r", "rx", "ry", "width", "height", "d", "points",
    "fill", "stroke", "stroke-width", "transform", "class", "data-role", "aria-label"}

  predicate NamesAllowed(raw: RawElement) {
    raw.Object? && raw.attributes.Some? && raw.attributes.value.Attributes? ==>
      forall name | name in raw.attributes.value.values :: name in ALLOWED_NAMES
  }

  ghost predicate ValuesAllowed(raw: RawElement) {
    raw.Object? && raw.attributes.Some? && raw.attributes.value.Attributes? ==>
      forall name | name in raw.attributes.value.values :: !Forbidden(raw.attributes.value.values[name])
  }

  predicate TagAllowed(raw: RawElement, partial: bool) {
    raw.Object? ==> if raw.tag.Some? then raw.tag.value in ALLOWED_TAGS else partial
  }

  /** An object without unknown fields, with an allowed tag, and with allowed attributes if any. */
  ghost predicate Acceptable(raw: RawElement, partial: bool) {
    && raw.Object? && raw.unknown == {} && TagAllowed(raw, partial)
    && (raw.attributes.Some? ==> raw.attributes.value.Attributes?)
    && NamesAllowed(raw) && ValuesAllowed(raw)
  }

  function FirstFault(raw: RawElement, partial: bool): Error {
    if raw.NotObject? then NotAnObject
    else if raw.unknown != {} then UnknownFields
    else if !TagAllowed(raw, partial) then BadTag
    else if raw.attributes.Some? && raw.attributes.value.NotAttributes? then BadAttributes
    else if !NamesAllowed(raw) then BadAttributeName
    else ActiveValue
  }

  /** Sanitising accepts exactly the acceptable and copies it; otherwise the first failing check is named. */
  lemma SanitizeMeans(raw: RawElement, partial: bool)
    ensures var r := Sanitize(raw, partial);
      && (r.Ok? <==> Acceptable(raw, partial))
      && (r.Ok? ==>
            && r.value.tag == raw.tag && r.value.text == raw.text && r.value.group == raw.group
            && r.value.attributes == (if raw.attributes.None? then None else Some(raw.attributes.value.values)))
      && (r.Err? ==> r.error == FirstFault(raw, partial))
  {
    hide Active, Forbidden;
    assert "" !in TAGS;
    if raw.Object? && raw.attributes.Some? && raw.attributes.value.Attributes? {
      var a := raw.attributes.value.values;
      forall name | name in a ensures Active(a[name]) <==> Forbidden(a[name]) {
        ActiveMeans(a[name]);
      }
    }
  }

  // ---------------------------------------------------------------- what each action does

  /** The action is logged with the hash of the elements it leaves. */
  predicate LoggedAs(s: State, t: State, action: Action) {
    t.events == s.events + [Event(action, StateHash(t.elements))]
  }

  /** An edit: the former elements are saved, checkpoints are left alone. */
  predicate Edited(s: State, t: State, action: Action) {
    t.history == s.history + [s.elements] && t.checkpoints == s.checkpoints && LoggedAs(s, t, action)
  }

  /** Only this id has changed. */
  predicate OnlyAt(e: Elements, e': Elements, id: string) {
    (forall x | x in e && x != id :: x in e' && e'[x] == e[x]) && forall x | x in e' && x != id :: x in e
  }

  lemma AddMeans(max: int, s: State, id: string, raw: RawElement)
    ensures var (t, problem) := Apply(max, s, Add(id, raw));
      && (problem == None <==> id !in s.elements && |s.elements| < max && Acceptable(raw, false))
      && (problem != None ==> t == s && problem == Some(
            if id in s.elements then Exists
            else if |s.elements| >= max then LimitExceeded
            else FirstFault(raw, false)))
      && (problem == None ==>
            && Edited(s, t, Add(id, raw)) && OnlyAt(s.elements, t.elements, id) && id in t.elements
            && var e := t.elements[id];
               && e.tag == raw.tag && e.text == raw.text && e.group == raw.group
               && e.attributes == if raw.attributes.None? then None else Some(raw.attributes.value.values))
  {
    hide Sanitize, Acceptable;
    SanitizeMeans(raw, false);
    AcceptedIsObject(raw, false);
  }

  lemma AcceptedIsObject(raw: RawElement, partial: bool)
    ensures Acceptable(raw, partial) ==> raw.Object? && (raw.attributes.Some? ==> raw.attributes.value.Attributes?)
  {
  }

  /** Attributes after an update: merged name by name, the changes winning. */
  predicate MergedAttributes(before: Option<Attributes>, changes: Option<RawAttributes>, after: Option<Attributes>) {
    if changes.None? then after == before
    else
      var was := if before.Some? then before.value else map[];
      && changes.value.Attributes? && after.Some?
      && after.value.Keys == was.Keys + changes.value.values.Keys
      && (forall name | name in changes.value.values :: after.value[name] == changes.value.values[name])
      && forall name | name in was && name !in changes.value.values :: after.value[name] == was[name]
  }

  lemma UpdateMeans(max: int, s: State, id: string, raw: RawElement)
    ensures var (t, problem) := Apply(max, s, Update(id, raw));
      && (problem == None <==> id in s.elements && Acceptable(raw, true))
      && (problem != None ==> t == s && problem == Some(if id in s.elements then FirstFault(raw, true) else Missing))
      && (problem == None ==>
            && Edited(s, t, Update(id, raw)) && OnlyAt(s.elements, t.elements, id) && id in t.elements
            && var was, e := s.elements[id], t.elements[id];
               && e.tag == (if raw.tag.Some? then raw.tag else was.tag)
               && e.text == (if raw.text.Some? then raw.text else was.text)
               && e.group == (if raw.group.Some? then raw.group else was.group)
               && MergedAttributes(was.attributes, raw.attributes, e.attributes))
  {
    hide Sanitize, Acceptable;
    SanitizeMeans(raw, true);
    AcceptedIsObject(raw, true);
  }

  lemma DeleteMeans(max: int, s: State, id: string)
    ensures var (t, problem) := Apply(max, s, Delete(id));
      && (problem == None <==> id in s.elements)
      && (problem != None ==> t == s && problem == Some(Missing))
      && (problem == None ==> Edited(s, t, Delete(id)) && OnlyAt(s.elements, t.elements, id) && id !in t.elements)
  {
  }

  function Assigns(action: Action): Option<string> {
    match action
    case Group(_, name) => name
    case _ => None
  }

  /** The group of every listed element, as named, or null for an ungroup; nothing else changes. */
  lemma GroupMeans(max: int, s: State, action: Action)
    requires action.Group? || action.Ungroup?
    ensures var (t, problem) := Apply(max, s, action);
      && (problem == None <==> forall i | 0 <= i < |action.ids| :: action.ids[i] in s.elements)
      && (problem == None ==>
            && Edited(s, t, action) && t.elements.Keys == s.elements.Keys
            && forall id | id in s.elements ::
                 t.elements[id] == if id in action.ids then s.elements[id].(group := Some(Assigns(action)))
                                   else s.elements[id])
      && (problem != None ==>
            && problem == Some(Missing) && t.history == s.history
            && t.checkpoints == s.checkpoints && t.events == s.events)
  {
    var group := if action.Group? then action.name else None;
    AssignAllIs(s.elements, action.ids, group);
    if forall i | 0 <= i < |action.ids| :: action.ids[i] in s.elements {
      NoneMissing(s.elements, action.ids);
    }
  }

  lemma {:induction false} NoneMissing(e: Elements, ids: seq<string>)
    requires forall i | 0 <= i < |ids| :: ids[i] in e
    ensures BeforeMissing(e, ids) == ids
  {
    if ids != [] {
      assert forall i | 0 <= i < |ids[1..]| :: ids[1..][i] == ids[i + 1];
      NoneMissing(e, ids[1..]);
      assert ids == [ids[0]] + ids[1..];
    }
  }

  lemma UndoMeans(max: int, s: State)
    ensures var (t, problem) := Apply(max, s, Undo);
      && (problem == None <==> s.history != [])
      && (problem != None ==> t == s && problem == Some(NothingToUndo))
      && (problem == None ==>
            s.history == t.history + [t.elements] && t.checkpoints == s.checkpoints && LoggedAs(s, t, Undo))
  {
  }

  /** A checkpoint saves the elements under its id, and neither changes them nor enters the history. */
  lemma CheckpointMeans(max: int, s: State, given: Option<string>)
    ensures var (t, problem) := Apply(max, s, Checkpoint(given));
      var id := CheckpointId(s, given);
      && problem == None && t.elements == s.elements && t.history == s.history && LoggedAs(s, t, Checkpoint(given))
      && id in t.checkpoints && t.checkpoints[id] == s.elements
      && (forall x | x in s.checkpoints && x != id :: x in t.checkpoints && t.checkpoints[x] == s.checkpoints[x])
      && (forall x | x in t.checkpoints && x != id :: x in s.checkpoints)
  {
    hide CheckpointId;
  }

  lemma RestoreMeans(max: int, s: State, id: string)
    ensures var (t, problem) := Apply(max, s, RestoreTo(id));
      && (problem == None <==> id in s.checkpoints)
      && (problem != None ==> t == s && problem == Some(Missing))
      && (problem == None ==> t.elements == s.checkpoints[id] && Edited(s, t, RestoreTo(id)))
  {
  }

  lemma OtherMeans(max: int, s: State, kind: string)
    ensures Apply(max, s, Other(kind)) == (s, Some(Unsupported))
  {
  }

  // ---------------------------------------------------------------- checkpoint names

  /** The decimal numeral of a number: its digits, the first not zero unless it is the only one. */
  predicate Numeral(text: string, n: nat) {
    && text != []
    && (forall i | 0 <= i < |text| :: '0' <= text[i] <= '9')
    && (|text| > 1 ==> text[0] != '0')
    && Decimal(text) == n
  }

  function Decimal(text: string): int {
    if text == [] then 0 else 10 * Decimal(text[..|text| - 1]) + (text[|text| - 1] as int - 48)
  }

  lemma {:induction false} DigitsAreNumeral(n: nat)
    ensures Numeral(Digits(n), n) && (n > 0 ==> Digits(n)[0] != '0')
  {
    if n >= 10 {
      DigitsAreNumeral(n / 10);
      var text := Digits(n);
      assert text[..|text| - 1] == Digits(n / 10);
    } else {
      assert Digits(n)[..0] == [];
    }
  }

  /** The id given if it is not empty, otherwise "checkpoint-" and one more than there are. */
  lemma CheckpointIdMeans(s: State, given: Option<string>)
    ensures var id := CheckpointId(s, given);
      if given != None && given.value != "" then id == given.value
      else |id| > 11 && id[..11] == "checkpoint-" && Numeral(id[11..], |s.checkpoints| + 1)
  {
    DigitsAreNumeral(|s.checkpoints| + 1);
    hide Digits;
  }

  // ---------------------------------------------------------------- what restore brings back

  /** The call neither resets nor saves under this id. */
  predicate Spares(s: State, call: Call, id: string) {
    && call != Reset
    && (call.Perform? && call.action.Checkpoint? ==> CheckpointId(s, call.action.given) != id)
  }

  ghost predicate AllSpare(max: int, first: seq<Call>, more: seq<Call>, id: string) {
    forall i | 0 <= i < |more| :: Spares(Run(max, first + more[..i]), more[i], id)
  }

  lemma {:induction false} CheckpointStays(max: int, first: seq<Call>, more: seq<Call>, id: string, saved: Elements)
    requires id in Run(max, first).checkpoints && Run(max, first).checkpoints[id] == saved
    requires AllSpare(max, first, more, id)
    ensures var t := Run(max, first + more); id in t.checkpoints && t.checkpoints[id] == saved
  {
    hide Next, Spares;
    if more == [] {
      assert first + more == first;
    } else {
      var n := |more| - 1;
      forall i | 0 <= i < n ensures Spares(Run(max, first + more[..n][..i]), more[..n][i], id) {
        assert more[..n][..i] == more[..i];
        assert Spares(Run(max, first + more[..i]), more[i], id);
      }
      CheckpointStays(max, first, more[..n], id, saved);
      assert (first + more)[..|first| + n] == first + more[..n];
      StepSpares(max, Run(max, first + more[..n]), more[n], id);
    }
  }

  lemma StepSpares(max: int, s: State, call: Call, id: string)
    requires Spares(s, call, id) && id in s.checkpoints
    ensures var t := Next(max, s, call); id in t.checkpoints && t.checkpoints[id] == s.checkpoints[id]
  {
    hide Edit, Digits;
  }

  /**
   * After a checkpoint, and whatever calls follow that neither reset nor save under its id, a
   * restore of that id succeeds and leaves exactly the elements there were at the checkpoint.
   */
  lemma CheckpointRestores(max: int, before: seq<Call>, given: Option<string>, more: seq<Call>)
    requires var id := CheckpointId(Run(max, before), given);
      AllSpare(max, before + [Perform(Checkpoint(given))], more, id)
    ensures var id := CheckpointId(Run(max, before), given);
      var s := Run(max, before + [Perform(Checkpoint(given))] + more);
      var (t, problem) := Apply(max, s, RestoreTo(id));
      problem == None && t.elements == Run(max, before).elements && t.history == s.history + [s.elements]
  {
    hide CheckpointId, AllSpare, Edit;
    var s := Run(max, before);
    var id := CheckpointId(s, given);
    var first := before + [Perform(Checkpoint(given))];
    assert first[..|before|] == before;
    CheckpointMeans(max, s, given);
    assert Run(max, first) == Apply(max, s, Checkpoint(given)).0;
    CheckpointStays(max, first, more, id, s.elements);
  }
}
