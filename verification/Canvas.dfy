/**
 * The drawing environment: elements edited step by step, with undo, checkpoints, restore and an
 * event log. A failing group or ungroup keeps the assignments it made before the missing id.
 */
module Canvas {
  import opened Prelude

  // ---------------------------------------------------------------- elements

  type Attributes = map<string, string>

  /** An element as stored; an absent field is None, and a present group may be null. */
  datatype Element = Element(
    tag: Option<string>,
    attributes: Option<Attributes>,
    text: Option<string>,
    group: Option<Option<string>>)

  type Elements = map<string, Element>

  datatype RawAttributes = NotAttributes | Attributes(values: Attributes)

  /** What a caller passes as an element or as changes. */
  datatype RawElement =
    | NotObject
    | Object(unknown: set<string>, tag: Option<string>, attributes: Option<RawAttributes>,
             text: Option<string>, group: Option<Option<string>>)

  datatype Error =
    | Unsupported
    | Exists
    | LimitExceeded
    | Missing
    | NothingToUndo
    | NotAnObject
    | UnknownFields
    | BadTag
    | BadAttributes
    | BadAttributeName
    | ActiveValue

  const TAGS := {"g", "path", "circle", "ellipse", "rect", "line", "polyline", "polygon"}

  const NAMES := {
    "x", "y", "x1", "x2", "y1", "y2", "cx", "cy", "r", "rx", "ry", "width", "height", "d", "points",
    "fill", "stroke", "stroke-width", "transform", "class", "data-role", "aria-label"}

  function LowerChar(c: char): char {
    if 'A' <= c <= 'Z' then c - 'A' + 'a' else c
  }

  function Lower(s: string): string {
    seq(|s|, i requires 0 <= i < |s| => LowerChar(s[i]))
  }

  predicate Contains(s: string, part: string) {
    exists i | 0 <= i <= |s| :: part <= s[i..]
  }

  predicate Active(value: string) {
    Contains(Lower(value), "javascript:") || Contains(Lower(value), "url(") || Contains(Lower(value), "data:")
  }

  predicate SafeAttributes(a: Attributes) {
    (forall name | name in a :: name in NAMES) && forall name | name in a :: !Active(a[name])
  }

  function Sanitize(raw: RawElement, partial: bool): Result<Element, Error> {
    if raw.NotObject? then Err(NotAnObject)
    else if raw.unknown != {} then Err(UnknownFields)
    else if (!partial || raw.tag.Some?) && (if raw.tag.Some? then raw.tag.value else "") !in TAGS then Err(BadTag)
    else if raw.attributes.None? then Ok(Element(raw.tag, None, raw.text, raw.group))
    else if raw.attributes.value.NotAttributes? then Err(BadAttributes)
    else
      var a := raw.attributes.value.values;
      if exists name | name in a :: name !in NAMES then Err(BadAttributeName)
      else if exists name | name in a :: Active(a[name]) then Err(ActiveValue)
      else Ok(Element(raw.tag, Some(a), raw.text, raw.group))
  }

  /** dict.update, field by field; attributes are merged name by name. */
  function Updated(e: Element, changes: Element): Element {
    Element(
      if changes.tag.Some? then changes.tag else e.tag,
      if changes.attributes.Some? then
        Some((if e.attributes.Some? then e.attributes.value else map[]) + changes.attributes.value)
      else e.attributes,
      if changes.text.Some? then changes.text else e.text,
      if changes.group.Some? then changes.group else e.group)
  }

  // ---------------------------------------------------------------- states and steps

  datatype Action =
    | Add(id: string, element: RawElement)
    | Update(id: string, changes: RawElement)
    | Delete(id: string)
    | Group(ids: seq<string>, name: Option<string>)
    | Ungroup(ids: seq<string>)
    | Checkpoint(given: Option<string>)
    | Undo
    | RestoreTo(checkpoint: string)
    | Other(kind: string)

  /** The state hash is a free constructor, so it is injective. */
  datatype StateHash = StateHash(elements: Elements)

  datatype Event = Event(action: Action, hash: StateHash)

  datatype State = State(
    elements: Elements,
    history: seq<Elements>,
    checkpoints: map<string, Elements>,
    events: seq<Event>)

  const EMPTY := State(map[], [], map[], [])

  function Assigned(e: Elements, id: string, group: Option<string>): Elements
    requires id in e
  {
    e[id := e[id].(group := Some(group))]
  }

  /** The loop of group and ungroup: assignments up to the first missing id, and whether one was missing. */
  function AssignAll(e: Elements, ids: seq<string>, group: Option<string>): (Elements, bool) {
    if ids == [] then (e, true)
    else if ids[0] !in e then (e, false)
    else AssignAll(Assigned(e, ids[0], group), ids[1..], group)
  }

  function Digits(n: nat): string {
    if n < 10 then [('0' as int + n) as char] else Digits(n / 10) + [('0' as int + n % 10) as char]
  }

  function CheckpointId(s: State, given: Option<string>): string {
    if given.Some? && given.value != "" then given.value else "checkpoint-" + Digits(|s.checkpoints| + 1)
  }

  /** The elements after an edit, and its error; only a failing group or ungroup changes them and fails. */
  function Edit(maxElements: int, e: Elements, action: Action): (Elements, Option<Error>) {
    match action
    case Add(id, raw) =>
      if id in e then (e, Some(Exists))
      else if |e| >= maxElements then (e, Some(LimitExceeded))
      else
        var r := Sanitize(raw, false);
        if r.Err? then (e, Some(r.error)) else (e[id := r.value], None)
    case Update(id, raw) =>
      if id !in e then (e, Some(Missing))
      else
        var r := Sanitize(raw, true);
        if r.Err? then (e, Some(r.error)) else (e[id := Updated(e[id], r.value)], None)
    case Delete(id) => if id !in e then (e, Some(Missing)) else (e - {id}, None)
    case Group(ids, name) =>
      var (e', ok) := AssignAll(e, ids, name);
      (e', if ok then None else Some(Missing))
    case Ungroup(ids) =>
      var (e', ok) := AssignAll(e, ids, None);
      (e', if ok then None else Some(Missing))
    case _ => (e, Some(Unsupported))
  }

  function Logged(s: State, action: Action): State {
    s.(events := s.events + [Event(action, StateHash(s.elements))])
  }

  /** One call of step or restore: the state it leaves and the error it raises. */
  function Apply(maxElements: int, s: State, action: Action): (State, Option<Error>) {
    match action
    case Checkpoint(given) =>
      (Logged(s.(checkpoints := s.checkpoints[CheckpointId(s, given) := s.elements]), action), None)
    case Undo =>
      if s.history == [] then (s, Some(NothingToUndo))
      else
        var n := |s.history| - 1;
        (Logged(s.(elements := s.history[n], history := s.history[..n]), action), None)
    case RestoreTo(id) =>
      if id !in s.checkpoints then (s, Some(Missing))
      else (Logged(s.(elements := s.checkpoints[id], history := s.history + [s.elements]), action), None)
    case Other(_) => (s, Some(Unsupported))
    case _ =>
      var (e, problem) := Edit(maxElements, s.elements, action);
      if problem.Some? then (s.(elements := e), problem)
      else (Logged(s.(elements := e, history := s.history + [s.elements]), action), None)
  }

  // ---------------------------------------------------------------- the environment

  class CanvasEnvironment {
    const maxElements: int
    var elements: Elements
    var history: seq<Elements>
    var checkpoints: map<string, Elements>
    var events: seq<Event>

    ghost function Contents(): State
      reads this
    {
      State(elements, history, checkpoints, events)
    }

    constructor (maxElements: int)
      ensures this.maxElements == maxElements && Contents() == EMPTY
    {
      this.maxElements := maxElements;
      elements, history, checkpoints, events := map[], [], map[], [];
    }

    method Reset()
      modifies this
      ensures Contents() == EMPTY
    {
      elements := map[];
      history := [];
      checkpoints := map[];
      events := [];
    }

    /** Performs one action, or raises; the new state is the specification's in both cases. */
    method Step(action: Action) returns (problem: Option<Error>)
      requires !action.RestoreTo?
      modifies this
      ensures (Contents(), problem) == Apply(maxElements, old(Contents()), action)
    {
      var before := elements;
      match action {
        case Add(id, raw) =>
          if id in elements {
            return Some(Exists);
          }
          if |elements| >= maxElements {
            return Some(LimitExceeded);
          }
          var r := Sanitize(raw, false);
          if r.Err? {
            return Some(r.error);
          }
          elements := elements[id := r.value];
          history := history + [before];
        case Update(id, raw) =>
          if id !in elements {
            return Some(Missing);
          }
          var r := Sanitize(raw, true);
          if r.Err? {
            return Some(r.error);
          }
          ApplyChanges(id, r.value);
          history := history + [before];
        case Delete(id) =>
          if id !in elements {
            return Some(Missing);
          }
          elements := elements - {id};
          history := history + [before];
        case Group(ids, name) =>
          var ok := AssignGroup(ids, name);
          if !ok {
            return Some(Missing);
          }
          history := history + [before];
        case Ungroup(ids) =>
          var ok := AssignGroup(ids, None);
          if !ok {
            return Some(Missing);
          }
          history := history + [before];
        case Checkpoint(given) =>
          var id := if given.Some? && given.value != "" then given.value else "checkpoint-" + Digits(|checkpoints| + 1);
          checkpoints := checkpoints[id := elements];
        case Undo =>
          if history == [] {
            return Some(NothingToUndo);
          }
          elements, history := history[|history| - 1], history[..|history| - 1];
        case Other(_) =>
          return Some(Unsupported);
      }
      events := events + [Event(action, StateHash(elements))];
      problem := None;
    }

    /** Attributes are merged first, then the remaining fields are overwritten. */
    method ApplyChanges(id: string, changes: Element)
      requires id in elements
      modifies this`elements
      ensures elements == old(elements)[id := Updated(old(elements)[id], changes)]
    {
      if changes.attributes.Some? {
        var existing := if elements[id].attributes.Some? then elements[id].attributes.value else map[];
        elements := elements[id := elements[id].(attributes := Some(existing + changes.attributes.value))];
      }
      if changes.tag.Some? {
        elements := elements[id := elements[id].(tag := changes.tag)];
      }
      if changes.text.Some? {
        elements := elements[id := elements[id].(text := changes.text)];
      }
      if changes.group.Some? {
        elements := elements[id := elements[id].(group := changes.group)];
      }
    }

    method AssignGroup(ids: seq<string>, group: Option<string>) returns (ok: bool)
      modifies this`elements
      ensures (elements, ok) == AssignAll(old(elements), ids, group)
    {
      for k := 0 to |ids|
        invariant AssignAll(old(elements), ids, group) == AssignAll(elements, ids[k..], group)
      {
        assert ids[k..][0] == ids[k] && ids[k..][1..] == ids[k + 1..];
        if ids[k] !in elements {
          return false;
        }
        elements := elements[ids[k] := elements[ids[k]].(group := Some(group))];
      }
      ok := true;
    }

    method Restore(id: string) returns (problem: Option<Error>)
      modifies this
      ensures (Contents(), problem) == Apply(maxElements, old(Contents()), RestoreTo(id))
    {
      if id !in checkpoints {
        return Some(Missing);
      }
      history := history + [elements];
      elements := checkpoints[id];
      events := events + [Event(RestoreTo(id), StateHash(elements))];
      problem := None;
    }
  }
}
