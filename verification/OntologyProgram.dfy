/** The loops of the ontology module, proved against Ontologies. */
module OntologyProgram {
  import opened Prelude
  import opened Ontologies

  // ---------------------------------------------------------------- validation

  /** Whether a sequence of identifiers is nonblank and without repetition, by comparing with its set. */
  method QuestionsUnique(questions: seq<Question>) returns (ok: bool)
    ensures ok <==> QuestionsOk(questions)
  {
    ok := true;
    var seen: set<string> := {};
    for i := 0 to |questions|
      invariant forall q :: q in seen <==> exists j :: 0 <= j < i && questions[j].id == q
      invariant ok <==> QuestionsOk(questions[..i])
    {
      var id := questions[i].id;
      assert questions[..i + 1] == questions[..i] + [questions[i]];
      if id == "" || id in seen {
        ok := false;
      }
      seen := seen + {id};
    }
    assert questions[..|questions|] == questions;
  }

  /** The nested visit: a cycle, or every concept reached has a chain that ends. */
  method Visit(o: Ontology, node: string, visiting: set<string>, visited: set<string>)
    returns (ok: bool, visited': set<string>)
    requires ConceptsOk(o) && node in o.concepts && visiting <= o.concepts.Keys
    requires forall y | y in visiting :: LeadsTo(o, y, node)
    requires forall y | y in visited :: Ends(o, y)
    ensures ok ==> visited <= visited' && node in visited' && forall y | y in visited' :: Ends(o, y)
    ensures !ok ==> !Acyclic(o)
    decreases |o.concepts.Keys - visiting|
  {
    visited' := visited;
    if node in visiting {
      ghost var n :| n > 0 && Up(o, node, n) == Some(node);
      return false, visited;
    }
    if node in visited {
      return true, visited;
    }
    var parent := o.concepts[node].parent;
    UpOne(o, node);
    if parent.Some? {
      assert ConceptOk(o, o.concepts[node]);
      forall y | y in visiting + {node} ensures LeadsTo(o, y, parent.value) {
        LeadsOn(o, y, node);
      }
      assert o.concepts.Keys - (visiting + {node}) == o.concepts.Keys - visiting - {node};
      ok, visited' := Visit(o, parent.value, visiting + {node}, visited);
      if !ok {
        return;
      }
      EndsBelow(o, node);
    }
    ok, visited' := true, visited' + {node};
  }

  ghost predicate Ends(o: Ontology, x: string) {
    exists n: nat :: Up(o, x, n).None?
  }

  lemma EndsBelow(o: Ontology, x: string)
    requires x in o.concepts && o.concepts[x].parent.Some? && Ends(o, o.concepts[x].parent.value)
    ensures Ends(o, x)
  {
    UpOne(o, x);
    var n: nat :| Up(o, o.concepts[x].parent.value, n).None?;
    UpFrom(o, x, 1, n);
  }

  /** A chain that ends does not come back. */
  lemma {:induction false} CycleNeverEnds(o: Ontology, x: string, period: nat, n: nat)
    requires period > 0 && Up(o, x, period) == Some(x)
    ensures Up(o, x, n).Some?
  {
    if n >= period {
      CycleNeverEnds(o, x, period, n - period);
      UpFrom(o, x, period, n - period);
    } else {
      if Up(o, x, n).None? {
        GoneStays(o, x, n, period);
        assert false;
      }
    }
  }

  lemma {:induction false} GoneStays(o: Ontology, x: string, n: nat, k: nat)
    requires n <= k && Up(o, x, n).None?
    ensures Up(o, x, k).None?
  {
    if n < k {
      GoneStays(o, x, n, k - 1);
    }
  }

  method AssertAcyclic(o: Ontology) returns (ok: bool)
    requires ConceptsOk(o)
    ensures ok <==> Acyclic(o)
  {
    var visited: set<string> := {};
    var todo := o.concepts.Keys;
    while todo != {}
      invariant todo <= o.concepts.Keys && o.concepts.Keys - todo <= visited
      invariant forall y | y in visited :: Ends(o, y)
      decreases |todo|
    {
      var node :| node in todo;
      todo := todo - {node};
      ok, visited := Visit(o, node, {}, visited);
      if !ok {
        return;
      }
    }
    ok := true;
    forall x, n: nat | x in o.concepts && n > 0 ensures Up(o, x, n) != Some(x) {
      assert Ends(o, x);
      if Up(o, x, n) == Some(x) {
        var k: nat :| Up(o, x, k).None?;
        CycleNeverEnds(o, x, n, k);
        assert false;
      }
    }
  }

  method Validate(o: Ontology) returns (problem: Option<Error>)
    ensures problem == Validation(o)
  {
    if !ConceptsOk(o) {
      return Some(BadConcept);
    }
    if !RelationsOk(o) {
      return Some(BadRelation);
    }
    var unique := QuestionsUnique(o.questions);
    if !unique {
      return Some(BadQuestions);
    }
    var acyclic := AssertAcyclic(o);
    return if acyclic then None else Some(Cyclic);
  }

  // ---------------------------------------------------------------- queries

  method AncestorsOf(o: Ontology, x: string) returns (r: Result<seq<string>, Error>)
    requires Sound(o)
    ensures r == if x !in o.concepts then Err(UnknownConcept) else Ok(Ancestors(o, x))
  {
    if x !in o.concepts {
      return Err(UnknownConcept);
    }
    var output: seq<string> := [];
    var current := o.concepts[x].parent;
    ghost var at := x;
    assert output + Ancestors(o, at) == Ancestors(o, x);
    while current.Some?
      invariant at in o.concepts && current == o.concepts[at].parent
      invariant Ancestors(o, x) == output + Ancestors(o, at)
      decreases Height(o, at)
    {
      HeightDrops(o, at);
      assert output + Ancestors(o, at) == output + [current.value] + Ancestors(o, current.value);
      output := output + [current.value];
      at := current.value;
      current := o.concepts[current.value].parent;
    }
    assert Ancestors(o, at) == [] && output + [] == output;
    r := Ok(output);
  }

  method RequiredFeatureProfile(o: Ontology, x: string) returns (r: Result<map<string, string>, Error>)
    requires Sound(o)
    ensures r == if x !in o.concepts then Err(UnknownConcept) else Ok(Profile(o, x))
  {
    var up := AncestorsOf(o, x);
    if up.Err? {
      return Err(up.error);
    }
    AncestorsAre(o, x);
    var lineage := Reversed(up.value) + [x];
    var output: map<string, string> := map[];
    ProfileAlong(o, x);
    for i := 0 to |lineage|
      invariant output == Along(o, lineage[..i])
    {
      assert lineage[..i + 1][..i] == lineage[..i];
      assert lineage[i] in o.concepts by {
        ReversedMembers(up.value);
        assert lineage[i] in lineage;
      }
      var c := o.concepts[lineage[i]];
      ghost var before := output;
      for k := 0 to |c.required|
        invariant WithRequired(before, c.required) == WithRequired(output, c.required[k..])
      {
        assert c.required[k..][1..] == c.required[k + 1..];
        if c.required[k] !in output {
          output := output[c.required[k] := "necessary"];
        }
      }
      ghost var middle := output;
      for k := 0 to |c.requirements|
        invariant WithRequirements(middle, c.requirements) == WithRequirements(output, c.requirements[k..])
      {
        assert c.requirements[k..][1..] == c.requirements[k + 1..];
        output := output[c.requirements[k].0 := c.requirements[k].1];
      }
    }
    assert lineage[..|lineage|] == lineage;
    r := Ok(output);
  }

  function Reversed(s: seq<string>): seq<string> {
    if s == [] then [] else Reversed(s[1..]) + [s[0]]
  }

  lemma {:induction false} ReversedMembers(s: seq<string>)
    ensures forall x :: x in Reversed(s) <==> x in s
  {
    if s != [] {
      ReversedMembers(s[1..]);
      assert s == [s[0]] + s[1..];
    }
  }

  /** The profile accumulated along a lineage, from the root down. */
  function Along(o: Ontology, lineage: seq<string>): map<string, string> {
    if lineage == [] then map[]
    else
      var last := lineage[|lineage| - 1];
      var before := Along(o, lineage[..|lineage| - 1]);
      if last in o.concepts then Own(before, o.concepts[last]) else before
  }

  lemma {:induction false} ProfileAlong(o: Ontology, x: string)
    requires Sound(o) && x in o.concepts
    ensures Along(o, Reversed(Ancestors(o, x)) + [x]) == Profile(o, x)
    decreases Height(o, x)
  {
    hide Own, Height;
    var lineage := Reversed(Ancestors(o, x)) + [x];
    assert lineage[..|lineage| - 1] == Reversed(Ancestors(o, x));
    if o.concepts[x].parent.Some? {
      HeightDrops(o, x);
      var p := o.concepts[x].parent.value;
      ProfileAlong(o, p);
      assert Ancestors(o, x)[1..] == Ancestors(o, p);
    }
  }

  // ---------------------------------------------------------------- merging

  /** One ontology is added to what has been merged, unless it contradicts it. */
  method Absorb<T(==)>(into: map<string, T>, from: map<string, T>) returns (ok: bool, r: map<string, T>)
    ensures ok <==> forall x | x in into && x in from :: into[x] == from[x]
    ensures ok ==> r == into + from
  {
    r := into;
    var todo := from.Keys;
    while todo != {}
      invariant todo <= from.Keys
      invariant r == into + (map x | x in from && x !in todo :: from[x])
      invariant forall x | x in into && x in from && x !in todo :: into[x] == from[x]
      decreases |todo|
    {
      var key :| key in todo;
      if key in r && r[key] != from[key] {
        return false, r;
      }
      r := r[key := from[key]];
      todo := todo - {key};
    }
    ok := true;
  }

  method MergeOntologies(os: seq<Ontology>, id: string, version: string) returns (r: Result<Ontology, Error>)
    ensures !Agree(os) ==> r == Err(Conflict)
    ensures Agree(os) ==> r == match Validation(Merged(os, id, version))
      case Some(e) => Err(e)
      case None => Ok(Merged(os, id, version))
  {
    var m := Merged([], id, version);
    for i := 0 to |os|
      invariant Agree(os[..i]) && m == Merged(os[..i], id, version)
    {
      AgreeSnoc(os, i, id, version);
      assert os[..i + 1][..i] == os[..i];
      var ok, concepts := Absorb(m.concepts, os[i].concepts);
      if !ok {
        return Err(Conflict);
      }
      var relations: map<string, Relation>;
      ok, relations := Absorb(m.relations, os[i].relations);
      if !ok {
        return Err(Conflict);
      }
      m := Ontology(id, version, concepts, relations, m.questions + os[i].questions);
    }
    assert os[..|os|] == os;
    var problem := Validate(m);
    r := if problem.Some? then Err(problem.value) else Ok(m);
  }

  /** Agreeing with each of the earlier ontologies is agreeing with their merge. */
  lemma AgreeSnoc(os: seq<Ontology>, i: nat, id: string, version: string)
    requires i < |os| && Agree(os[..i])
    ensures Agree(os) ==> Agree(os[..i + 1])
    ensures Agree(os[..i + 1]) <==> AgreePair(Merged(os[..i], id, version), os[i])
  {
    hide Merged, Includes, Covered, AgreePair;
    MergedIs(os[..i], id, version);
    var m, before, after := Merged(os[..i], id, version), os[..i], os[..i + 1];
    if AgreePair(m, os[i]) {
      forall j | 0 <= j < i ensures AgreePair(before[j], os[i]) {
        IncludedAgrees(m, before[j], os[i]);
      }
      AgreeingSnoc(os, i);
    }
    if Agree(after) {
      forall j | 0 <= j < i ensures AgreePair(before[j], os[i]) {
        assert AgreePair(after[j], after[i]);
      }
      CoveredAgrees(m, before, os[i]);
    }
    if Agree(os) {
      forall j, k | 0 <= j <= i && 0 <= k <= i ensures AgreePair(after[j], after[k]) {
        assert AgreePair(os[j], os[k]);
      }
    }
  }

  lemma IncludedAgrees(m: Ontology, o: Ontology, last: Ontology)
    requires Includes(m, o) && AgreePair(m, last)
    ensures AgreePair(o, last)
  {
  }

  lemma AgreeBothWays(a: Ontology, b: Ontology)
    ensures AgreePair(a, a) && (AgreePair(a, b) ==> AgreePair(b, a))
  {
  }

  lemma AgreeingSnoc(os: seq<Ontology>, i: nat)
    requires i < |os| && Agree(os[..i]) && forall j | 0 <= j < i :: AgreePair(os[..i][j], os[i])
    ensures Agree(os[..i + 1])
  {
    hide AgreePair;
    var before, after := os[..i], os[..i + 1];
    forall j, k | 0 <= j <= i && 0 <= k <= i ensures AgreePair(after[j], after[k]) {
      assert j < i ==> after[j] == before[j];
      assert k < i ==> after[k] == before[k];
      AgreeBothWays(after[k], after[j]);
      if j < i && k < i {
        assert AgreePair(before[j], before[k]);
      }
    }
  }

  lemma CoveredAgrees(m: Ontology, os: seq<Ontology>, o: Ontology)
    requires Covered(m, os) && forall j | 0 <= j < |os| :: Includes(m, os[j]) && AgreePair(os[j], o)
    ensures AgreePair(m, o)
  {
    forall x | x in m.concepts && x in o.concepts ensures m.concepts[x] == o.concepts[x] {
      var j :| HasConcept(os, j, x);
      assert Includes(m, os[j]) && AgreePair(os[j], o);
    }
    forall x | x in m.relations && x in o.relations ensures m.relations[x] == o.relations[x] {
      var j :| HasRelation(os, j, x);
      assert Includes(m, os[j]) && AgreePair(os[j], o);
    }
  }
}
