/** Concept inheritance: validation, ancestors, feature profiles and merging. */
module Ontologies {
  import opened Prelude

  datatype Concept = Concept(
    parent: Option<string>,
    required: seq<string>,
    requirements: seq<(string, string)>,
    rest: string)

  datatype Relation = Relation(inverse: Option<string>, rest: string)

  datatype Question = Question(id: string, rest: string)

  datatype Ontology = Ontology(
    id: string,
    version: string,
    concepts: map<string, Concept>,
    relations: map<string, Relation>,
    questions: seq<Question>)

  datatype Error = BadConcept | BadRelation | BadQuestions | Cyclic | Conflict | UnknownConcept

  const TIERS := {"necessary", "diagnostic", "common", "optional", "style-dependent", "prohibited"}

  // ---------------------------------------------------------------- what validation means

  predicate ConceptOk(o: Ontology, c: Concept) {
    && (c.parent.Some? ==> c.parent.value in o.concepts)
    && forall i | 0 <= i < |c.requirements| :: c.requirements[i].1 in TIERS
  }

  predicate ConceptsOk(o: Ontology) {
    forall x | x in o.concepts :: ConceptOk(o, o.concepts[x])
  }

  predicate RelationOk(o: Ontology, r: Relation) {
    r.inverse.Some? ==> r.inverse.value in o.relations
  }

  predicate RelationsOk(o: Ontology) {
    forall x | x in o.relations :: RelationOk(o, o.relations[x])
  }

  ghost predicate QuestionsOk(questions: seq<Question>) {
    && (forall i | 0 <= i < |questions| :: questions[i].id != "")
    && forall i, j | 0 <= i < j < |questions| :: questions[i].id != questions[j].id
  }

  /** The n-th concept up the inheritance chain, if there is one. */
  function Up(o: Ontology, x: string, n: nat): Option<string> {
    if n == 0 then Some(x)
    else
      match Up(o, x, n - 1)
      case None => None
      case Some(y) => if y in o.concepts then o.concepts[y].parent else None
  }

  /** No concept is its own proper ancestor. */
  ghost predicate Acyclic(o: Ontology) {
    forall x, n | x in o.concepts && n > 0 :: Up(o, x, n) != Some(x)
  }

  /** The error validate raises, if any, in the order of its checks. */
  ghost function Validation(o: Ontology): Option<Error> {
    if !ConceptsOk(o) then Some(BadConcept)
    else if !RelationsOk(o) then Some(BadRelation)
    else if !QuestionsOk(o.questions) then Some(BadQuestions)
    else if !Acyclic(o) then Some(Cyclic)
    else None
  }

  ghost predicate Sound(o: Ontology) {
    ConceptsOk(o) && Acyclic(o)
  }

  // ---------------------------------------------------------------- chains end

  lemma {:induction false} UpFrom(o: Ontology, x: string, m: nat, n: nat)
    requires Up(o, x, m).Some?
    ensures Up(o, x, m + n) == Up(o, Up(o, x, m).value, n)
  {
    if n > 0 {
      UpFrom(o, x, m, n - 1);
      assert m + n - 1 == m + (n - 1);
    }
  }

  lemma UpOne(o: Ontology, x: string)
    ensures Up(o, x, 1) == if x in o.concepts then o.concepts[x].parent else None
  {
    assert Up(o, x, 0) == Some(x);
  }

  ghost predicate LeadsTo(o: Ontology, x: string, y: string) {
    exists n :: n > 0 && Up(o, x, n) == Some(y)
  }

  lemma LeadsOn(o: Ontology, x: string, y: string)
    requires y in o.concepts && o.concepts[y].parent.Some?
    requires x == y || LeadsTo(o, x, y)
    ensures LeadsTo(o, x, o.concepts[y].parent.value)
  {
    if x == y {
      UpOne(o, x);
    } else {
      var n :| n > 0 && Up(o, x, n) == Some(y);
      assert Up(o, x, n + 1) == o.concepts[y].parent;
    }
  }

  lemma ParentKnown(o: Ontology, x: string)
    requires ConceptsOk(o) && x in o.concepts && o.concepts[x].parent.Some?
    ensures o.concepts[x].parent.value in o.concepts
  {
    assert ConceptOk(o, o.concepts[x]);
  }

  /** In a sound ontology every chain ends; the argument is that of the depth-first search. */
  lemma {:induction false} ChainEnds(o: Ontology, x: string, below: set<string>) returns (n: nat)
    requires Sound(o) && x in o.concepts && below <= o.concepts.Keys
    requires forall y | y in below :: LeadsTo(o, y, x)
    ensures Up(o, x, n).None?
    decreases |o.concepts.Keys - below|
  {
    hide Up, ConceptsOk;
    UpOne(o, x);
    assert x !in below;
    if o.concepts[x].parent.None? {
      n := 1;
    } else {
      var p := o.concepts[x].parent.value;
      ParentKnown(o, x);
      forall y | y in below + {x} ensures LeadsTo(o, y, p) {
        LeadsOn(o, y, x);
      }
      assert o.concepts.Keys - (below + {x}) == o.concepts.Keys - below - {x};
      var k := ChainEnds(o, p, below + {x});
      UpFrom(o, x, 1, k);
      n := 1 + k;
    }
  }

  /** The chain from x has exactly n concepts. */
  ghost predicate EndsAt(o: Ontology, x: string, n: nat) {
    Up(o, x, n).None? && forall k: nat | k < n :: Up(o, x, k).Some?
  }

  /** The number of concepts on the chain from x. */
  ghost function Height(o: Ontology, x: string): (n: nat)
    requires Sound(o) && x in o.concepts
    ensures EndsAt(o, x, n)
  {
    LeastEnd(o, x);
    var n: nat :| EndsAt(o, x, n);
    n
  }

  lemma LeastEnd(o: Ontology, x: string)
    requires Sound(o) && x in o.concepts
    ensures exists n: nat :: EndsAt(o, x, n)
  {
    var n := ChainEnds(o, x, {});
    LeastBelow(o, x, n);
  }

  lemma {:induction false} LeastBelow(o: Ontology, x: string, n: nat)
    requires Up(o, x, n).None?
    ensures exists n: nat :: EndsAt(o, x, n)
  {
    if k: nat :| k < n && Up(o, x, k).None? {
      LeastBelow(o, x, k);
    } else {
      assert EndsAt(o, x, n);
    }
  }

  /** Going up shortens the chain. */
  lemma HeightDrops(o: Ontology, x: string)
    requires Sound(o) && x in o.concepts && o.concepts[x].parent.Some?
    ensures o.concepts[x].parent.value in o.concepts
    ensures Height(o, o.concepts[x].parent.value) < Height(o, x)
  {
    var p := o.concepts[x].parent.value;
    assert ConceptOk(o, o.concepts[x]);
    UpOne(o, x);
    var n := Height(o, x);
    assert n >= 2;
    UpFrom(o, x, 1, n - 1);
    assert Up(o, p, n - 1).None?;
  }

  // ---------------------------------------------------------------- ancestors, profiles, is_a

  function Ancestors(o: Ontology, x: string): (r: seq<string>)
    requires Sound(o) && x in o.concepts
    decreases Height(o, x)
  {
    match o.concepts[x].parent
    case None => []
    case Some(p) =>
      HeightDrops(o, x);
      [p] + Ancestors(o, p)
  }

  function WithRequired(profile: map<string, string>, features: seq<string>): map<string, string>
    decreases |features|
  {
    if features == [] then profile
    else
      var f := features[0];
      WithRequired(if f in profile then profile else profile[f := "necessary"], features[1..])
  }

  function WithRequirements(profile: map<string, string>, requirements: seq<(string, string)>): map<string, string>
    decreases |requirements|
  {
    if requirements == [] then profile
    else WithRequirements(profile[requirements[0].0 := requirements[0].1], requirements[1..])
  }

  /** What a concept adds to its parent's profile. */
  function Own(profile: map<string, string>, c: Concept): map<string, string> {
    WithRequirements(WithRequired(profile, c.required), c.requirements)
  }

  /** A concept's profile: its parent's, then its own. */
  function Profile(o: Ontology, x: string): map<string, string>
    requires Sound(o) && x in o.concepts
    decreases Height(o, x)
  {
    match o.concepts[x].parent
    case None => Own(map[], o.concepts[x])
    case Some(p) =>
      HeightDrops(o, x);
      Own(Profile(o, p), o.concepts[x])
  }

  /** The tier the last requirement for a feature gives, if there is one. */
  function LastTier(requirements: seq<(string, string)>, f: string): Option<string> {
    if requirements == [] then None
    else
      var last := requirements[|requirements| - 1];
      if last.0 == f then Some(last.1) else LastTier(requirements[..|requirements| - 1], f)
  }

  function Lookup(profile: map<string, string>, f: string): Option<string> {
    if f in profile then Some(profile[f]) else None
  }

  lemma {:induction false} RequiredTier(profile: map<string, string>, features: seq<string>, f: string)
    ensures Lookup(WithRequired(profile, features), f)
         == if f in profile then Some(profile[f]) else if f in features then Some("necessary") else None
    decreases |features|
  {
    if features != [] {
      var x := features[0];
      assert features == [x] + features[1..];
      RequiredTier(if x in profile then profile else profile[x := "necessary"], features[1..], f);
    }
  }

  lemma {:induction false} RequirementTier(profile: map<string, string>, requirements: seq<(string, string)>, f: string)
    ensures Lookup(WithRequirements(profile, requirements), f)
         == if LastTier(requirements, f).Some? then LastTier(requirements, f) else Lookup(profile, f)
    decreases |requirements|
  {
    if requirements != [] {
      var x := requirements[0];
      RequirementTier(profile[x.0 := x.1], requirements[1..], f);
      LastTierCons(requirements, f);
    }
  }

  lemma {:induction false} LastTierCons(requirements: seq<(string, string)>, f: string)
    requires requirements != []
    ensures LastTier(requirements, f) ==
      if LastTier(requirements[1..], f).Some? then LastTier(requirements[1..], f)
      else if requirements[0].0 == f then Some(requirements[0].1) else None
  {
    var n := |requirements| - 1;
    if n > 0 && requirements[n].0 != f {
      LastTierCons(requirements[..n], f);
      assert requirements[..n][1..] == requirements[1..][..n - 1];
    }
  }

  /**
   * A feature's tier: the concept's own last requirement for it, else what the parent's profile
   * says, else necessary if the concept lists it as required.
   */
  lemma ProfileTier(o: Ontology, x: string, f: string)
    requires Sound(o) && x in o.concepts
    ensures var c := o.concepts[x];
      var inherited :=
        if c.parent.Some? && c.parent.value in o.concepts then Lookup(Profile(o, c.parent.value), f) else None;
      Lookup(Profile(o, x), f) ==
        if LastTier(c.requirements, f).Some? then LastTier(c.requirements, f)
        else if inherited.Some? then inherited
        else if f in c.required then Some("necessary")
        else None
  {
    hide Height;
    var c := o.concepts[x];
    if c.parent.Some? {
      HeightDrops(o, x);
      RequiredTier(Profile(o, c.parent.value), c.required, f);
      RequirementTier(WithRequired(Profile(o, c.parent.value), c.required), c.requirements, f);
    } else {
      RequiredTier(map[], c.required, f);
      RequirementTier(WithRequired(map[], c.required), c.requirements, f);
    }
  }

  function IsA(o: Ontology, x: string, y: string): bool
    requires Sound(o) && (x == y || x in o.concepts)
  {
    x == y || y in Ancestors(o, x)
  }

  /** The ancestors are exactly what the chain passes through. */
  lemma {:induction false} AncestorsAre(o: Ontology, x: string)
    requires Sound(o) && x in o.concepts
    ensures forall y :: y in Ancestors(o, x) <==> LeadsTo(o, x, y)
    ensures forall y | y in Ancestors(o, x) :: y in o.concepts
    decreases Height(o, x)
  {
    hide Height;
    UpOne(o, x);
    if o.concepts[x].parent.None? {
      forall y ensures !LeadsTo(o, x, y) {
        if LeadsTo(o, x, y) {
          var n :| n > 0 && Up(o, x, n) == Some(y);
          NoneStays(o, x, n);
        }
      }
    } else {
      var p := o.concepts[x].parent.value;
      HeightDrops(o, x);
      AncestorsAre(o, p);
      forall y ensures LeadsTo(o, x, y) <==> y == p || LeadsTo(o, p, y) {
        LeadsThrough(o, x, p, y);
      }
    }
  }

  lemma {:induction false} NoneStays(o: Ontology, x: string, n: nat)
    requires n >= 1 && Up(o, x, 1).None?
    ensures Up(o, x, n).None?
  {
    if n > 1 {
      NoneStays(o, x, n - 1);
    }
  }

  lemma LeadsThrough(o: Ontology, x: string, p: string, y: string)
    requires Up(o, x, 1) == Some(p)
    ensures LeadsTo(o, x, y) <==> y == p || LeadsTo(o, p, y)
  {
    if LeadsTo(o, x, y) {
      var n :| n > 0 && Up(o, x, n) == Some(y);
      if n > 1 {
        UpFrom(o, x, 1, n - 1);
        assert Up(o, p, n - 1) == Some(y);
      }
    }
    if LeadsTo(o, p, y) {
      var n :| n > 0 && Up(o, p, n) == Some(y);
      UpFrom(o, x, 1, n);
      assert Up(o, x, 1 + n) == Some(y);
    }
  }

  lemma LeadsTransitive(o: Ontology, x: string, y: string, z: string)
    requires LeadsTo(o, x, y) && LeadsTo(o, y, z)
    ensures LeadsTo(o, x, z)
  {
    var m :| m > 0 && Up(o, x, m) == Some(y);
    var n :| n > 0 && Up(o, y, n) == Some(z);
    UpFrom(o, x, m, n);
    assert Up(o, x, m + n) == Some(z);
  }

  /** is_a is a partial order on the concepts. */
  lemma IsAPartialOrder(o: Ontology, x: string, y: string, z: string)
    requires Sound(o) && x in o.concepts && y in o.concepts && z in o.concepts
    ensures IsA(o, x, x)
    ensures IsA(o, x, y) && IsA(o, y, x) ==> x == y
    ensures IsA(o, x, y) && IsA(o, y, z) ==> IsA(o, x, z)
  {
    AncestorsAre(o, x);
    AncestorsAre(o, y);
    if x != y && IsA(o, x, y) && IsA(o, y, x) {
      LeadsTransitive(o, x, y, x);
      assert false;
    }
    if x != y && y != z && IsA(o, x, y) && IsA(o, y, z) {
      LeadsTransitive(o, x, y, z);
    }
  }

  // ---------------------------------------------------------------- merging

  /** Whatever two of the ontologies both define, they define alike. */
  ghost predicate Agree(os: seq<Ontology>) {
    forall i, j | 0 <= i < |os| && 0 <= j < |os| :: AgreePair(os[i], os[j])
  }

  ghost predicate AgreePair(a: Ontology, b: Ontology) {
    && (forall x | x in a.concepts && x in b.concepts :: a.concepts[x] == b.concepts[x])
    && (forall x | x in a.relations && x in b.relations :: a.relations[x] == b.relations[x])
  }

  function Merged(os: seq<Ontology>, id: string, version: string): Ontology {
    if os == [] then Ontology(id, version, map[], map[], [])
    else
      var m, o := Merged(os[..|os| - 1], id, version), os[|os| - 1];
      Ontology(id, version, m.concepts + o.concepts, m.relations + o.relations, m.questions + o.questions)
  }

  /** Everything o defines, m defines alike. */
  ghost predicate Includes(m: Ontology, o: Ontology) {
    && (forall x | x in o.concepts :: x in m.concepts && m.concepts[x] == o.concepts[x])
    && (forall x | x in o.relations :: x in m.relations && m.relations[x] == o.relations[x])
  }

  predicate HasConcept(os: seq<Ontology>, i: int, x: string) {
    0 <= i < |os| && x in os[i].concepts
  }

  predicate HasRelation(os: seq<Ontology>, i: int, x: string) {
    0 <= i < |os| && x in os[i].relations
  }

  /** Everything m defines comes from one of the ontologies. */
  ghost predicate Covered(m: Ontology, os: seq<Ontology>) {
    && (forall x | x in m.concepts :: exists i :: HasConcept(os, i, x))
    && (forall x | x in m.relations :: exists i :: HasRelation(os, i, x))
  }

  /** The merge contains every agreeing ontology unchanged, and nothing else. */
  lemma {:induction false} MergedIs(os: seq<Ontology>, id: string, version: string)
    requires Agree(os)
    ensures var m := Merged(os, id, version);
      Covered(m, os) && forall i | 0 <= i < |os| :: Includes(m, os[i])
  {
    hide AgreePair, Includes;
    if os != [] {
      var n := |os| - 1;
      assert Agree(os[..n]) by {
        forall i, j | 0 <= i < n && 0 <= j < n ensures AgreePair(os[..n][i], os[..n][j]) {
          assert AgreePair(os[i], os[j]);
        }
      }
      MergedIs(os[..n], id, version);
      var before, m := Merged(os[..n], id, version), Merged(os, id, version);
      forall i | 0 <= i < |os| ensures Includes(m, os[i]) {
        assert AgreePair(os[i], os[n]);
        if i == n {
          IncludesLast(before, os[n], m);
        } else {
          assert Includes(before, os[..n][i]);
          IncludesSum(before, os[i], os[n], m);
        }
      }
      CoveredSnoc(os, id, version);
    }
  }

  lemma IncludesLast(before: Ontology, last: Ontology, m: Ontology)
    requires m.concepts == before.concepts + last.concepts && m.relations == before.relations + last.relations
    ensures Includes(m, last)
  {
  }

  lemma IncludesSum(before: Ontology, o: Ontology, last: Ontology, m: Ontology)
    requires Includes(before, o) && AgreePair(o, last)
    requires m.concepts == before.concepts + last.concepts && m.relations == before.relations + last.relations
    ensures Includes(m, o)
  {
  }

  lemma CoveredSnoc(os: seq<Ontology>, id: string, version: string)
    requires os != [] && Covered(Merged(os[..|os| - 1], id, version), os[..|os| - 1])
    ensures Covered(Merged(os, id, version), os)
  {
    var n := |os| - 1;
    var before, m := Merged(os[..n], id, version), Merged(os, id, version);
    forall x | x in m.concepts ensures exists i :: HasConcept(os, i, x) {
      if x in before.concepts {
        var i :| HasConcept(os[..n], i, x);
        assert HasConcept(os, i, x);
      } else {
        assert HasConcept(os, n, x);
      }
    }
    forall x | x in m.relations ensures exists i :: HasRelation(os, i, x) {
      if x in before.relations {
        var i :| HasRelation(os[..n], i, x);
        assert HasRelation(os, i, x);
      } else {
        assert HasRelation(os, n, x);
      }
    }
  }

  /** A chain that starts in one of the ontologies never leaves it. */
  lemma {:induction false} SameChain(o: Ontology, m: Ontology, x: string, n: nat)
    requires ConceptsOk(o) && x in o.concepts && Includes(m, o)
    ensures Up(m, x, n) == Up(o, x, n)
    ensures Up(o, x, n).Some? ==> Up(o, x, n).value in o.concepts
  {
    if n > 0 {
      SameChain(o, m, x, n - 1);
      if Up(o, x, n - 1).Some? {
        var y := Up(o, x, n - 1).value;
        assert ConceptOk(o, o.concepts[y]);
      }
    }
  }

  /**
   * Merging validated ontologies that agree can fail validation only on the competency
   * questions, and does so exactly when the concatenated questions are not unique.
   */
  lemma MergeFailsOnlyOnQuestions(os: seq<Ontology>, id: string, version: string)
    requires Agree(os) && forall i | 0 <= i < |os| :: Validation(os[i]).None?
    ensures var m := Merged(os, id, version);
      Sound(m) && Validation(m) == if QuestionsOk(m.questions) then None else Some(BadQuestions)
  {
    hide Merged, ConceptsOk, RelationsOk, Acyclic, QuestionsOk, AgreePair, Includes, Covered;
    var m := Merged(os, id, version);
    MergedIs(os, id, version);
    CoveredOk(m, os);
    CoveredAcyclic(m, os);
  }

  lemma CoveredOk(m: Ontology, os: seq<Ontology>)
    requires Covered(m, os) && forall i | 0 <= i < |os| :: Includes(m, os[i]) && ConceptsOk(os[i]) && RelationsOk(os[i])
    ensures ConceptsOk(m) && RelationsOk(m)
  {
    forall x | x in m.concepts ensures ConceptOk(m, m.concepts[x]) {
      var i :| HasConcept(os, i, x);
      assert Includes(m, os[i]) && ConceptOk(os[i], os[i].concepts[x]);
    }
    forall x | x in m.relations ensures RelationOk(m, m.relations[x]) {
      var i :| HasRelation(os, i, x);
      assert Includes(m, os[i]) && RelationOk(os[i], os[i].relations[x]);
    }
  }

  lemma CoveredAcyclic(m: Ontology, os: seq<Ontology>)
    requires Covered(m, os) && forall i | 0 <= i < |os| :: Includes(m, os[i]) && ConceptsOk(os[i]) && Acyclic(os[i])
    ensures Acyclic(m)
  {
    hide Includes, Up, ConceptsOk;
    forall x, n | x in m.concepts && n > 0 ensures Up(m, x, n) != Some(x) {
      var i :| HasConcept(os, i, x);
      assert Includes(m, os[i]) && Acyclic(os[i]);
      SameChain(os[i], m, x, n);
    }
  }

  /** The merge preserves every concept's ancestors and feature profile. */
  lemma {:induction false} MergePreserves(o: Ontology, m: Ontology, x: string)
    requires Sound(o) && Sound(m) && x in o.concepts && Includes(m, o)
    ensures Ancestors(m, x) == Ancestors(o, x) && Profile(m, x) == Profile(o, x)
    decreases Height(o, x)
  {
    hide Height, Own;
    if o.concepts[x].parent.Some? {
      HeightDrops(o, x);
      MergePreserves(o, m, o.concepts[x].parent.value);
    }
  }

  lemma MergeIsConservative(os: seq<Ontology>, id: string, version: string, i: nat, x: string)
    requires Agree(os) && forall i | 0 <= i < |os| :: Validation(os[i]).None?
    requires i < |os| && x in os[i].concepts
    ensures var m := Merged(os, id, version);
      && Sound(m) && x in m.concepts && Sound(os[i])
      && Ancestors(m, x) == Ancestors(os[i], x)
      && Profile(m, x) == Profile(os[i], x)
  {
    hide Merged, Acyclic, ConceptsOk, RelationsOk, QuestionsOk, Ancestors, Profile, Height, AgreePair, Covered;
    MergedIs(os, id, version);
    MergeFailsOnlyOnQuestions(os, id, version);
    assert Includes(Merged(os, id, version), os[i]);
    assert Validation(os[i]).None?;
    MergePreserves(os[i], Merged(os, id, version), x);
  }

  // ---------------------------------------------------------------- validity, check by check

  predicate KnownParent(o: Ontology, x: string) {
    x in o.concepts && o.concepts[x].parent.Some? ==> o.concepts[x].parent.value in o.concepts
  }

  predicate KnownTiers(o: Ontology, x: string) {
    x in o.concepts ==> forall i | 0 <= i < |o.concepts[x].requirements| ::
      o.concepts[x].requirements[i].1 in
        {"necessary", "diagnostic", "common", "optional", "style-dependent", "prohibited"}
  }

  predicate KnownInverse(o: Ontology, x: string) {
    x in o.relations && o.relations[x].inverse.Some? ==> o.relations[x].inverse.value in o.relations
  }

  /** The first failing kind of check, and none exactly when all hold. */
  lemma ValidationMeans(o: Ontology)
    ensures var concepts := forall x | x in o.concepts :: KnownParent(o, x) && KnownTiers(o, x);
      var relations := forall x | x in o.relations :: KnownInverse(o, x);
      var nonblank := forall i | 0 <= i < |o.questions| :: o.questions[i].id != "";
      var unique := forall i, j | 0 <= i < j < |o.questions| :: o.questions[i].id != o.questions[j].id;
      var acyclic := forall x | x in o.concepts :: !LeadsTo(o, x, x);
      Validation(o) ==
        if !concepts then Some(BadConcept)
        else if !relations then Some(BadRelation)
        else if !nonblank || !unique then Some(BadQuestions)
        else if !acyclic then Some(Cyclic)
        else None
  {
    hide Up;
    forall x | x in o.concepts ensures ConceptOk(o, o.concepts[x]) <==> KnownParent(o, x) && KnownTiers(o, x) {}
    forall x | x in o.relations ensures RelationOk(o, o.relations[x]) <==> KnownInverse(o, x) {}
  }

  /** The ancestors come nearest first. */
  lemma {:induction false} AncestorsInOrder(o: Ontology, x: string, i: nat)
    requires Sound(o) && x in o.concepts && i < |Ancestors(o, x)|
    ensures Up(o, x, i + 1) == Some(Ancestors(o, x)[i])
    decreases i
  {
    hide Height;
    UpOne(o, x);
    if i > 0 {
      var p := o.concepts[x].parent.value;
      HeightDrops(o, x);
      assert Ancestors(o, x)[i] == Ancestors(o, p)[i - 1];
      AncestorsInOrder(o, p, i - 1);
      UpFrom(o, x, 1, i);
    }
  }

  /** A concept is a kind of itself and of whatever parent steps lead to. */
  lemma IsAMeans(o: Ontology, x: string, y: string)
    requires Sound(o) && x in o.concepts
    ensures IsA(o, x, y) <==> x == y || LeadsTo(o, x, y)
  {
    AncestorsAre(o, x);
  }

  /** The merge keeps its name, and all questions in order. */
  lemma MergedQuestions(os: seq<Ontology>, o: Ontology, id: string, version: string)
    ensures var m, more := Merged(os, id, version), Merged(os + [o], id, version);
      && Merged([], id, version).questions == []
      && more.id == id && more.version == version && more.questions == m.questions + o.questions
  {
    assert (os + [o])[..|os|] == os;
  }
}
