/** Blinded aliases for models, and replacing identifiers by aliases and back. */
module Blinding {
  import opened Prelude
  import opened Sorting
  import Text

  datatype Error =
    | NoModels
    | DuplicateModels
    | AliasCollision
    | NotText
    | Unmapped
    | DuplicateAliases
    | Unauthorized

  // ---------------------------------------------------------------- aliases

  const HEX_LENGTH := 64
  const FIRST_LENGTH := 12
  const PREFIX := "SYS-"

  predicate LowerHex(c: char) {
    '0' <= c <= '9' || 'a' <= c <= 'f'
  }

  /** A digest: 64 lowercase hexadecimal characters. */
  predicate IsDigest(d: string) {
    |d| == HEX_LENGTH && forall i | 0 <= i < |d| :: LowerHex(d[i])
  }

  type Digest = d: string | IsDigest(d) witness seq(HEX_LENGTH, _ => '0')

  function UpperChar(c: char): char {
    if 'a' <= c <= 'z' then c - 'a' + 'A' else c
  }

  function Upper(s: string): (r: string)
    ensures |r| == |s|
  {
    seq(|s|, i requires 0 <= i < |s| => UpperChar(s[i]))
  }

  function Alias(digest: string, length: nat): string
    requires length <= |digest|
  {
    PREFIX + Upper(digest[..length])
  }

  /** The shortest free alias at or above a length, two characters at a time. */
  function FreeAlias(digest: string, length: nat, occupied: set<string>): Option<string>
    decreases |digest| - length
  {
    if length > |digest| then None
    else if Alias(digest, length) !in occupied then Some(Alias(digest, length))
    else FreeAlias(digest, length + 2, occupied)
  }

  lemma UpperInjective(a: string, b: string)
    requires |a| == |b| && (forall i | 0 <= i < |a| :: LowerHex(a[i]) && LowerHex(b[i]))
    requires Upper(a) == Upper(b)
    ensures a == b
  {
    forall i | 0 <= i < |a| ensures a[i] == b[i] {
      assert Upper(a)[i] == Upper(b)[i];
    }
  }

  /** Aliases are equal only for equal lengths and equal digest prefixes. */
  lemma AliasInjective(d: string, length: nat, d': string, length': nat)
    requires IsDigest(d) && IsDigest(d') && length <= |d| && length' <= |d'|
    requires Alias(d, length) == Alias(d', length')
    ensures length == length' && d[..length] == d'[..length']
  {
    assert Alias(d, length)[|PREFIX|..] == Upper(d[..length]);
    assert Alias(d', length')[|PREFIX|..] == Upper(d'[..length']);
    assert length == |Upper(d[..length])| == |Upper(d'[..length'])| == length';
    UpperInjective(d[..length], d'[..length']);
  }

  /** Every alias is a prefix of its model's digest, and no two models share one. */
  ghost predicate Aliased(digest: string -> Digest, models: seq<string>, aliases: seq<string>) {
    && |aliases| == |models|
    && (forall i | 0 <= i < |models| :: AliasOf(digest(models[i]), aliases[i]))
    && Distinct(aliases)
  }

  ghost predicate AliasOf(d: string, alias: string) {
    exists length: nat :: FIRST_LENGTH <= length <= |d| && alias == Alias(d, length)
  }

  /** The aliases of a digest from a length on. */
  function AliasesFrom(d: string, length: nat): set<string>
    decreases |d| - length
  {
    if length > |d| then {} else {Alias(d, length)} + AliasesFrom(d, length + 2)
  }

  lemma {:induction false} AliasesFromSize(d: string, length: nat)
    requires length <= |d| && (|d| - length) % 2 == 0
    ensures |AliasesFrom(d, length)| == (|d| - length) / 2 + 1
    ensures forall a | a in AliasesFrom(d, length) :: |a| >= |PREFIX| + length
    ensures Alias(d, |d|) in AliasesFrom(d, length)
    decreases |d| - length
  {
    if length < |d| {
      AliasesFromSize(d, length + 2);
      assert |Alias(d, length)| == |PREFIX| + length;
      assert Alias(d, length) !in AliasesFrom(d, length + 2);
    } else {
      assert AliasesFrom(d, length + 2) == {};
    }
  }

  lemma {:induction false} NoneFree(d: string, length: nat, occupied: set<string>)
    ensures FreeAlias(d, length, occupied).None? <==> AliasesFrom(d, length) <= occupied
    decreases |d| - length
  {
    if length <= |d| {
      NoneFree(d, length + 2, occupied);
    }
  }

  lemma {:induction false} FreeIsAlias(d: string, length: nat, occupied: set<string>)
    requires FreeAlias(d, length, occupied).Some? && length >= FIRST_LENGTH
    ensures AliasOf(d, FreeAlias(d, length, occupied).value) && FreeAlias(d, length, occupied).value !in occupied
    decreases |d| - length
  {
    if Alias(d, length) in occupied {
      FreeIsAlias(d, length + 2, occupied);
    }
  }

  /** The aliases of the models in order, or None at the first model for which none is free. */
  function Assign(digest: string -> Digest, models: seq<string>): Option<seq<string>> {
    if models == [] then Some([])
    else
      var n := |models| - 1;
      match Assign(digest, models[..n])
      case None => None
      case Some(before) =>
        match FreeAlias(digest(models[n]), FIRST_LENGTH, AsSet(before))
        case None => None
        case Some(alias) => Some(before + [alias])
  }

  lemma {:induction false} AssignedIsAliased(digest: string -> Digest, models: seq<string>)
    requires Assign(digest, models).Some?
    ensures Aliased(digest, models, Assign(digest, models).value)
  {
    if models != [] {
      var n := |models| - 1;
      AssignedIsAliased(digest, models[..n]);
      var before := Assign(digest, models[..n]).value;
      FreeIsAlias(digest(models[n]), FIRST_LENGTH, AsSet(before));
    }
  }

  lemma {:induction false} DistinctSize(s: seq<string>)
    requires Distinct(s)
    ensures |AsSet(s)| == |s|
  {
    if s != [] {
      var n := |s| - 1;
      DistinctSize(s[..n]);
      assert s == s[..n] + [s[n]];
      assert AsSet(s) == AsSet(s[..n]) + {s[n]};
    }
  }

  lemma SubsetSize(a: set<string>, b: set<string>)
    requires a <= b
    ensures |a| <= |b|
  {
    assert b == a + (b - a);
  }

  /** One digest serves this many models before its aliases run out. */
  const CAPACITY := (HEX_LENGTH - FIRST_LENGTH) / 2 + 1

  ghost predicate SomeDigestRepeats(digest: string -> Digest, models: seq<string>) {
    exists i, j | 0 <= i < j < |models| :: digest(models[i]) == digest(models[j])
  }

  /** Assignment can fail only past that many models, and only if two models share a whole digest. */
  lemma {:induction false} AssignFailsRarely(digest: string -> Digest, models: seq<string>)
    requires Assign(digest, models).None?
    ensures |models| > CAPACITY && SomeDigestRepeats(digest, models)
  {
    var n := |models| - 1;
    if Assign(digest, models[..n]).None? {
      AssignFailsRarely(digest, models[..n]);
      var i, j :| 0 <= i < j < n && digest(models[..n][i]) == digest(models[..n][j]);
      assert digest(models[i]) == digest(models[j]);
    } else {
      AssignedIsAliased(digest, models[..n]);
      FullAliasTaken(digest, models, Assign(digest, models[..n]).value);
    }
  }

  lemma FullAliasTaken(digest: string -> Digest, models: seq<string>, before: seq<string>)
    requires models != []
    requires Aliased(digest, models[..|models| - 1], before)
    requires FreeAlias(digest(models[|models| - 1]), FIRST_LENGTH, AsSet(before)).None?
    ensures |models| > CAPACITY && SomeDigestRepeats(digest, models)
  {
    hide AliasesFrom, FreeAlias, Alias, Upper;
    var n := |models| - 1;
    var d := digest(models[n]);
    NoneFree(d, FIRST_LENGTH, AsSet(before));
    AliasesFromSize(d, FIRST_LENGTH);
    SubsetSize(AliasesFrom(d, FIRST_LENGTH), AsSet(before));
    DistinctSize(before);
    assert Alias(d, HEX_LENGTH) in before;
    var i :| 0 <= i < |before| && before[i] == Alias(d, HEX_LENGTH);
    var d' := digest(models[i]);
    assert models[..n][i] == models[i] && AliasOf(digest(models[..n][i]), before[i]);
    var length: nat :| FIRST_LENGTH <= length <= |d'| && before[i] == Alias(d', length);
    AliasInjective(d, HEX_LENGTH, d', length);
    assert d == d[..HEX_LENGTH] == d'[..HEX_LENGTH] == d';
    assert digest(models[i]) == digest(models[n]);
  }

  /** With pairwise distinct digests every model gets its own alias. */
  lemma DistinctDigestsSuffice(digest: string -> Digest, models: seq<string>)
    requires forall i, j | 0 <= i < j < |models| :: digest(models[i]) != digest(models[j])
    ensures Assign(digest, models).Some? && Aliased(digest, models, Assign(digest, models).value)
  {
    if Assign(digest, models).None? {
      AssignFailsRarely(digest, models);
      assert false;
    }
    AssignedIsAliased(digest, models);
  }

  /** The alias loop. */
  method AssignAliases(digest: string -> Digest, models: seq<string>) returns (r: Result<seq<string>, Error>)
    ensures r == match Assign(digest, models) case None => Err(AliasCollision) case Some(aliases) => Ok(aliases)
  {
    var aliases: seq<string> := [];
    var occupied: set<string> := {};
    for i := 0 to |models|
      invariant occupied == AsSet(aliases) && Assign(digest, models[..i]) == Some(aliases)
    {
      assert models[..i + 1][..i] == models[..i];
      var d := digest(models[i]);
      var length := FIRST_LENGTH;
      var alias := PREFIX + Upper(d[..length]);
      while alias in occupied
        invariant length <= |d| && alias == Alias(d, length)
        invariant FreeAlias(d, FIRST_LENGTH, occupied) == FreeAlias(d, length, occupied)
        decreases |d| - length
      {
        length := length + 2;
        if length > |d| {
          AssignStops(digest, models, i);
          return Err(AliasCollision);
        }
        alias := PREFIX + Upper(d[..length]);
      }
      aliases := aliases + [alias];
      occupied := occupied + {alias};
    }
    assert models[..|models|] == models;
    r := Ok(aliases);
  }

  lemma {:induction false} AssignStops(digest: string -> Digest, models: seq<string>, i: nat)
    requires i < |models| && Assign(digest, models[..i + 1]).None?
    ensures Assign(digest, models).None?
  {
    if i + 1 < |models| {
      var n := |models| - 1;
      assert models[..n][..i + 1] == models[..i + 1];
      AssignStops(digest, models[..n], i);
    } else {
      assert models[..i + 1] == models;
    }
  }

  // ---------------------------------------------------------------- the private map

  datatype Entry = Entry(model: string, alias: string)

  function Stripped(ids: seq<string>): seq<string> {
    seq(|ids|, i requires 0 <= i < |ids| => Text.Strip(ids[i]))
  }

  function Entries(models: seq<string>, aliases: seq<string>): seq<Entry>
    requires |models| == |aliases|
  {
    seq(|models|, i requires 0 <= i < |models| => Entry(models[i], aliases[i]))
  }

  /** One entry per model and one alias per model, so that the map can be inverted. */
  ghost predicate OneToOne(entries: seq<Entry>) {
    forall i, j | 0 <= i < j < |entries| :: entries[i].model != entries[j].model && entries[i].alias != entries[j].alias
  }

  function ModelsOf(entries: seq<Entry>): seq<string> {
    seq(|entries|, i requires 0 <= i < |entries| => entries[i].model)
  }

  function AliasesOf(entries: seq<Entry>): seq<string> {
    seq(|entries|, i requires 0 <= i < |entries| => entries[i].alias)
  }

  /** The checks on the identifiers and the entries for them, in the order of the stripped identifiers. */
  method BuildEntries(ids: seq<string>, digest: string -> Digest) returns (r: Result<seq<Entry>, Error>)
    ensures r.Ok? ==> OneToOne(r.value) && |r.value| == |ids|
    ensures r.Ok? ==> forall e | e in r.value :: e.model in Stripped(ids) && AliasOf(digest(e.model), e.alias)
    ensures r.Ok? ==> forall i, j | 0 <= i < j < |r.value| :: Text.Less(r.value[i].model, r.value[j].model)
    ensures r.Ok? ==> Assign(digest, ModelsOf(r.value)) == Some(AliasesOf(r.value))
    ensures r == Err(NoModels) <==> ids == [] || "" in Stripped(ids)
    ensures r == Err(DuplicateModels) <==> ids != [] && "" !in Stripped(ids) && !Distinct(Stripped(ids))
    ensures r.Err? ==> r.error in {NoModels, DuplicateModels, AliasCollision}
    ensures r == Err(AliasCollision) ==> |ids| > CAPACITY && !DigestsDistinct(digest, Stripped(ids))
  {
    hide Sort, AliasOf;
    var stripped := Stripped(ids);
    var values := Sort(stripped, Self);
    SortKeeps(stripped, Self);
    SameElements(stripped, values);
    if values == [] || "" in values {
      return Err(NoModels);
    }
    DistinctIffSize(values);
    DistinctSorted(stripped);
    if |AsSet(values)| != |values| {
      return Err(DuplicateModels);
    }
    var aliases := AssignAliases(digest, values);
    if aliases.Err? {
      AssignFailsRarely(digest, values);
      RepeatsUnsorted(digest, stripped, values);
      return Err(aliases.error);
    }
    EntriesFacts(digest, stripped, aliases.value);
    r := Ok(Entries(values, aliases.value));
  }

  /** The entries of a successful assignment to the sorted identifiers. */
  lemma EntriesFacts(digest: string -> Digest, stripped: seq<string>, aliases: seq<string>)
    requires Distinct(stripped) && Assign(digest, Sort(stripped, Self)) == Some(aliases)
    ensures |aliases| == |Sort(stripped, Self)| == |stripped|
    ensures var entries := Entries(Sort(stripped, Self), aliases);
      OneToOne(entries) && |entries| == |stripped| &&
      (forall e | e in entries :: e.model in stripped && AliasOf(digest(e.model), e.alias)) &&
      (forall i, j | 0 <= i < j < |entries| :: Text.Less(entries[i].model, entries[j].model)) &&
      Assign(digest, ModelsOf(entries)) == Some(AliasesOf(entries))
  {
    hide Sort, AliasOf;
    var values := Sort(stripped, Self);
    SortKeeps(stripped, Self);
    SameElements(stripped, values);
    DistinctSorted(stripped);
    AssignedIsAliased(digest, values);
    var entries := Entries(values, aliases);
    forall e | e in entries ensures e.model in stripped && AliasOf(digest(e.model), e.alias) {
      var i :| 0 <= i < |entries| && entries[i] == e;
      assert values[i] in values;
    }
    AscendingEntries(stripped, aliases);
    assert ModelsOf(entries) == values && AliasesOf(entries) == aliases;
  }

  lemma AscendingEntries(stripped: seq<string>, aliases: seq<string>)
    requires Distinct(stripped) && |aliases| == |Sort(stripped, Self)|
    ensures var entries := Entries(Sort(stripped, Self), aliases);
      forall i, j | 0 <= i < j < |entries| :: Text.Less(entries[i].model, entries[j].model)
  {
    hide Sort;
    assert KeysDistinct(stripped, Self);
    SortAscends(stripped, Self);
    var values := Sort(stripped, Self);
    forall i, j | 0 <= i < j < |values| ensures Text.Less(values[i], values[j]) {
      assert Text.Less(Self(values[i]), Self(values[j]));
    }
  }

  /** Different models have different digests. */
  ghost predicate DigestsDistinct(digest: string -> Digest, models: seq<string>) {
    forall x, y | x in models && y in models && x != y :: digest(x) != digest(y)
  }

  lemma DistinctSorted(s: seq<string>)
    ensures Distinct(Sort(s, Self)) <==> Distinct(s)
  {
    SortKeeps(s, Self);
    var t := Sort(s, Self);
    if Distinct(s) {
      assert KeysDistinct(s, Self);
      KeysDistinctPermuted(s, t, Self);
      DistinctFromKeys(t);
    }
    if Distinct(t) {
      assert KeysDistinct(t, Self);
      KeysDistinctPermuted(t, s, Self);
      DistinctFromKeys(s);
    }
  }

  lemma DistinctFromKeys(s: seq<string>)
    requires KeysDistinct(s, Self)
    ensures Distinct(s)
  {
    forall i, j | 0 <= i < j < |s| ensures s[i] != s[j] {
      assert Self(s[i]) != Self(s[j]);
    }
  }

  lemma {:induction false} DistinctIffSize(s: seq<string>)
    ensures |AsSet(s)| <= |s|
    ensures |AsSet(s)| == |s| <==> Distinct(s)
  {
    if s != [] {
      var n := |s| - 1;
      DistinctIffSize(s[..n]);
      assert s == s[..n] + [s[n]];
      assert AsSet(s) == AsSet(s[..n]) + {s[n]};
      if s[n] in s[..n] {
        assert AsSet(s) == AsSet(s[..n]);
        var i :| 0 <= i < n && s[..n][i] == s[n];
        assert s[i] == s[n];
      }
    }
  }

  lemma RepeatsUnsorted(digest: string -> Digest, s: seq<string>, values: seq<string>)
    requires SomeDigestRepeats(digest, values) && Distinct(values) && forall x :: x in s <==> x in values
    ensures !DigestsDistinct(digest, s)
  {
    var i, j :| 0 <= i < j < |values| && digest(values[i]) == digest(values[j]);
    assert values[i] in s && values[j] in s && values[i] != values[j];
  }

  // ---------------------------------------------------------------- blinding records

  datatype Value = Null | Text(text: string) | Other

  type Record = map<string, Value>

  /** Replace one field through the map: absent and null are left alone. */
  function Replace(record: Record, field: string, names: map<string, string>): Result<Record, Error> {
    if field !in record || record[field].Null? then Ok(record)
    else if !record[field].Text? then Err(NotText)
    else if record[field].text !in names then Err(Unmapped)
    else Ok(record[field := Text(names[record[field].text])])
  }

  function ReplaceFields(record: Record, fields: seq<string>, names: map<string, string>): Result<Record, Error> {
    if fields == [] then Ok(record)
    else
      match Replace(record, fields[0], names)
      case Err(e) => Err(e)
      case Ok(next) => ReplaceFields(next, fields[1..], names)
  }

  function ReplaceAll(records: seq<Record>, fields: seq<string>, names: map<string, string>): Result<seq<Record>,
                      Error> {
    if records == [] then Ok([])
    else
      match ReplaceFields(records[0], fields, names)
      case Err(e) => Err(e)
      case Ok(first) =>
        match ReplaceAll(records[1..], fields, names)
        case Err(e) => Err(e)
        case Ok(rest) => Ok([first] + rest)
  }

  /** What the entries say, a later entry overriding an earlier one. */
  function Forward(entries: seq<Entry>): map<string, string> {
    if entries == [] then map[]
    else
      var last := entries[|entries| - 1];
      Forward(entries[..|entries| - 1])[last.model := last.alias]
  }

  function Flipped(entries: seq<Entry>): seq<Entry> {
    seq(|entries|, i requires 0 <= i < |entries| => Entry(entries[i].alias, entries[i].model))
  }

  /** blind_records: a map that lost an entry is refused. */
  function Blind(records: seq<Record>, entries: seq<Entry>, fields: seq<string>): Result<seq<Record>, Error> {
    var names := Forward(entries);
    if |names| != |entries| then Err(DuplicateModels) else ReplaceAll(records, fields, names)
  }

  /** unblind_records, once authorized or where authorization is not required. */
  function Unblind(records: seq<Record>, entries: seq<Entry>, fields: seq<string>,
                   authorized: bool): Result<seq<Record>, Error> {
    var names := Forward(Flipped(entries));
    if !authorized then Err(Unauthorized)
    else if |names| != |entries| then Err(DuplicateAliases)
    else ReplaceAll(records, fields, names)
  }

  // ---------------------------------------------------------------- the maps are inverse

  ghost predicate ModelsDistinct(entries: seq<Entry>) {
    forall i, j | 0 <= i < j < |entries| :: entries[i].model != entries[j].model
  }

  ghost predicate HasModel(entries: seq<Entry>, i: int, x: string) {
    0 <= i < |entries| && entries[i].model == x
  }

  lemma ForwardIs(entries: seq<Entry>)
    ensures forall x :: x in Forward(entries) <==> exists i :: HasModel(entries, i, x)
    ensures |Forward(entries)| == |entries| <==> ModelsDistinct(entries)
    ensures ModelsDistinct(entries) ==> forall i | 0 <= i < |entries| ::
      entries[i].model in Forward(entries) && Forward(entries)[entries[i].model] == entries[i].alias
  {
    ForwardMembers(entries);
    ForwardSize(entries);
    if ModelsDistinct(entries) {
      ForwardValues(entries);
    }
  }

  lemma {:induction false} ForwardMembers(entries: seq<Entry>)
    ensures forall x :: x in Forward(entries) <==> exists i :: HasModel(entries, i, x)
  {
    if entries != [] {
      var n := |entries| - 1;
      var init := entries[..n];
      ForwardMembers(init);
      assert HasModel(entries, n, entries[n].model);
      forall x ensures x in Forward(entries) <==> exists i :: HasModel(entries, i, x) {
        if x in Forward(init) {
          var i :| HasModel(init, i, x);
          assert HasModel(entries, i, x);
        }
        if i :| HasModel(entries, i, x) && i < n {
          assert HasModel(init, i, x);
        }
      }
    }
  }

  lemma {:induction false} ForwardSize(entries: seq<Entry>)
    ensures |Forward(entries)| <= |entries|
    ensures |Forward(entries)| == |entries| <==> ModelsDistinct(entries)
  {
    if entries != [] {
      var n := |entries| - 1;
      var init, x := entries[..n], entries[n].model;
      ForwardSize(init);
      ForwardMembers(init);
      ModelsSnoc(entries);
      var before, after := Forward(init), Forward(entries);
      assert after.Keys == before.Keys + {x};
      assert |after| == |after.Keys| && |before| == |before.Keys|;
      if x in before {
        assert after.Keys == before.Keys;
      }
    }
  }

  lemma ModelsSnoc(entries: seq<Entry>)
    requires entries != []
    ensures var n := |entries| - 1;
      ModelsDistinct(entries) <==>
        ModelsDistinct(entries[..n]) && !exists i :: HasModel(entries[..n], i, entries[n].model)
  {
    var n := |entries| - 1;
    var init, x := entries[..n], entries[n].model;
    if i :| HasModel(init, i, x) {
      assert entries[i].model == entries[n].model;
    } else {
      forall i | 0 <= i < n ensures entries[i].model != x {
        assert !HasModel(init, i, x);
      }
    }
    if ModelsDistinct(entries) {
      forall i, j | 0 <= i < j < n ensures init[i].model != init[j].model {
        assert entries[i].model != entries[j].model;
      }
    }
  }

  lemma {:induction false} ForwardValues(entries: seq<Entry>)
    requires ModelsDistinct(entries)
    ensures forall i | 0 <= i < |entries| ::
      entries[i].model in Forward(entries) && Forward(entries)[entries[i].model] == entries[i].alias
  {
    if entries != [] {
      var n := |entries| - 1;
      ForwardValues(entries[..n]);
      forall i | 0 <= i < n ensures entries[..n][i] == entries[i] {}
    }
  }

  /** Following the first map leads back through the second. */
  ghost predicate LeadsBack(names: map<string, string>, back: map<string, string>) {
    forall x | x in names :: names[x] in back && back[names[x]] == x
  }

  lemma MapsInvert(entries: seq<Entry>)
    requires |Forward(entries)| == |entries| == |Forward(Flipped(entries))|
    ensures LeadsBack(Forward(entries), Forward(Flipped(entries)))
    ensures LeadsBack(Forward(Flipped(entries)), Forward(entries))
  {
    var flipped := Flipped(entries);
    ForwardIs(entries);
    ForwardIs(flipped);
    var names, back := Forward(entries), Forward(flipped);
    forall x | x in names ensures names[x] in back && back[names[x]] == x {
      var i :| HasModel(entries, i, x);
      assert HasModel(flipped, i, names[x]);
    }
    forall y | y in back ensures back[y] in names && names[back[y]] == y {
      var i :| HasModel(flipped, i, y);
      assert HasModel(entries, i, back[y]);
    }
  }

  // ---------------------------------------------------------------- what is replaced

  /** Following the map a number of times. */
  function Follow(names: map<string, string>, x: string, times: nat): Option<string>
    decreases times
  {
    if times == 0 then Some(x) else if x !in names then None else Follow(names, names[x], times - 1)
  }

  function Occurs(fields: seq<string>, f: string): nat {
    if fields == [] then 0 else (if fields[0] == f then 1 else 0) + Occurs(fields[1..], f)
  }

  /** The field's value can be replaced so often: absent, null, or a text from which the map leads on. */
  predicate Replaceable(record: Record, field: string, names: map<string, string>, times: nat) {
    times > 0 && field in record && !record[field].Null? ==>
      record[field].Text? && Follow(names, record[field].text, times).Some?
  }

  ghost predicate AllReplaceable(record: Record, fields: seq<string>, names: map<string, string>) {
    forall f | f in fields :: Replaceable(record, f, names, Occurs(fields, f))
  }

  /** A text followed through the map, anything else unchanged. */
  function Replaced(value: Value, names: map<string, string>, times: nat): Value {
    if value.Text? && Follow(names, value.text, times).Some? then Text(Follow(names, value.text, times).value)
    else value
  }

  /**
   * A text is followed through the map once for each time its field is listed, nothing else
   * changes, and a record is refused exactly when some listed field cannot be followed that far.
   */
  lemma {:induction false} FieldsReplaced(record: Record, fields: seq<string>, names: map<string, string>)
    ensures ReplaceFields(record, fields, names).Ok? <==> AllReplaceable(record, fields, names)
    ensures ReplaceFields(record, fields, names).Ok? ==>
      var r := ReplaceFields(record, fields, names).value;
      r.Keys == record.Keys && forall f | f in record :: r[f] == Replaced(record[f], names, Occurs(fields, f))
    decreases |fields|
  {
    if fields != [] {
      var f, rest := fields[0], fields[1..];
      var first := Replace(record, f, names);
      if first.Ok? {
        FieldsReplaced(first.value, rest, names);
        assert first.value.Keys == record.Keys;
        var next := first.value;
        forall g
          ensures Replaceable(next, g, names, Occurs(rest, g)) <==> Replaceable(record, g, names, Occurs(fields, g))
          ensures g in record && Replaceable(next, g, names, Occurs(rest, g)) ==>
            Replaced(next[g], names, Occurs(rest, g)) == Replaced(record[g], names, Occurs(fields, g))
        {
          FirstReplaced(record, f, rest, names, g);
        }
        forall g ensures g in fields <==> g == f || g in rest {
          assert fields == [f] + rest;
        }
        NotListed(rest, f);
      } else {
        assert !Replaceable(record, f, names, Occurs(fields, f));
      }
    }
  }

  lemma {:induction false} NotListed(fields: seq<string>, f: string)
    ensures f in fields <==> Occurs(fields, f) > 0
  {
    if fields != [] {
      assert fields == [fields[0]] + fields[1..];
      NotListed(fields[1..], f);
    }
  }

  lemma FirstReplaced(record: Record, f: string, rest: seq<string>, names: map<string, string>, g: string)
    requires Replace(record, f, names).Ok?
    ensures var next, times := Replace(record, f, names).value, Occurs(rest, g);
      var all := times + (if f == g then 1 else 0);
      && (g in next <==> g in record)
      && (Replaceable(next, g, names, times) <==> Replaceable(record, g, names, all))
      && (g in record && Replaceable(next, g, names, times) ==>
            Replaced(next[g], names, times) == Replaced(record[g], names, all))
  {
    var next, times := Replace(record, f, names).value, Occurs(rest, g);
    if f == g && g in record && record[g].Text? {
      assert Follow(names, record[g].text, times + 1) == Follow(names, names[record[g].text], times);
    }
  }

  /** With distinct fields every listed text is replaced by what the map holds for it. */
  lemma DistinctFieldsReplaced(record: Record, fields: seq<string>, names: map<string, string>, f: string)
    requires Distinct(fields) && ReplaceFields(record, fields, names).Ok? && f in record
    ensures var r := ReplaceFields(record, fields, names).value;
      && f in r
      && (if f in fields && record[f].Text? then record[f].text in names && r[f] == Text(names[record[f].text])
          else r[f] == record[f])
  {
    FieldsReplaced(record, fields, names);
    OccursOnce(fields, f);
    assert f in fields ==> Replaceable(record, f, names, Occurs(fields, f));
    assert f in ReplaceFields(record, fields, names).value.Keys;
    if f in fields && record[f].Text? && record[f].text in names {
      assert Follow(names, record[f].text, 1) == Follow(names, names[record[f].text], 0);
    }
  }

  lemma {:induction false} OccursOnce(fields: seq<string>, f: string)
    requires Distinct(fields)
    ensures Occurs(fields, f) == if f in fields then 1 else 0
  {
    if fields != [] {
      assert fields == [fields[0]] + fields[1..];
      OccursOnce(fields[1..], f);
    }
  }

  // ---------------------------------------------------------------- the round trip

  lemma ReplaceBack(record: Record, field: string, names: map<string, string>, back: map<string, string>)
    requires LeadsBack(names, back) && Replace(record, field, names).Ok?
    ensures Replace(Replace(record, field, names).value, field, back) == Ok(record)
  {
    var next := Replace(record, field, names).value;
    if field in record && record[field].Text? {
      assert next[field := record[field]] == record;
    }
  }

  /** Two successful replacements may be made in either order. */
  lemma ReplaceSwaps(record: Record, f: string, g: string, names: map<string, string>)
    requires Replace(record, g, names).Ok? && Replace(Replace(record, g, names).value, f, names).Ok?
    ensures Replace(record, f, names).Ok?
    ensures Replace(Replace(record, f, names).value, g, names) == Replace(Replace(record, g, names).value, f, names)
  {
    if f != g {
      var viaG := Replace(record, g, names).value;
      var viaF := Replace(record, f, names).value;
      assert f in viaG <==> f in record;
      assert f in record ==> viaG[f] == record[f];
      var first, second := Replace(viaF, g, names).value, Replace(viaG, f, names).value;
      assert first == second;
    }
  }

  /** What succeeds with a field last succeeds with it first. */
  lemma {:induction false} MoveFirst(record: Record, fields: seq<string>, f: string, names: map<string, string>,
                                     middle: Record)
    requires ReplaceFields(record, fields, names) == Ok(middle) && Replace(middle, f, names).Ok?
    ensures ReplaceFields(record, [f] + fields, names) == Replace(middle, f, names)
    decreases |fields|
  {
    hide Replace;
    assert ([f] + fields)[1..] == fields;
    if fields != [] {
      var g, rest := fields[0], fields[1..];
      var next := Replace(record, g, names).value;
      MoveFirst(next, rest, f, names, middle);
      assert ([f] + rest)[1..] == rest;
      ReplaceSwaps(record, f, g, names);
    }
  }

  /** Whatever the fields, even repeated ones, replacing back undoes replacing. */
  lemma {:induction false} FieldsBack(record: Record, fields: seq<string>, names: map<string, string>,
                                      back: map<string, string>)
    requires LeadsBack(names, back) && ReplaceFields(record, fields, names).Ok?
    ensures ReplaceFields(ReplaceFields(record, fields, names).value, fields, back) == Ok(record)
    decreases |fields|
  {
    hide Replace, LeadsBack;
    if fields != [] {
      var next := Replace(record, fields[0], names).value;
      var end := ReplaceFields(record, fields, names).value;
      FieldsBack(next, fields[1..], names, back);
      ReplaceBack(record, fields[0], names, back);
      MoveFirst(end, fields[1..], fields[0], back, next);
      assert fields == [fields[0]] + fields[1..];
    }
  }

  lemma {:induction false} AllBack(records: seq<Record>, fields: seq<string>, names: map<string, string>,
                                   back: map<string, string>)
    requires LeadsBack(names, back) && ReplaceAll(records, fields, names).Ok?
    ensures ReplaceAll(ReplaceAll(records, fields, names).value, fields, back) == Ok(records)
  {
    hide ReplaceFields, LeadsBack;
    if records != [] {
      FieldsBack(records[0], fields, names, back);
      AllBack(records[1..], fields, names, back);
      var first := ReplaceFields(records[0], fields, names).value;
      var rest := ReplaceAll(records[1..], fields, names).value;
      assert ([first] + rest)[1..] == rest;
      assert records == [records[0]] + records[1..];
    }
  }

  /** Unblinding a blinded list returns it unchanged, provided the map has no duplicate alias. */
  lemma UnblindBlind(records: seq<Record>, entries: seq<Entry>, fields: seq<string>)
    requires Blind(records, entries, fields).Ok?
    ensures Unblind(Blind(records, entries, fields).value, entries, fields, true)
         == if ModelsDistinct(Flipped(entries)) then Ok(records) else Err(DuplicateAliases)
  {
    ForwardIs(Flipped(entries));
    if ModelsDistinct(Flipped(entries)) {
      MapsInvert(entries);
      AllBack(records, fields, Forward(entries), Forward(Flipped(entries)));
    }
  }

  /** And blinding what was unblinded returns the blinded list. */
  lemma BlindUnblind(records: seq<Record>, entries: seq<Entry>, fields: seq<string>, authorized: bool)
    requires Unblind(records, entries, fields, authorized).Ok?
    ensures Blind(Unblind(records, entries, fields, authorized).value, entries, fields)
         == if ModelsDistinct(entries) then Ok(records) else Err(DuplicateModels)
  {
    ForwardIs(entries);
    if ModelsDistinct(entries) {
      MapsInvert(entries);
      AllBack(records, fields, Forward(Flipped(entries)), Forward(entries));
    }
  }

  /** With entries built by BuildEntries the round trip always succeeds. */
  lemma BuiltEntriesRoundTrip(records: seq<Record>, entries: seq<Entry>, fields: seq<string>)
    requires OneToOne(entries) && Blind(records, entries, fields).Ok?
    ensures Unblind(Blind(records, entries, fields).value, entries, fields, true) == Ok(records)
  {
    UnblindBlind(records, entries, fields);
  }

  // ---------------------------------------------------------------- the loops

  method ReplaceRecords(records: seq<Record>, fields: seq<string>, names: map<string, string>)
    returns (r: Result<seq<Record>, Error>)
    ensures r == ReplaceAll(records, fields, names)
  {
    var output: seq<Record> := [];
    assert records[0..] == records;
    PrependNothing(ReplaceAll(records, fields, names));
    for i := 0 to |records|
      invariant ReplaceAll(records, fields, names) == Prepend(output, ReplaceAll(records[i..], fields, names))
    {
      var record := records[i];
      assert records[i..][0] == record && records[i..][1..] == records[i + 1..];
      assert fields[0..] == fields;
      for k := 0 to |fields|
        invariant ReplaceFields(records[i], fields, names) == ReplaceFields(record, fields[k..], names)
      {
        var field := fields[k];
        assert fields[k..] != [];
        assert fields[k..][0] == field && fields[k..][1..] == fields[k + 1..];
        if field !in record || record[field].Null? {
          continue;
        }
        if !record[field].Text? {
          return Err(NotText);
        }
        if record[field].text !in names {
          return Err(Unmapped);
        }
        record := record[field := Text(names[record[field].text])];
      }
      PrependSnoc(output, record, ReplaceAll(records[i + 1..], fields, names));
      output := output + [record];
    }
    assert output + [] == output;
    r := Ok(output);
  }
}
