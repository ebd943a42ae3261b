/**
 * What aliasing, blinding and unblinding do, read off the digests, entries and records: which alias
 * each model gets, when a list is refused, and what every field of the result holds.
 */
module BlindingCalls {
  import opened Prelude
  import opened Sorting
  import opened Blinding
  import Text

  // ---------------------------------------------------------------- aliases

  function UpperCase(c: char): char {
    if 97 <= c as int <= 122 then (c as int - 32) as char else c
  }

  /** "SYS-" and the first characters of the digest in upper case. */
  predicate IsAlias(alias: string, d: Digest, length: int) {
    && 0 <= length <= |d| && |alias| == 4 + length && alias[..4] == "SYS-"
    && forall k | 0 <= k < length :: alias[4 + k] == UpperCase(d[k])
  }

  lemma AliasMeans(d: Digest, length: nat, alias: string)
    requires length <= |d|
    ensures alias == Alias(d, length) <==> IsAlias(alias, d, length)
  {
    var a := Alias(d, length);
    assert a[..4] == "SYS-" && a[4..] == Upper(d[..length]);
    forall k | 0 <= k < length ensures a[4 + k] == UpperCase(d[k]) {
      assert a[4 + k] == a[4..][k];
    }
    if IsAlias(alias, d, length) {
      forall i | 0 <= i < |alias| ensures alias[i] == a[i] {
        if i < 4 {
          assert alias[i] == alias[..4][i] && a[i] == a[..4][i];
        } else {
          assert alias[i] == alias[4 + (i - 4)];
        }
      }
    }
  }

  /** The shortest alias of 12, 14, ..., 64 characters that is not taken; the shorter ones all are. */
  ghost predicate Shortest(d: Digest, taken: set<string>, alias: string, length: int) {
    && 12 <= length <= 64 && length % 2 == 0
    && IsAlias(alias, d, length) && alias !in taken
    && forall l, a | 12 <= l < length && l % 2 == 0 && IsAlias(a, d, l) :: a in taken
  }

  /** The aliases of even length from one length to below another are taken. */
  ghost predicate TakenFrom(d: Digest, from: nat, below: nat, taken: set<string>) {
    forall l: nat | from <= l < below && l <= 64 && l % 2 == 0 :: Alias(d, l) in taken
  }

  ghost predicate FirstFree(d: Digest, from: nat, length: nat, taken: set<string>, alias: string) {
    && from <= length <= 64 && length % 2 == 0
    && alias == Alias(d, length) && alias !in taken && TakenFrom(d, from, length, taken)
  }

  lemma TakenExtends(d: Digest, from: nat, below: nat, taken: set<string>)
    requires from % 2 == 0 && from <= 64 && Alias(d, from) in taken && TakenFrom(d, from + 2, below, taken)
    ensures TakenFrom(d, from, below, taken)
  {
    hide Alias;
    forall l: nat | from <= l < below && l <= 64 && l % 2 == 0 ensures Alias(d, l) in taken {
      assert l == from || l >= from + 2;
    }
  }

  lemma {:induction false} FreeMeans(d: Digest, from: nat, taken: set<string>)
    requires from % 2 == 0
    ensures var r := FreeAlias(d, from, taken);
      if r == None then TakenFrom(d, from, 65, taken)
      else exists length: nat :: FirstFree(d, from, length, taken, r.value)
    decreases 64 - from
  {
    hide Alias;
    if from > 64 {
      assert TakenFrom(d, from, 65, taken);
    } else if Alias(d, from) !in taken {
      assert TakenFrom(d, from, from, taken);
      assert FirstFree(d, from, from, taken, Alias(d, from));
    } else {
      FreeMeans(d, from + 2, taken);
      var r := FreeAlias(d, from + 2, taken);
      if r == None {
        TakenExtends(d, from, 65, taken);
      } else {
        var length: nat :| FirstFree(d, from + 2, length, taken, r.value);
        TakenExtends(d, from, length, taken);
        assert FirstFree(d, from, length, taken, r.value);
      }
    }
  }

  /** Each model in turn gets the shortest alias not taken by an earlier one. */
  lemma {:induction false} AssignedShortest(digest: string -> Digest, models: seq<string>, i: nat)
    requires Assign(digest, models).Some? && i < |models|
    ensures var aliases := Assign(digest, models).value;
      |aliases| == |models| && exists length :: Shortest(digest(models[i]), AsSet(aliases[..i]), aliases[i], length)
  {
    hide FreeAlias;
    var n := |models| - 1;
    AssignedIsAliased(digest, models);
    AssignedIsAliased(digest, models[..n]);
    var before, aliases := Assign(digest, models[..n]).value, Assign(digest, models).value;
    if i < n {
      AssignedShortest(digest, models[..n], i);
      assert aliases[..i] == before[..i];
    } else {
      var d := digest(models[n]);
      FreeMeans(d, 12, AsSet(before));
      var length: nat :| FirstFree(d, 12, length, AsSet(before), aliases[n]);
      assert aliases[..n] == before;
      AliasMeans(d, length, aliases[n]);
      forall l, a | 12 <= l < length && l % 2 == 0 && IsAlias(a, d, l) ensures a in AsSet(before) {
        AliasMeans(d, l, a);
      }
      assert Shortest(d, AsSet(before), aliases[n], length);
    }
  }

  // ---------------------------------------------------------------- replacing

  /** Following the entries from model to alias so many times leads from x to y. */
  ghost predicate Reaches(entries: seq<Entry>, x: string, times: nat, y: string)
    decreases times
  {
    if times == 0 then x == y
    else exists i :: 0 <= i < |entries| && entries[i].model == x && Reaches(entries, entries[i].alias, times - 1, y)
  }

  lemma {:induction false} FollowMeans(entries: seq<Entry>, x: string, times: nat, y: string)
    requires ModelsDistinct(entries)
    ensures Follow(Forward(entries), x, times) == Some(y) <==> Reaches(entries, x, times, y)
    decreases times
  {
    hide Forward;
    ForwardIs(entries);
    if times > 0 {
      var names := Forward(entries);
      if x in names {
        var i :| HasModel(entries, i, x);
        FollowMeans(entries, entries[i].alias, times - 1, y);
        forall j | 0 <= j < |entries| && entries[j].model == x ensures j == i {}
      } else {
        forall i | 0 <= i < |entries| ensures entries[i].model != x {
          assert entries[i].model == x ==> HasModel(entries, i, x);
        }
      }
    }
  }

  ghost predicate LeadsOn(entries: seq<Entry>, x: string, times: nat) {
    exists y :: Reaches(entries, x, times, y)
  }

  /** A listed field can be replaced: it is absent, null, or a text that can be followed. */
  ghost predicate FieldFits(entries: seq<Entry>, record: Record, field: string, times: nat) {
    field in record && record[field] != Null ==>
      record[field].Text? && LeadsOn(entries, record[field].text, times)
  }

  ghost predicate RecordFits(entries: seq<Entry>, record: Record, fields: seq<string>) {
    forall f | f in fields :: FieldFits(entries, record, f, Occurs(fields, f))
  }

  /** The result has the same fields; listed texts are followed, everything else is the same. */
  ghost predicate RecordReplaced(entries: seq<Entry>, record: Record, fields: seq<string>, result: Record) {
    && (forall f :: f in record <==> f in result)
    && (forall f | f in record && !(f in fields && record[f].Text?) :: result[f] == record[f])
    && (forall f | f in record && f in fields && record[f].Text? ::
          result[f].Text? && Reaches(entries, record[f].text, Occurs(fields, f), result[f].text))
  }

  lemma FieldMeans(entries: seq<Entry>, record: Record, f: string, times: nat)
    requires ModelsDistinct(entries) && times > 0
    ensures Replaceable(record, f, Forward(entries), times) <==> FieldFits(entries, record, f, times)
  {
    hide Forward, ModelsDistinct, LeadsOn;
    if f in record && record[f].Text? {
      TextFits(entries, record[f].text, times);
    }
  }

  lemma RecordMeans(entries: seq<Entry>, record: Record, fields: seq<string>)
    requires ModelsDistinct(entries)
    ensures var r := ReplaceFields(record, fields, Forward(entries));
      && (r.Ok? <==> RecordFits(entries, record, fields))
      && (r.Ok? ==> RecordReplaced(entries, record, fields, r.value))
  {
    hide Forward, ReplaceFields;
    var names := Forward(entries);
    FieldsReplaced(record, fields, names);
    forall f | f in fields
      ensures Replaceable(record, f, names, Occurs(fields, f)) <==> FieldFits(entries, record, f, Occurs(fields, f))
    {
      ListedOften(fields, f);
      FieldMeans(entries, record, f, Occurs(fields, f));
    }
    var r := ReplaceFields(record, fields, names);
    if r.Ok? {
      assert forall f :: f in record.Keys <==> f in r.value.Keys;
      forall f | f in record && f in fields && record[f].Text?
        ensures r.value[f].Text? && Reaches(entries, record[f].text, Occurs(fields, f), r.value[f].text)
      {
        assert Replaceable(record, f, names, Occurs(fields, f));
        ListedOften(fields, f);
        FollowMeans(entries, record[f].text, Occurs(fields, f), r.value[f].text);
      }
      forall f | f in record && !(f in fields && record[f].Text?) ensures r.value[f] == record[f] {
        NotListed(fields, f);
      }
    }
  }

  lemma ListedOften(fields: seq<string>, f: string)
    requires f in fields
    ensures Occurs(fields, f) > 0
  {
    NotListed(fields, f);
  }

  lemma TextFits(entries: seq<Entry>, x: string, times: nat)
    requires ModelsDistinct(entries)
    ensures Follow(Forward(entries), x, times).Some? <==> LeadsOn(entries, x, times)
  {
    hide Forward;
    var r := Follow(Forward(entries), x, times);
    if r.Some? {
      FollowMeans(entries, x, times, r.value);
    }
    if y :| Reaches(entries, x, times, y) {
      FollowMeans(entries, x, times, y);
    }
  }

  ghost predicate AllFit(entries: seq<Entry>, records: seq<Record>, fields: seq<string>) {
    forall k | 0 <= k < |records| :: RecordFits(entries, records[k], fields)
  }

  ghost predicate AllReplaced(entries: seq<Entry>, records: seq<Record>, fields: seq<string>, results: seq<Record>) {
    |results| == |records| && forall k | 0 <= k < |records| :: RecordReplaced(entries, records[k], fields, results[k])
  }

  lemma {:induction false} ListMeans(entries: seq<Entry>, records: seq<Record>, fields: seq<string>)
    requires ModelsDistinct(entries)
    ensures var r := ReplaceAll(records, fields, Forward(entries));
      && (r.Ok? <==> AllFit(entries, records, fields))
      && (r.Ok? ==> AllReplaced(entries, records, fields, r.value))
  {
    hide Forward, ReplaceFields, RecordFits, RecordReplaced, ModelsDistinct;
    if records != [] {
      RecordMeans(entries, records[0], fields);
      ListMeans(entries, records[1..], fields);
      assert forall k | 0 < k < |records| :: records[k] == records[1..][k - 1];
      if AllFit(entries, records, fields) {
        assert RecordFits(entries, records[0], fields);
        forall k | 0 <= k < |records[1..]| ensures RecordFits(entries, records[1..][k], fields) {
          assert RecordFits(entries, records[k + 1], fields);
        }
      }
    }
  }

  // ---------------------------------------------------------------- the two operations

  /** Blinding needs one entry per model; it fails exactly on a record that does not fit. */
  lemma BlindMeans(records: seq<Record>, entries: seq<Entry>, fields: seq<string>)
    ensures var r := Blind(records, entries, fields);
      && (r.Ok? <==> ModelsDistinct(entries) && AllFit(entries, records, fields))
      && (!ModelsDistinct(entries) ==> r == Err(DuplicateModels))
      && (r.Ok? ==> AllReplaced(entries, records, fields, r.value))
      && (r.Err? ==> r.error in {DuplicateModels, NotText, Unmapped})
  {
    hide ReplaceAll, AllFit, AllReplaced;
    ForwardIs(entries);
    if ModelsDistinct(entries) {
      ListMeans(entries, records, fields);
    }
    ReplaceErrors(records, fields, Forward(entries));
  }

  lemma {:induction false} ReplaceErrors(records: seq<Record>, fields: seq<string>, names: map<string, string>)
    ensures var r := ReplaceAll(records, fields, names); r.Err? ==> r.error in {NotText, Unmapped}
  {
    if records != [] {
      FieldErrors(records[0], fields, names);
      ReplaceErrors(records[1..], fields, names);
    }
  }

  lemma {:induction false} FieldErrors(record: Record, fields: seq<string>, names: map<string, string>)
    ensures var r := ReplaceFields(record, fields, names); r.Err? ==> r.error in {NotText, Unmapped}
    decreases |fields|
  {
    if fields != [] && Replace(record, fields[0], names).Ok? {
      FieldErrors(Replace(record, fields[0], names).value, fields[1..], names);
    }
  }

  /** The same entries read from alias to model. */
  ghost predicate Backwards(entries: seq<Entry>, back: seq<Entry>) {
    |back| == |entries| && forall i | 0 <= i < |entries| ::
      back[i].model == entries[i].alias && back[i].alias == entries[i].model
  }

  ghost predicate AliasesDistinct(entries: seq<Entry>) {
    forall i, j | 0 <= i < j < |entries| :: entries[i].alias != entries[j].alias
  }

  /**
   * Unblinding is refused without authorization, whatever the input; with it, it needs one entry
   * per alias and fails exactly on a record that does not fit the entries read backwards.
   */
  lemma UnblindMeans(records: seq<Record>, entries: seq<Entry>, fields: seq<string>, authorized: bool)
    returns (back: seq<Entry>)
    ensures Backwards(entries, back)
    ensures var r := Unblind(records, entries, fields, authorized);
      && (!authorized ==> r == Err(Unauthorized))
      && (r.Ok? <==> authorized && AliasesDistinct(entries) && AllFit(back, records, fields))
      && (authorized && !AliasesDistinct(entries) ==> r == Err(DuplicateAliases))
      && (r.Ok? ==> AllReplaced(back, records, fields, r.value))
      && (authorized && AliasesDistinct(entries) && r.Err? ==> r.error in {NotText, Unmapped})
  {
    hide ReplaceAll, AllFit, AllReplaced;
    back := Flipped(entries);
    SameDistinct(entries);
    ForwardIs(back);
    if ModelsDistinct(back) {
      ListMeans(back, records, fields);
    }
    ReplaceErrors(records, fields, Forward(back));
  }

  lemma SameDistinct(entries: seq<Entry>)
    ensures ModelsDistinct(Flipped(entries)) <==> AliasesDistinct(entries)
  {
    var back := Flipped(entries);
    if ModelsDistinct(back) {
      forall i, j | 0 <= i < j < |entries| ensures entries[i].alias != entries[j].alias {
        assert back[i].model != back[j].model;
      }
    }
  }

  method BlindRecords(records: seq<Record>, entries: seq<Entry>,
                      fields: seq<string>) returns (r: Result<seq<Record>, Error>)
    ensures r == Blind(records, entries, fields)
    ensures r.Ok? <==> ModelsDistinct(entries) && AllFit(entries, records, fields)
    ensures r.Ok? ==> AllReplaced(entries, records, fields, r.value)
    ensures !ModelsDistinct(entries) ==> r == Err(DuplicateModels)
  {
    BlindMeans(records, entries, fields);
    var mapping := Forward(entries);
    if |mapping| != |entries| {
      return Err(DuplicateModels);
    }
    r := ReplaceRecords(records, fields, mapping);
  }

  method UnblindRecords(records: seq<Record>, entries: seq<Entry>, fields: seq<string>, authorized: bool)
    returns (r: Result<seq<Record>, Error>, ghost back: seq<Entry>)
    ensures r == Unblind(records, entries, fields, authorized) && Backwards(entries, back)
    ensures !authorized ==> r == Err(Unauthorized)
    ensures r.Ok? <==> authorized && AliasesDistinct(entries) && AllFit(back, records, fields)
    ensures r.Ok? ==> AllReplaced(back, records, fields, r.value)
    ensures authorized && !AliasesDistinct(entries) ==> r == Err(DuplicateAliases)
  {
    back := UnblindMeans(records, entries, fields, authorized);
    if !authorized {
      r := Err(Unauthorized);
      return;
    }
    var reverse := Forward(Flipped(entries));
    if |reverse| != |entries| {
      r := Err(DuplicateAliases);
      return;
    }
    r := ReplaceRecords(records, fields, reverse);
  }

  /** A field that is neither text nor null is refused as such, a text without an entry as unmapped. */
  lemma FieldFaults(record: Record, field: string, entries: seq<Entry>)
    requires field in record && record[field] != Null
    ensures var r := Replace(record, field, Forward(entries));
      && (r == Err(NotText) <==> !record[field].Text?)
      && (r == Err(Unmapped) <==>
            record[field].Text? && forall i | 0 <= i < |entries| :: entries[i].model != record[field].text)
  {
    hide Forward;
    ForwardIs(entries);
    if record[field].Text? {
      var text := record[field].text;
      forall i | 0 <= i < |entries| ensures entries[i].model == text <==> HasModel(entries, i, text) {}
    }
  }
}
