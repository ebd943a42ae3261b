/** Sorting by a string key; with distinct keys the result depends only on what is sorted. */
module Sorting {
  import Text

  function Self(s: string): string {
    s
  }

  function Insert<T>(s: seq<T>, x: T, key: T -> string): seq<T> {
    if s == [] || Text.Less(key(x), key(s[0])) then [x] + s else [s[0]] + Insert(s[1..], x, key)
  }

  function Sort<T>(s: seq<T>, key: T -> string): seq<T> {
    if s == [] then [] else Insert(Sort(s[..|s| - 1], key), s[|s| - 1], key)
  }

  ghost predicate Ascending<T>(s: seq<T>, key: T -> string) {
    forall i, j | 0 <= i < j < |s| :: Text.Less(key(s[i]), key(s[j]))
  }

  ghost predicate KeysDistinct<T>(s: seq<T>, key: T -> string) {
    forall i, j | 0 <= i < j < |s| :: key(s[i]) != key(s[j])
  }

  lemma {:induction false} InsertKeeps<T>(s: seq<T>, x: T, key: T -> string)
    ensures multiset(Insert(s, x, key)) == multiset(s) + multiset{x}
  {
    if s != [] && !Text.Less(key(x), key(s[0])) {
      InsertKeeps(s[1..], x, key);
      assert s == [s[0]] + s[1..];
    }
  }

  lemma {:induction false} InsertAscends<T>(s: seq<T>, x: T, key: T -> string)
    requires Ascending(s, key) && forall i | 0 <= i < |s| :: key(s[i]) != key(x)
    ensures Ascending(Insert(s, x, key), key)
  {
    if s == [] {
    } else if Text.Less(key(x), key(s[0])) {
      forall i | 0 < i < |s| ensures Text.Less(key(x), key(s[i])) {
        Text.LessTransitive(key(x), key(s[0]), key(s[i]));
      }
    } else {
      Text.LessTrichotomy(key(x), key(s[0]));
      InsertAscends(s[1..], x, key);
      InsertKeeps(s[1..], x, key);
      var r := Insert(s[1..], x, key);
      forall i | 0 <= i < |r| ensures Text.Less(key(s[0]), key(r[i])) {
        assert r[i] in multiset(r);
        if r[i] != x {
          assert r[i] in s[1..];
        }
      }
    }
  }

  lemma {:induction false} SortKeeps<T>(s: seq<T>, key: T -> string)
    ensures multiset(Sort(s, key)) == multiset(s)
  {
    if s != [] {
      var n := |s| - 1;
      SortKeeps(s[..n], key);
      InsertKeeps(Sort(s[..n], key), s[n], key);
      assert s == s[..n] + [s[n]];
    }
  }

  lemma {:induction false} SortAscends<T>(s: seq<T>, key: T -> string)
    requires KeysDistinct(s, key)
    ensures Ascending(Sort(s, key), key)
  {
    if s != [] {
      var n := |s| - 1;
      SortAscends(s[..n], key);
      SortKeeps(s[..n], key);
      var r := Sort(s[..n], key);
      forall i | 0 <= i < |r| ensures key(r[i]) != key(s[n]) {
        assert r[i] in multiset(r);
        assert r[i] in s[..n];
      }
      InsertAscends(r, s[n], key);
    }
  }

  /** Two ascending lists of the same things are the same list. */
  lemma {:induction false} AscendingUnique<T>(s: seq<T>, t: seq<T>, key: T -> string)
    requires Ascending(s, key) && Ascending(t, key) && forall x :: x in s <==> x in t
    ensures s == t
  {
    if s == [] {
      assert forall i | 0 <= i < |t| :: t[i] in t;
    } else {
      assert s[0] in t;
      var x, y := s[0], t[0];
      assert y in s;
      if x != y {
        var i :| 0 <= i < |t| && t[i] == x;
        var j :| 0 <= j < |s| && s[j] == y;
        Text.LessTrichotomy(key(x), key(y));
        assert false;
      }
      forall z ensures z in s[1..] <==> z in t[1..] {
        NotFirst(s, key, z);
        NotFirst(t, key, z);
      }
      AscendingUnique(s[1..], t[1..], key);
      assert s == [x] + s[1..] && t == [x] + t[1..];
    }
  }

  lemma NotFirst<T>(s: seq<T>, key: T -> string, z: T)
    requires Ascending(s, key) && s != []
    ensures z in s[1..] <==> z in s && z != s[0]
  {
    assert s == [s[0]] + s[1..];
    if z in s[1..] {
      var i :| 0 <= i < |s[1..]| && s[1..][i] == z;
      assert Text.Less(key(s[0]), key(s[i + 1]));
      Text.LessTrichotomy(key(z), key(z));
    }
  }

  /** Sorting forgets the order of its input. */
  lemma SortForgets<T>(s: seq<T>, t: seq<T>, key: T -> string)
    requires multiset(s) == multiset(t) && KeysDistinct(s, key)
    ensures Sort(s, key) == Sort(t, key)
  {
    KeysDistinctPermuted(s, t, key);
    SortAscends(s, key);
    SortAscends(t, key);
    SortKeeps(s, key);
    SortKeeps(t, key);
    forall x ensures x in Sort(s, key) <==> x in Sort(t, key) {
      assert x in Sort(s, key) <==> x in multiset(Sort(s, key));
      assert x in Sort(t, key) <==> x in multiset(Sort(t, key));
    }
    AscendingUnique(Sort(s, key), Sort(t, key), key);
  }

  /** Distinct keys survive a permutation. */
  lemma {:induction false} KeysDistinctPermuted<T>(s: seq<T>, t: seq<T>, key: T -> string)
    requires multiset(s) == multiset(t) && KeysDistinct(s, key)
    ensures KeysDistinct(t, key)
  {
    forall i, j | 0 <= i < j < |t| ensures key(t[i]) != key(t[j]) {
      assert t[i] in multiset(t) && t[j] in multiset(t);
      assert t[i] in s && t[j] in s;
      if t[i] == t[j] {
        TwiceIn(t, i, j);
        var k :| 0 <= k < |s| && s[k] == t[i];
        OnceIn(s, key, k);
        assert false;
      }
    }
  }

  lemma TwiceIn<T>(t: seq<T>, i: nat, j: nat)
    requires i < j < |t| && t[i] == t[j]
    ensures multiset(t)[t[i]] >= 2
  {
    assert t == t[..j] + [t[j]] + t[j + 1..];
    assert t[i] in t[..j];
  }

  lemma OnceIn<T>(s: seq<T>, key: T -> string, k: nat)
    requires KeysDistinct(s, key) && k < |s|
    ensures multiset(s)[s[k]] == 1
  {
    assert s == s[..k] + [s[k]] + s[k + 1..];
    assert s[k] !in s[..k] && s[k] !in s[k + 1..];
  }

  lemma SameElements<T>(s: seq<T>, t: seq<T>)
    requires multiset(s) == multiset(t)
    ensures |s| == |t| && forall x :: x in s <==> x in t
  {
    assert |s| == |multiset(s)| && |t| == |multiset(t)|;
    forall x ensures x in s <==> x in t {
      assert x in s <==> x in multiset(s);
      assert x in t <==> x in multiset(t);
    }
  }
}
