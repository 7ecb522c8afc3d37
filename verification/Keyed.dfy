/** Slices of records indexed by a string key: the maps Go builds from them while
    looping, and the sorted slice it lists a map into. */
module Keyed {
  import opened Ordering

  /** `for x in s { m[key(x)] = x }`: the last occurrence wins. */
  function LastMap<T>(s: seq<T>, key: T -> string): map<string, T> {
    if s == [] then map[] else LastMap(s[..|s| - 1], key)[key(s[|s| - 1]) := s[|s| - 1]]
  }

  /** The map `m` extended by the elements of `s` whose key is still absent. */
  function AddNew<T>(m: map<string, T>, s: seq<T>, key: T -> string): map<string, T> {
    if s == [] then m
    else
      var r := AddNew(m, s[..|s| - 1], key);
      var x := s[|s| - 1];
      if key(x) in r then r else r[key(x) := x]
  }

  ghost predicate Distinct<T>(s: seq<T>, key: T -> string) {
    forall i, j :: 0 <= i < j < |s| ==> key(s[i]) != key(s[j])
  }

  ghost predicate Ascending<T>(s: seq<T>, key: T -> string) {
    forall i, j :: 0 <= i < j < |s| ==> Less(key(s[i]), key(s[j]))
  }

  ghost function KeySet<T>(s: seq<T>, key: T -> string): set<string> {
    set x | x in s :: key(x)
  }

  ghost predicate KeyedBy<T>(m: map<string, T>, key: T -> string) {
    forall k :: k in m ==> key(m[k]) == k
  }

  /** `s` lists the values of `m` in ascending key order. */
  ghost predicate Lists<T>(s: seq<T>, m: map<string, T>, key: T -> string) {
    Ascending(s, key) && LastMap(s, key) == m
  }

  lemma KeySetSnoc<T>(s: seq<T>, key: T -> string)
    requires s != []
    ensures KeySet(s, key) == KeySet(s[..|s| - 1], key) + {key(s[|s| - 1])}
  {
    assert s == s[..|s| - 1] + [s[|s| - 1]];
  }

  lemma {:induction false} LastMapFacts<T>(s: seq<T>, key: T -> string)
    ensures LastMap(s, key).Keys == KeySet(s, key)
    ensures KeyedBy(LastMap(s, key), key)
    ensures forall k :: k in LastMap(s, key) ==> LastMap(s, key)[k] in s
  {
    if s != [] {
      LastMapFacts(s[..|s| - 1], key);
      assert s == s[..|s| - 1] + [s[|s| - 1]];
    }
  }

  lemma {:induction false} DistinctMember<T>(s: seq<T>, key: T -> string, x: T)
    requires Distinct(s, key) && x in s
    ensures key(x) in LastMap(s, key) && LastMap(s, key)[key(x)] == x
  {
    var t := s[..|s| - 1];
    assert s == t + [s[|s| - 1]];
    if x in t { DistinctMember(t, key, x); }
  }

  lemma LastMapAppend<T>(s: seq<T>, x: T, key: T -> string)
    requires Distinct(s, key) && key(x) !in LastMap(s, key)
    ensures Distinct(s + [x], key)
    ensures LastMap(s + [x], key) == LastMap(s, key)[key(x) := x]
  {
    LastMapFacts(s, key);
    assert (s + [x])[..|s|] == s;
    forall i | 0 <= i < |s| ensures key(s[i]) != key(x) {
      assert s[i] in s && key(s[i]) in KeySet(s, key);
    }
  }

  /** Two listings of the same map are the same slice. */
  lemma {:induction false} ListsUnique<T(!new)>(a: seq<T>, b: seq<T>, m: map<string, T>, key: T -> string)
    requires Lists(a, m, key) && Lists(b, m, key)
    ensures a == b
  {
    var less := (x, y) => Less(key(x), key(y));
    AscendingDistinct(a, key);
    AscendingDistinct(b, key);
    forall x ensures x in a <==> x in b {
      LastMapFacts(a, key);
      LastMapFacts(b, key);
      if x in a { DistinctMember(a, key, x); }
      if x in b { DistinctMember(b, key, x); }
    }
    NoDupSameElements(a, b);
    AscendingSorted(a, key);
    AscendingSorted(b, key);
    SortedUnique(a, b, less);
  }

  lemma AscendingDistinct<T>(s: seq<T>, key: T -> string)
    requires Ascending(s, key)
    ensures Distinct(s, key) && NoDup(s)
  {
    forall i, j | 0 <= i < j < |s| ensures key(s[i]) != key(s[j]) { LessIrreflexive(key(s[i])); }
  }

  lemma AscendingSorted<T(!new)>(s: seq<T>, key: T -> string)
    requires Ascending(s, key)
    ensures Sorted(s, (x, y) => Less(key(x), key(y)))
  {
    forall i, j | 0 <= i < j < |s| ensures !Less(key(s[j]), key(s[i])) {
      if Less(key(s[j]), key(s[i])) {
        LessTransitive(key(s[i]), key(s[j]), key(s[i]));
        LessIrreflexive(key(s[i]));
      }
    }
  }

  /** Sorting any listing of the values of `m`, each once, gives its ascending listing. */
  lemma {:induction false} SortLists<T(!new)>(s: seq<T>, m: map<string, T>, key: T -> string)
    requires Distinct(s, key) && LastMap(s, key) == m
    ensures Lists(SortSlice(s, (x, y) => Less(key(x), key(y))), m, key)
  {
    var less := (x, y) => Less(key(x), key(y));
    LessIsStrictOrder();
    assert StrictOrder(less);
    SortSliceSorts(s, less);
    var t := SortSlice(s, less);
    SameElements(t, s);
    DistinctPermutation(s, t, key);
    forall i, j | 0 <= i < j < |t| ensures Less(key(t[i]), key(t[j])) { LessTotal(key(t[i]), key(t[j])); }
    AscendingDistinct(t, key);
    SameLastMap(s, t, key);
  }

  lemma {:induction false} ListingExists<T(!new)>(m: map<string, T>, key: T -> string) returns (s: seq<T>)
    requires KeyedBy(m, key)
    ensures Lists(s, m, key)
    decreases |m|
  {
    if m == map[] {
      s := [];
    } else {
      var k :| k in m;
      var rest := m - {k};
      assert m == rest[k := m[k]];
      var t := ListingExists(rest, key);
      AscendingDistinct(t, key);
      var u := t + [m[k]];
      LastMapAppend(t, m[k], key);
      SortLists(u, m, key);
      s := SortSlice(u, (x, y) => Less(key(x), key(y)));
    }
  }

  /** The values of `m` in ascending key order. */
  ghost function Listing<T(!new)>(m: map<string, T>, key: T -> string): (s: seq<T>)
    requires KeyedBy(m, key)
    ensures Lists(s, m, key)
  {
    assert exists s :: Lists(s, m, key) by { var s := ListingExists(m, key); }
    var s :| Lists(s, m, key);
    s
  }

  lemma DistinctPermutation<T(!new)>(s: seq<T>, t: seq<T>, key: T -> string)
    requires Distinct(s, key) && multiset(s) == multiset(t)
    ensures Distinct(t, key)
  {
    NoDupMultiplicity(s);
    NoDupFromMultiset(t);
    forall i, j | 0 <= i < j < |t| ensures key(t[i]) != key(t[j]) {
      assert t[i] in multiset(s) && t[j] in multiset(s);
    }
  }

  lemma SameLastMap<T(!new)>(s: seq<T>, t: seq<T>, key: T -> string)
    requires Distinct(s, key) && Distinct(t, key)
    requires forall x :: x in s <==> x in t
    ensures LastMap(s, key) == LastMap(t, key)
  {
    var m, n := LastMap(s, key), LastMap(t, key);
    LastMapFacts(s, key);
    LastMapFacts(t, key);
    forall k | k in m ensures k in n && n[k] == m[k] { DistinctMember(t, key, m[k]); }
    forall k | k in n ensures k in m { DistinctMember(s, key, n[k]); }
  }

  lemma {:induction false} AddNewFacts<T>(m: map<string, T>, s: seq<T>, key: T -> string)
    ensures AddNew(m, s, key).Keys == m.Keys + KeySet(s, key)
    ensures forall k :: k in m ==> AddNew(m, s, key)[k] == m[k]
    ensures KeyedBy(m, key) ==> KeyedBy(AddNew(m, s, key), key)
    ensures forall k :: k in AddNew(m, s, key) && k !in m ==> AddNew(m, s, key)[k] in s
  {
    if s != [] {
      AddNewFacts(m, s[..|s| - 1], key);
      assert s == s[..|s| - 1] + [s[|s| - 1]];
    }
  }

  lemma {:induction false} AddNewDistinct<T>(s: seq<T>, key: T -> string)
    requires Distinct(s, key)
    ensures AddNew(map[], s, key) == LastMap(s, key)
  {
    if s != [] {
      var t := s[..|s| - 1];
      AddNewDistinct(t, key);
      LastMapFacts(t, key);
    }
  }

  /** The new elements are taken from `s` first occurrence first, whatever `m` holds. */
  lemma {:induction false} AddNewSplit<T>(m: map<string, T>, s: seq<T>, key: T -> string)
    ensures AddNew(m, s, key) == AddNew(map[], s, key) + m
  {
    if s != [] {
      var t := s[..|s| - 1];
      AddNewSplit(m, t, key);
      AddNewFacts(m, t, key);
      AddNewFacts(map[], t, key);
    }
  }
}
