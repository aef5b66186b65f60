// Sorting names by a key, as the library sort does for distinct keys.
module Ordering {

  type Key = string -> int

  ghost predicate Ascending(key: Key, names: seq<string>) {
    forall i, j :: 0 <= i < j < |names| ==> key(names[i]) <= key(names[j])
  }

  function Insert(key: Key, name: string, sorted: seq<string>): seq<string> {
    if sorted == [] || key(name) <= key(sorted[0]) then [name] + sorted
    else [sorted[0]] + Insert(key, name, sorted[1..])
  }

  function Sorted(key: Key, names: seq<string>): seq<string> {
    if names == [] then [] else Insert(key, names[0], Sorted(key, names[1..]))
  }

  lemma {:induction false} InsertBag(key: Key, name: string, sorted: seq<string>)
    ensures multiset(Insert(key, name, sorted)) == multiset(sorted) + multiset{name}
    ensures forall other :: other in Insert(key, name, sorted) <==> other == name || other in sorted
  {
    if sorted == [] || key(name) <= key(sorted[0]) {
    } else {
      InsertBag(key, name, sorted[1..]);
      assert sorted == [sorted[0]] + sorted[1..];
    }
  }

  lemma {:induction false} InsertSorts(key: Key, name: string, sorted: seq<string>)
    requires Ascending(key, sorted)
    ensures Ascending(key, Insert(key, name, sorted))
  {
    if sorted == [] || key(name) <= key(sorted[0]) {
    } else {
      var rest := Insert(key, name, sorted[1..]);
      InsertSorts(key, name, sorted[1..]);
      InsertBag(key, name, sorted[1..]);
      forall i | 0 <= i < |rest| ensures key(sorted[0]) <= key(rest[i]) {
        assert rest[i] in rest;
        if rest[i] != name {
          assert rest[i] in sorted[1..];
        }
      }
    }
  }

  lemma {:induction false} SortedSorts(key: Key, names: seq<string>)
    ensures Ascending(key, Sorted(key, names))
    ensures multiset(Sorted(key, names)) == multiset(names)
  {
    if names != [] {
      SortedSorts(key, names[1..]);
      InsertSorts(key, names[0], Sorted(key, names[1..]));
      InsertBag(key, names[0], Sorted(key, names[1..]));
      assert names == [names[0]] + names[1..];
    }
  }

  lemma SortedSame(key: Key, names: seq<string>)
    ensures Ascending(key, Sorted(key, names))
    ensures forall name :: name in Sorted(key, names) <==> name in names
    ensures |Sorted(key, names)| == |names|
  {
    SortedSorts(key, names);
    assert |multiset(Sorted(key, names))| == |multiset(names)|;
    forall name ensures name in Sorted(key, names) <==> name in names {
      assert name in multiset(Sorted(key, names)) <==> name in multiset(names);
    }
  }

  ghost predicate NoRepeats(names: seq<string>) {
    forall i, j :: 0 <= i < j < |names| ==> names[i] != names[j]
  }

  lemma {:induction false} NoRepeatsBag(names: seq<string>)
    ensures NoRepeats(names) <==> forall name :: multiset(names)[name] <= 1
  {
    if names != [] {
      NoRepeatsBag(names[1..]);
      assert names == [names[0]] + names[1..];
      if NoRepeats(names) {
        assert names[0] !in names[1..];
        assert multiset(names[1..])[names[0]] == 0;
      }
      if forall name :: multiset(names)[name] <= 1 {
        assert forall name :: multiset(names[1..])[name] <= multiset(names)[name];
        assert multiset(names[1..])[names[0]] == 0;
        assert names[0] !in names[1..];
      }
    }
  }

  lemma SortedNoRepeats(key: Key, names: seq<string>)
    requires NoRepeats(names)
    ensures NoRepeats(Sorted(key, names))
  {
    SortedSorts(key, names);
    NoRepeatsBag(names);
    NoRepeatsBag(Sorted(key, names));
  }

  lemma HasMember(names: seq<string>) returns (name: string)
    requires names != []
    ensures name in names
  {
    name := names[0];
  }

  /** Two ascending lists of the same names are the same list when no two names share a key. */
  lemma {:induction false} SortedIsUnique(key: Key, a: seq<string>, b: seq<string>)
    requires Ascending(key, a) && Ascending(key, b) && NoRepeats(a) && NoRepeats(b)
    requires forall name :: name in a <==> name in b
    requires forall x, y :: x in a && y in a && x != y ==> key(x) != key(y)
    ensures a == b
  {
    if a == [] {
      if b != [] {
        var name := HasMember(b);
      }
    } else {
      assert a[0] in b;
      assert b[0] in a;
      assert a[0] == b[0];
      forall name ensures name in a[1..] <==> name in b[1..] {
        if name in a[1..] { assert name in b && name != b[0]; }
        if name in b[1..] { assert name in a && name != a[0]; }
      }
      SortedIsUnique(key, a[1..], b[1..]);
      assert a == [a[0]] + a[1..] && b == [b[0]] + b[1..];
    }
  }
}
