/** Python's `sorted`: a stable sort, the proof that it is ordered, a permutation and stable, and the
    proof that stability and order determine it, so that any two stable sorts of a list by the same
    key agree. */
module Sorting {

  ghost predicate TotalPreorder<T(!new)>(le: (T, T) -> bool) {
    && (forall x, y :: le(x, y) || le(y, x))
    && (forall x, y, z :: le(x, y) && le(y, z) ==> le(x, z))
  }

  function Insert<T>(x: T, s: seq<T>, le: (T, T) -> bool): seq<T> {
    if s == [] || le(x, s[0]) then [x] + s else [s[0]] + Insert(x, s[1..], le)
  }

  function StableSort<T>(s: seq<T>, le: (T, T) -> bool): seq<T> {
    if s == [] then [] else Insert(s[0], StableSort(s[1..], le), le)
  }

  ghost predicate Sorted<T>(s: seq<T>, le: (T, T) -> bool) {
    forall i, j | 0 <= i < j < |s| :: le(s[i], s[j])
  }

  predicate Same<T>(x: T, y: T, le: (T, T) -> bool) { le(x, y) && le(y, x) }

  /** The elements of `s` whose key equals that of `x`, in the order of `s`. */
  function Class<T>(s: seq<T>, x: T, le: (T, T) -> bool): seq<T> {
    if s == [] then []
    else (if Same(x, s[0], le) then [s[0]] else []) + Class(s[1..], x, le)
  }

  lemma {:induction false} InsertPermutes<T>(x: T, s: seq<T>, le: (T, T) -> bool)
    ensures multiset(Insert(x, s, le)) == multiset(s) + multiset{x}
  {
    if s != [] && !le(x, s[0]) {
      InsertPermutes(x, s[1..], le);
      assert s == [s[0]] + s[1..];
    }
  }

  lemma {:induction false} InsertSorted<T(!new)>(x: T, s: seq<T>, le: (T, T) -> bool)
    requires TotalPreorder(le) && Sorted(s, le)
    ensures Sorted(Insert(x, s, le), le)
  {
    if s != [] && !le(x, s[0]) {
      InsertSorted(x, s[1..], le);
      InsertPermutes(x, s[1..], le);
      var r := Insert(x, s[1..], le);
      forall j | 0 <= j < |r| ensures le(s[0], r[j]) {
        assert r[j] in multiset(r);
      }
    }
  }

  lemma {:induction false} InsertClass<T(!new)>(x: T, s: seq<T>, y: T, le: (T, T) -> bool)
    requires TotalPreorder(le)
    ensures Class(Insert(x, s, le), y, le) == Class([x] + s, y, le)
  {
    if s != [] && !le(x, s[0]) {
      InsertClass(x, s[1..], y, le);
      assert ([x] + s)[1..] == s && ([x] + s[1..])[1..] == s[1..];
      assert Insert(x, s, le)[1..] == Insert(x, s[1..], le);
      assert !(Same(y, x, le) && Same(y, s[0], le));
    }
  }

  lemma {:induction false} StableSortProperties<T(!new)>(s: seq<T>, le: (T, T) -> bool)
    requires TotalPreorder(le)
    ensures Sorted(StableSort(s, le), le)
    ensures multiset(StableSort(s, le)) == multiset(s)
    ensures forall x :: Class(StableSort(s, le), x, le) == Class(s, x, le)
  {
    if s != [] {
      var t := StableSort(s[1..], le);
      StableSortProperties(s[1..], le);
      InsertSorted(s[0], t, le);
      InsertPermutes(s[0], t, le);
      assert s == [s[0]] + s[1..];
      forall x ensures Class(StableSort(s, le), x, le) == Class(s, x, le) {
        InsertClass(s[0], t, x, le);
        assert ([s[0]] + t)[1..] == t;
      }
    }
  }

  lemma {:induction false} ClassMember<T(!new)>(s: seq<T>, x: T, le: (T, T) -> bool)
    ensures forall y :: y in Class(s, x, le) <==> y in s && Same(x, y, le)
  {
    if s != [] {
      ClassMember(s[1..], x, le);
      assert s == [s[0]] + s[1..];
    }
  }

  lemma ClassOfHead<T(!new)>(s: seq<T>, le: (T, T) -> bool)
    requires TotalPreorder(le)
    ensures s != [] ==> Class(s, s[0], le) != []
  {
  }

  /** Order and stability leave no choice: two sorted lists with the same elements, in the same
      order within every key, are equal. */
  lemma {:induction false} SortedStableUnique<T(!new)>(s: seq<T>, t: seq<T>, le: (T, T) -> bool)
    requires TotalPreorder(le) && Sorted(s, le) && Sorted(t, le)
    requires forall x :: Class(s, x, le) == Class(t, x, le)
    ensures s == t
  {
    if s == [] || t == [] {
      ClassOfHead(s, le);
      ClassOfHead(t, le);
    } else {
      ClassMember(s, t[0], le);
      ClassMember(t, s[0], le);
      ClassMember(s, s[0], le);
      ClassMember(t, t[0], le);
      assert t[0] in Class(s, t[0], le) && s[0] in Class(t, s[0], le);
      assert Same(t[0], s[0], le);
      assert Class(s, s[0], le)[0] == s[0] && Class(t, s[0], le)[0] == t[0];
      forall x ensures Class(s[1..], x, le) == Class(t[1..], x, le) {
        var n := if Same(x, s[0], le) then 1 else 0;
        assert Class(s[1..], x, le) == Class(s, x, le)[n..];
        assert Class(t[1..], x, le) == Class(t, x, le)[n..];
      }
      SortedStableUnique(s[1..], t[1..], le);
      assert s == [s[0]] + s[1..] && t == [t[0]] + t[1..];
    }
  }
}
