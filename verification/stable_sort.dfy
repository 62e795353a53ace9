/** `sort` with a comparator, as JavaScript promises it: what compares as equal keeps its order. */
module StableSort {

  /** upTo(a, b) says that the comparator does not put a after b. */
  function Insert<T>(x: T, s: seq<T>, upTo: (T, T) -> bool): seq<T> {
    if s == [] || upTo(s[|s| - 1], x) then s + [x]
    else Insert(x, s[..|s| - 1], upTo) + [s[|s| - 1]]
  }

  function Sort<T>(s: seq<T>, upTo: (T, T) -> bool): seq<T> {
    if s == [] then [] else Insert(s[|s| - 1], Sort(s[..|s| - 1], upTo), upTo)
  }

  /** What a comparator owes. */
  ghost predicate Consistent<T(!new)>(upTo: (T, T) -> bool) {
    && (forall a: T, b: T :: upTo(a, b) || upTo(b, a))
    && (forall a: T, b: T, c: T :: upTo(a, b) && upTo(b, c) ==> upTo(a, c))
  }

  function PlaceIn<T(==)>(t: seq<T>, x: T): nat {
    if t == [] || x !in t[..|t| - 1] then if t == [] then 0 else |t| - 1 else PlaceIn(t[..|t| - 1], x)
  }

  /** By the comparator, and by place in t where it does not decide. */
  predicate Precedes<T(==)>(t: seq<T>, upTo: (T, T) -> bool, a: T, b: T) {
    upTo(a, b) && (upTo(b, a) ==> PlaceIn(t, a) < PlaceIn(t, b))
  }

  predicate StablySorted<T(==)>(t: seq<T>, upTo: (T, T) -> bool, s: seq<T>) {
    forall i, j | 0 <= i < j < |s| :: Precedes(t, upTo, s[i], s[j])
  }

  predicate SameElements<T(==)>(a: seq<T>, b: seq<T>) {
    |a| == |b| && (forall x | x in a :: x in b) && (forall x | x in b :: x in a)
  }

  lemma {:induction false} PlaceBounded<T>(t: seq<T>, x: T)
    requires x in t
    ensures PlaceIn(t, x) < |t|
  {
    if x in t[..|t| - 1] {
      PlaceBounded(t[..|t| - 1], x);
    }
  }

  lemma PlaceOfOneMore<T>(t: seq<T>, x: T, y: T)
    requires x !in t
    ensures PlaceIn(t + [x], x) == |t|
    ensures y in t ==> PlaceIn(t + [x], y) == PlaceIn(t, y) < |t|
  {
    assert (t + [x])[..|t|] == t;
    if y in t {
      PlaceBounded(t, y);
    }
  }

  lemma {:induction false} InsertSorts<T(!new)>(t: seq<T>, x: T, s: seq<T>, upTo: (T, T) -> bool)
    requires Consistent(upTo) && x !in t && StablySorted(t, upTo, s) && forall y | y in s :: y in t
    ensures StablySorted(t + [x], upTo, Insert(x, s, upTo))
    ensures SameElements(Insert(x, s, upTo), s + [x])
  {
    forall y | y in t
      ensures PlaceIn(t + [x], y) == PlaceIn(t, y) < PlaceIn(t + [x], x)
    {
      PlaceOfOneMore(t, x, y);
    }
    hide PlaceIn;
    assert StablySorted(t + [x], upTo, s) by {
      assert forall i | 0 <= i < |s| :: s[i] in s && s[i] in t;
    }
    if s == [] || upTo(s[|s| - 1], x) {
      AppendSorts(t, x, s, upTo);
    } else {
      var before, last := s[..|s| - 1], s[|s| - 1];
      assert s == before + [last];
      assert StablySorted(t, upTo, before);
      InsertSorts(t, x, before, upTo);
      var inserted := Insert(x, before, upTo);
      forall y | y in inserted
        ensures Precedes(t + [x], upTo, y, last)
      {
        if y != x {
          assert y in before + [x];
          var i :| 0 <= i < |before| && before[i] == y;
          assert Precedes(t + [x], upTo, s[i], s[|s| - 1]);
        }
      }
    }
  }

  lemma AppendSorts<T(!new)>(t: seq<T>, x: T, s: seq<T>, upTo: (T, T) -> bool)
    requires Consistent(upTo) && StablySorted(t, upTo, s) && (s == [] || upTo(s[|s| - 1], x))
    requires forall y | y in s :: PlaceIn(t + [x], y) == PlaceIn(t, y) < PlaceIn(t + [x], x)
    ensures StablySorted(t + [x], upTo, s + [x])
  {
    hide PlaceIn;
    forall i, j | 0 <= i < j < |s + [x]|
      ensures Precedes(t + [x], upTo, (s + [x])[i], (s + [x])[j])
    {
      assert s[i] in s && (j < |s| ==> s[j] in s);
      assert j == |s| && i < |s| - 1 ==> Precedes(t, upTo, s[i], s[|s| - 1]);
    }
  }

  /** Different items come out once each, by the comparator and, where it does not decide, as they stood. */
  lemma {:induction false} SortShape<T(!new)>(t: seq<T>, upTo: (T, T) -> bool)
    requires Consistent(upTo) && forall i, j | 0 <= i < j < |t| :: t[i] != t[j]
    ensures StablySorted(t, upTo, Sort(t, upTo)) && SameElements(Sort(t, upTo), t)
  {
    if t != [] {
      var x, before := t[|t| - 1], t[..|t| - 1];
      SortShape(before, upTo);
      InsertSorts(before, x, Sort(before, upTo), upTo);
      assert t == before + [x];
    }
  }

  lemma {:induction false} SortLength<T>(t: seq<T>, upTo: (T, T) -> bool)
    ensures |Sort(t, upTo)| == |t|
  {
    if t != [] {
      SortLength(t[..|t| - 1], upTo);
      InsertLength(t[|t| - 1], Sort(t[..|t| - 1], upTo), upTo);
    }
  }

  lemma {:induction false} InsertLength<T>(x: T, s: seq<T>, upTo: (T, T) -> bool)
    ensures |Insert(x, s, upTo)| == |s| + 1
  {
    if s != [] && !upTo(s[|s| - 1], x) {
      InsertLength(x, s[..|s| - 1], upTo);
    }
  }

  lemma {:induction false} SortSorted<T>(t: seq<T>, upTo: (T, T) -> bool)
    requires forall i, j | 0 <= i < j < |t| :: upTo(t[i], t[j])
    ensures Sort(t, upTo) == t
  {
    if t != [] {
      var before := t[..|t| - 1];
      SortSorted(before, upTo);
      assert t == before + [t[|t| - 1]];
    }
  }
}
