/** Filters, maps and stable sorting of sequences. */
module Lists {

  function Filter<T>(s: seq<T>, p: T -> bool): seq<T>
    decreases |s|
  {
    if s == [] then [] else
    var rest := Filter(s[..|s| - 1], p);
    if p(s[|s| - 1]) then rest + [s[|s| - 1]] else rest
  }

  function Map<S, T>(s: seq<S>, f: S -> T): (r: seq<T>)
    ensures |r| == |s| && forall i :: 0 <= i < |s| ==> r[i] == f(s[i])
  {
    seq(|s|, i requires 0 <= i < |s| => f(s[i]))
  }

  /** The last n elements, or all of them. */
  function LastN<T>(s: seq<T>, n: nat): seq<T>
  {
    if |s| <= n then s else s[|s| - n..]
  }

  lemma {:induction false} FilterNone<T>(s: seq<T>, p: T -> bool)
    requires forall i :: 0 <= i < |s| ==> !p(s[i])
    ensures Filter(s, p) == []
    decreases |s|
  {
    if s != [] {
      FilterNone(s[..|s| - 1], p);
    }
  }

  lemma {:induction false} FilterMembers<T>(s: seq<T>, p: T -> bool, x: T)
    ensures x in Filter(s, p) <==> x in s && p(x)
    decreases |s|
  {
    if s != [] {
      FilterMembers(s[..|s| - 1], p, x);
      assert s == s[..|s| - 1] + [s[|s| - 1]];
    }
  }

  lemma {:induction false} FilterAppend<T>(a: seq<T>, b: seq<T>, p: T -> bool)
    ensures Filter(a + b, p) == Filter(a, p) + Filter(b, p)
    decreases |b|
  {
    if b == [] {
      assert a + b == a;
    } else {
      FilterAppend(a, b[..|b| - 1], p);
      assert (a + b)[..|a + b| - 1] == a + b[..|b| - 1];
    }
  }

  lemma MapAppend<S, T>(a: seq<S>, b: seq<S>, f: S -> T)
    ensures Map(a + b, f) == Map(a, f) + Map(b, f)
  {}

  // ----- Stable sorting -----

  /** `before` is a strict weak order. */
  ghost predicate Ranks<T(!new)>(before: (T, T) -> bool)
  {
    && (forall x, y :: before(x, y) ==> !before(y, x))
    && (forall x, y, z :: before(x, y) && !before(z, y) ==> before(x, z))
  }

  /** No element stands before an earlier one. */
  ghost predicate InOrder<T>(s: seq<T>, before: (T, T) -> bool)
  {
    forall i, j :: 0 <= i < j < |s| ==> !before(s[j], s[i])
  }

  /** Inserts x behind everything it does not stand before. */
  function Insert<T>(x: T, s: seq<T>, before: (T, T) -> bool): (r: seq<T>)
    ensures |r| == |s| + 1
    decreases |s|
  {
    if s != [] && before(x, s[|s| - 1]) then Insert(x, s[..|s| - 1], before) + [s[|s| - 1]] else s + [x]
  }

  function StableSort<T>(s: seq<T>, before: (T, T) -> bool): (r: seq<T>)
    ensures |r| == |s|
    decreases |s|
  {
    if s == [] then [] else Insert(s[|s| - 1], StableSort(s[..|s| - 1], before), before)
  }

  /** The elements that rank with x. */
  function Tied<T>(x: T, before: (T, T) -> bool): T -> bool
  {
    (y: T) => !before(x, y) && !before(y, x)
  }

  /** What a stable sort promises: r is in order and keeps ties as s has them. */
  ghost predicate IsStableSort<T(!new)>(s: seq<T>, r: seq<T>, before: (T, T) -> bool)
  {
    InOrder(r, before) && forall x: T :: Filter(r, Tied(x, before)) == Filter(s, Tied(x, before))
  }

  lemma {:induction false} InsertInOrder<T(!new)>(x: T, s: seq<T>, before: (T, T) -> bool)
    requires Ranks(before) && InOrder(s, before)
    ensures InOrder(Insert(x, s, before), before)
    ensures forall y :: y in Insert(x, s, before) ==> y == x || y in s
    decreases |s|
  {
    if s != [] {
      var init, last := s[..|s| - 1], s[|s| - 1];
      if before(x, last) {
        InsertInOrder(x, init, before);
        var r := Insert(x, init, before);
        forall i | 0 <= i < |r|
          ensures !before(last, r[i])
        {
          assert r[i] in r;
        }
      } else {
        forall i | 0 <= i < |s|
          ensures !before(x, s[i])
        {
          assert i < |s| - 1 ==> !before(last, s[i]);
        }
      }
    }
  }

  lemma {:induction false} InsertFiltered<T(!new)>(x: T, s: seq<T>, before: (T, T) -> bool, p: T -> bool)
    requires Ranks(before) && InOrder(s, before)
    ensures Filter(Insert(x, s, before), p) == if p(x) then Insert(x, Filter(s, p), before) else Filter(s, p)
    decreases |s|
  {
    if s != [] {
      var init, last := s[..|s| - 1], s[|s| - 1];
      if before(x, last) {
        InsertFiltered(x, init, before, p);
        FilterOfAppended(Insert(x, init, before), last, Insert(x, s, before), p);
        if p(x) && p(last) {
          InsertAhead(x, Filter(init, p), last, Filter(s, p), before);
        }
      } else {
        FilterOfAppended(s, x, Insert(x, s, before), p);
        if p(x) {
          InsertBehind(x, s, Filter(s, p), before, p);
        }
      }
    } else {
      FilterOfAppended([], x, [x], p);
    }
  }

  lemma FilterOfAppended<T>(s: seq<T>, x: T, t: seq<T>, p: T -> bool)
    requires t == s + [x]
    ensures Filter(t, p) == if p(x) then Filter(s, p) + [x] else Filter(s, p)
  {
    assert t[..|t| - 1] == s;
  }

  lemma InsertAhead<T>(x: T, s: seq<T>, last: T, t: seq<T>, before: (T, T) -> bool)
    requires t == s + [last] && before(x, last)
    ensures Insert(x, t, before) == Insert(x, s, before) + [last]
  {
    assert t[..|t| - 1] == s;
  }

  lemma InsertBehind<T(!new)>(x: T, s: seq<T>, f: seq<T>, before: (T, T) -> bool, p: T -> bool)
    requires Ranks(before) && InOrder(s, before) && s != [] && !before(x, s[|s| - 1]) && f == Filter(s, p)
    ensures Insert(x, f, before) == f + [x]
  {
    if f != [] {
      var y := f[|f| - 1];
      FilterMembers(s, p, y);
      var i :| 0 <= i < |s| && s[i] == y;
      assert i < |s| - 1 ==> !before(s[|s| - 1], y);
    }
  }

  lemma {:induction false} SortInOrder<T(!new)>(s: seq<T>, before: (T, T) -> bool)
    requires Ranks(before)
    ensures InOrder(StableSort(s, before), before)
    decreases |s|
  {
    if s != [] {
      SortInOrder(s[..|s| - 1], before);
      InsertInOrder(s[|s| - 1], StableSort(s[..|s| - 1], before), before);
    }
  }

  /** Sorting and then filtering is filtering and then sorting. */
  lemma {:induction false} SortCommutesWithFilter<T(!new)>(s: seq<T>, before: (T, T) -> bool, p: T -> bool)
    requires Ranks(before)
    ensures Filter(StableSort(s, before), p) == StableSort(Filter(s, p), before)
    decreases |s|
  {
    if s != [] {
      var init, last := s[..|s| - 1], s[|s| - 1];
      SortCommutesWithFilter(init, before, p);
      SortInOrder(init, before);
      InsertFiltered(last, StableSort(init, before), before, p);
      if p(last) {
        SortOfAppended(Filter(init, p), last, Filter(s, p), before);
      }
    }
  }

  lemma SortOfAppended<T>(s: seq<T>, x: T, t: seq<T>, before: (T, T) -> bool)
    requires t == s + [x]
    ensures StableSort(t, before) == Insert(x, StableSort(s, before), before)
  {
    assert t[..|t| - 1] == s;
  }

  /** Sorting images is the image of sorting, when the image ranks as the original. */
  lemma {:induction false} SortCommutesWithMap<S, T>(s: seq<S>, f: S -> T, b: (S, S) -> bool, before: (T, T) -> bool)
    requires forall x, y :: x in s && y in s ==> b(x, y) == before(f(x), f(y))
    ensures StableSort(Map(s, f), before) == Map(StableSort(s, b), f)
    decreases |s|
  {
    if s != [] {
      var init, last := s[..|s| - 1], s[|s| - 1];
      assert forall x :: x in init ==> x in s;
      SortCommutesWithMap(init, f, b, before);
      assert Map(s, f) == Map(init, f) + [f(last)];
      SortOfAppended(Map(init, f), f(last), Map(s, f), before);
      SortMembers(init, b);
      InsertImage(last, StableSort(init, b), f, b, before);
    }
  }

  lemma {:induction false} InsertImage<S, T>(x: S, s: seq<S>, f: S -> T, b: (S, S) -> bool, before: (T, T) -> bool)
    requires forall y :: y in s ==> b(x, y) == before(f(x), f(y))
    ensures Insert(f(x), Map(s, f), before) == Map(Insert(x, s, b), f)
    decreases |s|
  {
    if s != [] {
      var init, last := s[..|s| - 1], s[|s| - 1];
      assert last in s;
      assert Map(s, f)[..|s| - 1] == Map(init, f);
      if b(x, last) {
        InsertImage(x, init, f, b, before);
      }
    }
  }

  lemma {:induction false} SortMembers<T>(s: seq<T>, before: (T, T) -> bool)
    ensures forall y :: y in StableSort(s, before) ==> y in s
    ensures forall y :: y in s ==> y in StableSort(s, before)
    decreases |s|
  {
    if s != [] {
      var init, last := s[..|s| - 1], s[|s| - 1];
      SortMembers(init, before);
      InsertMembers(last, StableSort(init, before), before);
      assert s == init + [last];
    }
  }

  lemma {:induction false} InsertMembers<T>(x: T, s: seq<T>, before: (T, T) -> bool)
    ensures forall y :: y in Insert(x, s, before) ==> y == x || y in s
    ensures x in Insert(x, s, before) && forall y :: y in s ==> y in Insert(x, s, before)
    decreases |s|
  {
    if s != [] && before(x, s[|s| - 1]) {
      var init, last := s[..|s| - 1], s[|s| - 1];
      InsertMembers(x, init, before);
      assert s == init + [last];
    }
  }

  ghost predicate NoRepeats<T>(s: seq<T>)
  {
    forall i, j :: 0 <= i < j < |s| ==> s[i] != s[j]
  }

  lemma {:induction false} InsertNoRepeats<T>(x: T, s: seq<T>, before: (T, T) -> bool)
    requires NoRepeats(s) && x !in s
    ensures NoRepeats(Insert(x, s, before))
    decreases |s|
  {
    if s != [] && before(x, s[|s| - 1]) {
      var init, last := s[..|s| - 1], s[|s| - 1];
      InsertNoRepeats(x, init, before);
      InsertMembers(x, init, before);
      var r := Insert(x, init, before);
      forall i | 0 <= i < |r|
        ensures r[i] != last
      {
        assert r[i] in r;
      }
    }
  }

  lemma {:induction false} SortNoRepeats<T>(s: seq<T>, before: (T, T) -> bool)
    requires NoRepeats(s)
    ensures NoRepeats(StableSort(s, before))
    decreases |s|
  {
    if s != [] {
      var init, last := s[..|s| - 1], s[|s| - 1];
      SortNoRepeats(init, before);
      SortMembers(init, before);
      InsertNoRepeats(last, StableSort(init, before), before);
    }
  }

  /** Some element of s has the key of x. */
  predicate Repeats<T, K(==)>(s: seq<T>, x: T, key: T -> K)
  {
    exists i :: 0 <= i < |s| && key(s[i]) == key(x)
  }

  /** The elements of s whose key no earlier one has. */
  function FirstOfEach<T, K(==)>(s: seq<T>, key: T -> K): seq<T>
  {
    if s == [] then []
    else
      var init, last := s[..|s| - 1], s[|s| - 1];
      FirstOfEach(init, key) + if Repeats(init, last, key) then [] else [last]
  }

  function KeysOf<T, K(==)>(s: seq<T>, key: T -> K): set<K>
  {
    if s == [] then {} else KeysOf(s[..|s| - 1], key) + {key(s[|s| - 1])}
  }

  lemma {:induction false} RepeatsIsInKeys<T, K>(s: seq<T>, x: T, key: T -> K)
    ensures key(x) in KeysOf(s, key) <==> Repeats(s, x, key)
    decreases |s|
  {
    if s != [] {
      RepeatsIsInKeys(s[..|s| - 1], x, key);
    }
  }

  lemma {:induction false} KeysStay<T, K>(s: seq<T>, key: T -> K)
    ensures KeysOf(FirstOfEach(s, key), key) == KeysOf(s, key)
    decreases |s|
  {
    if s != [] {
      var init, last := s[..|s| - 1], s[|s| - 1];
      KeysStay(init, key);
      if Repeats(init, last, key) {
        RepeatsIsInKeys(init, last, key);
        assert FirstOfEach(s, key) == FirstOfEach(init, key);
      } else {
        assert FirstOfEach(s, key)[..|FirstOfEach(init, key)|] == FirstOfEach(init, key);
      }
    }
  }

  /** One element of every key stays, in order. */
  lemma {:induction false} FirstOfEachKeeps<T, K>(s: seq<T>, key: T -> K, before: (T, T) -> bool)
    ensures forall x :: x in FirstOfEach(s, key) ==> x in s
    ensures forall x :: x in s ==> Repeats(FirstOfEach(s, key), x, key)
    ensures NoRepeats(Map(FirstOfEach(s, key), key))
    ensures InOrder(s, before) ==> InOrder(FirstOfEach(s, key), before)
    decreases |s|
  {
    forall x | x in s
      ensures Repeats(FirstOfEach(s, key), x, key)
    {
      var i :| 0 <= i < |s| && s[i] == x;
      RepeatsIsInKeys(s, x, key);
      KeysStay(s, key);
      RepeatsIsInKeys(FirstOfEach(s, key), x, key);
    }
    if s != [] {
      var init, last := s[..|s| - 1], s[|s| - 1];
      assert s == init + [last];
      FirstOfEachKeeps(init, key, before);
      if !Repeats(init, last, key) {
        KeptDiffer(init, last, key);
        var kept := FirstOfEach(init, key);
        assert Map(kept + [last], key) == Map(kept, key) + [key(last)];
        forall i | 0 <= i < |kept| && InOrder(s, before)
          ensures !before(last, kept[i])
        {
          assert kept[i] in init;
          var j :| 0 <= j < |init| && init[j] == kept[i];
          assert !before(s[|init|], s[j]);
        }
      }
    }
  }

  lemma KeptDiffer<T, K>(s: seq<T>, x: T, key: T -> K)
    requires !Repeats(s, x, key)
    ensures key(x) !in Map(FirstOfEach(s, key), key)
  {
    RepeatsIsInKeys(s, x, key);
    KeysStay(s, key);
    RepeatsIsInKeys(FirstOfEach(s, key), x, key);
  }

  lemma FirstOfAppended<T, K>(s: seq<T>, x: T, t: seq<T>, key: T -> K)
    requires t == s + [x]
    ensures FirstOfEach(t, key) == FirstOfEach(s, key) + if Repeats(s, x, key) then [] else [x]
  {
    assert t[..|t| - 1] == s;
  }

  /** The deduplicating loop over a set of keys. */
  method KeepFirst<T, K(==)>(s: seq<T>, key: T -> K) returns (out: seq<T>)
    ensures out == FirstOfEach(s, key)
  {
    out := [];
    var seen: set<K> := {};
    for i := 0 to |s|
      invariant out == FirstOfEach(s[..i], key)
      invariant seen == KeysOf(s[..i], key)
    {
      ghost var init, next := s[..i], s[..i + 1];
      assert next[..i] == init && next[i] == s[i];
      RepeatsIsInKeys(init, s[i], key);
      FirstOfAppended(init, s[i], next, key);
      if key(s[i]) !in seen {
        seen := seen + {key(s[i])};
        out := out + [s[i]];
      }
    }
    assert s[..|s|] == s;
  }

  lemma {:induction false} InsertPermutes<T>(x: T, s: seq<T>, before: (T, T) -> bool)
    ensures multiset(Insert(x, s, before)) == multiset(s) + multiset{x}
    decreases |s|
  {
    if s != [] && before(x, s[|s| - 1]) {
      InsertPermutes(x, s[..|s| - 1], before);
      assert s == s[..|s| - 1] + [s[|s| - 1]];
    }
  }

  lemma {:induction false} SortPermutes<T>(s: seq<T>, before: (T, T) -> bool)
    ensures multiset(StableSort(s, before)) == multiset(s)
    decreases |s|
  {
    if s != [] {
      var init, last := s[..|s| - 1], s[|s| - 1];
      assert s == init + [last];
      SortPermutes(init, before);
      SortOfAppended(init, last, s, before);
      AppendedPermutes(init, last, s, StableSort(init, before), before);
    }
  }

  lemma AppendedPermutes<T>(s: seq<T>, x: T, t: seq<T>, r: seq<T>, before: (T, T) -> bool)
    requires t == s + [x] && multiset(r) == multiset(s)
    ensures multiset(Insert(x, r, before)) == multiset(t)
  {
    InsertPermutes(x, r, before);
  }

  /** Where an element goes that stands before everything from j on, and not before j - 1. */
  lemma {:induction false} InsertAt<T>(x: T, s: seq<T>, j: nat, before: (T, T) -> bool)
    requires j <= |s| && (forall k :: j <= k < |s| ==> before(x, s[k])) && (j > 0 ==> !before(x, s[j - 1]))
    ensures Insert(x, s, before) == s[..j] + [x] + s[j..]
    decreases |s|
  {
    if j < |s| {
      InsertAt(x, s[..|s| - 1], j, before);
    }
  }

  /** Every element stands before all later ones. */
  ghost predicate Strict<T>(s: seq<T>, before: (T, T) -> bool)
  {
    forall i, j :: 0 <= i < j < |s| ==> before(s[i], s[j])
  }

  lemma {:induction false} InsertStrict<T(!new)>(x: T, s: seq<T>, before: (T, T) -> bool)
    requires Ranks(before) && Strict(s, before) && forall y :: y in s ==> before(x, y) || before(y, x)
    ensures Strict(Insert(x, s, before), before)
    decreases |s|
  {
    if s != [] {
      var init, last := s[..|s| - 1], s[|s| - 1];
      assert last in s;
      if before(x, last) {
        InsertStrict(x, init, before);
        InsertMembers(x, init, before);
        var r := Insert(x, init, before);
        forall i | 0 <= i < |r|
          ensures before(r[i], last)
        {
          assert r[i] in r;
        }
      } else {
        forall i | 0 <= i < |s|
          ensures before(s[i], x)
        {
          assert i < |s| - 1 ==> before(s[i], last);
        }
      }
    }
  }

  lemma {:induction false} SortStrict<T(!new)>(s: seq<T>, before: (T, T) -> bool)
    requires Ranks(before)
    requires forall i, j :: 0 <= i < j < |s| ==> before(s[i], s[j]) || before(s[j], s[i])
    ensures Strict(StableSort(s, before), before)
    decreases |s|
  {
    if s != [] {
      var init, last := s[..|s| - 1], s[|s| - 1];
      SortStrict(init, before);
      SortMembers(init, before);
      forall y | y in StableSort(init, before)
        ensures before(last, y) || before(y, last)
      {
        assert y in init;
        var i :| 0 <= i < |init| && init[i] == y;
        assert before(s[i], s[|s| - 1]) || before(s[|s| - 1], s[i]);
      }
      InsertStrict(last, StableSort(init, before), before);
    }
  }

  /** The insertion sort by adjacent swaps, in place. */
  method InsertionSort<T>(a: array<T>, before: (T, T) -> bool)
    modifies a
    ensures a[..] == StableSort(old(a[..]), before)
  {
    ghost var s := a[..];
    var i := 0;
    while i < a.Length
      invariant 0 <= i <= a.Length == |s|
      invariant a[..] == StableSort(s[..i], before) + s[i..]
    {
      Parts(StableSort(s[..i], before), s, i, a[..]);
      SortOfAppended(s[..i], s[i], s[..i + 1], before);
      SinkLast(a, i, before);
      i := i + 1;
    }
    assert s[..|s|] == s;
  }

  lemma Parts<T>(sorted: seq<T>, s: seq<T>, i: nat, t: seq<T>)
    requires i < |s| && |sorted| == i && t == sorted + s[i..]
    ensures t[..i] == sorted && t[i] == s[i] && t[i + 1..] == s[i + 1..]
  {}

  /** Swaps the element at i down to its place among those in front of it. */
  method SinkLast<T>(a: array<T>, i: nat, before: (T, T) -> bool)
    requires i < a.Length
    modifies a
    ensures a[..] == Insert(old(a[..])[i], old(a[..])[..i], before) + old(a[..])[i + 1..]
  {
    ghost var s := a[..];
    var j := i;
    while j > 0 && before(a[j], a[j - 1])
      invariant 0 <= j <= i && a[j] == s[i]
      invariant forall k :: 0 <= k < j ==> a[k] == s[k]
      invariant forall k {:trigger s[k]} :: j <= k < i ==> a[k + 1] == s[k] && before(s[i], s[k])
      invariant forall k :: i < k < a.Length ==> a[k] == s[k]
    {
      a[j - 1], a[j] := a[j], a[j - 1];
      j := j - 1;
    }
    InsertAt(s[i], s[..i], j, before);
    Moved(s, a[..], i, j);
  }

  lemma Moved<T>(s: seq<T>, t: seq<T>, i: nat, j: nat)
    requires j <= i < |s| == |t| && t[j] == s[i]
    requires (forall k :: 0 <= k < j ==> t[k] == s[k]) && (forall k :: i < k < |s| ==> t[k] == s[k])
    requires forall k {:trigger s[k]} :: j <= k < i ==> t[k + 1] == s[k]
    ensures t == s[..i][..j] + [s[i]] + s[..i][j..] + s[i + 1..]
  {
    var r := s[..i][..j] + [s[i]] + s[..i][j..] + s[i + 1..];
    forall k | 0 <= k < |s|
      ensures t[k] == r[k]
    {
      if j < k <= i {
        assert t[k - 1 + 1] == s[k - 1];
      }
    }
  }

  /** Sorting a sequence whose elements all tie leaves it alone. */
  lemma {:induction false} SortOfTied<T>(s: seq<T>, before: (T, T) -> bool)
    requires forall x, y :: x in s && y in s ==> !before(x, y)
    ensures StableSort(s, before) == s
    decreases |s|
  {
    if s != [] {
      var init, last := s[..|s| - 1], s[|s| - 1];
      assert s == init + [last];
      SortOfTied(init, before);
      SortOfAppended(init, last, s, before);
      assert init != [] ==> init[|init| - 1] in s;
    }
  }

  /** StableSort is the only stable sort. */
  lemma StableSortIsUnique<T(!new)>(s: seq<T>, r: seq<T>, before: (T, T) -> bool)
    requires Ranks(before)
    ensures IsStableSort(s, r, before) <==> r == StableSort(s, before)
  {
    var t := StableSort(s, before);
    SortInOrder(s, before);
    forall x: T
      ensures Filter(t, Tied(x, before)) == Filter(s, Tied(x, before))
    {
      var tied := Filter(s, Tied(x, before));
      SortCommutesWithFilter(s, before, Tied(x, before));
      forall y, z | y in tied && z in tied
        ensures !before(y, z)
      {
        FilterMembers(s, Tied(x, before), y);
        FilterMembers(s, Tied(x, before), z);
      }
      SortOfTied(tied, before);
    }
    if IsStableSort(s, r, before) {
      forall x: T
        ensures Filter(r, Tied(x, before)) == Filter(t, Tied(x, before))
      {}
      SameTiesSameOrder(r, t, before);
    }
  }

  lemma {:induction false} SameTiesSameOrder<T(!new)>(a: seq<T>, b: seq<T>, before: (T, T) -> bool)
    requires Ranks(before) && InOrder(a, before) && InOrder(b, before)
    requires forall x: T {:trigger Tied(x, before)} :: Filter(a, Tied(x, before)) == Filter(b, Tied(x, before))
    ensures a == b
    decreases |a|
  {
    if a == [] {
      if b != [] {
        SameLast(b, a, before);
      }
    } else {
      SameLast(a, b, before);
      var a', b', last := a[..|a| - 1], b[..|b| - 1], a[|a| - 1];
      forall x: T
        ensures Filter(a', Tied(x, before)) == Filter(b', Tied(x, before))
      {
        var fa, fb := Filter(a, Tied(x, before)), Filter(b, Tied(x, before));
        assert fa == fb;
        if Tied(x, before)(last) {
          assert Filter(a', Tied(x, before)) == fa[..|fa| - 1];
          assert Filter(b', Tied(x, before)) == fb[..|fb| - 1];
        }
      }
      SameTiesSameOrder(a', b', before);
    }
  }

  lemma SameLast<T(!new)>(a: seq<T>, b: seq<T>, before: (T, T) -> bool)
    requires Ranks(before) && InOrder(a, before) && InOrder(b, before) && a != []
    requires forall x: T {:trigger Tied(x, before)} :: Filter(a, Tied(x, before)) == Filter(b, Tied(x, before))
    ensures b != [] && a[|a| - 1] == b[|b| - 1]
  {
    var x := a[|a| - 1];
    var tied := Filter(a, Tied(x, before));
    assert tied[|tied| - 1] == x;
    assert tied == Filter(b, Tied(x, before));
    FilterMembers(b, Tied(x, before), x);
    var y := b[|b| - 1];
    var j :| 0 <= j < |b| && b[j] == x;
    assert !before(y, x);
    var tiedY := Filter(b, Tied(y, before));
    assert tiedY[|tiedY| - 1] == y;
    assert tiedY == Filter(a, Tied(y, before));
    FilterMembers(a, Tied(y, before), y);
    var i :| 0 <= i < |a| && a[i] == y;
    assert !before(x, y);
    assert Tied(x, before)(y);
  }
}
