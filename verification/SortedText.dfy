/** Sorted lists of distinct texts: making them and searching them. */
module SortedText {
  import opened Lists
  import opened Text

  lemma TextRanks()
    ensures Ranks(TextLess)
  {
    forall x: string, y: string, z: string | TextLess(x, y)
      ensures !TextLess(y, x) && (!TextLess(z, y) ==> TextLess(x, z))
    {
      TextLessIsTotal(x, y);
      TextLessIsTotal(y, z);
      if TextLess(y, z) {
        TextLessIsTransitive(x, y, z);
      }
    }
  }

  method SortStrings(ss: seq<string>) returns (out: seq<string>)
    requires forall i, j :: 0 <= i < j < |ss| ==> ss[i] != ss[j]
    ensures Strict(out, TextLess) && forall s :: s in out <==> s in ss
  {
    var a := new string[|ss|](i requires 0 <= i < |ss| => ss[i]);
    assert a[..] == ss;
    InsertionSort(a, TextLess);
    out := a[..];
    TextRanks();
    forall i, j | 0 <= i < j < |ss|
      ensures TextLess(ss[i], ss[j]) || TextLess(ss[j], ss[i])
    {
      TextLessIsTotal(ss[i], ss[j]);
    }
    SortStrict(ss, TextLess);
    SortMembers(ss, TextLess);
  }

  /** The members of a set, whatever order they come in, sorted. */
  method SortedKeys(m: set<string>) returns (out: seq<string>)
    ensures Strict(out, TextLess) && forall s :: s in out <==> s in m
  {
    var found: seq<string> := [];
    var todo := m;
    while todo != {}
      invariant todo <= m
      invariant forall s :: s in found <==> s in m - todo
      invariant forall i, j :: 0 <= i < j < |found| ==> found[i] != found[j]
      decreases |todo|
    {
      var s :| s in todo;
      assert s !in found;
      found := found + [s];
      todo := todo - {s};
    }
    out := SortStrings(found);
  }

  /** Where the binary search between lo and hi ends, on any list. */
  function SearchBetween(list: seq<string>, v: string, lo: nat, hi: nat): (i: nat)
    requires lo <= hi <= |list|
    ensures lo <= i <= hi
    decreases hi - lo
  {
    if lo == hi then lo
    else
      var mid := (lo + hi) / 2;
      if TextLess(list[mid], v) then SearchBetween(list, v, mid + 1, hi) else SearchBetween(list, v, lo, mid)
  }

  /** The search ends at the text. */
  predicate IsFound(list: seq<string>, v: string)
  {
    var i := SearchBetween(list, v, 0, |list|);
    i < |list| && list[i] == v
  }

  method SearchStrings(list: seq<string>, v: string) returns (i: nat)
    ensures i == SearchBetween(list, v, 0, |list|)
  {
    var j := |list|;
    i := 0;
    while i < j
      invariant 0 <= i <= j <= |list|
      invariant SearchBetween(list, v, i, j) == SearchBetween(list, v, 0, |list|)
    {
      var h := (i + j) / 2;
      if TextLess(list[h], v) {
        i := h + 1;
      } else {
        j := h;
      }
    }
  }

  /** Membership by binary search, on any list. */
  method Contains(list: seq<string>, v: string) returns (b: bool)
    ensures b <==> IsFound(list, v)
    ensures b ==> v in list
    ensures InOrder(list, TextLess) ==> (b <==> v in list)
  {
    var i := SearchStrings(list, v);
    b := i < |list| && list[i] == v;
    if InOrder(list, TextLess) {
      FoundIffMember(list, v);
    }
  }

  /** In an ordered list, with or without repetitions, the search ends at the first text that is
      not below v. */
  lemma {:induction false} SearchSplits(list: seq<string>, v: string, lo: nat, hi: nat)
    requires lo <= hi <= |list| && InOrder(list, TextLess)
    requires forall k :: 0 <= k < lo ==> TextLess(list[k], v)
    requires forall k :: hi <= k < |list| ==> !TextLess(list[k], v)
    ensures var i := SearchBetween(list, v, lo, hi);
            && (forall k :: 0 <= k < i ==> TextLess(list[k], v))
            && (forall k :: i <= k < |list| ==> !TextLess(list[k], v))
    decreases hi - lo
  {
    if lo < hi {
      var mid := (lo + hi) / 2;
      TextRanks();
      if TextLess(list[mid], v) {
        forall k | 0 <= k < mid
          ensures TextLess(list[k], v)
        {
          assert !TextLess(list[mid], list[k]);
          TextLessIsTotal(list[k], list[mid]);
        }
        SearchSplits(list, v, mid + 1, hi);
      } else {
        forall k | mid < k < |list|
          ensures !TextLess(list[k], v)
        {
          assert !TextLess(list[k], list[mid]);
        }
        SearchSplits(list, v, lo, mid);
      }
    }
  }

  lemma FoundIffMember(list: seq<string>, v: string)
    requires InOrder(list, TextLess)
    ensures IsFound(list, v) <==> v in list
  {
    SearchSplits(list, v, 0, |list|);
    TextLessIsTotal(v, v);
    if v in list {
      var i := SearchBetween(list, v, 0, |list|);
      var k :| 0 <= k < |list| && list[k] == v;
      assert i <= k;
      TextLessIsTotal(list[i], v);
      assert i < k ==> !TextLess(list[k], list[i]);
    }
  }

  lemma StrictInOrder(list: seq<string>)
    requires Strict(list, TextLess)
    ensures InOrder(list, TextLess)
  {
    TextRanks();
  }

  // ----- When the search decides membership -----

  /** Every text probed on the way to k sends the search for v towards k. */
  predicate Steers(list: seq<string>, v: string, lo: nat, hi: nat, k: nat)
    requires lo <= k <= hi <= |list|
    decreases hi - lo
  {
    lo == hi ||
    var mid := (lo + hi) / 2;
    if TextLess(list[mid], v) then mid < k && Steers(list, v, mid + 1, hi, k)
    else k <= mid && Steers(list, v, lo, mid, k)
  }

  lemma {:induction false} SteersToEnd(list: seq<string>, v: string, lo: nat, hi: nat, k: nat)
    requires lo <= k <= hi <= |list|
    ensures Steers(list, v, lo, hi, k) <==> SearchBetween(list, v, lo, hi) == k
    decreases hi - lo
  {
    if lo < hi {
      var mid := (lo + hi) / 2;
      if TextLess(list[mid], v) {
        if mid < k {
          SteersToEnd(list, v, mid + 1, hi, k);
        }
      } else if k <= mid {
        SteersToEnd(list, v, lo, mid, k);
      }
    }
  }

  /** On any list a text is found exactly when some occurrence of it is one that every probe on
      the way steers to. */
  lemma FoundIffSteered(list: seq<string>, v: string)
    ensures IsFound(list, v) <==> exists k :: 0 <= k < |list| && list[k] == v && Steers(list, v, 0, |list|, k)
  {
    var i := SearchBetween(list, v, 0, |list|);
    SteersToEnd(list, v, 0, |list|, i);
    forall k | 0 <= k < |list| && list[k] == v && Steers(list, v, 0, |list|, k)
      ensures k == i
    {
      SteersToEnd(list, v, 0, |list|, k);
    }
  }

  /** The search finds every member of the list. */
  ghost predicate FindsMembers(list: seq<string>)
  {
    forall v :: v in list ==> IsFound(list, v)
  }

  /** The search for the text at k between lo and hi ends at k. */
  predicate EndsThere(list: seq<string>, lo: nat, hi: nat, k: nat)
    requires lo <= hi <= |list| && k < |list|
  {
    SearchBetween(list, list[k], lo, hi) == k
  }

  lemma {:induction false} FoundIsOrdered(list: seq<string>, lo: nat, hi: nat)
    requires lo <= hi <= |list| && NoRepeats(list)
    requires forall k :: lo <= k < hi ==> EndsThere(list, lo, hi, k)
    ensures forall i, j :: lo <= i < j < hi ==> TextLess(list[i], list[j])
    decreases hi - lo
  {
    if lo < hi {
      var mid := (lo + hi) / 2;
      forall k | lo <= k < hi
        ensures k < mid ==> TextLess(list[k], list[mid]) && EndsThere(list, lo, mid, k)
        ensures k > mid ==> TextLess(list[mid], list[k]) && EndsThere(list, mid + 1, hi, k)
      {
        assert EndsThere(list, lo, hi, k);
        TextLessIsTotal(list[k], list[mid]);
      }
      FoundIsOrdered(list, lo, mid);
      FoundIsOrdered(list, mid + 1, hi);
      forall i, j | lo <= i < j < hi
        ensures TextLess(list[i], list[j])
      {
        if i < mid < j {
          TextLessIsTransitive(list[i], list[mid], list[j]);
        }
      }
    }
  }

  /** Without repetitions the search decides membership exactly on the ordered lists. */
  lemma FindsMembersIff(list: seq<string>)
    requires NoRepeats(list)
    ensures FindsMembers(list) <==> InOrder(list, TextLess)
  {
    if FindsMembers(list) {
      forall k | 0 <= k < |list|
        ensures EndsThere(list, 0, |list|, k)
      {
        assert list[k] in list && IsFound(list, list[k]);
      }
      FoundIsOrdered(list, 0, |list|);
      StrictInOrder(list);
    }
    if InOrder(list, TextLess) {
      forall v
        ensures IsFound(list, v) <==> v in list
      {
        FoundIffMember(list, v);
      }
    }
  }

  /** With repetitions a list out of order can still have all its members found. */
  lemma UnorderedCanFind()
    ensures !InOrder(["a", "b", "a"], TextLess) && FindsMembers(["a", "b", "a"])
  {
    var list := ["a", "b", "a"];
    assert list[0][0] == 'a' && list[1][0] == 'b' && list[2][0] == 'a';
    assert TextLess("a", "b") && !TextLess("b", "a") && !TextLess("a", "a") && !TextLess("b", "b");
    assert TextLess(list[2], list[1]);
    forall v | v in list
      ensures IsFound(list, v)
    {
      assert v == list[0] || v == list[1];
      assert SearchBetween(list, v, 0, 3) == SearchBetween(list, v, 0, 1);
    }
  }

  /** Sorted lists with the same members are the same list. */
  lemma {:induction false} SortedIsUnique(a: seq<string>, b: seq<string>)
    requires Strict(a, TextLess) && Strict(b, TextLess) && forall s :: s in a <==> s in b
    ensures a == b
    decreases |a|
  {
    TextRanks();
    assert |b| > 0 ==> b[0] in b;
    if a != [] {
      assert a[0] in a;
      assert b != [];
      assert a[0] in b && b[0] in a;
      TextLessIsTotal(a[0], b[0]);
      assert a[0] == b[0];
      forall s
        ensures s in a[1..] <==> s in b[1..]
      {
        assert s in a <==> s == a[0] || s in a[1..];
        assert s in b <==> s == b[0] || s in b[1..];
      }
      SortedIsUnique(a[1..], b[1..]);
    }
  }
}
