/** Strictly sorted sequences of strings: what a `BTreeSet<String>` iterates over. */
module SortedStrings {

  /** Code point order, which is the byte order of UTF-8. */
  predicate Less(a: string, b: string) {
    if b == "" then false
    else if a == "" then true
    else a[0] < b[0] || (a[0] == b[0] && Less(a[1..], b[1..]))
  }

  lemma {:induction false} LessIsTransitive(a: string, b: string, c: string)
    requires Less(a, b) && Less(b, c)
    ensures Less(a, c)
  {
    if a != "" && a[0] == b[0] && b[0] == c[0] { LessIsTransitive(a[1..], b[1..], c[1..]); }
  }

  lemma {:induction false} LessIsTotal(a: string, b: string)
    ensures !(Less(a, b) && Less(b, a))
    ensures Less(a, b) || a == b || Less(b, a)
    ensures !Less(a, a)
  {
    if a != "" && b != "" {
      LessIsTotal(a[1..], b[1..]);
      assert a == [a[0]] + a[1..] && b == [b[0]] + b[1..];
    }
    LessIsIrreflexive(a);
  }

  lemma {:induction false} LessIsIrreflexive(a: string)
    ensures !Less(a, a)
  {
    if a != "" { LessIsIrreflexive(a[1..]); }
  }

  /** Code by code, a proper prefix first. */
  ghost predicate LessFrom(a: string, b: string, k: nat) {
    k <= |a| && k < |b| && a[..k] == b[..k] && (k == |a| || a[k] < b[k])
  }

  lemma HeadsOfPrefix(a: string, b: string, k: nat)
    requires LessFrom(a, b, k)
    ensures k > 0 ==> a[0] == b[0]
  {
    if k > 0 { assert a[..k][0] == b[..k][0]; }
  }

  lemma {:induction false} LessExactly(a: string, b: string)
    ensures Less(a, b) <==> exists k: nat :: LessFrom(a, b, k)
  {
    if b != "" && a != "" && a[0] == b[0] {
      LessExactly(a[1..], b[1..]);
      assert a == [a[0]] + a[1..] && b == [b[0]] + b[1..];
      if k: nat :| LessFrom(a[1..], b[1..], k) {
        assert a[..k + 1] == [a[0]] + a[1..][..k] && b[..k + 1] == [b[0]] + b[1..][..k];
        assert LessFrom(a, b, k + 1);
      }
      if k: nat :| LessFrom(a, b, k) {
        assert k > 0;
        assert a[1..][..k - 1] == a[..k][1..] && b[1..][..k - 1] == b[..k][1..];
        assert LessFrom(a[1..], b[1..], k - 1);
      }
    } else {
      if Less(a, b) { assert LessFrom(a, b, 0); }
      if k: nat :| LessFrom(a, b, k) { HeadsOfPrefix(a, b, k); }
    }
  }

  ghost predicate StrictlySorted(list: seq<string>) {
    forall i, j | 0 <= i < j < |list| :: Less(list[i], list[j])
  }

  /** `BTreeSet::insert` */
  function Insert(x: string, list: seq<string>): seq<string> {
    if list == [] || Less(x, list[0]) then [x] + list
    else if x == list[0] then list
    else [list[0]] + Insert(x, list[1..])
  }

  lemma {:induction false} InsertKeepsSorted(x: string, list: seq<string>)
    requires StrictlySorted(list)
    ensures StrictlySorted(Insert(x, list))
    ensures forall y :: y in Insert(x, list) <==> y == x || y in list
  {
    if list == [] {
    } else if Less(x, list[0]) {
      forall j | 0 <= j < |list| ensures Less(x, list[j]) {
        if j > 0 { LessIsTransitive(x, list[0], list[j]); }
      }
    } else if x != list[0] {
      LessIsTotal(x, list[0]);
      InsertKeepsSorted(x, list[1..]);
      assert list == [list[0]] + list[1..];
      var rest := Insert(x, list[1..]);
      forall j | 0 <= j < |rest| ensures Less(list[0], rest[j]) {
        assert rest[j] == x || rest[j] in list[1..];
      }
    }
  }

  lemma {:induction false} SortedIsUnique(a: seq<string>, b: seq<string>)
    requires StrictlySorted(a) && StrictlySorted(b)
    requires forall x :: x in a <==> x in b
    ensures a == b
  {
    HeadsAgree(a, b);
    if a != [] {
      TailMembers(a);
      TailMembers(b);
      SortedIsUnique(a[1..], b[1..]);
      assert a == [a[0]] + a[1..] && b == [b[0]] + b[1..];
    }
  }

  lemma HeadsAgree(a: seq<string>, b: seq<string>)
    requires StrictlySorted(a) && StrictlySorted(b)
    requires forall x :: x in a <==> x in b
    ensures (a == [] <==> b == []) && (a != [] ==> a[0] == b[0])
  {
    assert forall i | 0 <= i < |a| :: a[i] in a;
    assert forall i | 0 <= i < |b| :: b[i] in b;
    if a != [] && b != [] {
      LessIsTotal(a[0], b[0]);
      var i :| 0 <= i < |b| && b[i] == a[0];
      var j :| 0 <= j < |a| && a[j] == b[0];
    }
  }

  lemma TailMembers(a: seq<string>)
    requires StrictlySorted(a) && a != []
    ensures StrictlySorted(a[1..]) && forall x :: x in a[1..] <==> x in a && x != a[0]
  {
    assert a == [a[0]] + a[1..];
    LessIsIrreflexive(a[0]);
    forall i | 0 < i < |a| ensures a[i] != a[0] { assert Less(a[0], a[i]); }
  }

  function Filter(list: seq<string>, keep: string -> bool): seq<string> {
    if list == [] then []
    else (if keep(list[0]) then [list[0]] else []) + Filter(list[1..], keep)
  }

  lemma {:induction false} FilterMembers(list: seq<string>, keep: string -> bool)
    ensures forall x :: x in Filter(list, keep) <==> x in list && keep(x)
  {
    if list != [] {
      FilterMembers(list[1..], keep);
      assert list == [list[0]] + list[1..];
    }
  }

  lemma {:induction false} FilterKeepsSorted(list: seq<string>, keep: string -> bool)
    requires StrictlySorted(list)
    ensures StrictlySorted(Filter(list, keep))
  {
    if list != [] {
      FilterKeepsSorted(list[1..], keep);
      FilterMembers(list[1..], keep);
      var rest := Filter(list[1..], keep);
      forall j | 0 <= j < |rest| ensures Less(list[0], rest[j]) {
        assert rest[j] in list[1..];
      }
    }
  }

  // ---------------------------------------------------------------- sorting

  ghost predicate Distinct(list: seq<string>) {
    forall i, j | 0 <= i < j < |list| :: list[i] != list[j]
  }

  lemma SortedIsDistinct(list: seq<string>)
    requires StrictlySorted(list)
    ensures Distinct(list)
  {
    forall i, j | 0 <= i < j < |list| ensures list[i] != list[j] {
      LessIsIrreflexive(list[i]);
    }
  }

  lemma DistinctConcat(a: seq<string>, b: seq<string>)
    requires Distinct(a) && Distinct(b) && forall x | x in a :: x !in b
    ensures Distinct(a + b)
  {
    forall i, j | 0 <= i < j < |a + b| ensures (a + b)[i] != (a + b)[j] {
      if i < |a| <= j {
        assert a[i] in a && b[j - |a|] in b;
      }
    }
  }

  function Place(x: string, list: seq<string>): seq<string> {
    if list == [] || !Less(list[0], x) then [x] + list else [list[0]] + Place(x, list[1..])
  }

  /** `Vec::sort`, which keeps repetitions. */
  function Sorted(list: seq<string>): seq<string> {
    if list == [] then [] else Place(list[0], Sorted(list[1..]))
  }

  lemma {:induction false} SortedPermutes(list: seq<string>)
    ensures multiset(Sorted(list)) == multiset(list)
  {
    if list != [] {
      SortedPermutes(list[1..]);
      PlaceAdds(list[0], Sorted(list[1..]));
      assert list == [list[0]] + list[1..];
    }
  }

  lemma {:induction false} PlaceAdds(x: string, list: seq<string>)
    ensures multiset(Place(x, list)) == multiset(list) + multiset{x}
  {
    if list != [] && Less(list[0], x) {
      PlaceAdds(x, list[1..]);
      assert list == [list[0]] + list[1..];
    }
  }

  lemma {:induction false} PlaceIsInsert(x: string, list: seq<string>)
    requires x !in list
    ensures Place(x, list) == Insert(x, list)
  {
    if list != [] {
      LessIsTotal(list[0], x);
      PlaceIsInsert(x, list[1..]);
    }
  }

  lemma {:induction false} SortedOrders(list: seq<string>)
    requires Distinct(list)
    ensures StrictlySorted(Sorted(list))
    ensures forall x :: x in Sorted(list) <==> x in list
  {
    if list != [] {
      SortedOrders(list[1..]);
      assert list[0] !in list[1..];
      PlaceIsInsert(list[0], Sorted(list[1..]));
      InsertKeepsSorted(list[0], Sorted(list[1..]));
      assert list == [list[0]] + list[1..];
    }
  }
}
