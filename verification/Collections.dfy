/** Facts about sequences and sets that several components share. */
module Collections {

  datatype Option<+T> = None | Some(value: T)

  ghost predicate NoDuplicates<T>(s: seq<T>)
  {
    forall i, j :: 0 <= i < j < |s| ==> s[i] != s[j]
  }

  ghost function Elements<T>(s: seq<T>): set<T>
  {
    set c | c in s
  }

  lemma ElementsConcat<T>(a: seq<T>, b: seq<T>)
    ensures Elements(a + b) == Elements(a) + Elements(b)
  {
  }

  lemma EmptyElements<T>()
    ensures Elements<T>([]) == {} && NoDuplicates<T>([])
  {
  }

  lemma AppendElement<T>(s: seq<T>, t: T)
    ensures Elements(s + [t]) == Elements(s) + {t}
    ensures NoDuplicates(s) && t !in Elements(s) ==> NoDuplicates(s + [t])
  {
  }

  lemma DropElement<T>(s: seq<T>, i: nat)
    requires NoDuplicates(s) && i < |s|
    ensures s[i] in Elements(s[i..]) && Elements(s[i..]) <= Elements(s)
    ensures Elements(s[i..]) - {s[i]} == Elements(s[i + 1..])
  {
  }

  lemma ConcatNoDuplicates<T>(a: seq<T>, b: seq<T>)
    requires NoDuplicates(a) && NoDuplicates(b) && forall y :: y in a ==> y !in b
    ensures NoDuplicates(a + b)
  {
    var s := a + b;
    forall i, j | 0 <= i < j < |s|
      ensures s[i] != s[j]
    {
      assert i < |a| <= j ==> s[i] in a && s[j] in b;
    }
  }

  lemma {:induction false} CountElements<T>(ts: seq<T>)
    requires NoDuplicates(ts)
    ensures |Elements(ts)| == |ts|
  {
    if ts != [] {
      assert ts == [ts[0]] + ts[1..];
      assert NoDuplicates(ts[1..]);
      CountElements(ts[1..]);
      assert Elements(ts) == {ts[0]} + Elements(ts[1..]);
    }
  }

  lemma Inhabited<T(!new)>(s: set<T>)
    ensures s == {} || exists x :: x in s
  {
  }

  lemma Pick<T(!new)>(s: set<T>) returns (x: T)
    requires s != {}
    ensures x in s
  {
    Inhabited(s);
    x :| x in s;
  }

  function Without<T(==)>(s: seq<T>, n: T): seq<T>
  {
    if s == [] then [] else (if s[0] == n then [] else [s[0]]) + Without(s[1..], n)
  }

  lemma {:induction false} WithoutSpec<T>(s: seq<T>, n: T)
    ensures forall c :: c in Without(s, n) <==> c in s && c != n
    ensures NoDuplicates(s) ==> NoDuplicates(Without(s, n))
  {
    if s != [] {
      WithoutSpec(s[1..], n);
      assert s == [s[0]] + s[1..];
      if NoDuplicates(s) {
        assert NoDuplicates(s[1..]);
        assert s[0] !in s[1..];
      }
    }
  }

  lemma SubsetSize<T>(a: set<T>, b: set<T>)
    requires a <= b
    ensures |a| <= |b|
    ensures a != b ==> |a| < |b|
  {
    assert |b| == |a| + |b - a|;
  }

  ghost predicate SortedBy<T>(key: T -> int, ts: seq<T>)
  {
    forall i, j :: 0 <= i < j < |ts| ==> key(ts[i]) <= key(ts[j])
  }

  function InsertSorted<T>(key: T -> int, t: T, ts: seq<T>): seq<T>
  {
    if ts == [] then [t]
    else if key(t) <= key(ts[0]) then [t] + ts
    else [ts[0]] + InsertSorted(key, t, ts[1..])
  }

  function Sort<T>(key: T -> int, ts: seq<T>): seq<T>
  {
    if ts == [] then [] else InsertSorted(key, ts[0], Sort(key, ts[1..]))
  }

  lemma {:induction false} InsertKeepsAll<T>(key: T -> int, t: T, ts: seq<T>)
    ensures multiset(InsertSorted(key, t, ts)) == multiset(ts) + multiset{t}
  {
    if ts != [] {
      assert ts == [ts[0]] + ts[1..];
      InsertKeepsAll(key, t, ts[1..]);
    }
  }

  lemma {:induction false} InsertKeepsSorted<T>(key: T -> int, t: T, ts: seq<T>)
    requires SortedBy(key, ts)
    ensures SortedBy(key, InsertSorted(key, t, ts))
  {
    if ts != [] && key(t) > key(ts[0]) {
      var rest := InsertSorted(key, t, ts[1..]);
      InsertKeepsSorted(key, t, ts[1..]);
      InsertKeepsAll(key, t, ts[1..]);
      forall i | 0 <= i < |rest|
        ensures key(ts[0]) <= key(rest[i])
      {
        assert rest[i] in multiset(rest);
        assert rest[i] == t || rest[i] in ts[1..];
      }
    }
  }

  lemma {:induction false} SortSpec<T>(key: T -> int, ts: seq<T>)
    ensures SortedBy(key, Sort(key, ts)) && multiset(Sort(key, ts)) == multiset(ts)
  {
    if ts != [] {
      SortSpec(key, ts[1..]);
      InsertKeepsAll(key, ts[0], Sort(key, ts[1..]));
      InsertKeepsSorted(key, ts[0], Sort(key, ts[1..]));
      assert ts == [ts[0]] + ts[1..];
    }
  }

  /** The elements with a given key, in order. */
  ghost function WithKey<T>(key: T -> int, k: int, ts: seq<T>): seq<T>
  {
    if ts == [] then [] else (if key(ts[0]) == k then [ts[0]] else []) + WithKey(key, k, ts[1..])
  }

  lemma {:induction false} InsertIsStable<T>(key: T -> int, k: int, t: T, ts: seq<T>)
    ensures WithKey(key, k, InsertSorted(key, t, ts)) == WithKey(key, k, [t] + ts)
  {
    assert ([t] + ts)[1..] == ts;
    if ts != [] && key(t) > key(ts[0]) {
      InsertIsStable(key, k, t, ts[1..]);
      assert ([t] + ts[1..])[1..] == ts[1..];
      assert InsertSorted(key, t, ts)[1..] == InsertSorted(key, t, ts[1..]);
    }
  }

  /** Elements with equal keys keep their order. */
  lemma {:induction false} SortIsStable<T>(key: T -> int, k: int, ts: seq<T>)
    ensures WithKey(key, k, Sort(key, ts)) == WithKey(key, k, ts)
  {
    if ts != [] {
      SortIsStable(key, k, ts[1..]);
      InsertIsStable(key, k, ts[0], Sort(key, ts[1..]));
      assert ([ts[0]] + Sort(key, ts[1..]))[1..] == Sort(key, ts[1..]);
    }
  }

  lemma {:induction false} SizeOfElements<T>(ts: seq<T>)
    ensures |Elements(ts)| <= |ts| && (|Elements(ts)| == |ts| <==> NoDuplicates(ts))
  {
    if ts != [] {
      var init, t := ts[..|ts| - 1], ts[|ts| - 1];
      SizeOfElements(init);
      assert ts == init + [t];
      AppendElement(init, t);
      if t in init {
        assert Elements(ts) == Elements(init);
        assert !NoDuplicates(ts);
      } else {
        assert NoDuplicates(ts) <==> NoDuplicates(init);
      }
    }
  }

  lemma {:induction false} NoDuplicatesCount<T>(ts: seq<T>)
    ensures NoDuplicates(ts) <==> forall t :: multiset(ts)[t] <= 1
  {
    if ts != [] {
      NoDuplicatesCount(ts[1..]);
      assert ts == [ts[0]] + ts[1..];
      assert ts[0] in ts[1..] <==> multiset(ts[1..])[ts[0]] >= 1;
      assert forall t :: multiset(ts)[t] == multiset(ts[1..])[t] + (if t == ts[0] then 1 else 0);
      if NoDuplicates(ts) {
        assert NoDuplicates(ts[1..]);
        assert ts[0] !in ts[1..];
      }
    }
  }

  lemma SortKeepsElements<T(!new)>(key: T -> int, ts: seq<T>)
    ensures Elements(Sort(key, ts)) == Elements(ts)
    ensures NoDuplicates(Sort(key, ts)) <==> NoDuplicates(ts)
    ensures SortedBy(key, Sort(key, ts))
  {
    SortSpec(key, ts);
    NoDuplicatesCount(ts);
    NoDuplicatesCount(Sort(key, ts));
    forall t
      ensures t in Sort(key, ts) <==> t in ts
    {
      assert t in Sort(key, ts) <==> t in multiset(Sort(key, ts));
      assert t in ts <==> t in multiset(ts);
    }
  }
}
