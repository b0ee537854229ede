/** Merging two lists of `{id, value}` records and removing duplicate ids,
    three ways: through a `Map` (the last record of an id wins, ids in order
    of first appearance), through a plain object (the last record wins, but
    `Object.values` lists array-index ids in ascending order before any other
    id), and through a list plus a table of seen ids (the first record wins). */
module MergeById {

  datatype Entry = Entry(id: int, value: string)

  /** The ids of a list of records, position by position. */
  function IdsOf(s: seq<Entry>): seq<int> {
    seq(|s|, i requires 0 <= i < |s| => s[i].id)
  }

  predicate DistinctInts(xs: seq<int>) {
    forall i, j :: 0 <= i < j < |xs| ==> xs[i] != xs[j]
  }

  /** No two records share an id. */
  predicate DistinctIds(s: seq<Entry>) {
    forall i, j :: 0 <= i < j < |s| ==> s[i].id != s[j].id
  }

  /** Position `i` holds the first record with its id. */
  predicate IsFirst(s: seq<Entry>, i: int)
    requires 0 <= i < |s|
  {
    forall j :: 0 <= j < i ==> s[j].id != s[i].id
  }

  /** Position `i` holds the last record with its id. */
  predicate IsLast(s: seq<Entry>, i: int)
    requires 0 <= i < |s|
  {
    forall j :: i < j < |s| ==> s[j].id != s[i].id
  }

  lemma IdsOfPrefix(s: seq<Entry>)
    requires s != []
    ensures IdsOf(s) == IdsOf(s[..|s| - 1]) + [s[|s| - 1].id]
  {
  }

  lemma IdsOfAppend(s: seq<Entry>, e: Entry)
    ensures IdsOf(s + [e]) == IdsOf(s) + [e.id]
  {
  }

  // ---------------------------------------------------------------------
  // Keeping the first record of each id (mergeAndRemoveDuplicates2)
  // ---------------------------------------------------------------------

  /** The records of `s` whose id has not been seen before, in list order. */
  function KeepFirst(s: seq<Entry>): (r: seq<Entry>)
    ensures |r| <= |s|
    decreases |s|
  {
    if s == [] then []
    else
      var kept := KeepFirst(s[..|s| - 1]);
      if s[|s| - 1].id in IdsOf(kept) then kept else kept + [s[|s| - 1]]
  }

  lemma KeepFirstSnoc(s: seq<Entry>, e: Entry)
    ensures KeepFirst(s + [e]) == if e.id in IdsOf(KeepFirst(s)) then KeepFirst(s) else KeepFirst(s) + [e]
  {
    assert (s + [e])[..|s|] == s;
  }

  /** KeepFirst loses no id and adds none. */
  lemma {:induction false} KeepFirstCoversIds(s: seq<Entry>)
    ensures forall x :: x in IdsOf(KeepFirst(s)) <==> x in IdsOf(s)
    decreases |s|
  {
    if s != [] {
      var prefix := s[..|s| - 1];
      var e := s[|s| - 1];
      KeepFirstCoversIds(prefix);
      IdsOfPrefix(s);
      IdsOfAppend(KeepFirst(prefix), e);
    }
  }

  /** KeepFirst never holds two records with the same id. */
  lemma {:induction false} KeepFirstDistinct(s: seq<Entry>)
    ensures DistinctIds(KeepFirst(s))
    decreases |s|
  {
    if s != [] {
      var prefix := s[..|s| - 1];
      var e := s[|s| - 1];
      var kept := KeepFirst(prefix);
      KeepFirstDistinct(prefix);
      if e.id !in IdsOf(kept) {
        assert forall i :: 0 <= i < |kept| ==> kept[i].id != e.id by {
          forall i | 0 <= i < |kept| ensures kept[i].id != e.id {
            assert IdsOf(kept)[i] == kept[i].id;
          }
        }
      }
    }
  }

  /** The positions of the first record of each id, in increasing order. */
  function FirstPositions(s: seq<Entry>): (idx: seq<int>)
    ensures forall k :: 0 <= k < |idx| ==> 0 <= idx[k] < |s|
    decreases |s|
  {
    if s == [] then []
    else if IsFirst(s, |s| - 1) then FirstPositions(s[..|s| - 1]) + [|s| - 1]
    else FirstPositions(s[..|s| - 1])
  }

  lemma IsFirstInPrefix(s: seq<Entry>, i: int)
    requires 0 <= i < |s| - 1
    ensures IsFirst(s[..|s| - 1], i) <==> IsFirst(s, i)
  {
    assert forall j :: 0 <= j <= i ==> s[..|s| - 1][j] == s[j];
  }

  /** FirstPositions lists, in increasing order, exactly the positions that
      hold the first record of their id. */
  lemma {:induction false} FirstPositionsFacts(s: seq<Entry>)
    ensures var idx := FirstPositions(s);
            && (forall k :: 0 <= k < |idx| ==> 0 <= idx[k] < |s| && IsFirst(s, idx[k]))
            && (forall k1, k2 :: 0 <= k1 < k2 < |idx| ==> idx[k1] < idx[k2])
            && (forall i :: 0 <= i < |s| && IsFirst(s, i) ==> i in idx)
    decreases |s|
  {
    if s != [] {
      var n := |s|;
      var prefix := s[..n - 1];
      var before := FirstPositions(prefix);
      var idx := FirstPositions(s);
      FirstPositionsFacts(prefix);
      forall i | 0 <= i < n - 1 ensures IsFirst(prefix, i) <==> IsFirst(s, i) {
        IsFirstInPrefix(s, i);
      }
      if IsFirst(s, n - 1) {
        assert idx == before + [n - 1];
        assert forall k :: 0 <= k < |before| ==> idx[k] == before[k];
      } else {
        assert idx == before;
      }
    }
  }

  /** The records of `s` at the positions `idx`. */
  function Pick(s: seq<Entry>, idx: seq<int>): (r: seq<Entry>)
    requires forall k :: 0 <= k < |idx| ==> 0 <= idx[k] < |s|
  {
    seq(|idx|, k requires 0 <= k < |idx| => s[idx[k]])
  }

  lemma PickFromPrefix(s: seq<Entry>, idx: seq<int>)
    requires s != []
    requires forall k :: 0 <= k < |idx| ==> 0 <= idx[k] < |s| - 1
    ensures Pick(s[..|s| - 1], idx) == Pick(s, idx)
  {
  }

  lemma PickAppend(s: seq<Entry>, idx: seq<int>, i: int)
    requires forall k :: 0 <= k < |idx| ==> 0 <= idx[k] < |s|
    requires 0 <= i < |s|
    ensures Pick(s, idx + [i]) == Pick(s, idx) + [s[i]]
  {
  }

  /** What KeepFirst keeps: the records at the first position of every id,
      in the order of the input. */
  lemma {:induction false} KeepFirstPicksFirstPositions(s: seq<Entry>)
    ensures KeepFirst(s) == Pick(s, FirstPositions(s))
    decreases |s|
  {
    if s != [] {
      var n := |s|;
      var prefix := s[..n - 1];
      var e := s[n - 1];
      var kept := KeepFirst(prefix);
      var before := FirstPositions(prefix);
      KeepFirstPicksFirstPositions(prefix);
      KeepFirstCoversIds(prefix);
      PickFromPrefix(s, before);
      if e.id in IdsOf(kept) {
        assert e.id in IdsOf(prefix);
        var j :| 0 <= j < n - 1 && IdsOf(prefix)[j] == e.id;
        assert s[j].id == e.id;
        assert !IsFirst(s, n - 1);
      } else {
        assert IsFirst(s, n - 1) by {
          forall j | 0 <= j < n - 1 ensures s[j].id != e.id {
            assert IdsOf(prefix)[j] == s[j].id;
          }
        }
        PickAppend(s, before, n - 1);
      }
    }
  }

  /** mergeAndRemoveDuplicates2: one pass over the combined list, pushing a
      record when its id is not yet marked and then marking the id. */
  method MergeKeepingFirst(arr1: seq<Entry>, arr2: seq<Entry>) returns (uniqueItems: seq<Entry>)
    ensures uniqueItems == Pick(arr1 + arr2, FirstPositions(arr1 + arr2))
    ensures DistinctIds(uniqueItems)
    ensures forall x :: x in IdsOf(uniqueItems) <==> x in IdsOf(arr1 + arr2)
    ensures |uniqueItems| <= |arr1| + |arr2|
  {
    var combined := arr1 + arr2;
    uniqueItems := [];
    var uniqueIds: set<int> := {};
    var i := 0;
    while i < |combined|
      invariant 0 <= i <= |combined|
      invariant uniqueItems == KeepFirst(combined[..i])
      invariant forall x :: x in uniqueIds <==> x in IdsOf(uniqueItems)
    {
      var item := combined[i];
      assert combined[..i + 1][..i] == combined[..i];
      if item.id !in uniqueIds {
        IdsOfAppend(uniqueItems, item);
        uniqueItems := uniqueItems + [item];
        uniqueIds := uniqueIds + {item.id};
      }
      i := i + 1;
    }
    assert combined[..i] == combined;
    FirstPositionsFacts(combined);
    KeepFirstPicksFirstPositions(combined);
    KeepFirstDistinct(combined);
    KeepFirstCoversIds(combined);
  }

  // ---------------------------------------------------------------------
  // Keeping the last record of each id (the Map and object versions)
  // ---------------------------------------------------------------------

  /** The table id -> record after setting every record of `s` in turn. */
  function LastById(s: seq<Entry>): map<int, Entry>
    decreases |s|
  {
    if s == [] then map[]
    else LastById(s[..|s| - 1])[s[|s| - 1].id := s[|s| - 1]]
  }

  /** The table has a key for every id of the input and no other; each key
      holds a record of the input with that id. */
  lemma {:induction false} LastByIdDomain(s: seq<Entry>)
    ensures forall x :: x in LastById(s) <==> x in IdsOf(s)
    ensures forall x :: x in LastById(s) ==> LastById(s)[x].id == x && LastById(s)[x] in s
    decreases |s|
  {
    if s != [] {
      var prefix := s[..|s| - 1];
      LastByIdDomain(prefix);
      IdsOfPrefix(s);
      assert forall e :: e in prefix ==> e in s;
    }
  }

  lemma IsLastInPrefix(s: seq<Entry>, i: int)
    requires 0 <= i < |s| - 1 && IsLast(s, i)
    ensures IsLast(s[..|s| - 1], i)
    ensures s[|s| - 1].id != s[i].id
  {
    var prefix := s[..|s| - 1];
    forall j | i < j < |prefix| ensures prefix[j].id != prefix[i].id {
      assert prefix[j] == s[j];
    }
  }

  /** Each id holds the last record with that id. */
  lemma {:induction false} LastByIdLastWins(s: seq<Entry>)
    ensures forall i :: 0 <= i < |s| && IsLast(s, i) ==> s[i].id in LastById(s) && LastById(s)[s[i].id] == s[i]
    decreases |s|
  {
    if s != [] {
      var n := |s|;
      var prefix := s[..n - 1];
      var before := LastById(prefix);
      assert LastById(s) == before[s[n - 1].id := s[n - 1]];
      LastByIdLastWins(prefix);
      forall i | 0 <= i < n - 1 && IsLast(s, i)
        ensures s[i].id in LastById(s) && LastById(s)[s[i].id] == s[i]
      {
        IsLastInPrefix(s, i);
        assert prefix[i] == s[i];
      }
    }
  }

  /** The values of `m` listed in the order of `keys`. */
  function ValuesInKeyOrder(keys: seq<int>, m: map<int, Entry>): seq<Entry>
    requires forall i :: 0 <= i < |keys| ==> keys[i] in m
  {
    seq(|keys|, i requires 0 <= i < |keys| => m[keys[i]])
  }

  /** `Array.from(idMap.values())`: a Map lists its keys in the order they
      were first set; setting an existing key again keeps its place. */
  function MergeKeepLast(s: seq<Entry>): seq<Entry> {
    KeepFirstCoversIds(s);
    LastByIdDomain(s);
    ValuesInKeyOrder(IdsOf(KeepFirst(s)), LastById(s))
  }

  /** The Map version's result: one record per id of the input, that id's
      last record, ids in order of first appearance, nothing invented. */
  lemma MergeKeepLastFacts(s: seq<Entry>)
    ensures var r := MergeKeepLast(s);
            && DistinctIds(r)
            && IdsOf(r) == IdsOf(KeepFirst(s))
            && (forall x :: x in IdsOf(r) <==> x in IdsOf(s))
            && (forall i :: 0 <= i < |s| && IsLast(s, i) ==> s[i] in r)
            && (forall e :: e in r ==> e in s)
            && |r| <= |s|
  {
    KeepFirstCoversIds(s);
    KeepFirstDistinct(s);
    LastByIdDomain(s);
    LastByIdLastWins(s);
    var r := MergeKeepLast(s);
    var kept := KeepFirst(s);
    var keys := IdsOf(kept);
    var m := LastById(s);
    assert forall k :: 0 <= k < |r| ==> r[k] == m[keys[k]] && r[k].id == keys[k];
    assert IdsOf(r) == keys;
    forall i | 0 <= i < |s| && IsLast(s, i) ensures s[i] in r {
      assert IdsOf(s)[i] == s[i].id;
      var k :| 0 <= k < |keys| && keys[k] == s[i].id;
      assert r[k] == s[i];
    }
    forall e | e in r ensures e in s {
      var k :| 0 <= k < |r| && r[k] == e;
      assert m[keys[k]] in s;
    }
  }

  /** The loop shared by the Map and the object versions: set
      `table[item.id] = item` for every record, remembering the order in
      which keys were first created. */
  method FillTable(combined: seq<Entry>) returns (keys: seq<int>, table: map<int, Entry>)
    ensures keys == IdsOf(KeepFirst(combined))
    ensures table == LastById(combined)
  {
    keys, table := [], map[];
    var i := 0;
    while i < |combined|
      invariant 0 <= i <= |combined|
      invariant keys == IdsOf(KeepFirst(combined[..i]))
      invariant table == LastById(combined[..i])
    {
      var item := combined[i];
      var prefix := combined[..i];
      assert combined[..i + 1][..i] == prefix;
      KeepFirstCoversIds(prefix);
      LastByIdDomain(prefix);
      if item.id !in table {
        IdsOfAppend(KeepFirst(prefix), item);
        keys := keys + [item.id];
      }
      table := table[item.id := item];
      i := i + 1;
    }
    assert combined[..i] == combined;
  }

  /** The Map-based merge of Problem-Solving and of Problems: one pass over
      the combined list setting `idMap[item.id] = item`, then the map's
      values in key order. */
  method MergeWithMap(a1: seq<Entry>, a2: seq<Entry>) returns (result: seq<Entry>)
    ensures result == MergeKeepLast(a1 + a2)
    ensures DistinctIds(result)
    ensures forall x :: x in IdsOf(result) <==> x in IdsOf(a1 + a2)
    ensures forall i :: 0 <= i < |a1 + a2| && IsLast(a1 + a2, i) ==> (a1 + a2)[i] in result
    ensures forall e :: e in result ==> e in a1 + a2
    ensures |result| <= |a1| + |a2|
  {
    var combinedArray := a1 + a2;
    var keys, idMap := FillTable(combinedArray);
    KeepFirstCoversIds(combinedArray);
    LastByIdDomain(combinedArray);
    result := [];
    var k := 0;
    while k < |keys|
      invariant 0 <= k <= |keys|
      invariant result == ValuesInKeyOrder(keys[..k], idMap)
    {
      result := result + [idMap[keys[k]]];
      k := k + 1;
    }
    assert keys[..k] == keys;
    MergeKeepLastFacts(combinedArray);
  }

  // ---------------------------------------------------------------------
  // Object.values order
  // ---------------------------------------------------------------------

  /** A number used as a property key is an array index when it lies in
      0 .. 2^32 - 2; such keys are enumerated before all others. */
  predicate IsArrayIndex(id: int) {
    0 <= id < 0xFFFF_FFFF
  }

  function IndexKeys(keys: seq<int>): seq<int>
    decreases |keys|
  {
    if keys == [] then []
    else IndexKeys(keys[..|keys| - 1]) + (if IsArrayIndex(keys[|keys| - 1]) then [keys[|keys| - 1]] else [])
  }

  function OtherKeys(keys: seq<int>): seq<int>
    decreases |keys|
  {
    if keys == [] then []
    else OtherKeys(keys[..|keys| - 1]) + (if IsArrayIndex(keys[|keys| - 1]) then [] else [keys[|keys| - 1]])
  }

  /** Splitting the keys into array indices and the rest loses and adds
      nothing. */
  lemma {:induction false} SplitKeysPermutes(keys: seq<int>)
    ensures multiset(IndexKeys(keys)) + multiset(OtherKeys(keys)) == multiset(keys)
    decreases |keys|
  {
    if keys != [] {
      SplitKeysPermutes(keys[..|keys| - 1]);
      assert keys == keys[..|keys| - 1] + [keys[|keys| - 1]];
    }
  }

  lemma {:induction false} IndexKeysAreIndices(keys: seq<int>)
    ensures forall x :: x in IndexKeys(keys) ==> IsArrayIndex(x)
    decreases |keys|
  {
    if keys != [] {
      IndexKeysAreIndices(keys[..|keys| - 1]);
    }
  }

  lemma {:induction false} OtherKeysAreNotIndices(keys: seq<int>)
    ensures forall x :: x in OtherKeys(keys) ==> !IsArrayIndex(x)
    decreases |keys|
  {
    if keys != [] {
      OtherKeysAreNotIndices(keys[..|keys| - 1]);
    }
  }

  predicate Ascending(xs: seq<int>) {
    forall i, j :: 0 <= i < j < |xs| ==> xs[i] <= xs[j]
  }

  function Insert(x: int, xs: seq<int>): seq<int>
    decreases |xs|
  {
    if xs == [] then [x]
    else if x <= xs[0] then [x] + xs
    else [xs[0]] + Insert(x, xs[1..])
  }

  lemma {:induction false} InsertPermutes(x: int, xs: seq<int>)
    ensures multiset(Insert(x, xs)) == multiset(xs) + multiset{x}
    decreases |xs|
  {
    if xs != [] && x > xs[0] {
      InsertPermutes(x, xs[1..]);
      assert xs == [xs[0]] + xs[1..];
    }
  }

  lemma {:induction false} InsertMembers(x: int, xs: seq<int>)
    ensures forall y :: y in Insert(x, xs) ==> y == x || y in xs
    decreases |xs|
  {
    if xs != [] && x > xs[0] {
      InsertMembers(x, xs[1..]);
    }
  }

  lemma {:induction false} InsertAscending(x: int, xs: seq<int>)
    requires Ascending(xs)
    ensures Ascending(Insert(x, xs))
    decreases |xs|
  {
    if xs != [] && x > xs[0] {
      var tail := xs[1..];
      var rest := Insert(x, tail);
      InsertAscending(x, tail);
      InsertMembers(x, tail);
      assert forall y :: y in tail ==> xs[0] <= y;
      assert forall k :: 0 <= k < |rest| ==> xs[0] <= rest[k] by {
        forall k | 0 <= k < |rest| ensures xs[0] <= rest[k] {
          assert rest[k] in rest;
        }
      }
      var r := [xs[0]] + rest;
      assert forall k :: 1 <= k < |r| ==> r[k] == rest[k - 1];
    }
  }

  /** Ascending order of a list of numbers (insertion sort). */
  function SortAscending(xs: seq<int>): seq<int>
    decreases |xs|
  {
    if xs == [] then [] else Insert(xs[0], SortAscending(xs[1..]))
  }

  lemma {:induction false} SortAscendingFacts(xs: seq<int>)
    ensures multiset(SortAscending(xs)) == multiset(xs)
    ensures Ascending(SortAscending(xs))
    decreases |xs|
  {
    if xs != [] {
      SortAscendingFacts(xs[1..]);
      InsertPermutes(xs[0], SortAscending(xs[1..]));
      InsertAscending(xs[0], SortAscending(xs[1..]));
      assert xs == [xs[0]] + xs[1..];
    }
  }

  /** The own-key order of an object whose keys were created in the order
      `created`: array indices ascending, then the other keys in creation
      order. */
  function OwnKeys(created: seq<int>): seq<int> {
    SortAscending(IndexKeys(created)) + OtherKeys(created)
  }

  lemma {:induction false} DistinctCounts(xs: seq<int>)
    requires DistinctInts(xs)
    ensures forall x :: multiset(xs)[x] <= 1
    decreases |xs|
  {
    if xs != [] {
      var prefix := xs[..|xs| - 1];
      DistinctCounts(prefix);
      assert xs == prefix + [xs[|xs| - 1]];
      assert xs[|xs| - 1] !in prefix;
    }
  }

  lemma {:induction false} CountsDistinct(xs: seq<int>)
    requires forall x :: multiset(xs)[x] <= 1
    ensures DistinctInts(xs)
    decreases |xs|
  {
    if xs != [] {
      var prefix := xs[..|xs| - 1];
      var last := xs[|xs| - 1];
      assert xs == prefix + [last];
      assert forall x :: multiset(prefix)[x] <= multiset(xs)[x];
      CountsDistinct(prefix);
      assert multiset(xs)[last] == multiset(prefix)[last] + 1;
      assert last !in multiset(prefix);
      forall i | 0 <= i < |prefix| ensures prefix[i] != last {
        assert prefix[i] in multiset(prefix);
      }
    }
  }

  /** The own-key order is a rearrangement of the creation order. */
  lemma OwnKeysFacts(created: seq<int>)
    ensures multiset(OwnKeys(created)) == multiset(created)
    ensures DistinctInts(created) ==> DistinctInts(OwnKeys(created))
  {
    SplitKeysPermutes(created);
    SortAscendingFacts(IndexKeys(created));
    if DistinctInts(created) {
      DistinctCounts(created);
      CountsDistinct(OwnKeys(created));
    }
  }

  /** `Object.values` of the object built by setting `obj[item.id] = item`. */
  function MergeByObjectKeys(s: seq<Entry>): seq<Entry> {
    var created := IdsOf(KeepFirst(s));
    var own := OwnKeys(created);
    KeepFirstCoversIds(s);
    LastByIdDomain(s);
    OwnKeysFacts(created);
    assert forall i :: 0 <= i < |own| ==> own[i] in multiset(created);
    ValuesInKeyOrder(own, LastById(s))
  }

  /** The keys an object is created with, in creation order, never repeat. */
  lemma CreatedDistinct(s: seq<Entry>)
    ensures DistinctInts(IdsOf(KeepFirst(s)))
  {
    KeepFirstDistinct(s);
    var kept := KeepFirst(s);
    forall i, j | 0 <= i < j < |kept| ensures IdsOf(kept)[i] != IdsOf(kept)[j] {
      assert IdsOf(kept)[i] == kept[i].id && IdsOf(kept)[j] == kept[j].id;
    }
  }

  /** Position by position: the own-key order starts with the array indices
      and continues with keys that are not array indices. */
  lemma OwnKeysLayout(created: seq<int>)
    ensures var own := OwnKeys(created);
            var sorted := SortAscending(IndexKeys(created));
            && Ascending(sorted)
            && (forall k :: 0 <= k < |sorted| ==> own[k] == sorted[k] && IsArrayIndex(own[k]))
            && (forall k :: |sorted| <= k < |own| ==> !IsArrayIndex(own[k]))
  {
    var sorted := SortAscending(IndexKeys(created));
    var others := OtherKeys(created);
    SortAscendingFacts(IndexKeys(created));
    IndexKeysAreIndices(created);
    OtherKeysAreNotIndices(created);
    assert forall k :: 0 <= k < |sorted| ==> IsArrayIndex(sorted[k]) by {
      forall k | 0 <= k < |sorted| ensures IsArrayIndex(sorted[k]) {
        assert sorted[k] in multiset(sorted);
      }
    }
    assert forall k :: 0 <= k < |others| ==> !IsArrayIndex(others[k]);
  }

  /** In the own-key order no array index follows a key that is not one,
      and the array indices are strictly ascending. */
  lemma OwnKeysOrder(created: seq<int>)
    requires DistinctInts(created)
    ensures var own := OwnKeys(created);
            forall i, j :: 0 <= i < j < |own| && IsArrayIndex(own[j]) ==>
              IsArrayIndex(own[i]) && own[i] < own[j]
  {
    OwnKeysLayout(created);
    OwnKeysFacts(created);
    var own := OwnKeys(created);
    var sorted := SortAscending(IndexKeys(created));
    forall i, j | 0 <= i < j < |own| && IsArrayIndex(own[j])
      ensures IsArrayIndex(own[i]) && own[i] < own[j]
    {
      assert j < |sorted|;
      assert own[i] == sorted[i] && own[j] == sorted[j];
    }
  }

  /** Listing a table's values by two key lists that are rearrangements of
      each other gives the same records. */
  lemma ValuesSameRecords(keys1: seq<int>, keys2: seq<int>, m: map<int, Entry>)
    requires multiset(keys1) == multiset(keys2)
    requires forall i :: 0 <= i < |keys1| ==> keys1[i] in m
    requires forall i :: 0 <= i < |keys2| ==> keys2[i] in m
    ensures forall e :: e in ValuesInKeyOrder(keys1, m) <==> e in ValuesInKeyOrder(keys2, m)
  {
    var r1 := ValuesInKeyOrder(keys1, m);
    var r2 := ValuesInKeyOrder(keys2, m);
    forall e ensures e in r1 <==> e in r2 {
      if e in r1 {
        var k :| 0 <= k < |r1| && r1[k] == e;
        assert keys1[k] in multiset(keys2);
        var j :| 0 <= j < |keys2| && keys2[j] == keys1[k];
        assert r2[j] == e;
      }
      if e in r2 {
        var k :| 0 <= k < |r2| && r2[k] == e;
        assert keys2[k] in multiset(keys1);
        var j :| 0 <= j < |keys1| && keys1[j] == keys2[k];
        assert r1[j] == e;
      }
    }
  }

  /** A table whose every key holds a record with that id, listed by
      `keys`, gives records whose ids are exactly `keys`. */
  lemma ValuesCarryKeys(keys: seq<int>, m: map<int, Entry>)
    requires forall i :: 0 <= i < |keys| ==> keys[i] in m
    requires forall x :: x in m ==> m[x].id == x
    ensures IdsOf(ValuesInKeyOrder(keys, m)) == keys
  {
    var r := ValuesInKeyOrder(keys, m);
    assert |IdsOf(r)| == |keys|;
    forall i | 0 <= i < |keys| ensures IdsOf(r)[i] == keys[i] {
      assert r[i] == m[keys[i]];
    }
  }

  /** Listing the same table by a rearranged key list: as many records, the
      same records, ids in the order of the new list. */
  lemma ReorderedValues(own: seq<int>, created: seq<int>, m: map<int, Entry>)
    requires multiset(own) == multiset(created)
    requires DistinctInts(own)
    requires forall i :: 0 <= i < |own| ==> own[i] in m
    requires forall i :: 0 <= i < |created| ==> created[i] in m
    requires forall x :: x in m ==> m[x].id == x
    ensures var r := ValuesInKeyOrder(own, m);
            && |r| == |ValuesInKeyOrder(created, m)|
            && (forall e :: e in r <==> e in ValuesInKeyOrder(created, m))
            && IdsOf(r) == own
            && DistinctIds(r)
  {
    assert |own| == |multiset(own)| == |multiset(created)| == |created|;
    ValuesSameRecords(own, created, m);
    ValuesCarryKeys(own, m);
    var r := ValuesInKeyOrder(own, m);
    forall i, j | 0 <= i < j < |r| ensures r[i].id != r[j].id {
      assert IdsOf(r)[i] == r[i].id && IdsOf(r)[j] == r[j].id;
    }
  }

  /** The table of the object version listed in own-key order against the
      same table listed in creation order. */
  lemma OwnKeyValues(created: seq<int>, m: map<int, Entry>)
    requires DistinctInts(created)
    requires forall i :: 0 <= i < |created| ==> created[i] in m
    requires forall i :: 0 <= i < |OwnKeys(created)| ==> OwnKeys(created)[i] in m
    requires forall x :: x in m ==> m[x].id == x
    ensures var r := ValuesInKeyOrder(OwnKeys(created), m);
            && |r| == |ValuesInKeyOrder(created, m)|
            && (forall e :: e in r <==> e in ValuesInKeyOrder(created, m))
            && DistinctIds(r)
            && (forall i, j :: 0 <= i < j < |r| && IsArrayIndex(r[j].id) ==>
                  IsArrayIndex(r[i].id) && r[i].id < r[j].id)
  {
    var own := OwnKeys(created);
    OwnKeysFacts(created);
    OwnKeysOrder(created);
    ReorderedValues(own, created, m);
    var r := ValuesInKeyOrder(own, m);
    assert forall k :: 0 <= k < |r| ==> r[k].id == own[k] by {
      forall k | 0 <= k < |r| ensures r[k].id == own[k] {
        assert IdsOf(r)[k] == r[k].id;
      }
    }
  }

  /** The object version holds the same records as the Map version, one per
      id; it differs only in order: array-index ids come first, ascending. */
  lemma MergeByObjectKeysFacts(s: seq<Entry>)
    ensures var r := MergeByObjectKeys(s);
            && |r| == |MergeKeepLast(s)|
            && (forall e :: e in r <==> e in MergeKeepLast(s))
            && DistinctIds(r)
            && (forall i, j :: 0 <= i < j < |r| && IsArrayIndex(r[j].id) ==>
                  IsArrayIndex(r[i].id) && r[i].id < r[j].id)
  {
    KeepFirstCoversIds(s);
    LastByIdDomain(s);
    var created := IdsOf(KeepFirst(s));
    var own := OwnKeys(created);
    var m := LastById(s);
    CreatedDistinct(s);
    OwnKeysFacts(created);
    assert forall k :: 0 <= k < |own| ==> own[k] in m by {
      forall k | 0 <= k < |own| ensures own[k] in m {
        assert own[k] in multiset(created);
      }
    }
    OwnKeyValues(created, m);
    assert MergeByObjectKeys(s) == ValuesInKeyOrder(own, m);
    assert MergeKeepLast(s) == ValuesInKeyOrder(created, m);
  }

  /** mergeAndRemoveDuplicates: one pass over the combined list setting
      `uniqueItems[item.id] = item`, then `Object.values(uniqueItems)`. */
  method MergeWithObject(arr1: seq<Entry>, arr2: seq<Entry>) returns (result: seq<Entry>)
    ensures result == MergeByObjectKeys(arr1 + arr2)
    ensures DistinctIds(result)
    ensures forall e :: e in result <==> e in MergeKeepLast(arr1 + arr2)
    ensures |result| <= |arr1| + |arr2|
  {
    var combined := arr1 + arr2;
    var created, uniqueItems := FillTable(combined);
    KeepFirstCoversIds(combined);
    LastByIdDomain(combined);
    OwnKeysFacts(created);
    var own := OwnKeys(created);
    assert forall i :: 0 <= i < |own| ==> own[i] in multiset(created);
    result := ValuesInKeyOrder(own, uniqueItems);
    MergeByObjectKeysFacts(combined);
    MergeKeepLastFacts(combined);
  }

  // ---------------------------------------------------------------------
  // The inputs the source runs
  // ---------------------------------------------------------------------

  function SampleA1(): seq<Entry> { [Entry(1, "kkr"), Entry(2, "csk")] }
  function SampleA2(): seq<Entry> { [Entry(1, "mi")] }

  /** Keeping the first record gives `[{1, 'kkr'}, {2, 'csk'}]`. */
  lemma KeepFirstSample()
    ensures KeepFirst(SampleA1() + SampleA2()) == [Entry(1, "kkr"), Entry(2, "csk")]
  {
    var e1, e2, e3 := Entry(1, "kkr"), Entry(2, "csk"), Entry(1, "mi");
    KeepFirstSnoc([], e1);
    assert [] + [e1] == [e1];
    KeepFirstSnoc([e1], e2);
    assert [e1] + [e2] == [e1, e2];
    assert IdsOf([e1]) == [1];
    KeepFirstSnoc([e1, e2], e3);
    assert [e1, e2] + [e3] == SampleA1() + SampleA2();
    assert IdsOf([e1, e2]) == [1, 2];
  }

  /** The Map version prints `[{id: 1, value: 'mi'}, {id: 2, value: 'csk'}]`. */
  lemma MapMergeSample()
    ensures MergeKeepLast(SampleA1() + SampleA2()) == [Entry(1, "mi"), Entry(2, "csk")]
  {
    var s := SampleA1() + SampleA2();
    KeepFirstSample();
    LastByIdLastWins(s);
    assert IsLast(s, 1) && IsLast(s, 2);
    assert IdsOf(KeepFirst(s)) == [1, 2];
  }
}
