/** The pie chart of spending per party: the party totals are sorted,
    largest first, keeping the order of equal totals; the nine largest
    become slices of their own and all the others are summed into one
    tenth slice. */
module PartyChart {
  import PartyTally

  /** One entry of the list built from the per-party total map. */
  datatype PartyTotal = PartyTotal(key: string, value: int)

  /** The values of `list`, in order. */
  function Values(list: seq<PartyTotal>): seq<int> {
    seq(|list|, i requires 0 <= i < |list| => list[i].value)
  }

  /** The sum of `xs`. */
  function Sum(xs: seq<int>): int {
    if xs == [] then 0 else Sum(xs[..|xs| - 1]) + xs[|xs| - 1]
  }

  lemma {:induction false} SumAppend(a: seq<int>, b: seq<int>)
    ensures Sum(a + b) == Sum(a) + Sum(b)
  {
    if b == [] {
      assert a + b == a;
    } else {
      assert (a + b)[..|a + b| - 1] == a + b[..|b| - 1];
      SumAppend(a, b[..|b| - 1]);
    }
  }

  /** A slice one longer adds its last element. */
  lemma SumSnoc(xs: seq<int>, lo: int, hi: int)
    requires 0 <= lo <= hi < |xs|
    ensures Sum(xs[lo..hi + 1]) == Sum(xs[lo..hi]) + xs[hi]
  {
    assert xs[lo..hi + 1][..hi - lo] == xs[lo..hi];
  }

  /** Taking out the entry at `idx` takes it off the multiset. */
  lemma RemoveAtCounts(t: seq<PartyTotal>, idx: int)
    requires 0 <= idx < |t|
    ensures multiset(t[..idx] + t[idx + 1..]) == multiset(t) - multiset{t[idx]}
  {
    var pre, x, post := t[..idx], t[idx], t[idx + 1..];
    assert t == pre + [x] + post;
    assert multiset(t) == multiset(pre) + multiset{x} + multiset(post);
  }

  /** Taking out the entry at `idx` takes its value off the sum. */
  lemma RemoveAtSum(t: seq<PartyTotal>, idx: int)
    requires 0 <= idx < |t|
    ensures Sum(Values(t)) == Sum(Values(t[..idx] + t[idx + 1..])) + t[idx].value
  {
    var pre, x, post := t[..idx], t[idx], t[idx + 1..];
    var a, b := Values(pre), Values(post);
    assert Values(t) == a + [x.value] + b;
    assert Values(pre + post) == a + b;
    SumAppend(a + [x.value], b);
    SumAppend(a, [x.value]);
    SumAppend(a, b);
  }

  /** Reordering the entries does not change the sum of their values. */
  lemma {:induction false} SumPermutation(s: seq<PartyTotal>, t: seq<PartyTotal>)
    requires multiset(s) == multiset(t)
    ensures Sum(Values(s)) == Sum(Values(t))
    decreases |s|
  {
    if s == [] {
      assert |t| == |multiset(t)| == 0;
    } else {
      var init, x := s[..|s| - 1], s[|s| - 1];
      assert s == init + [x];
      assert multiset(init) == multiset(s) - multiset{x};
      assert x in multiset(t);
      var idx :| 0 <= idx < |t| && t[idx] == x;
      RemoveAtCounts(t, idx);
      SumPermutation(init, t[..idx] + t[idx + 1..]);
      RemoveAtSum(t, idx);
      SumValuesLast(s);
    }
  }

  /** The last value is added last. */
  lemma SumValuesLast(list: seq<PartyTotal>)
    requires list != []
    ensures Sum(Values(list)) == Sum(Values(list[..|list| - 1])) + list[|list| - 1].value
  {
    assert Values(list)[..|list| - 1] == Values(list[..|list| - 1]);
  }

  // ---------------------------------------------------------------------
  // The list built from the per-party total map
  // ---------------------------------------------------------------------

  /** `order` visits every key of `m` exactly once: one possible order of a
      range over the map. */
  ghost predicate IterationOrder(m: map<string, int>, order: seq<string>) {
    && (forall k :: k in order <==> k in m)
    && (forall i, j :: 0 <= i < j < |order| ==> order[i] != order[j])
  }

  /** `list` holds the entries of `m` in the order `order`. */
  ghost predicate EntriesInOrder(m: map<string, int>, order: seq<string>, list: seq<PartyTotal>)
    requires IterationOrder(m, order)
  {
    |list| == |order| && forall i :: 0 <= i < |list| ==> list[i] == PartyTotal(order[i], m[order[i]])
  }

  /** The entries of `m` listed in the order `order`. */
  ghost function InOrder(m: map<string, int>, order: seq<string>): seq<PartyTotal>
    requires IterationOrder(m, order)
  {
    seq(|order|, i requires 0 <= i < |order| => PartyTotal(order[i], m[order[i]]))
  }

  /** Appends one entry per key of `totals`, visiting the keys in `order`. */
  method ListOfTotals(totals: map<string, int>, order: seq<string>) returns (list: seq<PartyTotal>)
    requires IterationOrder(totals, order)
    ensures |list| == |order|
    ensures forall i :: 0 <= i < |list| ==> list[i].key == order[i] && list[i].value == totals[order[i]]
  {
    list := [];
    var i := 0;
    while i < |order|
      invariant 0 <= i <= |order|
      invariant |list| == i
      invariant forall j :: 0 <= j < i ==> list[j] == PartyTotal(order[j], totals[order[j]])
    {
      var k := order[i];
      list := list + [PartyTotal(k, totals[k])];
      i := i + 1;
    }
  }

  /** Without its last key, an iteration order is one of the map without
      that key, and the entries listed in it lose their last entry. */
  lemma WithoutLastKey(m: map<string, int>, order: seq<string>, list: seq<PartyTotal>)
    requires IterationOrder(m, order) && EntriesInOrder(m, order, list) && order != []
    ensures IterationOrder(m - {order[|order| - 1]}, order[..|order| - 1])
    ensures EntriesInOrder(m - {order[|order| - 1]}, order[..|order| - 1], list[..|list| - 1])
  {
    var n := |order| - 1;
    var rest, init := m - {order[n]}, order[..n];
    forall k ensures k in init <==> k in rest {
      if k in init {
        var j :| 0 <= j < n && init[j] == k;
        assert order[j] == k;
      }
      if k in rest {
        var j :| 0 <= j < |order| && order[j] == k;
        assert init[j] == k;
      }
    }
  }

  /** The entries of a map, in any order, sum to the sum of the map. */
  lemma {:induction false} EntriesSum(m: map<string, int>, order: seq<string>, list: seq<PartyTotal>)
    requires IterationOrder(m, order) && EntriesInOrder(m, order, list)
    ensures Sum(Values(list)) == PartyTally.MapSum(m)
    decreases |order|
  {
    if order == [] {
      assert m.Keys == {};
    } else {
      var n := |order| - 1;
      WithoutLastKey(m, order, list);
      EntriesSum(m - {order[n]}, order[..n], list[..n]);
      PartyTally.MapSumRemove(m, order[n]);
      SumValuesLast(list);
    }
  }

  // ---------------------------------------------------------------------
  // Stable sort, largest value first
  // ---------------------------------------------------------------------

  /** Values never increase along `s`. */
  ghost predicate Descending(s: seq<PartyTotal>) {
    forall i, j :: 0 <= i < j < |s| ==> s[i].value >= s[j].value
  }

  /** The entries of `s` whose value is `v`, in the order they occur. */
  function WithValue(s: seq<PartyTotal>, v: int): seq<PartyTotal> {
    if s == [] then []
    else
      var last := s[|s| - 1];
      WithValue(s[..|s| - 1], v) + if last.value == v then [last] else []
  }

  lemma {:induction false} WithValueAppend(a: seq<PartyTotal>, b: seq<PartyTotal>, v: int)
    ensures WithValue(a + b, v) == WithValue(a, v) + WithValue(b, v)
  {
    if b == [] {
      assert a + b == a;
    } else {
      assert (a + b)[..|a + b| - 1] == a + b[..|b| - 1];
      WithValueAppend(a, b[..|b| - 1], v);
    }
  }

  /** Every entry of `s` is in the group of its own value, as often as it
      occurs in `s`. */
  lemma {:induction false} WithValueCount(s: seq<PartyTotal>, e: PartyTotal)
    ensures multiset(WithValue(s, e.value))[e] == multiset(s)[e]
  {
    if s != [] {
      var init, last := s[..|s| - 1], s[|s| - 1];
      WithValueCount(init, e);
      assert s == init + [last];
      assert multiset(s) == multiset(init) + multiset{last};
    }
  }

  /** A reordering that keeps the order within every group of equal values
      is a permutation. */
  lemma SameGroupsPermutation(s: seq<PartyTotal>, t: seq<PartyTotal>)
    requires forall v :: WithValue(s, v) == WithValue(t, v)
    ensures multiset(s) == multiset(t)
  {
    forall e ensures multiset(s)[e] == multiset(t)[e] {
      WithValueCount(s, e);
      WithValueCount(t, e);
    }
  }

  /** Two entries with different values are in different groups, so their
      order is invisible to every group. */
  lemma PairGroups(x: PartyTotal, y: PartyTotal, v: int)
    requires x.value != y.value
    ensures WithValue([y, x], v) == WithValue([x, y], v)
  {
    assert [x, y][..1] == [x] && [y, x][..1] == [y];
    assert [x][..0] == [] && [y][..0] == [];
  }

  /** Exchanging two neighbours with different values in the middle of a
      sequence keeps the group of `v`. */
  lemma SwapMiddle(pre: seq<PartyTotal>, x: PartyTotal, y: PartyTotal, post: seq<PartyTotal>, v: int)
    requires x.value != y.value
    ensures WithValue(pre + [y, x] + post, v) == WithValue(pre + [x, y] + post, v)
  {
    WithValueAppend(pre + [y, x], post, v);
    WithValueAppend(pre, [y, x], v);
    WithValueAppend(pre + [x, y], post, v);
    WithValueAppend(pre, [x, y], v);
    PairGroups(x, y, v);
  }

  /** A value with a non-empty group occurs in `s`. */
  lemma {:induction false} WithValueMember(s: seq<PartyTotal>, v: int)
    requires WithValue(s, v) != []
    ensures exists i :: 0 <= i < |s| && s[i].value == v
  {
    var n := |s| - 1;
    if s[n].value != v {
      WithValueMember(s[..n], v);
      var i :| 0 <= i < n && s[..n][i].value == v;
      assert s[i].value == v;
    }
  }

  /** Two sequences with the same groups and the same last entry still have
      the same groups without it. */
  lemma DropLastGroups(s: seq<PartyTotal>, t: seq<PartyTotal>, sInit: seq<PartyTotal>, tInit: seq<PartyTotal>)
    requires |s| == |t| > 0 && s[|s| - 1] == t[|t| - 1]
    requires sInit == s[..|s| - 1] && tInit == t[..|t| - 1]
    requires forall v :: WithValue(s, v) == WithValue(t, v)
    ensures forall v :: WithValue(sInit, v) == WithValue(tInit, v)
  {
    var n := |s| - 1;
    forall v ensures WithValue(s[..n], v) == WithValue(t[..n], v) {
      var e: seq<PartyTotal> := if s[n].value == v then [s[n]] else [];
      var g := WithValue(s, v);
      assert g == WithValue(s[..n], v) + e;
      assert g == WithValue(t[..n], v) + e;
      assert WithValue(s[..n], v) == g[..|g| - |e|] == WithValue(t[..n], v);
    }
  }

  /** A descending order that keeps every group is unique: whatever stable
      algorithm sorts a list largest first, the result is the same. */
  lemma {:induction false} StableSortUnique(s: seq<PartyTotal>, t: seq<PartyTotal>)
    requires Descending(s) && Descending(t)
    requires forall v :: WithValue(s, v) == WithValue(t, v)
    ensures s == t
    decreases |s|
  {
    SameGroupsPermutation(s, t);
    assert |s| == |multiset(s)| == |multiset(t)| == |t|;
    if s != [] {
      var n := |s| - 1;
      var a, b := s[n].value, t[n].value;
      assert WithValue(t, b) != [];
      WithValueMember(s, b);
      assert WithValue(s, a) != [];
      WithValueMember(t, a);
      assert a == b;
      assert s[n] == WithValue(s, a)[|WithValue(s, a)| - 1] == t[n];
      DropLastGroups(s, t, s[..n], t[..n]);
      StableSortUnique(s[..n], t[..n]);
      assert s == s[..n] + [s[n]] && t == t[..n] + [t[n]];
    }
  }

  /** Exchanging two neighbours with different values keeps every group. */
  lemma SwapKeepsGroups(s: seq<PartyTotal>, j: int)
    requires 0 < j < |s| && s[j - 1].value != s[j].value
    ensures forall v :: WithValue(s[j - 1 := s[j]][j := s[j - 1]], v) == WithValue(s, v)
  {
    var x, y, pre, post := s[j - 1], s[j], s[..j - 1], s[j + 1..];
    assert s == pre + [x, y] + post;
    assert s[j - 1 := y][j := x] == pre + [y, x] + post;
    forall v ensures WithValue(pre + [y, x] + post, v) == WithValue(pre + [x, y] + post, v) {
      SwapMiddle(pre, x, y, post, v);
    }
  }

  /** Half-way through inserting the entry that started at `i`: it now sits
      at `j`, every other pair up to `i` is in order, and every entry it has
      passed has a strictly smaller value. */
  ghost predicate Inserting(s: seq<PartyTotal>, i: int, j: int)
    requires 0 <= j <= i < |s|
  {
    && (forall k, l :: 0 <= k < l <= i && k != j && l != j ==> s[k].value >= s[l].value)
    && (forall l :: j < l <= i ==> s[j].value > s[l].value)
  }

  /** Passing one more strictly smaller neighbour keeps the insertion in
      shape. */
  lemma InsertingStep(s: seq<PartyTotal>, i: int, j: int)
    requires 0 < j <= i < |s| && Inserting(s, i, j) && s[j - 1].value < s[j].value
    ensures Inserting(s[j - 1 := s[j]][j := s[j - 1]], i, j - 1)
  {
  }

  /** The insertion stops at the front or behind a value at least as large:
      the prefix up to `i` is then descending. */
  lemma InsertingDone(s: seq<PartyTotal>, i: int, j: int)
    requires 0 <= j <= i < |s| && Inserting(s, i, j)
    requires j == 0 || s[j - 1].value >= s[j].value
    ensures Descending(s[..i + 1])
  {
  }

  /** Moves `a[i]` left past every strictly smaller value before it, so
      that `a[..i + 1]` is descending when `a[..i]` was. */
  method InsertLeft(a: array<PartyTotal>, i: int)
    requires 0 <= i < a.Length && Descending(a[..i])
    modifies a
    ensures Descending(a[..i + 1])
    ensures forall v :: WithValue(a[..], v) == WithValue(old(a[..]), v)
  {
    var j := i;
    while 0 < j && a[j - 1].value < a[j].value
      invariant 0 <= j <= i
      invariant Inserting(a[..], i, j)
      invariant forall v :: WithValue(a[..], v) == WithValue(old(a[..]), v)
    {
      SwapKeepsGroups(a[..], j);
      InsertingStep(a[..], i, j);
      a[j - 1], a[j] := a[j], a[j - 1];
      j := j - 1;
    }
    InsertingDone(a[..], i, j);
  }

  /** Sorts `a` by value, largest first, keeping the order of entries with
      equal values: an insertion sort that moves an entry left only past a
      strictly smaller value. */
  method SortStable(a: array<PartyTotal>)
    modifies a
    ensures Descending(a[..])
    ensures forall v :: WithValue(a[..], v) == WithValue(old(a[..]), v)
  {
    var i := 0;
    while i < a.Length
      invariant 0 <= i <= a.Length
      invariant Descending(a[..i])
      invariant forall v :: WithValue(a[..], v) == WithValue(old(a[..]), v)
    {
      InsertLeft(a, i);
      i := i + 1;
    }
    assert a[..i] == a[..];
  }

  // ---------------------------------------------------------------------
  // Slices of the pie
  // ---------------------------------------------------------------------

  /** The slice values for the sorted `list`: the first nine entries one
      slice each and, when there are more, one slice for the sum of the rest. */
  method Slices(list: seq<PartyTotal>) returns (data: seq<int>)
    ensures |list| <= 9 ==> data == Values(list)
    ensures |list| > 9 ==> |data| == 10 && data[..9] == Values(list)[..9] && data[9] == Sum(Values(list)[9..])
    ensures Sum(data) == Sum(Values(list))
  {
    ghost var vs := Values(list);
    data := [];
    var total := 0;
    var i := 0;
    while i < |list|
      invariant 0 <= i <= |list|
      invariant i <= 9 ==> data == vs[..i] && total == 0
      invariant 9 < i ==> total == Sum(vs[9..i])
      invariant 9 < i < |list| ==> data == vs[..9]
      invariant 9 < i == |list| ==> data == vs[..9] + [total]
    {
      var v := list[i];
      total := total + v.value;
      if i < 9 {
        data := data + [total];
        total := 0;
      } else if |list| - 1 == i {
        data := data + [total];
      }
      if 9 <= i { SumSnoc(vs, 9, i); }
      i := i + 1;
    }
    if 9 < |list| {
      assert vs[9..i] == vs[9..];
      SumAppend(vs[..9], vs[9..]);
      assert vs[..9] + vs[9..] == vs;
      SumAppend(vs[..9], [total]);
    }
  }

  // ---------------------------------------------------------------------
  // The whole chart data
  // ---------------------------------------------------------------------

  /** `list` holds exactly the entries of `totals`. */
  ghost predicate EntriesOf(totals: map<string, int>, list: seq<PartyTotal>) {
    && (forall i :: 0 <= i < |list| ==> list[i].key in totals && list[i].value == totals[list[i].key])
    && (forall p :: p in totals ==> PartyTotal(p, totals[p]) in list)
  }

  /** A permutation of the entries listed in an iteration order holds
      exactly the entries of the map. */
  lemma PermutedEntries(totals: map<string, int>, order: seq<string>, entries: seq<PartyTotal>, list: seq<PartyTotal>)
    requires IterationOrder(totals, order) && EntriesInOrder(totals, order, entries)
    requires multiset(list) == multiset(entries)
    ensures EntriesOf(totals, list)
  {
    forall p | p in totals ensures PartyTotal(p, totals[p]) in list {
      var i :| 0 <= i < |order| && order[i] == p;
      assert entries[i] == PartyTotal(p, totals[p]);
      assert PartyTotal(p, totals[p]) in multiset(entries);
    }
    forall i | 0 <= i < |list| ensures list[i].key in totals && list[i].value == totals[list[i].key] {
      assert list[i] in multiset(entries);
    }
  }

  /** Of a descending list, the nine slices of their own are at least as
      large as every value summed into the tenth. */
  lemma LumpedAreSmaller(list: seq<PartyTotal>, data: seq<int>)
    requires Descending(list)
    requires |list| <= 9 ==> data == Values(list)
    requires |list| > 9 ==> |data| == 10 && data[..9] == Values(list)[..9]
    ensures forall i, j :: 0 <= i < |data| && i < 9 <= j < |list| ==> data[i] >= list[j].value
  {
    forall i, j | 0 <= i < |data| && i < 9 <= j < |list| ensures data[i] >= list[j].value {
      assert data[i] == data[..9][i] == Values(list)[i] == list[i].value;
    }
  }

  /** The slice values of the pie chart of `totals`, whose keys a range over
      the map visits in `order`, and the sorted list the slices are labelled
      from; parties with equal totals stay in the order the range met them. */
  method PieSlices(totals: map<string, int>, order: seq<string>) returns (list: seq<PartyTotal>, data: seq<int>)
    requires IterationOrder(totals, order)
    ensures |list| == |order| && Descending(list) && EntriesOf(totals, list)
    ensures |list| <= 9 ==> data == Values(list)
    ensures |list| > 9 ==> |data| == 10 && data[..9] == Values(list)[..9] && data[9] == Sum(Values(list)[9..])
    ensures forall v :: WithValue(list, v) == WithValue(InOrder(totals, order), v)
    ensures Sum(data) == PartyTally.MapSum(totals)
  {
    var entries := ListOfTotals(totals, order);
    var a := new PartyTotal[|entries|](i requires 0 <= i < |entries| => entries[i]);
    assert a[..] == entries == InOrder(totals, order);
    SortStable(a);
    list := a[..];
    SameGroupsPermutation(list, entries);
    PermutedEntries(totals, order, entries, list);
    data := Slices(list);
    EntriesSum(totals, order, entries);
    SumPermutation(list, entries);
  }
}
