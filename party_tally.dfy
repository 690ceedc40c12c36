/** The flush sink of the deputy queue: every flushed batch of deputies is
    added to a list of all deputies, to a list per political party and to a
    running total per party. Totals are whole centavos, so sums are exact. */
module PartyTally {

  /** A deputy as the sink sees it. The sink reads only the party and the
      total; the salary, budget and quota that make up the total are folded
      into `total`. */
  datatype Deputy = Deputy(id: string, name: string, politicalParty: string, state: string, total: int)

  // ---------------------------------------------------------------------
  // Specification functions over a sequence of deputies
  // ---------------------------------------------------------------------

  /** The parties that occur in `ds`. */
  function Parties(ds: seq<Deputy>): set<string> {
    if ds == [] then {} else Parties(ds[..|ds| - 1]) + {ds[|ds| - 1].politicalParty}
  }

  /** The deputies of party `p`, in the order they occur in `ds`. */
  function Members(ds: seq<Deputy>, p: string): seq<Deputy> {
    if ds == [] then []
    else
      var last := ds[|ds| - 1];
      Members(ds[..|ds| - 1], p) + if last.politicalParty == p then [last] else []
  }

  /** The sum of the deputies' totals. */
  function SumTotals(ds: seq<Deputy>): int {
    if ds == [] then 0 else SumTotals(ds[..|ds| - 1]) + ds[|ds| - 1].total
  }

  /** A Go map lookup of a list: a missing key reads as the empty list. */
  function ListOf(m: map<string, seq<Deputy>>, p: string): seq<Deputy> {
    if p in m then m[p] else []
  }

  /** A Go map lookup of a number: a missing key reads as zero. */
  function TotalOf(m: map<string, int>, p: string): int {
    if p in m then m[p] else 0
  }

  // ---------------------------------------------------------------------
  // Properties of the specification functions
  // ---------------------------------------------------------------------

  /** A party occurs exactly when it has a member, every member belongs to
      the party, and the members are a part of `ds`. */
  lemma {:induction false} MembersOfParty(ds: seq<Deputy>, p: string)
    ensures p in Parties(ds) <==> Members(ds, p) != []
    ensures forall i :: 0 <= i < |Members(ds, p)| ==> Members(ds, p)[i].politicalParty == p
    ensures |Members(ds, p)| <= |ds|
  {
    if ds != [] {
      MembersOfParty(ds[..|ds| - 1], p);
    }
  }

  lemma {:induction false} PartiesAppend(a: seq<Deputy>, b: seq<Deputy>)
    ensures Parties(a + b) == Parties(a) + Parties(b)
  {
    if b == [] {
      assert a + b == a;
    } else {
      assert (a + b)[..|a + b| - 1] == a + b[..|b| - 1];
      PartiesAppend(a, b[..|b| - 1]);
    }
  }

  lemma {:induction false} MembersAppend(a: seq<Deputy>, b: seq<Deputy>, p: string)
    ensures Members(a + b, p) == Members(a, p) + Members(b, p)
  {
    if b == [] {
      assert a + b == a;
    } else {
      assert (a + b)[..|a + b| - 1] == a + b[..|b| - 1];
      MembersAppend(a, b[..|b| - 1], p);
    }
  }

  lemma {:induction false} SumTotalsAppend(a: seq<Deputy>, b: seq<Deputy>)
    ensures SumTotals(a + b) == SumTotals(a) + SumTotals(b)
  {
    if b == [] {
      assert a + b == a;
    } else {
      assert (a + b)[..|a + b| - 1] == a + b[..|b| - 1];
      SumTotalsAppend(a, b[..|b| - 1]);
    }
  }

  /** A prefix one longer is the prefix and the next deputy. */
  lemma PrefixSnoc(ds: seq<Deputy>, i: nat)
    requires i < |ds|
    ensures ds[..i + 1] == ds[..i] + [ds[i]]
  {
  }

  /** One more deputy: it joins its own party and no other. */
  lemma MembersSnoc(ds: seq<Deputy>, d: Deputy, p: string)
    ensures Members(ds + [d], p) == Members(ds, p) + if d.politicalParty == p then [d] else []
    ensures Parties(ds + [d]) == Parties(ds) + {d.politicalParty}
  {
    assert (ds + [d])[..|ds|] == ds;
  }

  /** Every deputy is in exactly the list of its own party, as often as it
      occurs in `ds`. */
  lemma {:induction false} MembersPartition(ds: seq<Deputy>, d: Deputy, p: string)
    ensures multiset(Members(ds, p))[d] == if d.politicalParty == p then multiset(ds)[d] else 0
  {
    if ds != [] {
      var init, last := ds[..|ds| - 1], ds[|ds| - 1];
      MembersPartition(init, d, p);
      assert ds == init + [last];
      assert multiset(ds) == multiset(init) + multiset{last};
    }
  }

  // ---------------------------------------------------------------------
  // Per-party maps built from a sequence of deputies
  // ---------------------------------------------------------------------

  /** `lists` is `base` with the deputies of `ds` appended, each to the list
      of its own party; a party of `ds` missing from `base` starts empty. */
  ghost predicate ListsExtend(lists: map<string, seq<Deputy>>, base: map<string, seq<Deputy>>, ds: seq<Deputy>) {
    && lists.Keys == base.Keys + Parties(ds)
    && forall p :: ListOf(lists, p) == ListOf(base, p) + Members(ds, p)
  }

  /** `sums` is `base` with the totals of `ds` added, each to its own
      party's sum; a party of `ds` missing from `base` starts at zero. */
  ghost predicate SumsExtend(sums: map<string, int>, base: map<string, int>, ds: seq<Deputy>) {
    && sums.Keys == base.Keys + Parties(ds)
    && forall p :: TotalOf(sums, p) == TotalOf(base, p) + SumTotals(Members(ds, p))
  }

  /** Appending one deputy to its party's list extends the lists by it. */
  lemma ListsStep(lists: map<string, seq<Deputy>>, base: map<string, seq<Deputy>>, ds: seq<Deputy>, d: Deputy)
    requires ListsExtend(lists, base, ds)
    ensures ListsExtend(lists[d.politicalParty := ListOf(lists, d.politicalParty) + [d]], base, ds + [d])
  {
    var next := lists[d.politicalParty := ListOf(lists, d.politicalParty) + [d]];
    MembersSnoc(ds, d, d.politicalParty);
    forall p ensures ListOf(next, p) == ListOf(base, p) + Members(ds + [d], p) {
      MembersSnoc(ds, d, p);
    }
  }

  /** Adding one deputy's total to its party's sum extends the sums by it. */
  lemma SumsStep(sums: map<string, int>, base: map<string, int>, ds: seq<Deputy>, d: Deputy)
    requires SumsExtend(sums, base, ds)
    ensures SumsExtend(sums[d.politicalParty := TotalOf(sums, d.politicalParty) + d.total], base, ds + [d])
  {
    var next := sums[d.politicalParty := TotalOf(sums, d.politicalParty) + d.total];
    MembersSnoc(ds, d, d.politicalParty);
    forall p ensures TotalOf(next, p) == TotalOf(base, p) + SumTotals(Members(ds + [d], p)) {
      MembersSnoc(ds, d, p);
      SumTotalsAppend(Members(ds, p), if d.politicalParty == p then [d] else []);
    }
  }

  /** One party's list, extended by `a` and then by `b`. */
  lemma ListsComposeAt(l0: seq<Deputy>, l1: seq<Deputy>, l2: seq<Deputy>, a: seq<Deputy>, b: seq<Deputy>, p: string)
    requires l1 == l0 + Members(a, p) && l2 == l1 + Members(b, p)
    ensures l2 == l0 + Members(a + b, p)
  {
    MembersAppend(a, b, p);
  }

  /** Extending by `a` and then by `b` is extending by `a + b`. */
  lemma ListsCompose(m0: map<string, seq<Deputy>>, m1: map<string, seq<Deputy>>, m2: map<string, seq<Deputy>>,
                     a: seq<Deputy>, b: seq<Deputy>)
    requires ListsExtend(m1, m0, a) && ListsExtend(m2, m1, b)
    ensures ListsExtend(m2, m0, a + b)
  {
    PartiesAppend(a, b);
    forall p ensures ListOf(m2, p) == ListOf(m0, p) + Members(a + b, p) {
      ListsComposeAt(ListOf(m0, p), ListOf(m1, p), ListOf(m2, p), a, b, p);
    }
  }

  /** Extending by `a` and then by `b` is extending by `a + b`. */
  lemma SumsCompose(m0: map<string, int>, m1: map<string, int>, m2: map<string, int>, a: seq<Deputy>, b: seq<Deputy>)
    requires SumsExtend(m1, m0, a) && SumsExtend(m2, m1, b)
    ensures SumsExtend(m2, m0, a + b)
  {
    PartiesAppend(a, b);
    forall p ensures TotalOf(m2, p) == TotalOf(m0, p) + SumTotals(Members(a + b, p)) {
      MembersAppend(a, b, p);
      SumTotalsAppend(Members(a, p), Members(b, p));
    }
  }

  /** The lists after filing `ds` one deputy at a time into `lists`. */
  function ListsAfter(lists: map<string, seq<Deputy>>, ds: seq<Deputy>): map<string, seq<Deputy>> {
    if ds == [] then lists
    else
      var prev, d := ListsAfter(lists, ds[..|ds| - 1]), ds[|ds| - 1];
      prev[d.politicalParty := ListOf(prev, d.politicalParty) + [d]]
  }

  /** The sums after adding the totals of `ds` one deputy at a time to `sums`. */
  function SumsAfter(sums: map<string, int>, ds: seq<Deputy>): map<string, int> {
    if ds == [] then sums
    else
      var prev, d := SumsAfter(sums, ds[..|ds| - 1]), ds[|ds| - 1];
      prev[d.politicalParty := TotalOf(prev, d.politicalParty) + d.total]
  }

  /** Filing deputies one at a time appends each party's members, in order,
      to that party's list. */
  lemma {:induction false} ListsAfterExtends(lists: map<string, seq<Deputy>>, ds: seq<Deputy>)
    ensures ListsExtend(ListsAfter(lists, ds), lists, ds)
  {
    if ds != [] {
      var init, d := ds[..|ds| - 1], ds[|ds| - 1];
      assert init + [d] == ds;
      ListsAfterExtends(lists, init);
      ListsStep(ListsAfter(lists, init), lists, init, d);
    }
  }

  /** Adding totals one at a time adds each party's members' totals to that
      party's sum. */
  lemma {:induction false} SumsAfterExtends(sums: map<string, int>, ds: seq<Deputy>)
    ensures SumsExtend(SumsAfter(sums, ds), sums, ds)
  {
    if ds != [] {
      var init, d := ds[..|ds| - 1], ds[|ds| - 1];
      assert init + [d] == ds;
      SumsAfterExtends(sums, init);
      SumsStep(SumsAfter(sums, init), sums, init, d);
    }
  }

  // ---------------------------------------------------------------------
  // Sums over a map
  // ---------------------------------------------------------------------

  /** Some element of a non-empty set. */
  ghost function Pick(keys: set<string>): (k: string)
    requires keys != {}
    ensures k in keys
  {
    var k :| k in keys; k
  }

  /** The sum of the values of `m`. */
  ghost function MapSum(m: map<string, int>): int
    decreases |m.Keys|
  {
    if m.Keys == {} then 0
    else
      var k := Pick(m.Keys);
      assert (m - {k}).Keys == m.Keys - {k};
      m[k] + MapSum(m - {k})
  }

  /** The sum does not depend on the key taken out first. */
  lemma MapSumRemove(m: map<string, int>, k: string)
    requires k in m
    ensures MapSum(m) == m[k] + MapSum(m - {k})
    decreases |m.Keys|
  {
    var j := Pick(m.Keys);
    if j != k {
      var mj, mk := m - {j}, m - {k};
      assert mj.Keys == m.Keys - {j};
      assert mk.Keys == m.Keys - {k};
      MapSumRemove(mj, k);
      MapSumRemove(mk, j);
      assert mj - {k} == mk - {j};
    }
  }

  /** Setting one key changes the sum by the difference at that key. */
  lemma MapSumUpdate(m: map<string, int>, k: string, v: int)
    ensures MapSum(m[k := v]) == MapSum(m) - TotalOf(m, k) + v
  {
    MapSumRemove(m[k := v], k);
    assert m[k := v] - {k} == m - {k};
    if k in m {
      MapSumRemove(m, k);
    } else {
      assert m - {k} == m;
    }
  }

  /** A party with no deputy among `ds` keeps its list and its sum; in
      particular an empty batch changes nothing. */
  lemma AbsentPartyUnchanged(lists: map<string, seq<Deputy>>, sums: map<string, int>, ds: seq<Deputy>, p: string)
    requires p !in Parties(ds)
    ensures ListOf(ListsAfter(lists, ds), p) == ListOf(lists, p)
    ensures TotalOf(SumsAfter(sums, ds), p) == TotalOf(sums, p)
    ensures (p in ListsAfter(lists, ds)) == (p in lists) && (p in SumsAfter(sums, ds)) == (p in sums)
  {
    ListsAfterExtends(lists, ds);
    SumsAfterExtends(sums, ds);
    MembersOfParty(ds, p);
    assert Members(ds, p) == [];
  }

  /** The list lengths of a per-party map. */
  function Lengths(m: map<string, seq<Deputy>>): map<string, int> {
    map p | p in m :: |m[p]|
  }

  lemma LengthsUpdate(m: map<string, seq<Deputy>>, k: string, v: seq<Deputy>)
    ensures Lengths(m[k := v]) == Lengths(m)[k := |v|]
  {
  }

  /** Filing deputies one at a time adds one to the lists' total length per
      deputy. */
  lemma {:induction false} ListsAfterCount(lists: map<string, seq<Deputy>>, ds: seq<Deputy>)
    ensures MapSum(Lengths(ListsAfter(lists, ds))) == MapSum(Lengths(lists)) + |ds|
  {
    if ds != [] {
      var init, d := ds[..|ds| - 1], ds[|ds| - 1];
      var prev := ListsAfter(lists, init);
      var k := d.politicalParty;
      ListsAfterCount(lists, init);
      LengthsUpdate(prev, k, ListOf(prev, k) + [d]);
      MapSumUpdate(Lengths(prev), k, |ListOf(prev, k)| + 1);
      assert TotalOf(Lengths(prev), k) == |ListOf(prev, k)|;
    }
  }

  /** Adding totals one at a time adds each deputy's total to the sum of the
      map. */
  lemma {:induction false} SumsAfterTotal(sums: map<string, int>, ds: seq<Deputy>)
    ensures MapSum(SumsAfter(sums, ds)) == MapSum(sums) + SumTotals(ds)
  {
    if ds != [] {
      var init, d := ds[..|ds| - 1], ds[|ds| - 1];
      var prev := SumsAfter(sums, init);
      SumsAfterTotal(sums, init);
      MapSumUpdate(prev, d.politicalParty, TotalOf(prev, d.politicalParty) + d.total);
    }
  }

  /** The lists are determined by the base and the deputies filed. */
  lemma ListsExtendUnique(m: map<string, seq<Deputy>>, n: map<string, seq<Deputy>>, base: map<string, seq<Deputy>>, ds: seq<Deputy>)
    requires ListsExtend(m, base, ds) && ListsExtend(n, base, ds)
    ensures m == n
  {
    forall p | p in m ensures m[p] == n[p] {
      assert ListOf(m, p) == ListOf(n, p);
    }
  }

  /** The sums are determined by the base and the deputies added. */
  lemma SumsExtendUnique(m: map<string, int>, n: map<string, int>, base: map<string, int>, ds: seq<Deputy>)
    requires SumsExtend(m, base, ds) && SumsExtend(n, base, ds)
    ensures m == n
  {
    forall p | p in m ensures m[p] == n[p] {
      assert TotalOf(m, p) == TotalOf(n, p);
    }
  }

  // ---------------------------------------------------------------------
  // The aggregation state and its flush callback
  // ---------------------------------------------------------------------

  /** The three package-level collections `writeDeputies` updates. */
  class Tally {
    var politicalPartyMap: map<string, seq<Deputy>>
    var politicalPartyTotalMap: map<string, int>
    var deputiesArray: seq<Deputy>

    /** The maps are what writing `deputiesArray` into empty maps leaves:
        one entry per party that occurs, holding that party's deputies in
        order and the sum of their totals. */
    ghost predicate Valid()
      reads this
    {
      && ListsExtend(politicalPartyMap, map[], deputiesArray)
      && SumsExtend(politicalPartyTotalMap, map[], deputiesArray)
    }

    constructor ()
      ensures Valid()
      ensures politicalPartyMap == map[] && politicalPartyTotalMap == map[] && deputiesArray == []
    {
      politicalPartyMap, politicalPartyTotalMap, deputiesArray := map[], map[], [];
    }

    /** Adds a flushed batch: each deputy goes to the end of the global list
        and of its party's list, and its total is added to its party's sum. */
    method WriteDeputies(batch: seq<Deputy>)
      modifies this
      ensures deputiesArray == old(deputiesArray) + batch
      ensures politicalPartyMap == ListsAfter(old(politicalPartyMap), batch)
      ensures politicalPartyTotalMap == SumsAfter(old(politicalPartyTotalMap), batch)
      ensures politicalPartyMap.Keys == old(politicalPartyMap).Keys + Parties(batch)
      ensures forall p :: ListOf(politicalPartyMap, p) == ListOf(old(politicalPartyMap), p) + Members(batch, p)
      ensures politicalPartyTotalMap.Keys == old(politicalPartyTotalMap).Keys + Parties(batch)
      ensures forall p :: TotalOf(politicalPartyTotalMap, p) ==
                TotalOf(old(politicalPartyTotalMap), p) + SumTotals(Members(batch, p))
      ensures old(Valid()) ==> Valid()
    {
      var i := 0;
      while i < |batch|
        invariant 0 <= i <= |batch|
        invariant deputiesArray == old(deputiesArray) + batch[..i]
        invariant politicalPartyMap == ListsAfter(old(politicalPartyMap), batch[..i])
        invariant politicalPartyTotalMap == SumsAfter(old(politicalPartyTotalMap), batch[..i])
      {
        var d := batch[i];
        var deputies := ListOf(politicalPartyMap, d.politicalParty);
        deputies := deputies + [d];
        deputiesArray := deputiesArray + [d];
        politicalPartyMap := politicalPartyMap[d.politicalParty := deputies];
        var sum := TotalOf(politicalPartyTotalMap, d.politicalParty);
        politicalPartyTotalMap := politicalPartyTotalMap[d.politicalParty := sum + d.total];
        PrefixSnoc(batch, i);
        i := i + 1;
      }
      assert batch[..i] == batch;
      ListsAfterExtends(old(politicalPartyMap), batch);
      SumsAfterExtends(old(politicalPartyTotalMap), batch);
      if old(Valid()) {
        ListsCompose(map[], old(politicalPartyMap), politicalPartyMap, old(deputiesArray), batch);
        SumsCompose(map[], old(politicalPartyTotalMap), politicalPartyTotalMap, old(deputiesArray), batch);
      }
    }
  }

  /** In a valid state every listed deputy belongs to the party it is listed
      under, the lists together are exactly as long as the global list, and
      the party sums add up to the total of all deputies. */
  lemma ValidPartition(t: Tally)
    requires t.Valid()
    ensures forall p, i :: p in t.politicalPartyMap && 0 <= i < |t.politicalPartyMap[p]| ==>
              t.politicalPartyMap[p][i].politicalParty == p
    ensures MapSum(Lengths(t.politicalPartyMap)) == |t.deputiesArray|
    ensures MapSum(t.politicalPartyTotalMap) == SumTotals(t.deputiesArray)
  {
    var ds: seq<Deputy>, lists: map<string, seq<Deputy>>, sums: map<string, int> := t.deputiesArray, t.politicalPartyMap, t.politicalPartyTotalMap;
    var noLists: map<string, seq<Deputy>>, noSums: map<string, int> := map[], map[];
    forall p: string | p in lists ensures forall i :: 0 <= i < |lists[p]| ==> lists[p][i].politicalParty == p {
      assert ListOf(lists, p) == ListOf(noLists, p) + Members(ds, p);
      MembersOfParty(ds, p);
    }
    ListsAfterExtends(noLists, ds);
    ListsExtendUnique(lists, ListsAfter(noLists, ds), noLists, ds);
    ListsAfterCount(noLists, ds);
    SumsAfterExtends(noSums, ds);
    SumsExtendUnique(sums, SumsAfter(noSums, ds), noSums, ds);
    SumsAfterTotal(noSums, ds);
  }
}
