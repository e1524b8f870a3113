/** `validar_consistencia_interna`: the Gold municipality counts are assigned
    to micro-regions through the Silver table, summed per region and compared
    with the Gold micro-region counts; municipalities with no region and
    names that occur more than once are reported. */
module InternalConsistency {
  import opened Wrappers
  import opened Text
  import opened Seqs
  import opened Percent
  import opened Joins
  import opened Grouping
  import opened Names
  import opened Discrepancy

  /** A Gold row, by municipality or by micro-region: a name and its count. */
  type CountRow = NamedCount

  /** A Silver row: a municipality and the micro-region it belongs to. */
  datatype SilverRow = SilverRow(municipality: Option<String>, region: Option<String>)

  /** A row of the left join of the Gold municipalities with the Silver
      table: the municipality, its key and the key of its region, missing
      when no Silver row matched or the matching row had no region. */
  datatype Assignment = Assignment(municipality: CountRow, key: Option<String>, region: Option<String>)

  /** A row of `comparacao_micro`. */
  datatype RegionCheck = RegionCheck(
    key: Option<String>, calculated: Option<int>, declared: Option<int>,
    diff: Option<int>, pct: Pct, status: Status)

  /** The `resultados` dictionary; `duplicates` maps each repeated key to
      its number of occurrences. */
  datatype ConsistencyReport = ConsistencyReport(
    comparison: seq<RegionCheck>, unmatched: seq<Assignment>,
    duplicates: map<String, nat>, inconsistencies: nat)

  function SilverKeyed(silver: seq<SilverRow>): (k: seq<(Option<String>, Option<String>)>)
    ensures |k| == |silver|
    ensures forall i :: 0 <= i < |silver| ==> k[i] == (Normalize(silver[i].municipality), Normalize(silver[i].region))
  {
    seq(|silver|, i requires 0 <= i < |silver| => (Normalize(silver[i].municipality), Normalize(silver[i].region)))
  }

  /** `municipios_matched`: every Gold municipality, once per Silver row
      with the same key, or once with no region. */
  function Assignments(gold: seq<CountRow>, silver: seq<SilverRow>): (a: seq<Assignment>)
    ensures |a| >= |gold|
    ensures forall t :: 0 <= t < |a| ==> a[t].municipality in gold && a[t].key == Normalize(a[t].municipality.name)
    ensures forall t :: 0 <= t < |a| && a[t].region.Some? ==>
      exists q :: 0 <= q < |silver| && Normalize(silver[q].municipality) == a[t].key && Normalize(silver[q].region) == a[t].region
  {
    var j := LeftJoin(KeyedByName(gold), SilverKeyed(silver));
    var a := seq(|j|, t requires 0 <= t < |j| =>
      Assignment(j[t].left.value, j[t].key, if j[t].right.Some? then j[t].right.value else None));
    assert forall t :: 0 <= t < |a| ==> (a[t].key, a[t].municipality) in KeyedByName(gold);
    assert forall t :: 0 <= t < |a| && a[t].region.Some? ==> (a[t].key, a[t].region) in SilverKeyed(silver);
    a
  }

  /** No Gold municipality is lost by the left join. */
  lemma AssignmentsKeepGold(gold: seq<CountRow>, silver: seq<SilverRow>, i: nat)
    requires i < |gold|
    ensures exists t :: 0 <= t < |Assignments(gold, silver)| && Assignments(gold, silver)[t].municipality == gold[i]
  {
    var l := KeyedByName(gold);
    var r := SilverKeyed(silver);
    LeftJoinComplete(l, r, i);
    var j := LeftJoin(l, r);
    var t :| 0 <= t < |j| && j[t].key == l[i].0 && j[t].left == Some(l[i].1);
    assert Assignments(gold, silver)[t].municipality == gold[i];
  }

  /** A municipality whose key no Silver row has gets no region. */
  lemma NoSilverNoRegion(gold: seq<CountRow>, silver: seq<SilverRow>, t: nat)
    requires t < |Assignments(gold, silver)|
    requires forall q :: 0 <= q < |silver| ==> Normalize(silver[q].municipality) != Assignments(gold, silver)[t].key
    ensures Assignments(gold, silver)[t].region.None?
  {
  }

  /** With one Silver row per municipality key the join neither duplicates
      nor reorders the Gold rows. */
  lemma AssignmentsOneToOne(gold: seq<CountRow>, silver: seq<SilverRow>)
    requires UniqueKeys(SilverKeyed(silver))
    ensures |Assignments(gold, silver)| == |gold|
    ensures forall i :: 0 <= i < |gold| ==> Assignments(gold, silver)[i].municipality == gold[i]
  {
    LeftJoinOneToOne(KeyedByName(gold), SilverKeyed(silver));
  }

  predicate Unmatched(a: Assignment) {
    a.region.None?
  }

  /** The (region, count) pairs that `groupby` sums; rows with no region
      belong to no group. */
  function RegionPairs(a: seq<Assignment>): (p: seq<(String, int)>)
    ensures |p| == |a| - Count(a, Unmatched)
  {
    if a == [] then []
    else
      var init := RegionPairs(a[..|a| - 1]);
      var x := a[|a| - 1];
      if x.region.Some? then init + [(x.region.value, x.municipality.quantity)] else init
  }

  function Quantities(a: seq<Assignment>): (q: seq<int>)
    ensures |q| == |a|
    ensures forall t :: 0 <= t < |a| ==> q[t] == a[t].municipality.quantity
  {
    seq(|a|, t requires 0 <= t < |a| => a[t].municipality.quantity)
  }

  /** The counts assigned to regions and the counts left without one add up
      to the counts of the joined table. */
  lemma {:induction false} AssignedPlusUnmatched(a: seq<Assignment>)
    ensures Sum(Values(RegionPairs(a))) + Sum(Quantities(Filter(a, Unmatched))) == Sum(Quantities(a))
  {
    if a != [] {
      var init, x := a[..|a| - 1], a[|a| - 1];
      var q := x.municipality.quantity;
      assert init + [x] == a;
      QuantitiesSnoc(init, x);
      AssignedPlusUnmatched(init);
      FilterSnoc(init, x, Unmatched);
      if x.region.Some? {
        assert RegionPairs(a) == RegionPairs(init) + [(x.region.value, q)];
        ValuesSnoc(RegionPairs(init), (x.region.value, q));
      } else {
        assert RegionPairs(a) == RegionPairs(init);
        QuantitiesSnoc(Filter(init, Unmatched), x);
      }
    }
  }

  lemma QuantitiesSnoc(a: seq<Assignment>, x: Assignment)
    ensures Sum(Quantities(a + [x])) == Sum(Quantities(a)) + x.municipality.quantity
  {
    assert Quantities(a + [x]) == Quantities(a) + [x.municipality.quantity];
    SumConcat(Quantities(a), [x.municipality.quantity]);
  }

  function GoldQuantities(gold: seq<CountRow>): (q: seq<int>)
    ensures |q| == |gold|
    ensures forall i :: 0 <= i < |gold| ==> q[i] == gold[i].quantity
  {
    seq(|gold|, i requires 0 <= i < |gold| => gold[i].quantity)
  }

  /** `soma_por_micro`: per region key, the sum of the counts assigned to it. */
  function RegionSums(gold: seq<CountRow>, silver: seq<SilverRow>): (s: seq<(String, int)>)
    ensures Sum(Values(s)) + Sum(Quantities(Filter(Assignments(gold, silver), Unmatched))) ==
      Sum(Quantities(Assignments(gold, silver)))
  {
    var pairs := RegionPairs(Assignments(gold, silver));
    GroupSumTotal(pairs);
    AssignedPlusUnmatched(Assignments(gold, silver));
    GroupSum(pairs)
  }

  /** With one Silver row per municipality key, no count is lost or counted
      twice: the region sums and the unmatched counts make up the Gold total. */
  lemma RegionSumsConserveCounts(gold: seq<CountRow>, silver: seq<SilverRow>)
    requires UniqueKeys(SilverKeyed(silver))
    ensures Sum(Values(RegionSums(gold, silver))) + Sum(Quantities(Filter(Assignments(gold, silver), Unmatched))) ==
      Sum(GoldQuantities(gold))
  {
    AssignmentsOneToOne(gold, silver);
    assert Quantities(Assignments(gold, silver)) == GoldQuantities(gold);
  }

  /** One row of the outer join of the region sums with the declared counts. */
  function Check(j: Joined<Option<String>, int, int>): (c: RegionCheck)
    ensures c.key == j.key
    ensures c.calculated == j.left && c.declared == j.right
    ensures c.diff == Difference(c.calculated, c.declared)
    ensures c.pct == Percentage(c.calculated, c.declared)
    ensures c.status == StatusOf(c.calculated, c.declared)
  {
    var d := Difference(j.left, j.right);
    RegionCheck(j.key, j.left, j.right, d, Percentage(j.left, j.right), StatusOf(j.left, j.right))
  }

  function SumsKeyed(s: seq<(String, int)>): (k: seq<(Option<String>, int)>)
    ensures |k| == |s|
    ensures forall i :: 0 <= i < |s| ==> k[i] == (Some(s[i].0), s[i].1)
  {
    seq(|s|, i requires 0 <= i < |s| => (Some(s[i].0), s[i].1))
  }

  function RegionKeyed(regions: seq<CountRow>): (k: seq<(Option<String>, int)>)
    ensures |k| == |regions|
    ensures forall i :: 0 <= i < |regions| ==> k[i] == (Normalize(regions[i].name), regions[i].quantity)
  {
    seq(|regions|, i requires 0 <= i < |regions| => (Normalize(regions[i].name), regions[i].quantity))
  }

  /** `comparacao_micro`: calculated against declared, per region key. The
      difference and the percentage are taken relative to the declared count. */
  function RegionComparison(regions: seq<CountRow>, gold: seq<CountRow>, silver: seq<SilverRow>): (c: seq<RegionCheck>)
    ensures forall t :: 0 <= t < |c| ==> c[t].calculated.Some? || c[t].declared.Some?
    ensures forall t :: 0 <= t < |c| ==> Derived(c[t])
  {
    var j := OuterJoin(SumsKeyed(RegionSums(gold, silver)), RegionKeyed(regions));
    Checks(j)
  }

  function Checks(j: seq<Joined<Option<String>, int, int>>): (c: seq<RegionCheck>)
    requires forall t :: 0 <= t < |j| ==> j[t].left.Some? || j[t].right.Some?
    ensures |c| == |j|
    ensures forall t :: 0 <= t < |c| ==> c[t] == Check(j[t])
    ensures forall t :: 0 <= t < |c| ==> c[t].calculated.Some? || c[t].declared.Some?
    ensures forall t :: 0 <= t < |c| ==> Derived(c[t])
  {
    seq(|j|, t requires 0 <= t < |j| => Check(j[t]))
  }

  predicate Derived(c: RegionCheck) {
    c.diff == Difference(c.calculated, c.declared) && c.pct == Percentage(c.calculated, c.declared) &&
    c.status == StatusOf(c.calculated, c.declared)
  }

  /** A declared count in the comparison is the count of a Gold region row
      with that key. */
  lemma DeclaredIsGoldRegion(regions: seq<CountRow>, gold: seq<CountRow>, silver: seq<SilverRow>, t: nat)
    requires t < |RegionComparison(regions, gold, silver)|
    requires RegionComparison(regions, gold, silver)[t].declared.Some?
    ensures var c := RegionComparison(regions, gold, silver)[t];
      exists i :: 0 <= i < |regions| && Normalize(regions[i].name) == c.key && regions[i].quantity == c.declared.value
  {
    var j := OuterJoin(SumsKeyed(RegionSums(gold, silver)), RegionKeyed(regions));
    assert RegionComparison(regions, gold, silver)[t] == Check(j[t]);
    var i :| 0 <= i < |regions| && RegionKeyed(regions)[i] == (j[t].key, j[t].right.value);
  }

  /** A region's calculated count is the sum of the counts of the
      municipalities assigned to it. */
  lemma CalculatedIsRegionSum(regions: seq<CountRow>, gold: seq<CountRow>, silver: seq<SilverRow>, t: nat)
    requires t < |RegionComparison(regions, gold, silver)|
    requires RegionComparison(regions, gold, silver)[t].calculated.Some?
    ensures var c := RegionComparison(regions, gold, silver)[t];
      c.calculated == Some(SumOf(RegionPairs(Assignments(gold, silver)), c.key.value))
  {
    var g := RegionSums(gold, silver);
    var j := OuterJoin(SumsKeyed(g), RegionKeyed(regions));
    assert RegionComparison(regions, gold, silver)[t] == Check(j[t]);
    var u :| 0 <= u < |g| && SumsKeyed(g)[u] == (j[t].key, j[t].left.value);
  }

  /** `|diferenca| > 0`. */
  predicate Differs(c: RegionCheck) {
    Exceeds(c.diff, 0.0)
  }

  /** The names of `keys` that are present. */
  function PresentNames(keys: seq<Option<String>>): (names: set<String>)
    ensures forall i :: 0 <= i < |keys| && keys[i].Some? ==> keys[i].value in names
  {
    set i | 0 <= i < |keys| && keys[i].Some? :: keys[i].value
  }

  function Occurrences(keys: seq<Option<String>>, k: String): nat {
    Count(keys, (x: Option<String>) => x == Some(k))
  }

  /** `value_counts()` restricted to counts above one: missing keys are not
      counted, and a key is reported exactly when two rows share it. */
  function Duplicates(keys: seq<Option<String>>): (m: map<String, nat>)
    ensures forall k :: k in m ==> m[k] == Occurrences(keys, k) && m[k] > 1
    ensures forall k :: k in m <==> exists i, j :: 0 <= i < j < |keys| && keys[i] == Some(k) && keys[j] == Some(k)
  {
    var m := map k | k in PresentNames(keys) && Occurrences(keys, k) > 1 :: Occurrences(keys, k);
    forall k ensures k in m <==> exists i, j :: 0 <= i < j < |keys| && keys[i] == Some(k) && keys[j] == Some(k) {
      CountAboveOne(keys, (x: Option<String>) => x == Some(k));
    }
    m
  }

  function NameKeys(gold: seq<CountRow>): (k: seq<Option<String>>)
    ensures |k| == |gold|
    ensures forall i :: 0 <= i < |gold| ==> k[i] == Normalize(gold[i].name)
  {
    seq(|gold|, i requires 0 <= i < |gold| => Normalize(gold[i].name))
  }

  /** `validar_consistencia_interna`. */
  function ValidateInternal(regions: seq<CountRow>, gold: seq<CountRow>, silver: seq<SilverRow>): (r: ConsistencyReport)
    ensures r.comparison == RegionComparison(regions, gold, silver)
    ensures forall t :: 0 <= t < |r.comparison| ==> Derived(r.comparison[t])
    ensures forall t :: 0 <= t < |r.unmatched| ==> r.unmatched[t].region.None?
    ensures forall t :: 0 <= t < |Assignments(gold, silver)| && Assignments(gold, silver)[t].region.None? ==>
      Assignments(gold, silver)[t] in r.unmatched
    ensures forall a :: multiset(r.unmatched)[a] == if a.region.None? then multiset(Assignments(gold, silver))[a] else 0
    ensures |r.unmatched| == Count(Assignments(gold, silver), Unmatched)
    ensures r.inconsistencies == Count(r.comparison, Differs)
    ensures forall k :: k in r.duplicates ==> r.duplicates[k] > 1
    ensures r.inconsistencies + Count(r.comparison, IsMatch) == Count(r.comparison, BothSides)
  {
    var comparison := RegionComparison(regions, gold, silver);
    var joined := Assignments(gold, silver);
    MatchOrDiffers(comparison);
    assert forall a :: multiset(Filter(joined, Unmatched))[a] == if a.region.None? then multiset(joined)[a] else 0 by {
      forall a ensures multiset(Filter(joined, Unmatched))[a] == if a.region.None? then multiset(joined)[a] else 0 {
        FilterCount(joined, Unmatched, a);
      }
    }
    ConsistencyReport(comparison, Filter(joined, Unmatched), Duplicates(NameKeys(gold)),
      Count(comparison, Differs))
  }

  predicate BothSides(c: RegionCheck) {
    c.calculated.Some? && c.declared.Some?
  }

  predicate IsMatch(c: RegionCheck) {
    c.status == Match
  }

  /** `municipios_duplicados` holds exactly the keys of two Gold rows. */
  lemma DuplicatesAreShared(regions: seq<CountRow>, gold: seq<CountRow>, silver: seq<SilverRow>, k: String)
    ensures k in ValidateInternal(regions, gold, silver).duplicates <==>
      exists i, j :: 0 <= i < j < |gold| && Normalize(gold[i].name) == Some(k) && Normalize(gold[j].name) == Some(k)
  {
    var keys := NameKeys(gold);
    assert k in Duplicates(keys) <==> exists i, j :: 0 <= i < j < |keys| && keys[i] == Some(k) && keys[j] == Some(k);
  }

  /** Every region with both counts is either ✓ or counted as an
      inconsistency; a region missing a side is neither, since its difference
      is NaN and fails both tests. */
  lemma {:induction false} MatchOrDiffers(c: seq<RegionCheck>)
    requires forall t :: 0 <= t < |c| ==> Derived(c[t])
    ensures Count(c, Differs) + Count(c, IsMatch) == Count(c, BothSides)
  {
    if c != [] {
      MatchOrDiffers(c[..|c| - 1]);
      ExceedsMeansDiffers(c[|c| - 1].diff);
    }
  }
}
