/** `gerar_rankings_demanda3`: the vehicle fleet of Santa Catarina ranked by
    brand and by brand and model. `Marca_Modelo` is cut at its first space
    into brand and model; the quantities are summed per group, the groups
    sorted by quantity, largest first, and numbered 1..n. */
module VehicleRankings {
  import opened Wrappers
  import opened Text
  import opened Seqs
  import opened Grouping
  import opened Sorting

  /** A row of the CSV: `UF`, `Marca_Modelo`, `Quantidade`. */
  datatype Registration = Registration(uf: String, brandModel: String, quantity: int)

  /** A row after the split: `Marca`, `Modelo` (missing when there is no
      space), `Quantidade`. */
  datatype Vehicle = Vehicle(brand: String, model: Option<String>, quantity: int)

  /** One row of a ranking: `Ranking`, the group key, `Quantidade`. */
  datatype Ranked<K> = Ranked(rank: nat, key: K, quantity: int)

  datatype Rankings = Rankings(byBrand: seq<Ranked<String>>, byModel: seq<Ranked<(String, String)>>)

  /** What assigning one split column to two names raises. */
  const SplitError: String := "ValueError: Columns must be same length as key"

  predicate InSantaCatarina(r: Registration) {
    r.uf == "SANTA CATARINA"
  }

  predicate HasSpace(r: Registration) {
    ' ' in r.brandModel
  }

  /** `str.split(" ", n=1)` of one row: the brand before the first space and
      the model after it. */
  function SplitVehicle(r: Registration): (v: Vehicle)
    ensures ' ' !in v.brand
    ensures v.model.None? <==> !HasSpace(r)
    ensures v.model.None? ==> v.brand == r.brandModel
    ensures v.model.Some? ==> r.brandModel == v.brand + [' '] + v.model.value
    ensures v.quantity == r.quantity
  {
    var parts := SplitOnce(r.brandModel, ' ');
    Vehicle(parts[0], if |parts| == 2 then Some(parts[1]) else None, r.quantity)
  }

  function SplitAll(rows: seq<Registration>): (vs: seq<Vehicle>)
    ensures |vs| == |rows|
    ensures forall i :: 0 <= i < |rows| ==> vs[i] == SplitVehicle(rows[i])
  {
    seq(|rows|, i requires 0 <= i < |rows| => SplitVehicle(rows[i]))
  }

  predicate NoSpace(rows: seq<Registration>) {
    forall i :: 0 <= i < |rows| ==> !HasSpace(rows[i])
  }

  /** `df[["Marca", "Modelo"]] = ...split(" ", n=1, expand=True)`: with no
      space anywhere the split has a single column and the assignment fails. */
  function SplitColumns(rows: seq<Registration>): (r: Result<seq<Vehicle>, String>)
    ensures r.Failure? <==> NoSpace(rows)
    ensures r.Success? ==> r.value == SplitAll(rows)
  {
    if Count(rows, HasSpace) == 0 then
      CountPositive(rows, HasSpace);
      Failure(SplitError)
    else
      CountPositive(rows, HasSpace);
      Success(SplitAll(rows))
  }

  /** `sort_values("Quantidade", ascending=False)`. */
  predicate NotSmaller<K>(a: (K, int), b: (K, int)) {
    a.1 >= b.1
  }

  lemma NotSmallerIsPreorder<K(!new)>()
    ensures TotalPreorder((a: (K, int), b: (K, int)) => NotSmaller(a, b))
  {
  }

  /** `.reset_index(drop=True)` then `index + 1`. */
  function Numbered<K>(s: seq<(K, int)>): (r: seq<Ranked<K>>)
    ensures |r| == |s|
    ensures forall i :: 0 <= i < |s| ==> r[i] == Ranked(i + 1, s[i].0, s[i].1)
  {
    seq(|s|, i requires 0 <= i < |s| => Ranked(i + 1, s[i].0, s[i].1))
  }

  function Quantities<K>(r: seq<Ranked<K>>): (qs: seq<int>)
    ensures |qs| == |r|
  {
    seq(|r|, i requires 0 <= i < |r| => r[i].quantity)
  }

  /** Group, sum, sort largest first, number from 1. */
  function Ranking<K(==,!new)>(s: seq<(K, int)>): (r: seq<Ranked<K>>)
    ensures |r| == |DistinctKeys(s)|
    ensures forall i :: 0 <= i < |r| ==> r[i].rank == i + 1
    ensures forall i, j :: 0 <= i < j < |r| ==> r[i].quantity >= r[j].quantity
  {
    NotSmallerIsPreorder<K>();
    var sorted := SortBy(GroupSum(s), (a: (K, int), b: (K, int)) => NotSmaller(a, b));
    Numbered(sorted)
  }

  /** The sorted groups behind a ranking. */
  lemma SortedGroups<K(!new)>(s: seq<(K, int)>)
    ensures TotalPreorder((a: (K, int), b: (K, int)) => NotSmaller(a, b))
    ensures var sorted := SortBy(GroupSum(s), (a: (K, int), b: (K, int)) => NotSmaller(a, b));
      Ranking(s) == Numbered(sorted) && multiset(sorted) == multiset(GroupSum(s))
  {
    NotSmallerIsPreorder<K>();
  }

  /** Each ranked row is one of the groups. */
  lemma RankedIsGroup<K(!new)>(s: seq<(K, int)>, i: int)
    requires 0 <= i < |Ranking(s)|
    ensures (Ranking(s)[i].key, Ranking(s)[i].quantity) in multiset(GroupSum(s))
  {
    SortedGroups(s);
    var sorted := SortBy(GroupSum(s), (a: (K, int), b: (K, int)) => NotSmaller(a, b));
    assert sorted[i] in multiset(sorted);
  }

  /** Each ranked row holds the sum of its key's quantities. */
  lemma RankingSums<K(!new)>(s: seq<(K, int)>)
    ensures forall i :: 0 <= i < |Ranking(s)| ==> Ranking(s)[i].quantity == SumOf(s, Ranking(s)[i].key)
  {
    forall i | 0 <= i < |Ranking(s)| ensures Ranking(s)[i].quantity == SumOf(s, Ranking(s)[i].key) {
      RankedIsGroup(s, i);
      GroupedRowIsSum(s, (Ranking(s)[i].key, Ranking(s)[i].quantity));
    }
  }

  /** No key is ranked twice. */
  lemma RankingKeysDistinct<K(!new)>(s: seq<(K, int)>)
    ensures forall i, j :: 0 <= i < j < |Ranking(s)| ==> Ranking(s)[i].key != Ranking(s)[j].key
  {
    SortedGroups(s);
    GroupKeysDistinct(s, SortBy(GroupSum(s), (a: (K, int), b: (K, int)) => NotSmaller(a, b)));
  }

  /** Every key of the input is ranked. */
  lemma RankingCoversKeys<K(!new)>(s: seq<(K, int)>)
    ensures forall k :: 0 <= k < |s| ==> exists i :: 0 <= i < |Ranking(s)| && Ranking(s)[i].key == s[k].0
  {
    SortedGroups(s);
    var g := GroupSum(s);
    var sorted := SortBy(g, (a: (K, int), b: (K, int)) => NotSmaller(a, b));
    forall k | 0 <= k < |s| ensures exists i :: 0 <= i < |Ranking(s)| && Ranking(s)[i].key == s[k].0 {
      GroupSumLookup(s, s[k].0);
      var t :| 0 <= t < |g| && g[t] == (s[k].0, SumOf(s, s[k].0));
      assert g[t] in multiset(sorted);
      var i :| 0 <= i < |sorted| && sorted[i] == g[t];
      assert Ranking(s)[i].key == s[k].0;
    }
  }

  /** The ranking's quantities add up to the input's total. */
  lemma RankingTotal<K(!new)>(s: seq<(K, int)>)
    ensures Sum(Quantities(Ranking(s))) == Sum(Values(s))
  {
    SortedGroups(s);
    var g := GroupSum(s);
    var sorted := SortBy(g, (a: (K, int), b: (K, int)) => NotSmaller(a, b));
    assert Quantities(Ranking(s)) == Values(sorted);
    ValuesSumPermutation(sorted, g);
    GroupSumTotal(s);
  }

  function BrandPairs(vs: seq<Vehicle>): (s: seq<(String, int)>)
    ensures |s| == |vs|
    ensures forall i :: 0 <= i < |vs| ==> s[i] == (vs[i].brand, vs[i].quantity)
  {
    seq(|vs|, i requires 0 <= i < |vs| => (vs[i].brand, vs[i].quantity))
  }

  predicate HasModel(v: Vehicle) {
    v.model.Some?
  }

  /** `groupby(["Marca", "Modelo"])` leaves out the rows whose model is missing. */
  function ModelPairs(vs: seq<Vehicle>): (s: seq<((String, String), int)>)
    ensures |s| == Count(vs, HasModel)
    ensures forall i :: 0 <= i < |s| ==> var v := Filter(vs, HasModel)[i];
      s[i] == ((v.brand, v.model.value), v.quantity)
    ensures forall i :: 0 <= i < |vs| && HasModel(vs[i]) ==>
      ((vs[i].brand, vs[i].model.value), vs[i].quantity) in s
  {
    var kept := Filter(vs, HasModel);
    seq(|kept|, i requires 0 <= i < |kept| => ((kept[i].brand, kept[i].model.value), kept[i].quantity))
  }

  /** Both rankings of the split rows. */
  function RankAll(vs: seq<Vehicle>): (r: Rankings)
    ensures |r.byBrand| == |DistinctKeys(BrandPairs(vs))|
    ensures |r.byModel| == |DistinctKeys(ModelPairs(vs))|
  {
    Rankings(Ranking(BrandPairs(vs)), Ranking(ModelPairs(vs)))
  }

  /** No Santa Catarina row has a space in `Marca_Modelo`. */
  predicate NoSpaceInState(rows: seq<Registration>) {
    forall i :: 0 <= i < |rows| && InSantaCatarina(rows[i]) ==> !HasSpace(rows[i])
  }

  lemma SelectedSpaces(rows: seq<Registration>)
    ensures NoSpaceInState(rows) <==> NoSpace(Filter(rows, InSantaCatarina))
  {
    var sc := Filter(rows, InSantaCatarina);
    if NoSpaceInState(rows) {
      forall i | 0 <= i < |sc| ensures !HasSpace(sc[i]) {
        assert sc[i] in multiset(sc);
        assert sc[i] in rows;
        var j :| 0 <= j < |rows| && rows[j] == sc[i];
      }
    } else {
      var j :| 0 <= j < |rows| && InSantaCatarina(rows[j]) && HasSpace(rows[j]);
      assert rows[j] in sc;
      var i :| 0 <= i < |sc| && sc[i] == rows[j];
    }
  }

  /** `gerar_rankings_demanda3` without the Excel output. */
  function Demanda3(rows: seq<Registration>): (r: Result<Rankings, String>)
    ensures r.Failure? <==> NoSpaceInState(rows)
  {
    SelectedSpaces(rows);
    var split := SplitColumns(Filter(rows, InSantaCatarina));
    if split.Failure? then Failure(split.error)
    else Success(RankAll(split.value))
  }

  function SelectedQuantities(rows: seq<Registration>): (qs: seq<int>) {
    var sc := Filter(rows, InSantaCatarina);
    seq(|sc|, i requires 0 <= i < |sc| => sc[i].quantity)
  }

  /** The brand ranking accounts for every Santa Catarina vehicle: its
      quantities add up to the state's total. */
  lemma BrandRankingTotal(rows: seq<Registration>)
    requires Demanda3(rows).Success?
    ensures Sum(Quantities(Demanda3(rows).value.byBrand)) == Sum(SelectedQuantities(rows))
  {
    var pairs := BrandPairs(SplitAll(Filter(rows, InSantaCatarina)));
    BrandRankingOf(rows);
    BrandQuantities(rows);
    RankingTotal(pairs);
  }

  lemma BrandRankingOf(rows: seq<Registration>)
    requires Demanda3(rows).Success?
    ensures Demanda3(rows).value.byBrand == Ranking(BrandPairs(SplitAll(Filter(rows, InSantaCatarina))))
  {
  }

  lemma BrandQuantities(rows: seq<Registration>)
    ensures Values(BrandPairs(SplitAll(Filter(rows, InSantaCatarina)))) == SelectedQuantities(rows)
  {
  }
}
