/**
 * The dashboard's summary statistics over the filtered list: the number of
 * breweries, the average name length, the per-city counts and the most
 * common city.
 */
module Aggregator {
  import opened FilterEngine

  // ---------------------------------------------------------------------
  // totalBreweries and averageNameLength
  // ---------------------------------------------------------------------

  /** `fs.reduce((sum, b) => sum + b.name.length, 0)`, folded left to right. */
  function NameLengthSum(fs: seq<Brewery>): nat
  {
    if fs == [] then 0 else NameLengthSum(fs[..|fs| - 1]) + |fs[|fs| - 1].name|
  }

  /** `n || 1`: the count, or 1 when the count is 0. */
  function Denominator(n: nat): nat
  {
    if n == 0 then 1 else n
  }

  /** `averageNameLength`, as an exact rational instead of a float. */
  function AverageNameLength(fs: seq<Brewery>): (r: real)
    ensures r >= 0.0
    ensures fs == [] ==> r == 0.0
    ensures fs != [] ==> r * |fs| as real == NameLengthSum(fs) as real
  {
    NameLengthSum(fs) as real / Denominator(|fs|) as real
  }

  lemma {:induction false} NameLengthSumBounds(fs: seq<Brewery>, lo: nat, hi: nat)
    requires forall i :: 0 <= i < |fs| ==> lo <= |fs[i].name| <= hi
    ensures |fs| * lo <= NameLengthSum(fs) <= |fs| * hi
  {
    if fs != [] {
      var init := fs[..|fs| - 1];
      assert forall i :: 0 <= i < |init| ==> init[i] == fs[i];
      NameLengthSumBounds(init, lo, hi);
      assert |fs| * lo == |init| * lo + lo;
      assert |fs| * hi == |init| * hi + hi;
    }
  }

  lemma MulCancel(x: real, y: real, n: real)
    requires n > 0.0
    requires x * n <= y * n
    ensures x <= y
  {
    assert (y - x) * n >= 0.0;
  }

  lemma QuotientBounds(sum: nat, n: nat, lo: nat, hi: nat)
    requires n > 0
    requires n * lo <= sum <= n * hi
    ensures lo as real <= sum as real / n as real <= hi as real
  {
    var r := sum as real / n as real;
    assert r * n as real == sum as real;
    assert (n * lo) as real == lo as real * n as real;
    assert (n * hi) as real == hi as real * n as real;
    MulCancel(lo as real, r, n as real);
    MulCancel(r, hi as real, n as real);
  }

  /** On a non-empty list the average lies between the shortest and the longest name length. */
  lemma AverageNameLengthBounds(fs: seq<Brewery>, lo: nat, hi: nat)
    requires fs != []
    requires forall i :: 0 <= i < |fs| ==> lo <= |fs[i].name| <= hi
    ensures lo as real <= AverageNameLength(fs) <= hi as real
  {
    NameLengthSumBounds(fs, lo, hi);
    QuotientBounds(NameLengthSum(fs), |fs|, lo, hi);
  }

  // ---------------------------------------------------------------------
  // cityCounts
  // ---------------------------------------------------------------------

  /** The number of entries of `fs` located in `city`. */
  function CityCount(fs: seq<Brewery>, city: string): nat
  {
    if fs == [] then 0
    else CityCount(fs[..|fs| - 1], city) + (if fs[|fs| - 1].city == city then 1 else 0)
  }

  /**
   * The cities of `fs` without repetition, in the order of their first
   * appearance: the order in which the reduce inserts keys into `cityCounts`,
   * and so the order of `Object.entries(cityCounts)`.
   */
  function Cities(fs: seq<Brewery>): seq<string>
  {
    if fs == [] then []
    else
      var prior := Cities(fs[..|fs| - 1]);
      var city := fs[|fs| - 1].city;
      if city in prior then prior else prior + [city]
  }

  lemma {:induction false} CitiesMembership(fs: seq<Brewery>)
    ensures forall c :: c in Cities(fs) <==> exists i :: 0 <= i < |fs| && fs[i].city == c
  {
    if fs != [] {
      var init := fs[..|fs| - 1];
      CitiesMembership(init);
      assert forall i :: 0 <= i < |init| ==> init[i] == fs[i];
      forall c | c in Cities(fs)
        ensures exists i :: 0 <= i < |fs| && fs[i].city == c
      {
        if c !in Cities(init) {
          assert fs[|fs| - 1].city == c;
        }
      }
    }
  }

  lemma {:induction false} CitiesDistinct(fs: seq<Brewery>)
    ensures forall p, q :: 0 <= p < q < |Cities(fs)| ==> Cities(fs)[p] != Cities(fs)[q]
  {
    if fs != [] {
      CitiesDistinct(fs[..|fs| - 1]);
    }
  }

  lemma {:induction false} CityCountPositive(fs: seq<Brewery>, city: string)
    ensures CityCount(fs, city) > 0 <==> city in Cities(fs)
  {
    if fs != [] {
      CityCountPositive(fs[..|fs| - 1], city);
    }
  }

  /** The cities of a prefix of `fs` are a prefix of the cities of `fs`. */
  lemma {:induction false} CitiesPrefix(fs: seq<Brewery>, n: nat)
    requires n <= |fs|
    ensures |Cities(fs[..n])| <= |Cities(fs)|
    ensures Cities(fs)[..|Cities(fs[..n])|] == Cities(fs[..n])
    decreases |fs|
  {
    if n == |fs| {
      assert fs[..n] == fs;
    } else {
      var init := fs[..|fs| - 1];
      CitiesPrefix(init, n);
      assert init[..n] == fs[..n];
    }
  }

  /** The contents of `cityCounts`: one key per city present, mapped to its number of entries. */
  function CityCounts(fs: seq<Brewery>): (m: map<string, nat>)
    ensures forall c :: c in m <==> exists i :: 0 <= i < |fs| && fs[i].city == c
    ensures forall c :: c in m ==> m[c] > 0 && m[c] == CityCount(fs, c)
  {
    CitiesMembership(fs);
    forall c | c in Cities(fs) ensures CityCount(fs, c) > 0 {
      CityCountPositive(fs, c);
    }
    map c | c in Cities(fs) :: CityCount(fs, c)
  }

  lemma CityCountsSnoc(s: seq<Brewery>, b: Brewery)
    ensures Cities(s + [b]) == if b.city in Cities(s) then Cities(s) else Cities(s) + [b.city]
    ensures CityCounts(s + [b]) ==
              if b.city in CityCounts(s) then CityCounts(s)[b.city := CityCounts(s)[b.city] + 1]
              else CityCounts(s)[b.city := 1]
  {
    var t := s + [b];
    assert t[..|t| - 1] == s;
    CityCountPositive(s, b.city);
    CitiesMembership(s);
    var m, m' := CityCounts(s), CityCounts(t);
    var expected := if b.city in m then m[b.city := m[b.city] + 1] else m[b.city := 1];
    assert m'.Keys == expected.Keys;
    forall c | c in m' ensures m'[c] == expected[c] {
      assert CityCount(t, c) == CityCount(s, c) + (if b.city == c then 1 else 0);
    }
  }

  /**
   * The reduce that builds `cityCounts`: one pass over `fs`, bumping the
   * entry of each city and inserting a city on its first appearance; `order`
   * records the insertion order of the keys.
   */
  method CountCities(fs: seq<Brewery>) returns (counts: map<string, nat>, order: seq<string>)
    ensures order == Cities(fs)
    ensures counts == CityCounts(fs)
  {
    counts, order := map[], [];
    var i := 0;
    while i < |fs|
      invariant 0 <= i <= |fs|
      invariant order == Cities(fs[..i])
      invariant counts == CityCounts(fs[..i])
    {
      var city := fs[i].city;
      assert fs[..i + 1] == fs[..i] + [fs[i]];
      CityCountsSnoc(fs[..i], fs[i]);
      CitiesMembership(fs[..i]);
      if city in counts {
        counts := counts[city := counts[city] + 1];
      } else {
        counts := counts[city := 1];
        order := order + [city];
      }
      i := i + 1;
    }
    assert fs[..i] == fs;
  }

  /** The sum of `counts[k]` over the keys `keys`. */
  function SumCounts(keys: seq<string>, counts: map<string, nat>): nat
    requires forall i :: 0 <= i < |keys| ==> keys[i] in counts
  {
    if keys == [] then 0 else SumCounts(keys[..|keys| - 1], counts) + counts[keys[|keys| - 1]]
  }

  /** The sum of `CityCount(fs, k)` over the keys `keys`. */
  function SumCityCounts(keys: seq<string>, fs: seq<Brewery>): nat
  {
    if keys == [] then 0 else SumCityCounts(keys[..|keys| - 1], fs) + CityCount(fs, keys[|keys| - 1])
  }

  lemma {:induction false} SumCityCountsSnoc(keys: seq<string>, fs: seq<Brewery>, b: Brewery)
    requires forall p, q :: 0 <= p < q < |keys| ==> keys[p] != keys[q]
    ensures SumCityCounts(keys, fs + [b]) == SumCityCounts(keys, fs) + (if b.city in keys then 1 else 0)
  {
    var t := fs + [b];
    assert t[..|t| - 1] == fs;
    if keys != [] {
      var init := keys[..|keys| - 1];
      SumCityCountsSnoc(init, fs, b);
      assert keys == init + [keys[|keys| - 1]];
      assert b.city in keys <==> b.city in init || b.city == keys[|keys| - 1];
    }
  }

  lemma {:induction false} SumCountsOfCityCounts(keys: seq<string>, fs: seq<Brewery>)
    requires forall i :: 0 <= i < |keys| ==> keys[i] in CityCounts(fs)
    ensures SumCounts(keys, CityCounts(fs)) == SumCityCounts(keys, fs)
  {
    if keys != [] {
      SumCountsOfCityCounts(keys[..|keys| - 1], fs);
    }
  }

  /** The counts in `cityCounts` add up to the number of filtered breweries. */
  lemma {:induction false} CityCountsSumToTotal(fs: seq<Brewery>)
    ensures forall i :: 0 <= i < |Cities(fs)| ==> Cities(fs)[i] in CityCounts(fs)
    ensures SumCounts(Cities(fs), CityCounts(fs)) == |fs|
  {
    CitiesMembership(fs);
    SumCitiesCounts(fs);
    SumCountsOfCityCounts(Cities(fs), fs);
  }

  lemma {:induction false} SumCitiesCounts(fs: seq<Brewery>)
    ensures SumCityCounts(Cities(fs), fs) == |fs|
  {
    if fs != [] {
      var s, b := fs[..|fs| - 1], fs[|fs| - 1];
      assert fs == s + [b];
      SumCitiesCounts(s);
      CitiesDistinct(s);
      CityCountsSnoc(s, b);
      SumCityCountsSnoc(Cities(s), s, b);
      if b.city !in Cities(s) {
        var keys := Cities(s) + [b.city];
        assert keys[..|keys| - 1] == Cities(s);
        CityCountPositive(s, b.city);
        assert CityCount(fs, b.city) == CityCount(s, b.city) + 1;
      }
    }
  }

  // ---------------------------------------------------------------------
  // mostCommonCity
  // ---------------------------------------------------------------------

  /** One `[key, count]` pair of `Object.entries(cityCounts)`. */
  datatype Entry = Entry(key: string, count: nat)

  /** `Object.entries(counts)`, with the keys in the order `order`. */
  function EntriesOf(order: seq<string>, counts: map<string, nat>): (es: seq<Entry>)
    requires forall i :: 0 <= i < |order| ==> order[i] in counts
    ensures |es| == |order|
    ensures forall i :: 0 <= i < |order| ==> es[i] == Entry(order[i], counts[order[i]])
  {
    seq(|order|, i requires 0 <= i < |order| => Entry(order[i], counts[order[i]]))
  }

  /** Puts `e` in front of the first entry whose count does not exceed its own. */
  function Insert(e: Entry, s: seq<Entry>): seq<Entry>
  {
    if s == [] || s[0].count <= e.count then [e] + s else [s[0]] + Insert(e, s[1..])
  }

  /**
   * `sort((a, b) => b[1] - a[1])`: a stable sort by descending count. Each
   * entry is inserted ahead of the later entries it ties with, so entries of
   * equal count keep their relative order.
   */
  function SortByCountDesc(es: seq<Entry>): seq<Entry>
  {
    if es == [] then [] else Insert(es[0], SortByCountDesc(es[1..]))
  }

  ghost predicate SortedByCountDesc(s: seq<Entry>)
  {
    forall i, j :: 0 <= i < j < |s| ==> s[i].count >= s[j].count
  }

  lemma {:induction false} InsertMultiset(e: Entry, s: seq<Entry>)
    ensures multiset(Insert(e, s)) == multiset{e} + multiset(s)
  {
    if s != [] && s[0].count > e.count {
      InsertMultiset(e, s[1..]);
      assert s == [s[0]] + s[1..];
    }
  }

  lemma {:induction false} InsertBound(e: Entry, s: seq<Entry>, m: nat)
    requires e.count <= m
    requires forall i :: 0 <= i < |s| ==> s[i].count <= m
    ensures forall i :: 0 <= i < |Insert(e, s)| ==> Insert(e, s)[i].count <= m
  {
    if s != [] && s[0].count > e.count {
      InsertBound(e, s[1..], m);
    }
  }

  lemma {:induction false} InsertSorted(e: Entry, s: seq<Entry>)
    requires SortedByCountDesc(s)
    ensures SortedByCountDesc(Insert(e, s))
  {
    if s != [] && s[0].count > e.count {
      InsertSorted(e, s[1..]);
      InsertBound(e, s[1..], s[0].count);
      var rest := Insert(e, s[1..]);
      var r := [s[0]] + rest;
      assert forall i :: 0 < i < |r| ==> r[i] == rest[i - 1];
    }
  }

  /** The sort yields the same entries, ordered by descending count. */
  lemma {:induction false} SortByCountDescCorrect(es: seq<Entry>)
    ensures SortedByCountDesc(SortByCountDesc(es))
    ensures multiset(SortByCountDesc(es)) == multiset(es)
  {
    if es != [] {
      SortByCountDescCorrect(es[1..]);
      InsertSorted(es[0], SortByCountDesc(es[1..]));
      InsertMultiset(es[0], SortByCountDesc(es[1..]));
      assert es == [es[0]] + es[1..];
    }
  }

  /** The entries whose count is `v`, in their order. */
  function WithCount(es: seq<Entry>, v: nat): seq<Entry>
  {
    if es == [] then []
    else if es[0].count == v then [es[0]] + WithCount(es[1..], v)
    else WithCount(es[1..], v)
  }

  /** Inserting `e` puts it ahead of every entry it ties with, and leaves their order alone. */
  lemma {:induction false} InsertWithCount(e: Entry, s: seq<Entry>, v: nat)
    ensures WithCount(Insert(e, s), v) == (if e.count == v then [e] else []) + WithCount(s, v)
  {
    if s == [] || s[0].count <= e.count {
      var xs := [e] + s;
      assert xs[0] == e && xs[1..] == s;
    } else {
      InsertWithCount(e, s[1..], v);
      var xs := [s[0]] + Insert(e, s[1..]);
      assert xs[0] == s[0] && xs[1..] == Insert(e, s[1..]);
    }
  }

  /** Stability: entries of equal count come out in the order they went in. */
  lemma {:induction false} SortByCountDescStable(es: seq<Entry>, v: nat)
    ensures WithCount(SortByCountDesc(es), v) == WithCount(es, v)
  {
    if es != [] {
      SortByCountDescStable(es[1..], v);
      InsertWithCount(es[0], SortByCountDesc(es[1..]), v);
    }
  }

  /** The position of the first entry with the largest count. */
  function LeaderIndex(es: seq<Entry>): (k: nat)
    requires es != []
    ensures k < |es|
    ensures forall j :: 0 <= j < |es| ==> es[j].count <= es[k].count
    ensures forall j :: 0 <= j < k ==> es[j].count < es[k].count
  {
    if |es| == 1 then 0
    else
      var k := LeaderIndex(es[1..]);
      if es[k + 1].count > es[0].count then k + 1 else 0
  }

  /** The head of the stable sort is the first entry with the largest count. */
  lemma {:induction false} SortHeadIsLeader(es: seq<Entry>)
    requires es != []
    ensures SortByCountDesc(es) != []
    ensures SortByCountDesc(es)[0] == es[LeaderIndex(es)]
  {
    if |es| == 1 {
      assert es[1..] == [];
    } else {
      SortHeadIsLeader(es[1..]);
    }
  }

  /** `Object.entries(counts).sort(...)[0]?.[0] || "N/A"` */
  function PickCity(order: seq<string>, counts: map<string, nat>): (r: string)
    requires forall i :: 0 <= i < |order| ==> order[i] in counts
    ensures r != ""
    ensures order == [] ==> r == "N/A"
  {
    var sorted := SortByCountDesc(EntriesOf(order, counts));
    if sorted == [] || sorted[0].key == "" then "N/A" else sorted[0].key
  }

  /** `mostCommonCity` of the filtered list `fs`. */
  function MostCommonCity(fs: seq<Brewery>): (r: string)
    ensures r != ""
    ensures fs == [] ==> r == "N/A"
  {
    PickCity(Cities(fs), CityCounts(fs))
  }

  /**
   * The entry at `k` is the first entry of `fs` whose city is a most
   * frequent one: no city has more entries, and every earlier entry belongs
   * to a city with strictly fewer.
   */
  ghost predicate IsFirstModeAt(fs: seq<Brewery>, k: int)
  {
    && 0 <= k < |fs|
    && (forall i :: 0 <= i < |fs| ==> CityCount(fs, fs[i].city) <= CityCount(fs, fs[k].city))
    && (forall i :: 0 <= i < k ==> CityCount(fs, fs[i].city) < CityCount(fs, fs[k].city))
  }

  /** At most one position is the first entry of a most frequent city. */
  lemma FirstModeUnique(fs: seq<Brewery>, k1: int, k2: int)
    requires IsFirstModeAt(fs, k1) && IsFirstModeAt(fs, k2)
    ensures k1 == k2
  {
    var c1, c2 := CityCount(fs, fs[k1].city), CityCount(fs, fs[k2].city);
    assert c1 <= c2 && c2 <= c1;
    assert k1 < k2 ==> c1 < c2;
    assert k2 < k1 ==> c2 < c1;
  }

  /** The position of the first entry located in `city`. */
  ghost function FirstIndex(fs: seq<Brewery>, city: string): (k: nat)
    requires exists i :: 0 <= i < |fs| && fs[i].city == city
    ensures k < |fs| && fs[k].city == city
    ensures forall j :: 0 <= j < k ==> fs[j].city != city
  {
    if fs[0].city == city then 0
    else
      var i :| 0 <= i < |fs| && fs[i].city == city;
      assert fs[1..][i - 1].city == city;
      1 + FirstIndex(fs[1..], city)
  }

  /** A city first seen at or after entry `i + 1` comes after `fs[i].city` among the keys. */
  lemma CitiesOrder(fs: seq<Brewery>, i: nat, city: string)
    requires i < |fs|
    requires forall j :: 0 <= j <= i ==> fs[j].city != city
    ensures forall p, q ::
              (0 <= p < |Cities(fs)| && 0 <= q < |Cities(fs)| &&
               Cities(fs)[p] == fs[i].city && Cities(fs)[q] == city) ==> p < q
  {
    var all, pre := Cities(fs), Cities(fs[..i + 1]);
    CitiesPrefix(fs, i + 1);
    CitiesMembership(fs[..i + 1]);
    CitiesDistinct(fs);
    assert fs[..i + 1][i] == fs[i];
    assert fs[i].city in pre;
    assert city !in pre;
    forall p, q | 0 <= p < |all| && 0 <= q < |all| && all[p] == fs[i].city && all[q] == city
      ensures p < q
    {
      var p' :| 0 <= p' < |pre| && pre[p'] == fs[i].city;
      assert all[p'] == pre[p'];
      assert forall j :: 0 <= j < |pre| ==> all[j] == pre[j];
    }
  }

  /** The first entry of the leading key is the first entry of a most frequent city. */
  lemma LeaderIsFirstMode(fs: seq<Brewery>, es: seq<Entry>, lead: nat)
    requires |es| == |Cities(fs)|
    requires forall j :: 0 <= j < |es| ==> es[j].count == CityCount(fs, Cities(fs)[j])
    requires lead < |es|
    requires forall j :: 0 <= j < |es| ==> es[j].count <= es[lead].count
    requires forall j :: 0 <= j < lead ==> es[j].count < es[lead].count
    ensures exists k :: IsFirstModeAt(fs, k) && fs[k].city == Cities(fs)[lead]
  {
    var order := Cities(fs);
    var winner := order[lead];
    CitiesMembership(fs);
    assert winner in order;
    var k := FirstIndex(fs, winner);
    forall i | 0 <= i < |fs| ensures CityCount(fs, fs[i].city) <= CityCount(fs, winner) {
      assert fs[i].city in order;
      var p :| 0 <= p < |order| && order[p] == fs[i].city;
      assert es[p].count <= es[lead].count;
    }
    forall i | 0 <= i < k ensures CityCount(fs, fs[i].city) < CityCount(fs, winner) {
      CitiesOrder(fs, i, winner);
      assert fs[i].city in order;
      var p :| 0 <= p < |order| && order[p] == fs[i].city;
      assert p < lead;
      assert es[p].count < es[lead].count;
    }
    assert IsFirstModeAt(fs, k);
  }

  /**
   * On a non-empty list `mostCommonCity` is the city of the first entry whose
   * city is most frequent (or "N/A" when that city is the empty string), and
   * such an entry always exists.
   */
  lemma MostCommonCityIsFirstMode(fs: seq<Brewery>)
    requires fs != []
    ensures exists k :: IsFirstModeAt(fs, k)
    ensures forall k :: IsFirstModeAt(fs, k) ==>
              MostCommonCity(fs) == if fs[k].city == "" then "N/A" else fs[k].city
  {
    var order, counts := Cities(fs), CityCounts(fs);
    CitiesMembership(fs);
    assert fs[0].city in order;
    var es := EntriesOf(order, counts);
    SortHeadIsLeader(es);
    var lead := LeaderIndex(es);
    var winner := order[lead];
    assert MostCommonCity(fs) == if winner == "" then "N/A" else winner;
    LeaderIsFirstMode(fs, es, lead);
    var k :| IsFirstModeAt(fs, k) && fs[k].city == winner;
    forall k' | IsFirstModeAt(fs, k')
      ensures MostCommonCity(fs) == if fs[k'].city == "" then "N/A" else fs[k'].city
    {
      FirstModeUnique(fs, k, k');
    }
  }
}
