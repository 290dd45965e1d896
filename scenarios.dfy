/** Worked examples of the filter and of the most-common-city rule, proved on fixed inputs. */
module Scenarios {
  import opened Text
  import opened FilterEngine
  import opened Aggregator

  /** Two breweries in Denver and two in Austin, a Denver one first. */
  function TiedCatalog(): seq<Brewery>
  {
    [ Brewery("1", "Hill Brew", "regional", "Denver", "Colorado"),
      Brewery("2", "Oak St", "micro", "Austin", "Texas"),
      Brewery("3", "Oak Barrel", "micro", "Austin", "Texas"),
      Brewery("4", "Peak Ales", "brewpub", "Denver", "Colorado") ]
  }

  /** The tie between Denver and Austin goes to Denver, the city seen first. */
  lemma TieGoesToFirstSeen()
    ensures MostCommonCity(TiedCatalog()) == "Denver"
  {
    var fs := TiedCatalog();
    var s3, s2, s1 := fs[..3], fs[..2], fs[..1];
    assert s3[..2] == s2 && s2[..1] == s1 && s1[..0] == [];
    assert CityCount(s1, "Denver") == 1 && CityCount(s1, "Austin") == 0;
    assert CityCount(s2, "Denver") == 1 && CityCount(s2, "Austin") == 1;
    assert CityCount(s3, "Denver") == 1 && CityCount(s3, "Austin") == 2;
    assert CityCount(fs, "Denver") == 2;
    assert CityCount(fs, "Austin") == 2;
    assert IsFirstModeAt(fs, 0);
    MostCommonCityIsFirstMode(fs);
  }

  /** Searching "oak" finds "Oak St" and "Oak Barrel" in spite of the capital letter, and not "Hill Brew". */
  lemma SearchIgnoresCase()
    ensures Filter(TiedCatalog(), "oak", AllTypes) == [TiedCatalog()[1], TiedCatalog()[2]]
  {
    var fs := TiedCatalog();
    assert Lower("oak") == "oak";
    assert Lower("Oak St") == "oak st";
    assert Lower("Oak Barrel") == "oak barrel";
    assert IsPrefix("oak", "oak st") && IsPrefix("oak", "oak barrel");
    NoOak("Hill Brew");
    NoOak("Peak Ales");
    assert fs[1..][1..][1..][1..] == [];
  }

  /** A name without the letters 'o' and 'O' never matches "oak". */
  lemma NoOak(name: string)
    requires forall i :: 0 <= i < |name| ==> name[i] != 'o' && name[i] != 'O'
    ensures !Includes(Lower(name), Lower("oak"))
  {
    var low := Lower(name);
    assert Lower("oak") == "oak";
    IncludesIff(low, "oak");
    forall k | OccursAt(low, "oak", k) ensures low[k] == 'o' {
      assert low[k..k + 3][0] == low[k];
    }
  }
}
