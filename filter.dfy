/**
 * The dashboard's filter effect: from the loaded list of breweries keep the
 * ones whose name contains the search text (ignoring case) and whose type is
 * the selected one, in their original order.
 */
module FilterEngine {
  import opened Text

  /** One record of the catalog. */
  datatype Brewery = Brewery(id: string, name: string, brewery_type: string, city: string, state: string)

  /** The type selector's "no constraint" value. */
  const AllTypes: string := "All"

  /** The search test, vacuous for an empty query. */
  predicate MatchesSearch(b: Brewery, q: string)
  {
    q == "" || Includes(Lower(b.name), Lower(q))
  }

  /** The type test, vacuous for "All". */
  predicate MatchesType(b: Brewery, t: string)
  {
    t == AllTypes || b.brewery_type == t
  }

  /** Both tests at once. */
  predicate Matches(b: Brewery, q: string, t: string)
  {
    MatchesSearch(b, q) && MatchesType(b, t)
  }

  /** `bs.filter(b => b.name.toLowerCase().includes(q.toLowerCase()))` */
  function ByName(bs: seq<Brewery>, q: string): seq<Brewery>
  {
    if bs == [] then []
    else if Includes(Lower(bs[0].name), Lower(q)) then [bs[0]] + ByName(bs[1..], q)
    else ByName(bs[1..], q)
  }

  /** `bs.filter(b => b.brewery_type === t)` */
  function ByType(bs: seq<Brewery>, t: string): seq<Brewery>
  {
    if bs == [] then []
    else if bs[0].brewery_type == t then [bs[0]] + ByType(bs[1..], t)
    else ByType(bs[1..], t)
  }

  /**
   * The filter effect as written: start from the whole list, narrow by name
   * when the query is non-empty, then by type when the type is not "All".
   */
  function Filter(bs: seq<Brewery>, q: string, t: string): seq<Brewery>
  {
    var byName := if q != "" then ByName(bs, q) else bs;
    if t != AllTypes then ByType(byName, t) else byName
  }

  /** Reference definition: one pass that keeps the entries passing both tests. */
  function Select(bs: seq<Brewery>, q: string, t: string): seq<Brewery>
  {
    if bs == [] then []
    else if Matches(bs[0], q, t) then [bs[0]] + Select(bs[1..], q, t)
    else Select(bs[1..], q, t)
  }

  /** `xs` is obtained from `ys` by deleting elements (relative order kept). */
  ghost predicate IsSubsequence(xs: seq<Brewery>, ys: seq<Brewery>)
    decreases |ys|
  {
    xs == [] ||
    (ys != [] &&
     ((xs[0] == ys[0] && IsSubsequence(xs[1..], ys[1..])) || IsSubsequence(xs, ys[1..])))
  }

  lemma {:induction false} SubsequenceBounds(xs: seq<Brewery>, ys: seq<Brewery>)
    requires IsSubsequence(xs, ys)
    ensures |xs| <= |ys|
    ensures forall x :: x in xs ==> x in ys
    decreases |ys|
  {
    if xs != [] {
      if xs[0] == ys[0] && IsSubsequence(xs[1..], ys[1..]) {
        SubsequenceBounds(xs[1..], ys[1..]);
        forall x | x in xs ensures x in ys {
          if x != xs[0] {
            assert x in xs[1..];
          }
        }
      } else {
        SubsequenceBounds(xs, ys[1..]);
      }
    }
  }

  lemma {:induction false} ByNameIsSelect(bs: seq<Brewery>, q: string)
    requires q != ""
    ensures ByName(bs, q) == Select(bs, q, AllTypes)
  {
    if bs != [] {
      ByNameIsSelect(bs[1..], q);
    }
  }

  lemma {:induction false} ByTypeAfterSelect(bs: seq<Brewery>, q: string, t: string)
    requires t != AllTypes
    ensures ByType(Select(bs, q, AllTypes), t) == Select(bs, q, t)
  {
    if bs != [] {
      ByTypeAfterSelect(bs[1..], q, t);
      var rest := Select(bs[1..], q, AllTypes);
      if MatchesSearch(bs[0], q) {
        var xs := [bs[0]] + rest;
        assert Select(bs, q, AllTypes) == xs;
        assert xs[0] == bs[0] && xs[1..] == rest;
      }
    }
  }

  lemma {:induction false} SelectUnconstrained(bs: seq<Brewery>)
    ensures Select(bs, "", AllTypes) == bs
  {
    if bs != [] {
      SelectUnconstrained(bs[1..]);
    }
  }

  /** The two passes of the effect compute the single conjunctive pass. */
  lemma {:induction false} FilterIsOnePass(bs: seq<Brewery>, q: string, t: string)
    ensures Filter(bs, q, t) == Select(bs, q, t)
  {
    if q != "" {
      ByNameIsSelect(bs, q);
    } else {
      SelectUnconstrained(bs);
    }
    if t != AllTypes {
      ByTypeAfterSelect(bs, q, t);
    }
  }

  lemma {:induction false} SelectIsSubsequence(bs: seq<Brewery>, q: string, t: string)
    ensures IsSubsequence(Select(bs, q, t), bs)
  {
    if bs != [] {
      var rest := Select(bs[1..], q, t);
      SelectIsSubsequence(bs[1..], q, t);
      if Matches(bs[0], q, t) {
        var xs := [bs[0]] + rest;
        assert xs[0] == bs[0] && xs[1..] == rest;
      }
    }
  }

  lemma {:induction false} SelectMultiplicity(bs: seq<Brewery>, q: string, t: string, x: Brewery)
    ensures multiset(Select(bs, q, t))[x] == if Matches(x, q, t) then multiset(bs)[x] else 0
  {
    if bs != [] {
      SelectMultiplicity(bs[1..], q, t, x);
      assert bs == [bs[0]] + bs[1..];
    }
  }

  lemma {:induction false} SelectIdempotent(bs: seq<Brewery>, q: string, t: string)
    ensures Select(Select(bs, q, t), q, t) == Select(bs, q, t)
  {
    if bs != [] {
      var rest := Select(bs[1..], q, t);
      SelectIdempotent(bs[1..], q, t);
      if Matches(bs[0], q, t) {
        var xs := [bs[0]] + rest;
        assert xs[0] == bs[0] && xs[1..] == rest;
      }
    }
  }

  /** Narrower criteria keep a subsequence of what wider criteria keep. */
  lemma {:induction false} SelectNarrower(bs: seq<Brewery>, q: string, t: string, q': string, t': string)
    requires forall b :: b in bs && Matches(b, q, t) ==> Matches(b, q', t')
    ensures IsSubsequence(Select(bs, q, t), Select(bs, q', t'))
  {
    if bs != [] {
      assert forall b :: b in bs[1..] ==> b in bs;
      SelectNarrower(bs[1..], q, t, q', t');
      var sc, sd := Select(bs[1..], q, t), Select(bs[1..], q', t');
      if Matches(bs[0], q, t) {
        var xs, ys := [bs[0]] + sc, [bs[0]] + sd;
        assert xs[0] == ys[0] && xs[1..] == sc && ys[1..] == sd;
      } else if Matches(bs[0], q', t') {
        var ys := [bs[0]] + sd;
        assert ys != [] && ys[1..] == sd;
      }
    }
  }

  /** Every kept entry comes from the list, in the list's order. */
  lemma FilterIsSubsequence(bs: seq<Brewery>, q: string, t: string)
    ensures IsSubsequence(Filter(bs, q, t), bs)
    ensures |Filter(bs, q, t)| <= |bs|
  {
    FilterIsOnePass(bs, q, t);
    SelectIsSubsequence(bs, q, t);
    SubsequenceBounds(Filter(bs, q, t), bs);
  }

  /** An entry is kept exactly when it is in the list and passes both tests; duplicates keep their multiplicity. */
  lemma FilterMembership(bs: seq<Brewery>, q: string, t: string, x: Brewery)
    ensures x in Filter(bs, q, t) <==> x in bs && MatchesSearch(x, q) && MatchesType(x, t)
    ensures multiset(Filter(bs, q, t))[x] == if MatchesSearch(x, q) && MatchesType(x, t) then multiset(bs)[x] else 0
  {
    FilterIsOnePass(bs, q, t);
    SelectMultiplicity(bs, q, t, x);
  }

  /** With no query and type "All" the list passes through unchanged. */
  lemma FilterIdentity(bs: seq<Brewery>)
    ensures Filter(bs, "", AllTypes) == bs
  {
  }

  /** Filtering an already filtered list with the same criteria changes nothing. */
  lemma FilterIdempotent(bs: seq<Brewery>, q: string, t: string)
    ensures Filter(Filter(bs, q, t), q, t) == Filter(bs, q, t)
  {
    FilterIsOnePass(bs, q, t);
    FilterIsOnePass(Filter(bs, q, t), q, t);
    SelectIdempotent(bs, q, t);
  }

  /** Selecting a specific type instead of "All" keeps a subsequence, so never more entries. */
  lemma FilterNarrowsByType(bs: seq<Brewery>, q: string, t: string)
    ensures IsSubsequence(Filter(bs, q, t), Filter(bs, q, AllTypes))
    ensures |Filter(bs, q, t)| <= |Filter(bs, q, AllTypes)|
  {
    FilterIsOnePass(bs, q, t);
    FilterIsOnePass(bs, q, AllTypes);
    SelectNarrower(bs, q, t, q, AllTypes);
    SubsequenceBounds(Filter(bs, q, t), Filter(bs, q, AllTypes));
  }

  /** A non-empty query keeps a subsequence of what the empty query keeps. */
  lemma FilterNarrowsByQuery(bs: seq<Brewery>, q: string, t: string)
    ensures IsSubsequence(Filter(bs, q, t), Filter(bs, "", t))
    ensures |Filter(bs, q, t)| <= |Filter(bs, "", t)|
  {
    FilterIsOnePass(bs, q, t);
    FilterIsOnePass(bs, "", t);
    SelectNarrower(bs, q, t, "", t);
    SubsequenceBounds(Filter(bs, q, t), Filter(bs, "", t));
  }

  /** The search ignores the case of the query. */
  lemma SearchIgnoresQueryCase(bs: seq<Brewery>, q: string, t: string)
    ensures Filter(bs, Lower(q), t) == Filter(bs, q, t)
  {
    FilterIsOnePass(bs, q, t);
    FilterIsOnePass(bs, Lower(q), t);
    LowerIdempotent(q);
    assert forall b :: Matches(b, Lower(q), t) == Matches(b, q, t);
    SelectSameTests(bs, Lower(q), t, q, t);
  }

  lemma {:induction false} SelectSameTests(bs: seq<Brewery>, q: string, t: string, q': string, t': string)
    requires forall b :: Matches(b, q, t) == Matches(b, q', t')
    ensures Select(bs, q, t) == Select(bs, q', t')
  {
    if bs != [] {
      SelectSameTests(bs[1..], q, t, q', t');
    }
  }
}
