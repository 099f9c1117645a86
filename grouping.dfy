/** `groupCatBreedsByCountry`: one pass over the fetched records that
    files each record, with its country cleared, under its country. */
module Grouping {
  import opened Breeds

  /** `CatBreedsByCountry`: country name (possibly "") to its records. */
  type ByCountry = map<string, seq<CatBreed>>

  /** A record with its country cleared, as it is stored in its group. */
  function Cleared(b: CatBreed): (r: CatBreed)
    ensures r.country == ""
    ensures r.breed == b.breed && r.origin == b.origin && r.coat == b.coat && r.pattern == b.pattern
  {
    b.(country := "")
  }

  /** Every record of `g` with its country cleared, in order. */
  function ClearAll(g: seq<CatBreed>): (r: seq<CatBreed>)
    ensures |r| == |g|
    ensures forall j :: 0 <= j < |r| ==> r[j] == Cleared(g[j])
  {
    seq(|g|, j requires 0 <= j < |g| => Cleared(g[j]))
  }

  /** Every record of `g` with its country set back to `c`. */
  function Restore(g: seq<CatBreed>, c: string): (r: seq<CatBreed>)
    ensures |r| == |g|
    ensures forall j :: 0 <= j < |r| ==> r[j] == g[j].(country := c)
  {
    seq(|g|, j requires 0 <= j < |g| => g[j].(country := c))
  }

  /** The subsequence of `s` whose country is `c`, in input order. */
  function WithCountry(s: seq<CatBreed>, c: string): (r: seq<CatBreed>)
    ensures |r| <= |s|
    ensures forall j :: 0 <= j < |r| ==> r[j].country == c
  {
    if s == [] then []
    else (if s[0].country == c then [s[0]] else []) + WithCountry(s[1..], c)
  }

  /** The countries that occur in `s`, the empty one included. */
  function Countries(s: seq<CatBreed>): set<string> {
    set i | 0 <= i < |s| :: s[i].country
  }

  /** The group that country `c` should receive: its records, in input
      order, with the country cleared. */
  function GroupOf(s: seq<CatBreed>, c: string): seq<CatBreed> {
    ClearAll(WithCountry(s, c))
  }

  /** Selecting by country distributes over concatenation, so input order
      is kept inside each group. */
  lemma {:induction false} WithCountryAppend(a: seq<CatBreed>, b: seq<CatBreed>, c: string)
    ensures WithCountry(a + b, c) == WithCountry(a, c) + WithCountry(b, c)
    decreases |a|
  {
    if a == [] {
      assert a + b == b;
    } else {
      assert (a + b)[1..] == a[1..] + b;
      WithCountryAppend(a[1..], b, c);
    }
  }

  /** A country has records exactly when it occurs in the input. */
  lemma {:induction false} WithCountryEmpty(s: seq<CatBreed>, c: string)
    ensures WithCountry(s, c) == [] <==> c !in Countries(s)
    decreases |s|
  {
    if s != [] {
      WithCountryEmpty(s[1..], c);
      CountriesCons(s);
    }
  }

  /** The first record's country and the tail's countries make up `Countries(s)`. */
  lemma CountriesCons(s: seq<CatBreed>)
    requires s != []
    ensures Countries(s) == {s[0].country} + Countries(s[1..])
  {
  }

  /** Putting the key back on a group gives back exactly the input records
      of that country: clearing loses nothing but the country. */
  lemma RestoreGroup(s: seq<CatBreed>, c: string)
    ensures Restore(GroupOf(s, c), c) == WithCountry(s, c)
  {
  }

  /** A key to recurse on. */
  ghost function PickKey(keys: set<string>): (k: string)
    requires keys != {}
    ensures k in keys
  {
    var k :| k in keys; k
  }

  /** Sum of the lengths of the groups of `m` under `keys`. */
  ghost function SizeOver(m: ByCountry, keys: set<string>): nat
    requires keys <= m.Keys
    decreases keys
  {
    if keys == {} then 0
    else var k := PickKey(keys); |m[k]| + SizeOver(m, keys - {k})
  }

  /** Sum of the lengths of all groups of `m`. */
  ghost function TotalSize(m: ByCountry): nat {
    SizeOver(m, m.Keys)
  }

  /** How many records of `s` have their country in `keys`. */
  function CountIn(s: seq<CatBreed>, keys: set<string>): (n: nat)
    ensures n <= |s|
  {
    if s == [] then 0
    else (if s[0].country in keys then 1 else 0) + CountIn(s[1..], keys)
  }

  /** Counting over `keys` splits into one key and the rest. */
  lemma {:induction false} CountInSplit(s: seq<CatBreed>, keys: set<string>, k: string)
    requires k in keys
    ensures CountIn(s, keys) == |WithCountry(s, k)| + CountIn(s, keys - {k})
    decreases |s|
  {
    if s != [] {
      CountInSplit(s[1..], keys, k);
    }
  }

  /** Nothing is counted over no keys. */
  lemma {:induction false} CountInNone(s: seq<CatBreed>)
    ensures CountIn(s, {}) == 0
    decreases |s|
  {
    if s != [] {
      CountInNone(s[1..]);
    }
  }

  /** Counting over a set that holds every country of `s` counts all of `s`. */
  lemma {:induction false} CountInAll(s: seq<CatBreed>, keys: set<string>)
    requires Countries(s) <= keys
    ensures CountIn(s, keys) == |s|
    decreases |s|
  {
    if s != [] {
      CountriesCons(s);
      CountInAll(s[1..], keys);
    }
  }

  /** If each group under `keys` is as long as its country's records, the
      groups under `keys` hold as many records as `s` has of those countries. */
  lemma {:induction false} SizeOverCount(m: ByCountry, s: seq<CatBreed>, keys: set<string>)
    requires keys <= m.Keys
    requires forall c :: c in keys ==> |m[c]| == |WithCountry(s, c)|
    ensures SizeOver(m, keys) == CountIn(s, keys)
    decreases keys
  {
    if keys == {} {
      CountInNone(s);
    } else {
      var k := PickKey(keys);
      SizeOverCount(m, s, keys - {k});
      CountInSplit(s, keys, k);
    }
  }

  /** Appending a record adds its country. */
  lemma CountriesAppend(s: seq<CatBreed>, b: CatBreed)
    ensures Countries(s + [b]) == Countries(s) + {b.country}
  {
    var t := s + [b];
    forall x | x in Countries(t) ensures x in Countries(s) + {b.country} {
      var j :| 0 <= j < |t| && t[j].country == x;
      if j < |s| { assert s[j] == t[j]; }
    }
    forall x | x in Countries(s) ensures x in Countries(t) {
      var j :| 0 <= j < |s| && s[j].country == x;
      assert t[j] == s[j];
    }
    assert t[|s|] == b;
  }

  /** The map `m` groups `s`: its keys are the countries of `s`, and each
      key holds that country's records in input order, country cleared. */
  ghost predicate Groups(m: ByCountry, s: seq<CatBreed>) {
    && m.Keys == Countries(s)
    && forall c :: c in m ==> m[c] == GroupOf(s, c)
  }

  /** A record of another country leaves a group as it was. */
  lemma GroupOfOther(s: seq<CatBreed>, b: CatBreed, c: string)
    requires b.country != c
    ensures GroupOf(s + [b], c) == GroupOf(s, c)
  {
    WithCountryAppend(s, [b], c);
    assert WithCountry([b], c) == [];
    assert WithCountry(s, c) + [] == WithCountry(s, c);
  }

  /** A record of country `c` goes at the end of the group of `c`. */
  lemma GroupOfSame(s: seq<CatBreed>, b: CatBreed)
    ensures GroupOf(s + [b], b.country) == GroupOf(s, b.country) + [Cleared(b)]
  {
    var c := b.country;
    WithCountryAppend(s, [b], c);
    assert WithCountry([b], c) == [b];
    var w := WithCountry(s, c);
    assert ClearAll(w + [b]) == ClearAll(w) + [Cleared(b)];
  }

  /** One iteration of the grouping loop: filing `b` under its country
      turns a grouping of `s` into a grouping of `s + [b]`. */
  lemma GroupStep(m: ByCountry, s: seq<CatBreed>, b: CatBreed)
    requires Groups(m, s)
    ensures Groups(m[b.country := (if b.country in m then m[b.country] else []) + [Cleared(b)]], s + [b])
  {
    var k := b.country;
    var m' := m[k := (if k in m then m[k] else []) + [Cleared(b)]];
    CountriesAppend(s, b);
    GroupOfSame(s, b);
    if k !in m {
      WithCountryEmpty(s, k);
      assert GroupOf(s, k) == [];
    }
    forall c | c in m' && c != k ensures m'[c] == GroupOf(s + [b], c) {
      GroupOfOther(s, b, c);
    }
  }

  /** The grouping loop's step in its own terms: after records `..i` are
      filed, filing record `i` (country cleared) under its country. */
  lemma FileRecord(m: ByCountry, breeds: seq<CatBreed>, i: nat, country: string, breed: CatBreed)
    requires i < |breeds| && Groups(m, breeds[..i])
    requires country == breeds[i].country && breed == breeds[i].(country := "")
    ensures Groups(m[country := (if country in m then m[country] else []) + [breed]], breeds[..i + 1])
  {
    GroupStep(m, breeds[..i], breeds[i]);
    assert breeds[..i + 1] == breeds[..i] + [breeds[i]];
  }

  /** Any grouping of `s` holds exactly `|s|` records in all: nothing is
      lost and nothing duplicated. */
  lemma GroupsTotalSize(m: ByCountry, s: seq<CatBreed>)
    requires Groups(m, s)
    ensures TotalSize(m) == |s|
  {
    forall c | c in m.Keys ensures |m[c]| == |WithCountry(s, c)| {
      assert m[c] == ClearAll(WithCountry(s, c));
    }
    SizeOverCount(m, s, m.Keys);
    CountInAll(s, m.Keys);
  }

  /** No group of a grouping is empty. */
  lemma GroupsNonEmpty(m: ByCountry, s: seq<CatBreed>)
    requires Groups(m, s)
    ensures forall c :: c in m ==> m[c] != []
  {
    forall c | c in m ensures m[c] != [] {
      WithCountryEmpty(s, c);
    }
  }

  /** `groupCatBreedsByCountry`. The keys are the countries of the input;
      each group is that country's records in input order with the country
      cleared, and is never empty; the groups together hold exactly as many
      records as the input. */
  method GroupByCountry(breeds: seq<CatBreed>) returns (m: ByCountry)
    ensures Groups(m, breeds)
    ensures forall c :: c in m ==> m[c] != []
    ensures TotalSize(m) == |breeds|
  {
    m := map[];
    var i := 0;
    while i < |breeds|
      invariant i <= |breeds|
      invariant Groups(m, breeds[..i])
    {
      var breed := breeds[i];
      var country := breed.country;
      breed := breed.(country := "");
      FileRecord(m, breeds, i, country, breed);
      m := m[country := (if country in m then m[country] else []) + [breed]];
      i := i + 1;
    }
    assert breeds[..i] == breeds;
    GroupsNonEmpty(m, breeds);
    GroupsTotalSize(m, breeds);
  }

  /** The example grouping: two US records and one UK record. */
  lemma ExampleGrouping()
    ensures var s := [CatBreed("A", "", "", "", "US"), CatBreed("B", "", "", "", "US"),
                      CatBreed("C", "", "", "", "UK")];
            && Countries(s) == {"US", "UK"}
            && GroupOf(s, "US") == [CatBreed("A", "", "", "", ""), CatBreed("B", "", "", "", "")]
            && GroupOf(s, "UK") == [CatBreed("C", "", "", "", "")]
  {
  }
}
