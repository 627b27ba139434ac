/**
 The cache of highscore queries: two lookups share one map from keys to query texts, and each has to answer
 what its generator would. What the generator writes does not matter, as long as it depends on the request only.
 */
module Highscores {
  datatype CacheEntry = CacheEntry(query: string, page: nat, entriesPerPage: nat)

  /** What is asked for: a page of the list, or the page with a player's own rank. */
  datatype Request =
    | Entries(category: string, page: nat, entriesPerPage: nat, vocation: nat)
    | OurRank(category: string, entriesPerPage: nat, playerGuid: nat, vocation: nat)

  // ---------------------------------------------------------------- numbers as text

  function Decimal(n: nat): string {
    if n < 10 then [('0' as int + n) as char] else Decimal(n / 10) + [('0' as int + n % 10) as char]
  }

  predicate AreDigits(s: string) {
    forall i | 0 <= i < |s| :: '0' <= s[i] <= '9'
  }

  ghost function Value(s: string): nat
    requires AreDigits(s)
  {
    if s == "" then 0 else 10 * Value(s[..|s| - 1]) + (s[|s| - 1] as int - '0' as int)
  }

  lemma {:induction false} DecimalValue(n: nat)
    ensures Decimal(n) != "" && AreDigits(Decimal(n)) && Value(Decimal(n)) == n
  {
    if n >= 10 {
      DecimalValue(n / 10);
      assert Decimal(n)[..|Decimal(n)| - 1] == Decimal(n / 10);
    } else {
      assert Decimal(n)[..0] == "";
    }
  }

  /** Only one number has a text. */
  lemma DecimalInjective(n: nat, m: nat)
    ensures Decimal(n) == Decimal(m) <==> n == m
  {
    DecimalValue(n);
    DecimalValue(m);
  }

  /** A text with a number after its last underscore can be taken apart in one way, whatever stands before it. */
  lemma LastField(a: string, n: nat, b: string, m: nat)
    ensures a + "_" + Decimal(n) == b + "_" + Decimal(m) <==> a == b && n == m
  {
    DecimalValue(n);
    DecimalValue(m);
    var s, t := a + "_" + Decimal(n), b + "_" + Decimal(m);
    assert s[|a|] == '_' && t[|b|] == '_';
    forall j | |a| < j < |s| ensures s[j] != '_' {
      assert s[j] == Decimal(n)[j - |a| - 1];
    }
    forall j | |b| < j < |t| ensures t[j] != '_' {
      assert t[j] == Decimal(m)[j - |b| - 1];
    }
    if s == t {
      assert |a| == |b|;
      assert a == s[..|a|] == b;
      assert Decimal(n) == s[|a| + 1..] == Decimal(m);
      DecimalInjective(n, m);
    }
  }

  // ---------------------------------------------------------------- keys

  function Fields(name: string, a: nat, b: nat, c: nat): string {
    name + "_" + Decimal(a) + "_" + Decimal(b) + "_" + Decimal(c)
  }

  function Key(r: Request): string {
    match r
    case Entries(category, page, entriesPerPage, vocation) =>
      "Entries_" + Fields(category, page, entriesPerPage, vocation)
    case OurRank(category, entriesPerPage, playerGuid, vocation) =>
      "OurRank_" + Fields(category, entriesPerPage, playerGuid, vocation)
  }

  lemma FieldsInjective(name: string, a: nat, b: nat, c: nat, name': string, a': nat, b': nat, c': nat)
    ensures Fields(name, a, b, c) == Fields(name', a', b', c') <==> name == name' && a == a' && b == b' && c == c'
  {
    LastField(name + "_" + Decimal(a) + "_" + Decimal(b), c, name' + "_" + Decimal(a') + "_" + Decimal(b'), c');
    LastField(name + "_" + Decimal(a), b, name' + "_" + Decimal(a'), b');
    LastField(name, a, name', a');
  }

  /** Different requests, of either kind and for any category name, have different keys. */
  lemma KeyInjective(r: Request, q: Request)
    ensures Key(r) == Key(q) <==> r == q
  {
    assert Key(r)[0] == if r.Entries? then 'E' else 'O';
    assert Key(q)[0] == if q.Entries? then 'E' else 'O';
    if r.Entries? && q.Entries? {
      FieldsInjective(r.category, r.page, r.entriesPerPage, r.vocation, q.category, q.page, q.entriesPerPage,
        q.vocation);
      assert Key(r)[8..] == Fields(r.category, r.page, r.entriesPerPage, r.vocation);
      assert Key(q)[8..] == Fields(q.category, q.page, q.entriesPerPage, q.vocation);
    } else if r.OurRank? && q.OurRank? {
      FieldsInjective(r.category, r.entriesPerPage, r.playerGuid, r.vocation, q.category, q.entriesPerPage,
        q.playerGuid, q.vocation);
      assert Key(r)[8..] == Fields(r.category, r.entriesPerPage, r.playerGuid, r.vocation);
      assert Key(q)[8..] == Fields(q.category, q.entriesPerPage, q.playerGuid, q.vocation);
    }
  }

  // ---------------------------------------------------------------- the cache

  class QueryCache {
    /**
     The text of the query for a request: `generateHighscoreQueryForEntries` and `generateHighscoreQueryForOurRank`.
     */
    const generate: Request -> string
    var queryCache: map<string, CacheEntry>

    /** Every entry is what the generator says for the one request that has its key. */
    ghost predicate Valid()
      reads this
    {
      forall r {:trigger Key(r)} :: Key(r) in queryCache ==> queryCache[Key(r)] == Entry(r)
    }

    function Entry(r: Request): CacheEntry {
      CacheEntry(generate(r), if r.Entries? then r.page else r.entriesPerPage, r.entriesPerPage)
    }

    constructor (generate: Request -> string)
      ensures this.generate == generate && queryCache == map[] && Valid()
    {
      this.generate, queryCache := generate, map[];
    }

    /** `cacheQueryHighscore`. */
    method CacheQuery(r: Request, key: string, query: string, page: nat, entriesPerPage: nat)
      requires Valid() && key == Key(r) && CacheEntry(query, page, entriesPerPage) == Entry(r)
      modifies this
      ensures Valid() && queryCache == old(queryCache)[key := CacheEntry(query, page, entriesPerPage)]
    {
      queryCache := queryCache[key := CacheEntry(query, page, entriesPerPage)];
      forall q: Request | Key(q) in queryCache ensures queryCache[Key(q)] == Entry(q) {
        KeyInjective(q, r);
        assert Key(q) != key ==> Key(q) in old(queryCache);
      }
    }

    /** `generateHighscoreOrGetCachedQueryForEntries`: after any requests, what the generator says. */
    method ForEntries(category: string, page: nat, entriesPerPage: nat, vocation: nat) returns (query: string)
      requires Valid()
      modifies this
      ensures Valid() && query == generate(Entries(category, page, entriesPerPage, vocation))
      ensures var request := Entries(category, page, entriesPerPage, vocation);
              queryCache == old(queryCache)[Key(request) := Entry(request)]
    {
      var r := Entries(category, page, entriesPerPage, vocation);
      var key := Key(r);
      if key in queryCache && queryCache[key].page == page {
        return queryCache[key].query;
      }
      query := generate(r);
      CacheQuery(r, key, query, page, entriesPerPage);
    }

    /** `generateHighscoreOrGetCachedQueryForOurRank`. */
    method ForOurRank(category: string, entriesPerPage: nat, playerGuid: nat, vocation: nat) returns (query: string)
      requires Valid()
      modifies this
      ensures Valid() && query == generate(OurRank(category, entriesPerPage, playerGuid, vocation))
      ensures var request := OurRank(category, entriesPerPage, playerGuid, vocation);
              queryCache == old(queryCache)[Key(request) := Entry(request)]
    {
      var r := OurRank(category, entriesPerPage, playerGuid, vocation);
      var key := Key(r);
      if key in queryCache && queryCache[key].page == entriesPerPage {
        return queryCache[key].query;
      }
      query := generate(r);
      CacheQuery(r, key, query, entriesPerPage, entriesPerPage);
    }
  }
}
