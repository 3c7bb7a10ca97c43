/**
 * CompanyController's orchestration: the ticker check and the order in which
 * the service, the autocomplete trie and the finance cache are touched.
 */
module Web {
  import opened Wrappers
  import opened Strings
  import opened Model
  import opened Entity
  import opened Persist
  import opened Scraper
  import opened Cache
  import opened Index
  import opened Service

  /** Every autocomplete key is the name of a stored company. */
  ghost predicate IndexSound(keys: set<string>, cs: seq<CompanyEntity>)
  {
    forall k :: k in keys ==> exists i :: 0 <= i < |cs| && cs[i].name == k
  }

  /** A new row keeps every key backed, and backs its own name. */
  lemma IndexSoundAppend(keys: set<string>, cs: seq<CompanyEntity>, e: CompanyEntity)
    requires IndexSound(keys, cs)
    ensures IndexSound(keys, cs + [e])
    ensures IndexSound(keys + {e.name}, cs + [e])
  {
    var cs' := cs + [e];
    forall k | k in keys ensures exists i :: 0 <= i < |cs'| && cs'[i].name == k {
      var i :| 0 <= i < |cs| && cs[i].name == k;
      assert cs'[i] == cs[i];
    }
    forall k | k in keys + {e.name} ensures exists i :: 0 <= i < |cs'| && cs'[i].name == k {
      if k == e.name {
        assert cs'[|cs|].name == k;
      } else {
        var i :| 0 <= i < |cs| && cs[i].name == k;
        assert cs'[i] == cs[i];
      }
    }
  }

  /** Removing a company together with its name keeps every remaining key backed. */
  lemma IndexSoundRemove(keys: set<string>, cs: seq<CompanyEntity>, nextId: nat, c: CompanyEntity)
    requires IndexSound(keys, cs) && CompaniesWellFormed(cs, nextId) && c in cs
    ensures IndexSound(keys - {c.name}, RemoveCompany(cs, c.id))
  {
    var rest := RemoveCompany(cs, c.id);
    forall k | k in keys - {c.name} ensures exists i :: 0 <= i < |rest| && rest[i].name == k {
      var i :| 0 <= i < |cs| && cs[i].name == k;
      var j :| 0 <= j < |cs| && cs[j] == c;
      assert cs[i].id != c.id by {
        assert i != j;
      }
      assert cs[i] in rest;
      var m :| 0 <= m < |rest| && rest[m] == cs[i];
    }
  }

  /** How addCompany ends: the tables, the autocomplete keys, and the company returned or the failure raised. */
  datatype Addition = Addition(tables: Tables, keys: set<string>, result: Result<Company, Failure>)

  /**
   * addCompany: the trimmed ticker must not be empty, and nothing is called
   * otherwise; then save; the returned company's name becomes an
   * autocomplete key only when save succeeds.
   */
  function AddCompanySpec(t: Tables, keys: set<string>, request: Company, upstream: Upstream): Addition
  {
    var ticker := Trim(request.ticker);
    if ticker == [] then Addition(t, keys, Err(EmptyTicker))
    else
      var c := CreateCompany(t, ticker, upstream);
      Addition(c.tables, if c.result.Ok? then keys + {c.result.value.name} else keys, c.result)
  }

  /**
   * What addCompany keeps: valid tables, and keys backed by stored
   * companies, the new key included. A blank ticker changes nothing, and a
   * key is added exactly when a company is returned, and it is that
   * company's name.
   */
  lemma AddCompanyKeeps(t: Tables, keys: set<string>, request: Company, upstream: Upstream)
    requires TablesValid(t) && IndexSound(keys, t.companies)
    ensures var a := AddCompanySpec(t, keys, request, upstream);
            TablesValid(a.tables) && IndexSound(a.keys, a.tables.companies)
    ensures var a := AddCompanySpec(t, keys, request, upstream);
            Trim(request.ticker) == [] ==> a == Addition(t, keys, Err(EmptyTicker))
    ensures var a := AddCompanySpec(t, keys, request, upstream);
            (a.result.Ok? ==> a.keys == keys + {a.result.value.name}) && (a.result.Err? ==> a.keys == keys)
  {
    var ticker := Trim(request.ticker);
    if ticker != [] {
      CreateCompanyValid(t, ticker, upstream);
      CreateCompanyWrites(t, ticker, upstream);
      if !HasTicker(t.companies, ticker) && ScrapedDividends(ticker, upstream).Some? {
        var company := ScrapCompanyByTicker(ticker, upstream).value;
        SaveScrapedSpec(t, company, ScrapedDividends(ticker, upstream).value);
        IndexSoundAppend(keys, t.companies, CompanyEntity(t.companyNextId, company.ticker, company.name));
      }
    }
  }

  /**
   * addCompany leaves the finance cache alone; it stays coherent as long as
   * the name of the company row it appended, if any, is not cached already.
   */
  lemma AddCompanyCoherence(t: Tables, keys: set<string>, entries: map<string, ScrapedResult>, request: Company, upstream: Upstream)
    requires TablesValid(t) && CacheCoherent(entries, t.companies, t.dividends.records)
    ensures var a := AddCompanySpec(t, keys, request, upstream);
            var cs := a.tables.companies;
            cs == t.companies || (|cs| > 0 && cs[|cs| - 1].name !in entries) ==>
              CacheCoherent(entries, cs, a.tables.dividends.records)
  {
    var ticker := Trim(request.ticker);
    if ticker != [] {
      CreateCompanyCoherence(entries, t, ticker, upstream);
    }
  }

  class CompanyController {
    const companyService: CompanyService
    const cache: FinanceCache

    constructor (companyService: CompanyService, cache: FinanceCache)
      ensures this.companyService == companyService && this.cache == cache
    {
      this.companyService := companyService;
      this.cache := cache;
    }

    ghost predicate Valid()
      reads companyService.companyRepository, companyService.dividendRepository, companyService.trie
    {
      companyService.Valid() && IndexSound(companyService.trie.keys, companyService.companyRepository.companies)
    }

    /** addCompany, as AddCompanySpec describes it. */
    method AddCompany(request: Company, upstream: Upstream) returns (r: Result<Company, Failure>)
      requires Valid()
      modifies companyService.companyRepository, companyService.dividendRepository, companyService.trie
      ensures Valid()
      ensures Addition(companyService.Snapshot(), companyService.trie.keys, r) ==
                AddCompanySpec(old(companyService.Snapshot()), old(companyService.trie.keys), request, upstream)
    {
      AddCompanyKeeps(companyService.Snapshot(), companyService.trie.keys, request, upstream);
      var ticker := Trim(request.ticker);
      if ticker == [] {
        return Err(EmptyTicker);
      }
      r := companyService.Save(ticker, upstream);
      if r.Ok? {
        companyService.AddAutoCompleteKeyword(r.value.name);
      }
    }

    /**
     * deleteCompany: the service delete, and only when it succeeds, eviction
     * of the name it returned. The cache stays coherent.
     */
    method DeleteCompany(ticker: string) returns (r: Result<string, Failure>)
      requires Valid()
      modifies companyService.companyRepository, companyService.dividendRepository, companyService.trie, cache
      ensures Valid()
      ensures var d := DeleteByTicker(old(companyService.Snapshot()), ticker);
              && companyService.Snapshot() == d.tables
              && (d.result.Err? ==> r == Err(d.result.error) && cache.entries == old(cache.entries)
                                    && companyService.trie.keys == old(companyService.trie.keys))
              && (d.result.Ok? ==> r == Ok(d.result.value.name) && cache.entries == old(cache.entries) - {d.result.value.name}
                                   && companyService.trie.keys == old(companyService.trie.keys) - {d.result.value.name})
      ensures CacheCoherent(old(cache.entries), old(companyService.companyRepository.companies), old(companyService.dividendRepository.records)) ==>
                CacheCoherent(cache.entries, companyService.companyRepository.companies, companyService.dividendRepository.records)
    {
      ghost var before := companyService.Snapshot();
      DeleteByTickerSpec(before, ticker);
      var d := DeleteByTicker(before, ticker);
      if d.result.Ok? {
        IndexSoundRemove(companyService.trie.keys, before.companies, before.companyNextId, d.result.value);
        if CacheCoherent(cache.entries, before.companies, before.dividends.records) {
          DeleteKeepsCoherence(cache.entries, before, ticker);
        }
      }
      r := companyService.DeleteCompany(ticker);
      if r.Ok? {
        ClearFinanceCache(r.value);
      }
    }

    /** clearFinanaceCache: evict exactly that name's entry. */
    method ClearFinanceCache(companyName: string)
      modifies cache
      ensures cache.entries == old(cache.entries) - {companyName}
    {
      cache.Evict(companyName);
    }
  }
}
