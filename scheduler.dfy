/**
 * ScraperScheduler.yahooFinanceScheduling: for each stored company in order,
 * scrape its dividends and insert every one whose (companyId, date) is not
 * stored yet; on normal completion the whole finance cache is evicted.
 * The run is specified by functions over the dividend table; the method
 * is the loop itself.
 */
module Scheduler {
  import opened Wrappers
  import opened Model
  import opened Entity
  import opened Persist
  import opened Scraper
  import opened Cache

  // ================================================================ one company

  /** The forEach over one company's scraped dividends: check, then insert if absent. */
  function IngestDividends(s: DividendStore, companyId: nat, ds: seq<Dividend>): DividendStore
    decreases |ds|
  {
    if ds == [] then s
    else IngestDividends(PersistIfNew(s, NewDividendEntity(companyId, ds[0])), companyId, ds[1..])
  }

  /** Every key stored in a is stored in b. */
  ghost predicate KeysWithin(a: seq<DividendEntity>, b: seq<DividendEntity>)
  {
    forall i :: 0 <= i < |a| ==> HasKey(b, a[i].companyId, a[i].date)
  }

  /** The unique (companyId, date) constraint survives, even when ds repeats a date. */
  lemma {:induction false} IngestDividendsWellFormed(s: DividendStore, companyId: nat, ds: seq<Dividend>)
    requires WellFormed(s)
    ensures WellFormed(IngestDividends(s, companyId, ds))
    decreases |ds|
  {
    if ds != [] {
      PersistIfNewWellFormed(s, NewDividendEntity(companyId, ds[0]));
      IngestDividendsWellFormed(PersistIfNew(s, NewDividendEntity(companyId, ds[0])), companyId, ds[1..]);
    }
  }

  /**
   * Existing records are never modified or removed, the identity counter
   * never goes back, and every added record belongs to the company and is
   * one of the scraped dividends with its date and amount unchanged.
   */
  lemma {:induction false} IngestDividendsGrows(s: DividendStore, companyId: nat, ds: seq<Dividend>)
    ensures var t := IngestDividends(s, companyId, ds);
            |s.records| <= |t.records| && t.records[..|s.records|] == s.records && s.nextId <= t.nextId
    ensures var t := IngestDividends(s, companyId, ds);
            forall i :: |s.records| <= i < |t.records| ==>
              t.records[i].companyId == companyId && ToDividend(t.records[i]) in ds
    decreases |ds|
  {
    if ds != [] {
      var s1 := PersistIfNew(s, NewDividendEntity(companyId, ds[0]));
      IngestDividendsGrows(s1, companyId, ds[1..]);
      var t := IngestDividends(s, companyId, ds);
      assert t.records[..|s.records|] == t.records[..|s1.records|][..|s.records|];
      forall i | |s.records| <= i < |t.records|
        ensures t.records[i].companyId == companyId && ToDividend(t.records[i]) in ds
      {
        if i < |s1.records| {
          assert t.records[i] == s1.records[i];
          assert ToDividend(s1.records[i]) == ds[0];
        } else {
          assert ToDividend(t.records[i]) in ds[1..];
        }
      }
    }
  }

  /** The keys stored before stay stored. */
  lemma KeysWithinGrown(a: seq<DividendEntity>, b: seq<DividendEntity>, c: seq<DividendEntity>)
    requires KeysWithin(a, b) && |b| <= |c| && c[..|b|] == b
    ensures KeysWithin(a, c)
  {
    forall i | 0 <= i < |a| ensures HasKey(c, a[i].companyId, a[i].date) {
      var j :| 0 <= j < |b| && b[j].companyId == a[i].companyId && b[j].date == a[i].date;
      assert c[j] == b[j];
    }
  }

  lemma KeysWithinSelf(a: seq<DividendEntity>)
    ensures KeysWithin(a, a)
  {
    forall i | 0 <= i < |a| ensures HasKey(a, a[i].companyId, a[i].date) {
    }
  }

  lemma KeysWithinTrans(a: seq<DividendEntity>, b: seq<DividendEntity>, c: seq<DividendEntity>)
    requires KeysWithin(a, b) && KeysWithin(b, c)
    ensures KeysWithin(a, c)
  {
    forall i | 0 <= i < |a| ensures HasKey(c, a[i].companyId, a[i].date) {
      var j :| 0 <= j < |b| && b[j].companyId == a[i].companyId && b[j].date == a[i].date;
    }
  }

  /** Afterwards every scraped dividend has a record with its (companyId, date). */
  lemma {:induction false} IngestDividendsCovers(s: DividendStore, companyId: nat, ds: seq<Dividend>)
    ensures var t := IngestDividends(s, companyId, ds);
            forall k :: 0 <= k < |ds| ==> HasKey(t.records, companyId, ds[k].date)
    decreases |ds|
  {
    if ds != [] {
      var e := NewDividendEntity(companyId, ds[0]);
      var s1 := PersistIfNew(s, e);
      IngestDividendsCovers(s1, companyId, ds[1..]);
      IngestDividendsGrows(s1, companyId, ds[1..]);
      var t := IngestDividends(s, companyId, ds);
      assert HasKey(s1.records, companyId, ds[0].date) by {
        if !HasKey(s.records, e.companyId, e.date) {
          assert s1.records[|s.records|].date == ds[0].date;
        }
      }
      var j :| 0 <= j < |s1.records| && s1.records[j].companyId == companyId && s1.records[j].date == ds[0].date;
      assert t.records[j] == s1.records[j];
      assert forall k :: 1 <= k < |ds| ==> ds[k] == ds[1..][k - 1];
    }
  }

  /** When every scraped dividend is stored already, nothing is inserted. */
  lemma {:induction false} IngestDividendsIdle(s: DividendStore, companyId: nat, ds: seq<Dividend>)
    requires forall k :: 0 <= k < |ds| ==> HasKey(s.records, companyId, ds[k].date)
    ensures IngestDividends(s, companyId, ds) == s
    decreases |ds|
  {
    if ds != [] {
      assert HasKey(s.records, companyId, ds[0].date);
      assert forall k :: 0 <= k < |ds[1..]| ==> ds[1..][k] == ds[k + 1];
      IngestDividendsIdle(s, companyId, ds[1..]);
    }
  }

  /** Only records carrying ids of the given set exist before, so only they exist after. */
  lemma {:induction false} IngestDividendsRefIntegrity(s: DividendStore, companyId: nat, ds: seq<Dividend>, cs: seq<CompanyEntity>)
    requires RefIntegrity(cs, s.records) && companyId in Ids(cs)
    ensures RefIntegrity(cs, IngestDividends(s, companyId, ds).records)
  {
    IngestDividendsGrows(s, companyId, ds);
    var t := IngestDividends(s, companyId, ds);
    forall i | 0 <= i < |t.records| ensures t.records[i].companyId in Ids(cs) {
      if i < |s.records| {
        assert t.records[i] == s.records[i];
      }
    }
  }

  // ================================================================ the run

  /** How a run ends: the final dividend table, and the failure that aborted it, if one did. */
  datatype Run = Run(store: DividendStore, failure: Option<Failure>)

  function CompanyOf(e: CompanyEntity): Company
  {
    Company(e.ticker, e.name)
  }

  /** The scrape the scheduler performs for a stored company: its stored ticker and name. */
  function ScrapeOf(e: CompanyEntity, upstream: Upstream): Result<ScrapedResult, Failure>
  {
    ScrapedFrom(CompanyOf(e), upstream.history(e.ticker))
  }

  /** The loop over the stored companies, in listing order; the first scrape failure ends it. */
  function IngestCompanies(s: DividendStore, cs: seq<CompanyEntity>, upstream: Upstream): Run
    decreases |cs|
  {
    if cs == [] then Run(s, None)
    else
      match ScrapeOf(cs[0], upstream)
      case Err(f) => Run(s, Some(f))
      case Ok(r) => IngestCompanies(IngestDividends(s, cs[0].id, r.dividends), cs[1..], upstream)
  }

  /** A run keeps the unique constraint and the identity discipline. */
  lemma {:induction false} IngestCompaniesWellFormed(s: DividendStore, cs: seq<CompanyEntity>, upstream: Upstream)
    requires WellFormed(s)
    ensures WellFormed(IngestCompanies(s, cs, upstream).store)
    decreases |cs|
  {
    if cs != [] {
      match ScrapeOf(cs[0], upstream)
      case Err(f) =>
      case Ok(r) =>
        IngestDividendsWellFormed(s, cs[0].id, r.dividends);
        IngestCompaniesWellFormed(IngestDividends(s, cs[0].id, r.dividends), cs[1..], upstream);
    }
  }

  /** A run, completed or aborted, only appends to the table. */
  lemma {:induction false} IngestCompaniesGrows(s: DividendStore, cs: seq<CompanyEntity>, upstream: Upstream)
    ensures var t := IngestCompanies(s, cs, upstream).store;
            |s.records| <= |t.records| && t.records[..|s.records|] == s.records
    decreases |cs|
  {
    if cs != [] {
      match ScrapeOf(cs[0], upstream)
      case Err(f) =>
      case Ok(r) =>
        var s1 := IngestDividends(s, cs[0].id, r.dividends);
        IngestDividendsGrows(s, cs[0].id, r.dividends);
        IngestCompaniesGrows(s1, cs[1..], upstream);
        var t := IngestCompanies(s, cs, upstream).store;
        assert t.records[..|s.records|] == t.records[..|s1.records|][..|s.records|];
    }
  }

  /** The run fails exactly when some company's scrape fails. */
  lemma {:induction false} IngestCompaniesFailure(s: DividendStore, cs: seq<CompanyEntity>, upstream: Upstream)
    ensures IngestCompanies(s, cs, upstream).failure.None? <==> forall i :: 0 <= i < |cs| ==> ScrapeOf(cs[i], upstream).Ok?
    decreases |cs|
  {
    if cs != [] {
      assert forall i :: 1 <= i < |cs| ==> cs[i] == cs[1..][i - 1];
      match ScrapeOf(cs[0], upstream)
      case Err(f) =>
      case Ok(r) =>
        IngestCompaniesFailure(IngestDividends(s, cs[0].id, r.dividends), cs[1..], upstream);
    }
  }

  /**
   * A scrape failure for company j aborts the rest: the failure is reported
   * and the table is what the companies before j left, their inserts kept.
   */
  lemma {:induction false} IngestCompaniesAbort(s: DividendStore, cs: seq<CompanyEntity>, upstream: Upstream, j: nat)
    requires j < |cs| && ScrapeOf(cs[j], upstream).Err?
    requires forall i :: 0 <= i < j ==> ScrapeOf(cs[i], upstream).Ok?
    ensures IngestCompanies(s, cs, upstream) == Run(IngestCompanies(s, cs[..j], upstream).store, Some(ScrapeOf(cs[j], upstream).error))
    decreases j
  {
    if j > 0 {
      var r := ScrapeOf(cs[0], upstream).value;
      var s1 := IngestDividends(s, cs[0].id, r.dividends);
      assert cs[1..][j - 1] == cs[j];
      assert forall i :: 0 <= i < j - 1 ==> cs[1..][i] == cs[i + 1];
      IngestCompaniesAbort(s1, cs[1..], upstream, j - 1);
      assert cs[..j][1..] == cs[1..][..j - 1];
    }
  }

  /** After a completed run every scraped dividend of every company has a record with its (companyId, date). */
  lemma {:induction false} IngestCompaniesCovers(s: DividendStore, cs: seq<CompanyEntity>, upstream: Upstream, i: nat, k: nat)
    requires IngestCompanies(s, cs, upstream).failure.None? && i < |cs|
    requires ScrapeOf(cs[i], upstream).Ok? && k < |ScrapeOf(cs[i], upstream).value.dividends|
    ensures HasKey(IngestCompanies(s, cs, upstream).store.records, cs[i].id, ScrapeOf(cs[i], upstream).value.dividends[k].date)
    decreases |cs|
  {
    var r := ScrapeOf(cs[0], upstream).value;
    var s1 := IngestDividends(s, cs[0].id, r.dividends);
    var t := IngestCompanies(s, cs, upstream).store;
    if i == 0 {
      IngestDividendsCovers(s, cs[0].id, r.dividends);
      IngestCompaniesGrows(s1, cs[1..], upstream);
      var d := r.dividends[k];
      var j :| 0 <= j < |s1.records| && s1.records[j].companyId == cs[0].id && s1.records[j].date == d.date;
      assert t.records[j] == s1.records[j];
    } else {
      assert cs[1..][i - 1] == cs[i];
      IngestCompaniesCovers(s1, cs[1..], upstream, i - 1, k);
    }
  }

  /**
   * The core of idempotence: starting from any table that already holds
   * every key a run stored, the same run inserts nothing and ends the same way.
   */
  lemma {:induction false} IngestCompaniesIdleOn(s: DividendStore, t: DividendStore, cs: seq<CompanyEntity>, upstream: Upstream)
    requires KeysWithin(IngestCompanies(s, cs, upstream).store.records, t.records)
    ensures IngestCompanies(t, cs, upstream) == Run(t, IngestCompanies(s, cs, upstream).failure)
    decreases |cs|
  {
    if cs != [] {
      match ScrapeOf(cs[0], upstream)
      case Err(f) =>
      case Ok(r) =>
        var s1 := IngestDividends(s, cs[0].id, r.dividends);
        var o := IngestCompanies(s1, cs[1..], upstream).store;
        IngestCompaniesGrows(s1, cs[1..], upstream);
        KeysWithinSelf(s1.records);
        KeysWithinGrown(s1.records, s1.records, o.records);
        KeysWithinTrans(s1.records, o.records, t.records);
        IngestDividendsCovers(s, cs[0].id, r.dividends);
        forall k | 0 <= k < |r.dividends| ensures HasKey(t.records, cs[0].id, r.dividends[k].date) {
          var j :| 0 <= j < |s1.records| && s1.records[j].companyId == cs[0].id && s1.records[j].date == r.dividends[k].date;
        }
        IngestDividendsIdle(t, cs[0].id, r.dividends);
        IngestCompaniesIdleOn(s1, t, cs[1..], upstream);
    }
  }

  /** Running again with the same scrape results inserts nothing and ends the same way. */
  lemma IngestCompaniesIdempotent(s: DividendStore, cs: seq<CompanyEntity>, upstream: Upstream)
    ensures var first := IngestCompanies(s, cs, upstream);
            IngestCompanies(first.store, cs, upstream) == first
  {
    var first := IngestCompanies(s, cs, upstream);
    KeysWithinSelf(first.store.records);
    IngestCompaniesIdleOn(s, first.store, cs, upstream);
  }

  /** Records only ever point at companies of the listing, as before the run. */
  lemma {:induction false} IngestCompaniesRefIntegrity(s: DividendStore, cs: seq<CompanyEntity>, all: seq<CompanyEntity>, upstream: Upstream)
    requires RefIntegrity(all, s.records)
    requires forall i :: 0 <= i < |cs| ==> cs[i] in all
    ensures RefIntegrity(all, IngestCompanies(s, cs, upstream).store.records)
    decreases |cs|
  {
    if cs != [] {
      match ScrapeOf(cs[0], upstream)
      case Err(f) =>
      case Ok(r) =>
        IngestDividendsRefIntegrity(s, cs[0].id, r.dividends, all);
        assert forall i :: 0 <= i < |cs[1..]| ==> cs[1..][i] == cs[i + 1];
        IngestCompaniesRefIntegrity(IngestDividends(s, cs[0].id, r.dividends), cs[1..], all, upstream);
    }
  }

  // ================================================================ the scheduler

  class ScraperScheduler {
    const companyRepository: CompanyRepository
    const dividendRepository: DividendRepository
    const cache: FinanceCache

    constructor (companyRepository: CompanyRepository, dividendRepository: DividendRepository, cache: FinanceCache)
      ensures this.companyRepository == companyRepository
      ensures this.dividendRepository == dividendRepository
      ensures this.cache == cache
    {
      this.companyRepository := companyRepository;
      this.dividendRepository := dividendRepository;
      this.cache := cache;
    }

    /**
     * yahooFinanceScheduling: the run over the stored listing. A scrape
     * failure propagates, and then the cache is left as it was; on normal
     * completion every cache entry is evicted.
     */
    method YahooFinanceScheduling(upstream: Upstream) returns (failure: Option<Failure>)
      requires dividendRepository.Valid()
      modifies dividendRepository, cache
      ensures dividendRepository.Valid()
      ensures Run(dividendRepository.Store(), failure) ==
                IngestCompanies(old(dividendRepository.Store()), companyRepository.companies, upstream)
      ensures failure.None? ==> cache.entries == map[]
      ensures failure.Some? ==> cache.entries == old(cache.entries)
    {
      var companies := companyRepository.companies;
      ghost var target := IngestCompanies(dividendRepository.Store(), companies, upstream);
      var i := 0;
      while i < |companies|
        invariant 0 <= i <= |companies|
        invariant dividendRepository.Valid()
        invariant IngestCompanies(dividendRepository.Store(), companies[i..], upstream) == target
        invariant cache.entries == old(cache.entries)
      {
        var company := companies[i];
        var scraped := Scrap(Company(company.ticker, company.name), upstream);
        assert companies[i..][0] == company && companies[i..][1..] == companies[i + 1..];
        if scraped.Err? {
          return Some(scraped.error);
        }
        var ds := scraped.value.dividends;
        ghost var before := dividendRepository.Store();
        var k := 0;
        while k < |ds|
          invariant 0 <= k <= |ds|
          invariant dividendRepository.Valid()
          invariant IngestDividends(dividendRepository.Store(), company.id, ds[k..]) == IngestDividends(before, company.id, ds)
          invariant cache.entries == old(cache.entries)
        {
          var e := NewDividendEntity(company.id, ds[k]);
          var present := HasKey(dividendRepository.records, e.companyId, e.date);
          assert ds[k..][1..] == ds[k + 1..];
          if !present {
            var saved := dividendRepository.Save(e);
          }
          k := k + 1;
        }
        i := i + 1;
      }
      cache.Clear();
      failure := None;
    }
  }
}
