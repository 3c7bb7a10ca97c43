/**
 * CompanyService and FinanceService. The effect of each state-changing
 * operation on the two tables is a function from the tables before to the
 * tables after (and the answer); the methods perform the calls in the
 * source's order and are proved equal to those functions.
 */
module Service {
  import opened Wrappers
  import opened Strings
  import opened Model
  import opened Entity
  import opened Persist
  import opened Scraper
  import opened Cache
  import opened Index

  // ================================================================ the tables

  /** Both tables: the company rows and their identity counter, and the dividend table. */
  datatype Tables = Tables(companies: seq<CompanyEntity>, companyNextId: nat, dividends: DividendStore)

  /** What the services keep true of the tables: identities, the unique constraint, references, distinct tickers. */
  ghost predicate TablesValid(t: Tables)
  {
    && CompaniesWellFormed(t.companies, t.companyNextId)
    && WellFormed(t.dividends)
    && RefIntegrity(t.companies, t.dividends.records)
    && UniqueTickers(t.companies)
  }

  /** The batch of scrapedResult.getDividendEntities() mapped to new DividendEntity(companyId, e). */
  function NewRecords(companyId: nat, ds: seq<Dividend>): (r: seq<DividendEntity>)
    ensures |r| == |ds|
    ensures forall k :: 0 <= k < |ds| ==> r[k] == NewDividendEntity(companyId, ds[k])
  {
    if ds == [] then [] else [NewDividendEntity(companyId, ds[0])] + NewRecords(companyId, ds[1..])
  }

  /** Two scraped dividends fall on the same date. */
  predicate RepeatsDate(ds: seq<Dividend>)
  {
    exists i, j :: 0 <= i < j < |ds| && ds[i].date == ds[j].date
  }

  // ================================================================ save(ticker)

  /** How a company creation ends: the tables after it, and the company returned or the failure raised. */
  datatype Creation = Creation(tables: Tables, result: Result<Company, Failure>)

  /**
   * The writes of storeCompanyAndDividend once both scrapes are done: the
   * company row, then the dividend batch in one saveAll. The two saves run
   * in separate transactions, so a batch the unique constraint rejects
   * leaves the company row in place.
   */
  function SaveScraped(t: Tables, company: Company, ds: seq<Dividend>): Creation
  {
    var e := CompanyEntity(t.companyNextId, company.ticker, company.name);
    var es := NewRecords(e.id, ds);
    if UniqueKeys(t.dividends.records + es) then
      Creation(Tables(t.companies + [e], t.companyNextId + 1, InsertAll(t.dividends, es)), Ok(company))
    else
      Creation(Tables(t.companies + [e], t.companyNextId + 1, t.dividends), Err(UniqueViolation))
  }

  /** The dividends scraped for the company the ticker resolves to, when both scrapes succeed. */
  function ScrapedDividends(ticker: string, upstream: Upstream): Option<seq<Dividend>>
  {
    match ScrapCompanyByTicker(ticker, upstream)
    case Err(_) => None
    case Ok(company) =>
      match ScrapedFrom(company, upstream.history(company.ticker))
      case Err(_) => None
      case Ok(scraped) => Some(scraped.dividends)
  }

  /**
   * save, then storeCompanyAndDividend: a known ticker is refused; the
   * company is resolved and its dividends scraped before anything is
   * written; then the writes.
   */
  function CreateCompany(t: Tables, ticker: string, upstream: Upstream): Creation
  {
    if HasTicker(t.companies, ticker) then Creation(t, Err(AlreadyExistsTicker(ticker)))
    else
      match ScrapCompanyByTicker(ticker, upstream)
      case Err(f) => Creation(t, Err(f))
      case Ok(company) =>
        match ScrapedFrom(company, upstream.history(company.ticker))
        case Err(f) => Creation(t, Err(f))
        case Ok(scraped) => SaveScraped(t, company, scraped.dividends)
  }

  /**
   * A duplicate ticker is refused with the tables untouched; nothing at all
   * is written unless the ticker is new and both scrapes succeed; and then
   * the writes happen for the scraped company, whose ticker is the one asked for.
   */
  lemma CreateCompanyWrites(t: Tables, ticker: string, upstream: Upstream)
    ensures HasTicker(t.companies, ticker) ==> CreateCompany(t, ticker, upstream) == Creation(t, Err(AlreadyExistsTicker(ticker)))
    ensures ScrapedDividends(ticker, upstream).None? ==> CreateCompany(t, ticker, upstream).tables == t
    ensures !HasTicker(t.companies, ticker) && ScrapedDividends(ticker, upstream).Some? ==>
              && ScrapCompanyByTicker(ticker, upstream).Ok?
              && ScrapCompanyByTicker(ticker, upstream).value.ticker == ticker
              && CreateCompany(t, ticker, upstream) ==
                   SaveScraped(t, ScrapCompanyByTicker(ticker, upstream).value, ScrapedDividends(ticker, upstream).value)
  {
  }

  /**
   * The writes always append one company row with the next identity. When
   * they succeed, the scraped company is returned and one dividend record per
   * scraped dividend is appended, in order, all carrying that identity and
   * each holding its dividend's date and amount unchanged.
   */
  lemma SaveScrapedSpec(t: Tables, company: Company, ds: seq<Dividend>)
    ensures var c := SaveScraped(t, company, ds);
            && c.tables.companies == t.companies + [CompanyEntity(t.companyNextId, company.ticker, company.name)]
            && c.tables.companyNextId == t.companyNextId + 1
            && (c.result.Ok? || c.result == Err(UniqueViolation))
    ensures var c := SaveScraped(t, company, ds);
            var old_ := t.dividends.records;
            var new_ := c.tables.dividends.records;
            c.result.Ok? ==>
              && c.result.value == company
              && |new_| == |old_| + |ds|
              && new_[..|old_|] == old_
              && forall k :: 0 <= k < |ds| ==>
                   new_[|old_| + k].companyId == t.companyNextId && ToDividend(new_[|old_| + k]) == ds[k]
    ensures var c := SaveScraped(t, company, ds);
            c.result.Err? ==> c.tables.dividends == t.dividends
  {
    var c := SaveScraped(t, company, ds);
    var es := NewRecords(t.companyNextId, ds);
    if c.result.Ok? {
      var added := AssignIds(es, t.dividends.nextId);
      assert c.tables.dividends.records == t.dividends.records + added;
      assert c.tables.dividends.records[..|t.dividends.records|] == t.dividends.records;
    }
  }

  /** A batch for a fresh company breaks the unique constraint exactly when the scrape repeats a date. */
  lemma UniqueKeysFreshBatch(rs: seq<DividendEntity>, companyId: nat, ds: seq<Dividend>)
    requires UniqueKeys(rs)
    requires forall i :: 0 <= i < |rs| ==> rs[i].companyId != companyId
    ensures UniqueKeys(rs + NewRecords(companyId, ds)) <==> !RepeatsDate(ds)
  {
    if RepeatsDate(ds) {
      FreshBatchRepeat(rs, companyId, ds);
    } else {
      FreshBatchUnique(rs, companyId, ds);
    }
  }

  lemma FreshBatchRepeat(rs: seq<DividendEntity>, companyId: nat, ds: seq<Dividend>)
    requires RepeatsDate(ds)
    ensures !UniqueKeys(rs + NewRecords(companyId, ds))
  {
    var es := NewRecords(companyId, ds);
    var all := rs + es;
    var n := |rs|;
    var i, j :| 0 <= i < j < |ds| && ds[i].date == ds[j].date;
    assert all[n + i] == es[i] && all[n + j] == es[j];
    assert SameKey(all[n + i], all[n + j]);
  }

  lemma FreshBatchUnique(rs: seq<DividendEntity>, companyId: nat, ds: seq<Dividend>)
    requires UniqueKeys(rs)
    requires forall i :: 0 <= i < |rs| ==> rs[i].companyId != companyId
    requires !RepeatsDate(ds)
    ensures UniqueKeys(rs + NewRecords(companyId, ds))
  {
    var es := NewRecords(companyId, ds);
    var all := rs + es;
    var n := |rs|;
    forall i, j | 0 <= i < j < |all| ensures !SameKey(all[i], all[j]) {
      if j < n {
        assert all[i] == rs[i] && all[j] == rs[j];
      } else if i < n {
        assert all[i] == rs[i] && all[j] == es[j - n];
      } else {
        assert all[i] == es[i - n] && all[j] == es[j - n];
        assert ds[i - n].date != ds[j - n].date;
      }
    }
  }

  /** No record points at the next company identity. */
  lemma FreshCompanyId(t: Tables)
    requires TablesValid(t)
    ensures forall i :: 0 <= i < |t.dividends.records| ==> t.dividends.records[i].companyId != t.companyNextId
  {
    forall i | 0 <= i < |t.dividends.records| ensures t.dividends.records[i].companyId != t.companyNextId {
      var id := t.dividends.records[i].companyId;
      assert id in Ids(t.companies);
      var c :| c in t.companies && c.id == id;
      var j :| 0 <= j < |t.companies| && t.companies[j] == c;
      assert t.companies[j].id < t.companyNextId;
    }
  }

  /**
   * On valid tables the dividend batch is refused, leaving the company row
   * without dividends, exactly when the scraped history repeats a date.
   */
  lemma SaveScrapedRejected(t: Tables, company: Company, ds: seq<Dividend>)
    requires TablesValid(t)
    ensures SaveScraped(t, company, ds).result == Err(UniqueViolation) <==> RepeatsDate(ds)
  {
    FreshCompanyId(t);
    UniqueKeysFreshBatch(t.dividends.records, t.companyNextId, ds);
  }

  /** The writes keep the tables valid when the company's ticker is new. */
  lemma SaveScrapedValid(t: Tables, company: Company, ds: seq<Dividend>)
    requires TablesValid(t) && !HasTicker(t.companies, company.ticker)
    ensures TablesValid(SaveScraped(t, company, ds).tables)
  {
    var c := SaveScraped(t, company, ds);
    var e := CompanyEntity(t.companyNextId, company.ticker, company.name);
    var cs := t.companies + [e];
    assert Ids(cs) == Ids(t.companies) + {e.id};
    var es := NewRecords(e.id, ds);
    if UniqueKeys(t.dividends.records + es) {
      InsertAllWellFormed(t.dividends, es);
      var rs := c.tables.dividends.records;
      assert rs == t.dividends.records + AssignIds(es, t.dividends.nextId);
      forall i | 0 <= i < |rs| ensures rs[i].companyId in Ids(cs) {
        if i < |t.dividends.records| {
          assert rs[i] == t.dividends.records[i];
        } else {
          assert rs[i].companyId == e.id;
        }
      }
    }
    forall i, j | 0 <= i < j < |cs| ensures cs[i].ticker != cs[j].ticker {
      if j == |cs| - 1 {
        assert cs[i] == t.companies[i];
      }
    }
  }

  /** Creating a company, successfully or not, keeps the tables valid. */
  lemma CreateCompanyValid(t: Tables, ticker: string, upstream: Upstream)
    requires TablesValid(t)
    ensures TablesValid(CreateCompany(t, ticker, upstream).tables)
  {
    CreateCompanyWrites(t, ticker, upstream);
    if !HasTicker(t.companies, ticker) && ScrapedDividends(ticker, upstream).Some? {
      SaveScrapedValid(t, ScrapCompanyByTicker(ticker, upstream).value, ScrapedDividends(ticker, upstream).value);
    }
  }

  // ================================================================ deleteCompany(ticker)

  /** How a deletion ends: the tables after it, and the deleted row or the failure raised. */
  datatype Deletion = Deletion(tables: Tables, result: Result<CompanyEntity, Failure>)

  /** deleteCompany on the tables: find by ticker, then drop its dividends, then the row. */
  function DeleteByTicker(t: Tables, ticker: string): Deletion
  {
    match FindByTicker(t.companies, ticker)
    case None => Deletion(t, Err(NoCompany))
    case Some(c) =>
      Deletion(Tables(RemoveCompany(t.companies, c.id), t.companyNextId,
                      DividendStore(WithoutCompany(t.dividends.records, c.id), t.dividends.nextId)),
               Ok(c))
  }

  /**
   * An unknown ticker is refused with nothing changed; otherwise the company
   * with that ticker goes, with every record of its id, and every other
   * company and record stays; afterwards no company has the ticker.
   */
  lemma DeleteByTickerSpec(t: Tables, ticker: string)
    requires UniqueTickers(t.companies)
    ensures DeleteByTicker(t, ticker).result == Err(NoCompany) <==> !HasTicker(t.companies, ticker)
    ensures !HasTicker(t.companies, ticker) ==> DeleteByTicker(t, ticker).tables == t
    ensures var d := DeleteByTicker(t, ticker);
            d.result.Ok? ==>
              && d.result.value in t.companies && d.result.value.ticker == ticker
              && !HasTicker(d.tables.companies, ticker)
              && (forall c :: c in d.tables.companies <==> c in t.companies && c.id != d.result.value.id)
              && (forall e :: e in d.tables.dividends.records <==> e in t.dividends.records && e.companyId != d.result.value.id)
  {
    var d := DeleteByTicker(t, ticker);
    if d.result.Ok? {
      var c := d.result.value;
      var cs := d.tables.companies;
      forall i | 0 <= i < |cs| ensures cs[i].ticker != ticker {
        assert cs[i] in t.companies;
        FindByTickerUnique(t.companies, ticker, c);
        if cs[i].ticker == ticker {
          FindByTickerUnique(t.companies, ticker, cs[i]);
        }
      }
    }
  }

  /** A deletion keeps the tables valid: in particular no dividend record is left pointing at the deleted company. */
  lemma DeleteByTickerValid(t: Tables, ticker: string)
    requires TablesValid(t)
    ensures TablesValid(DeleteByTicker(t, ticker).tables)
  {
    var d := DeleteByTicker(t, ticker);
    if d.result.Ok? {
      var c := d.result.value;
      RemoveCompanyWellFormed(t.companies, t.companyNextId, c.id);
      RemoveCompanyUniqueTickers(t.companies, c.id);
      WithoutCompanyWellFormed(t.dividends, c.id);
      var rs := d.tables.dividends.records;
      forall i | 0 <= i < |rs| ensures rs[i].companyId in Ids(d.tables.companies) {
        assert rs[i] in t.dividends.records;
        var k :| 0 <= k < |t.dividends.records| && t.dividends.records[k] == rs[i];
        var owner :| owner in t.companies && owner.id == rs[i].companyId;
        assert owner in d.tables.companies;
      }
    }
  }

  // ================================================================ getdividendByCompanyName(name)

  /** findAllByCompanyId mapped to new Dividend(e.getDate(), e.getDividend()). */
  function ToDividends(es: seq<DividendEntity>): (r: seq<Dividend>)
    ensures |r| == |es|
    ensures forall k :: 0 <= k < |es| ==> r[k] == ToDividend(es[k])
  {
    if es == [] then [] else [ToDividend(es[0])] + ToDividends(es[1..])
  }

  /** The lookup behind the cache: the company by name, with its records as dividends. */
  function Lookup(cs: seq<CompanyEntity>, rs: seq<DividendEntity>, name: string): Result<ScrapedResult, Failure>
  {
    match FindByName(cs, name)
    case Err(f) => Err(f)
    case Ok(None) => Err(NoCompany)
    case Ok(Some(c)) => Ok(ScrapedResult(Company(c.ticker, c.name), ToDividends(WithCompany(rs, c.id))))
  }

  /**
   * An absent name is NoCompany (and only an absent name is); a name held
   * by one company gives that company's stored ticker and name and, one to
   * one and in table order, its records with date and amount unchanged.
   */
  lemma LookupSpec(cs: seq<CompanyEntity>, rs: seq<DividendEntity>, name: string)
    ensures Lookup(cs, rs, name) == Err(NoCompany) <==> forall i :: 0 <= i < |cs| ==> cs[i].name != name
    ensures Lookup(cs, rs, name).Ok? ==>
              exists c :: c in cs && c.name == name && Lookup(cs, rs, name).value.company == Company(c.ticker, name) &&
                var own := WithCompany(rs, c.id);
                var ds := Lookup(cs, rs, name).value.dividends;
                |ds| == |own| && (forall k :: 0 <= k < |own| ==> ds[k] == ToDividend(own[k])) &&
                (forall e :: e in own <==> e in rs && e.companyId == c.id)
  {
    var m := Named(cs, name);
    if |m| == 0 {
      forall i | 0 <= i < |cs| ensures cs[i].name != name {
        assert cs[i] in cs;
      }
    } else {
      assert m[0] in m;
    }
  }

  /** Named over an appended row. */
  lemma {:induction false} NamedAppend(cs: seq<CompanyEntity>, e: CompanyEntity, name: string)
    ensures Named(cs + [e], name) == Named(cs, name) + (if e.name == name then [e] else [])
  {
    if cs != [] {
      assert (cs + [e])[1..] == cs[1..] + [e];
      NamedAppend(cs[1..], e, name);
    }
  }

  /** WithCompany over appended records. */
  lemma {:induction false} WithCompanyAppend(a: seq<DividendEntity>, b: seq<DividendEntity>, id: nat)
    ensures WithCompany(a + b, id) == WithCompany(a, id) + WithCompany(b, id)
  {
    if a != [] {
      assert (a + b)[0] == a[0];
      assert (a + b)[1..] == a[1..] + b;
      WithCompanyAppend(a[1..], b, id);
      if a[0].companyId == id {
        assert [a[0]] + (WithCompany(a[1..], id) + WithCompany(b, id)) == ([a[0]] + WithCompany(a[1..], id)) + WithCompany(b, id);
      }
    } else {
      assert a + b == b;
    }
  }

  lemma {:induction false} WithCompanyNone(rs: seq<DividendEntity>, id: nat)
    requires forall i :: 0 <= i < |rs| ==> rs[i].companyId != id
    ensures WithCompany(rs, id) == []
  {
    if rs != [] {
      WithCompanyNone(rs[1..], id);
    }
  }

  lemma {:induction false} WithCompanyAll(rs: seq<DividendEntity>, id: nat)
    requires forall i :: 0 <= i < |rs| ==> rs[i].companyId == id
    ensures WithCompany(rs, id) == rs
  {
    if rs != [] {
      WithCompanyAll(rs[1..], id);
    }
  }

  /**
   * Write, then read: after the writes for a company whose name no stored
   * company had, looking the name up gives back the company and exactly the
   * scraped dividends, in order.
   */
  lemma SaveThenLookup(t: Tables, company: Company, ds: seq<Dividend>)
    requires TablesValid(t)
    requires SaveScraped(t, company, ds).result.Ok?
    requires forall i :: 0 <= i < |t.companies| ==> t.companies[i].name != company.name
    ensures var c := SaveScraped(t, company, ds);
            Lookup(c.tables.companies, c.tables.dividends.records, company.name) == Ok(ScrapedResult(company, ds))
  {
    var c := SaveScraped(t, company, ds);
    var e := CompanyEntity(t.companyNextId, company.ticker, company.name);
    var added := AssignIds(NewRecords(e.id, ds), t.dividends.nextId);
    assert c.tables.companies == t.companies + [e];
    assert c.tables.dividends.records == t.dividends.records + added;
    NamedAppend(t.companies, e, company.name);
    NamedNone(t.companies, company.name);
    assert Named(t.companies + [e], company.name) == [e];
    OwnRecordsAfterSave(t, e.id, ds);
    assert Lookup(t.companies + [e], t.dividends.records + added, company.name) ==
             Ok(ScrapedResult(Company(e.ticker, e.name), ToDividends(WithCompany(t.dividends.records + added, e.id))));
  }

  /** The fresh company's own records are exactly the batch, and they read back as the scraped dividends. */
  lemma OwnRecordsAfterSave(t: Tables, id: nat, ds: seq<Dividend>)
    requires TablesValid(t) && id == t.companyNextId
    ensures var added := AssignIds(NewRecords(id, ds), t.dividends.nextId);
            ToDividends(WithCompany(t.dividends.records + added, id)) == ds
  {
    var added := AssignIds(NewRecords(id, ds), t.dividends.nextId);
    FreshCompanyId(t);
    BatchReadsBack(id, ds, t.dividends.nextId);
    OwnRecordsAppended(t.dividends.records, added, id, ds);
  }

  /** Every record of a stored batch carries the company id and reads back as its dividend. */
  lemma BatchReadsBack(id: nat, ds: seq<Dividend>, n: nat)
    ensures var added := AssignIds(NewRecords(id, ds), n);
            |added| == |ds| && forall k :: 0 <= k < |added| ==> added[k].companyId == id && ToDividend(added[k]) == ds[k]
  {
    var es := NewRecords(id, ds);
    var added := AssignIds(es, n);
    forall k | 0 <= k < |added| ensures added[k].companyId == id && ToDividend(added[k]) == ds[k] {
      assert added[k] == es[k].(id := Some(n + k));
      assert es[k] == NewDividendEntity(id, ds[k]);
    }
  }

  lemma OwnRecordsAppended(rs: seq<DividendEntity>, added: seq<DividendEntity>, id: nat, ds: seq<Dividend>)
    requires forall i :: 0 <= i < |rs| ==> rs[i].companyId != id
    requires |added| == |ds| && forall k :: 0 <= k < |added| ==> added[k].companyId == id && ToDividend(added[k]) == ds[k]
    ensures ToDividends(WithCompany(rs + added, id)) == ds
  {
    WithCompanyAppend(rs, added, id);
    WithCompanyNone(rs, id);
    WithCompanyAll(added, id);
    assert WithCompany(rs + added, id) == [] + added;
    var back := ToDividends(added);
    assert |back| == |ds|;
    assert forall k :: 0 <= k < |back| ==> back[k] == ds[k];
  }

  lemma {:induction false} NamedNone(cs: seq<CompanyEntity>, name: string)
    requires forall i :: 0 <= i < |cs| ==> cs[i].name != name
    ensures Named(cs, name) == []
  {
    if cs != [] {
      NamedNone(cs[1..], name);
    }
  }

  // ================================================================ cache coherence

  /** Every cached result is what the lookup would compute from the tables now. */
  ghost predicate CacheCoherent(entries: map<string, ScrapedResult>, cs: seq<CompanyEntity>, rs: seq<DividendEntity>)
  {
    forall n :: n in entries ==> Lookup(cs, rs, n) == Ok(entries[n])
  }

  lemma {:induction false} NamedRemoveOther(cs: seq<CompanyEntity>, id: nat, name: string)
    requires forall i :: 0 <= i < |cs| && cs[i].id == id ==> cs[i].name != name
    ensures Named(RemoveCompany(cs, id), name) == Named(cs, name)
  {
    if cs != [] {
      NamedRemoveOther(cs[1..], id, name);
    }
  }

  lemma {:induction false} WithCompanyWithoutOther(rs: seq<DividendEntity>, id: nat, other: nat)
    requires id != other
    ensures WithCompany(WithoutCompany(rs, other), id) == WithCompany(rs, id)
  {
    if rs != [] {
      WithCompanyWithoutOther(rs[1..], id, other);
    }
  }

  /**
   * Deleting a company and evicting its name keeps every other cached
   * entry right: no other name's company or records change.
   */
  lemma DeleteKeepsCoherence(entries: map<string, ScrapedResult>, t: Tables, ticker: string)
    requires TablesValid(t) && CacheCoherent(entries, t.companies, t.dividends.records)
    requires DeleteByTicker(t, ticker).result.Ok?
    ensures var d := DeleteByTicker(t, ticker);
            CacheCoherent(entries - {d.result.value.name}, d.tables.companies, d.tables.dividends.records)
  {
    var d := DeleteByTicker(t, ticker);
    var gone := d.result.value;
    var cs := t.companies;
    forall n | n in entries - {gone.name}
      ensures Lookup(d.tables.companies, d.tables.dividends.records, n) == Ok(entries[n])
    {
      forall i | 0 <= i < |cs| && cs[i].id == gone.id ensures cs[i].name != n {
        var j :| 0 <= j < |cs| && cs[j] == gone;
        assert i == j;
      }
      NamedRemoveOther(cs, gone.id, n);
      var m := Named(cs, n);
      assert Lookup(cs, t.dividends.records, n).Ok?;
      if |m| == 1 {
        assert m[0] in m;
        WithCompanyWithoutOther(t.dividends.records, m[0].id, gone.id);
      }
    }
  }

  /** Adding a company row of another name and records of its fresh id leaves a name's lookup as it was. */
  lemma AddKeepsLookup(cs: seq<CompanyEntity>, rs: seq<DividendEntity>, e: CompanyEntity, added: seq<DividendEntity>, n: string)
    requires Lookup(cs, rs, n).Ok? && e.name != n && e.id !in Ids(cs)
    requires forall i :: 0 <= i < |added| ==> added[i].companyId == e.id
    ensures Lookup(cs + [e], rs + added, n) == Lookup(cs, rs, n)
  {
    NamedAppend(cs, e, n);
    var m := Named(cs, n);
    assert Named(cs + [e], n) == m;
    assert m[0] in m;
    assert m[0].id in Ids(cs);
    WithCompanyAppend(rs, added, m[0].id);
    WithCompanyNone(added, m[0].id);
    assert WithCompany(rs + added, m[0].id) == WithCompany(rs, m[0].id);
  }

  /**
   * Adding a company row and its records keeps the cache right as long as
   * the new company's name is not cached already.
   */
  lemma AddKeepsCoherence(entries: map<string, ScrapedResult>, cs: seq<CompanyEntity>, rs: seq<DividendEntity>,
                          e: CompanyEntity, added: seq<DividendEntity>)
    requires CacheCoherent(entries, cs, rs)
    requires e.id !in Ids(cs) && e.name !in entries
    requires forall i :: 0 <= i < |added| ==> added[i].companyId == e.id
    ensures CacheCoherent(entries, cs + [e], rs + added)
  {
    forall n | n in entries ensures Lookup(cs + [e], rs + added, n) == Ok(entries[n]) {
      AddKeepsLookup(cs, rs, e, added, n);
    }
  }

  /** The writes of a company creation keep the cache right when the company's name is not cached. */
  lemma SaveScrapedCoherence(entries: map<string, ScrapedResult>, t: Tables, company: Company, ds: seq<Dividend>)
    requires TablesValid(t) && CacheCoherent(entries, t.companies, t.dividends.records)
    requires company.name !in entries
    ensures var c := SaveScraped(t, company, ds);
            CacheCoherent(entries, c.tables.companies, c.tables.dividends.records)
  {
    SaveScrapedSpec(t, company, ds);
    var e := CompanyEntity(t.companyNextId, company.ticker, company.name);
    var c := SaveScraped(t, company, ds);
    var added := c.tables.dividends.records[|t.dividends.records|..];
    assert c.tables.dividends.records == t.dividends.records + added;
    assert forall i :: 0 <= i < |added| ==> added[i].companyId == e.id;
    assert e.id !in Ids(t.companies);
    AddKeepsCoherence(entries, t.companies, t.dividends.records, e, added);
  }

  /**
   * Creating a company leaves a coherent cache coherent, unless the row it
   * appends carries a name the cache already holds.
   */
  lemma CreateCompanyCoherence(entries: map<string, ScrapedResult>, t: Tables, ticker: string, upstream: Upstream)
    requires TablesValid(t) && CacheCoherent(entries, t.companies, t.dividends.records)
    ensures var c := CreateCompany(t, ticker, upstream);
            var cs := c.tables.companies;
            cs == t.companies || (|cs| > 0 && cs[|cs| - 1].name !in entries) ==>
              CacheCoherent(entries, cs, c.tables.dividends.records)
  {
    CreateCompanyWrites(t, ticker, upstream);
    if !HasTicker(t.companies, ticker) && ScrapedDividends(ticker, upstream).Some? {
      var company := ScrapCompanyByTicker(ticker, upstream).value;
      var ds := ScrapedDividends(ticker, upstream).value;
      SaveScrapedSpec(t, company, ds);
      if company.name !in entries {
        SaveScrapedCoherence(entries, t, company, ds);
      }
    }
  }

  /**
   * The converse: when the new company's name is cached already, the cached
   * entry no longer agrees with the tables, since the name now has two rows.
   */
  lemma AddDuplicateNameStale(entries: map<string, ScrapedResult>, cs: seq<CompanyEntity>, rs: seq<DividendEntity>,
                              e: CompanyEntity, added: seq<DividendEntity>)
    requires CacheCoherent(entries, cs, rs)
    requires e.name in entries
    ensures Lookup(cs + [e], rs + added, e.name) == Err(NonUniqueResult(e.name))
    ensures !CacheCoherent(entries, cs + [e], rs + added)
  {
    NamedAppend(cs, e, e.name);
    assert Lookup(cs, rs, e.name).Ok?;
  }

  // ================================================================ the services

  class CompanyService {
    const trie: Trie
    const companyRepository: CompanyRepository
    const dividendRepository: DividendRepository

    constructor (trie: Trie, companyRepository: CompanyRepository, dividendRepository: DividendRepository)
      ensures this.trie == trie
      ensures this.companyRepository == companyRepository
      ensures this.dividendRepository == dividendRepository
    {
      this.trie := trie;
      this.companyRepository := companyRepository;
      this.dividendRepository := dividendRepository;
    }

    function Snapshot(): Tables
      reads companyRepository, dividendRepository
    {
      Tables(companyRepository.companies, companyRepository.nextId, dividendRepository.Store())
    }

    ghost predicate Valid()
      reads companyRepository, dividendRepository
    {
      TablesValid(Snapshot())
    }

    /** save(ticker): refuse a known ticker, otherwise storeCompanyAndDividend. */
    method Save(ticker: string, upstream: Upstream) returns (r: Result<Company, Failure>)
      requires Valid()
      modifies companyRepository, dividendRepository
      ensures Valid()
      ensures Creation(Snapshot(), r) == CreateCompany(old(Snapshot()), ticker, upstream)
    {
      if HasTicker(companyRepository.companies, ticker) {
        return Err(AlreadyExistsTicker(ticker));
      }
      r := StoreCompanyAndDividend(ticker, upstream);
    }

    /** storeCompanyAndDividend: resolve, scrape, save the row, save the batch, return the scraped company. */
    method StoreCompanyAndDividend(ticker: string, upstream: Upstream) returns (r: Result<Company, Failure>)
      requires Valid() && !HasTicker(companyRepository.companies, ticker)
      modifies companyRepository, dividendRepository
      ensures Valid()
      ensures Creation(Snapshot(), r) == CreateCompany(old(Snapshot()), ticker, upstream)
    {
      ghost var before := Snapshot();
      CreateCompanyValid(before, ticker, upstream);
      var company := ScrapCompanyByTicker(ticker, upstream);
      if company.Err? {
        return Err(company.error);
      }
      var scraped := Scrap(company.value, upstream);
      if scraped.Err? {
        return Err(scraped.error);
      }
      var entity := companyRepository.Save(company.value);
      var es := NewRecords(entity.id, scraped.value.dividends);
      var saved := dividendRepository.SaveAll(es);
      if saved.Err? {
        return Err(saved.error);
      }
      r := Ok(company.value);
    }

    /** addAutoCompleteKeyword: put the key in the trie. */
    method AddAutoCompleteKeyword(keyword: string)
      modifies trie
      ensures trie.keys == old(trie.keys) + {keyword}
    {
      trie.Put(keyword);
    }

    /** autoComplete: the trie keys that start with the keyword. */
    function AutoComplete(keyword: string): (r: set<string>)
      reads trie
      ensures forall k :: k in r <==> k in trie.keys && keyword <= k
    {
      trie.PrefixKeys(keyword)
    }

    /** deleteAutoCompleteKeyword: remove exactly that key. */
    method DeleteAutoCompleteKeyword(keyword: string)
      modifies trie
      ensures trie.keys == old(trie.keys) - {keyword}
    {
      trie.Remove(keyword);
    }

    /**
     * getCompanyNamesByKeyword: the first page of 10 case-insensitive prefix
     * matches by ascending name: at most 10, sorted, each a stored company's
     * name starting with the keyword.
     */
    function GetCompanyNamesByKeyword(keyword: string): (r: seq<string>)
      reads companyRepository
      ensures |r| <= 10
      ensures Sorted(r)
      ensures forall i :: 0 <= i < |r| ==> r[i] in Names(companyRepository.companies) && StartsWithIgnoreCase(r[i], keyword)
    {
      var cs := companyRepository.companies;
      FirstNamesStartingWithSize(cs, keyword, 10);
      assert forall i :: 0 <= i < |FirstNamesStartingWith(cs, keyword, 10)| ==>
        var x := FirstNamesStartingWith(cs, keyword, 10)[i];
        x in multiset(MatchingNames(Names(cs), keyword));
      FirstNamesStartingWith(cs, keyword, 10)
    }

    /** deleteCompany(ticker): dividends, then the row, then the trie key; the name is returned. */
    method DeleteCompany(ticker: string) returns (r: Result<string, Failure>)
      requires Valid()
      modifies companyRepository, dividendRepository, trie
      ensures Valid()
      ensures var d := DeleteByTicker(old(Snapshot()), ticker);
              && Snapshot() == d.tables
              && (d.result.Err? ==> r == Err(d.result.error) && trie.keys == old(trie.keys))
              && (d.result.Ok? ==> r == Ok(d.result.value.name) && trie.keys == old(trie.keys) - {d.result.value.name})
    {
      DeleteByTickerValid(Snapshot(), ticker);
      var found := FindByTicker(companyRepository.companies, ticker);
      if found.None? {
        return Err(NoCompany);
      }
      var company := found.value;
      dividendRepository.DeleteAllByCompanyId(company.id);
      companyRepository.Delete(company);
      DeleteAutoCompleteKeyword(company.name);
      r := Ok(company.name);
    }
  }

  class FinanceService {
    const companyRepository: CompanyRepository
    const dividendRepository: DividendRepository
    const cache: FinanceCache

    constructor (companyRepository: CompanyRepository, dividendRepository: DividendRepository, cache: FinanceCache)
      ensures this.companyRepository == companyRepository
      ensures this.dividendRepository == dividendRepository
      ensures this.cache == cache
    {
      this.companyRepository := companyRepository;
      this.dividendRepository := dividendRepository;
      this.cache := cache;
    }

    /**
     * getdividendByCompanyName with its read-through cache: a hit returns the
     * cached result; a miss computes the lookup and caches a successful
     * answer under the name. The tables are only read. A coherent cache
     * makes the answer the lookup's and stays coherent.
     */
    method GetDividendByCompanyName(companyName: string) returns (r: Result<ScrapedResult, Failure>)
      modifies cache
      ensures companyName in old(cache.entries) ==> r == Ok(old(cache.entries)[companyName]) && cache.entries == old(cache.entries)
      ensures companyName !in old(cache.entries) ==>
                && r == Lookup(companyRepository.companies, dividendRepository.records, companyName)
                && cache.entries == (if r.Ok? then old(cache.entries)[companyName := r.value] else old(cache.entries))
      ensures CacheCoherent(old(cache.entries), companyRepository.companies, dividendRepository.records) ==>
                && r == Lookup(companyRepository.companies, dividendRepository.records, companyName)
                && CacheCoherent(cache.entries, companyRepository.companies, dividendRepository.records)
    {
      if companyName in cache.entries {
        return Ok(cache.entries[companyName]);
      }
      var found := FindByName(companyRepository.companies, companyName);
      if found.Err? {
        return Err(found.error);
      }
      if found.value.None? {
        return Err(NoCompany);
      }
      var company := found.value.value;
      var own := WithCompany(dividendRepository.records, company.id);
      var dividends := ToDividends(own);
      r := Ok(ScrapedResult(Company(company.ticker, company.name), dividends));
      cache.Put(companyName, r.value);
    }
  }
}
