/**
 * The two repositories the core uses, as in-memory tables. Queries are
 * functions over the table contents; inserts and deletes are methods.
 * Identities are assigned from a counter, as an IDENTITY column does.
 */
module Persist {
  import opened Wrappers
  import opened Strings
  import opened Model
  import opened Entity

  // ================================================================ dividend table

  /** The contents of the dividend table and its next identity value. */
  datatype DividendStore = DividendStore(records: seq<DividendEntity>, nextId: nat)

  /** Unique (companyId, date) pairs, and distinct assigned identities below the counter. */
  ghost predicate WellFormed(s: DividendStore)
  {
    && UniqueKeys(s.records)
    && (forall i :: 0 <= i < |s.records| ==> s.records[i].id.Some? && s.records[i].id.value < s.nextId)
    && (forall i, j :: 0 <= i < j < |s.records| ==> s.records[i].id != s.records[j].id)
  }

  /** An insert: the record gets the next identity value and goes to the end of the table. */
  function Insert(s: DividendStore, e: DividendEntity): DividendStore
  {
    DividendStore(s.records + [e.(id := Some(s.nextId))], s.nextId + 1)
  }

  /** The check-then-insert of the ingestion loop: existsByCompanyIdAndDate, then save if absent. */
  function PersistIfNew(s: DividendStore, e: DividendEntity): DividendStore
  {
    if HasKey(s.records, e.companyId, e.date) then s else Insert(s, e)
  }

  /** Check-then-insert never breaks the unique constraint nor the identity discipline. */
  lemma PersistIfNewWellFormed(s: DividendStore, e: DividendEntity)
    requires WellFormed(s)
    ensures WellFormed(PersistIfNew(s, e))
    ensures HasKey(PersistIfNew(s, e).records, e.companyId, e.date)
  {
    var t := PersistIfNew(s, e);
    if !HasKey(s.records, e.companyId, e.date) {
      var n := |s.records|;
      assert t.records[n].companyId == e.companyId && t.records[n].date == e.date;
      forall i, j | 0 <= i < j < |t.records| ensures !SameKey(t.records[i], t.records[j]) {
        if j == n {
          assert t.records[i] == s.records[i];
        }
      }
    }
  }

  /**
   * The records of a batch insert: consecutive identity values from n. A
   * rejected batch leaves the counter where it was, whereas a database
   * IDENTITY column may consume values; no promise here depends on which.
   */
  function AssignIds(es: seq<DividendEntity>, n: nat): (r: seq<DividendEntity>)
    ensures |r| == |es|
    ensures forall k :: 0 <= k < |es| ==> r[k] == es[k].(id := Some(n + k))
  {
    if es == [] then [] else [es[0].(id := Some(n))] + AssignIds(es[1..], n + 1)
  }

  /** saveAll when it succeeds. */
  function InsertAll(s: DividendStore, es: seq<DividendEntity>): DividendStore
  {
    DividendStore(s.records + AssignIds(es, s.nextId), s.nextId + |es|)
  }

  /** A batch that respects the unique constraint leaves a well-formed table. */
  lemma InsertAllWellFormed(s: DividendStore, es: seq<DividendEntity>)
    requires WellFormed(s) && UniqueKeys(s.records + es)
    ensures WellFormed(InsertAll(s, es))
  {
    var t := InsertAll(s, es);
    var n := |s.records|;
    forall i, j | 0 <= i < j < |t.records| ensures !SameKey(t.records[i], t.records[j]) {
      assert SameKey(t.records[i], t.records[j]) == SameKey((s.records + es)[i], (s.records + es)[j]);
    }
  }

  /** findAllByCompanyId: the company's records in table order. */
  function WithCompany(rs: seq<DividendEntity>, companyId: nat): (r: seq<DividendEntity>)
    ensures |r| <= |rs|
    ensures forall e :: e in r <==> e in rs && e.companyId == companyId
  {
    if rs == [] then []
    else if rs[0].companyId == companyId then [rs[0]] + WithCompany(rs[1..], companyId)
    else WithCompany(rs[1..], companyId)
  }

  /** deleteAllByCompanyId: every other record, in table order. */
  function WithoutCompany(rs: seq<DividendEntity>, companyId: nat): (r: seq<DividendEntity>)
    ensures |r| <= |rs|
    ensures forall e :: e in r <==> e in rs && e.companyId != companyId
  {
    if rs == [] then []
    else if rs[0].companyId == companyId then WithoutCompany(rs[1..], companyId)
    else [rs[0]] + WithoutCompany(rs[1..], companyId)
  }

  /** Deleting one company's records keeps the table well formed. */
  lemma {:induction false} WithoutCompanyWellFormed(s: DividendStore, companyId: nat)
    requires WellFormed(s)
    ensures WellFormed(DividendStore(WithoutCompany(s.records, companyId), s.nextId))
    decreases |s.records|
  {
    if s.records != [] {
      var rest := DividendStore(s.records[1..], s.nextId);
      WithoutCompanyWellFormed(rest, companyId);
      var tail := WithoutCompany(s.records[1..], companyId);
      if s.records[0].companyId != companyId {
        var r := [s.records[0]] + tail;
        forall j | 1 <= j < |r| ensures !SameKey(r[0], r[j]) && r[0].id != r[j].id {
          assert r[j] in s.records[1..];
          var k :| 0 <= k < |s.records[1..]| && s.records[1..][k] == r[j];
          assert s.records[k + 1] == r[j];
        }
      }
    }
  }

  // ================================================================ company table

  /** Distinct identities, all below the counter. */
  ghost predicate CompaniesWellFormed(cs: seq<CompanyEntity>, nextId: nat)
  {
    && (forall i :: 0 <= i < |cs| ==> cs[i].id < nextId)
    && (forall i, j :: 0 <= i < j < |cs| ==> cs[i].id != cs[j].id)
  }

  function Ids(cs: seq<CompanyEntity>): set<nat>
  {
    set c | c in cs :: c.id
  }

  /** Every dividend record belongs to a stored company. */
  ghost predicate RefIntegrity(cs: seq<CompanyEntity>, rs: seq<DividendEntity>)
  {
    forall i :: 0 <= i < |rs| ==> rs[i].companyId in Ids(cs)
  }

  predicate HasTicker(cs: seq<CompanyEntity>, ticker: string)
  {
    exists i :: 0 <= i < |cs| && cs[i].ticker == ticker
  }

  /** No two stored companies share a ticker. */
  ghost predicate UniqueTickers(cs: seq<CompanyEntity>)
  {
    forall i, j :: 0 <= i < j < |cs| ==> cs[i].ticker != cs[j].ticker
  }

  /**
   * findByTicker: the first company with the ticker, if any. The Spring query
   * would throw on two matching rows, as FindByName models; here that case
   * cannot arise while tickers are unique (FindByTickerUnique).
   */
  function FindByTicker(cs: seq<CompanyEntity>, ticker: string): (r: Option<CompanyEntity>)
    ensures r.None? <==> !HasTicker(cs, ticker)
    ensures r.Some? ==> r.value in cs && r.value.ticker == ticker
  {
    if cs == [] then None
    else if cs[0].ticker == ticker then Some(cs[0])
    else
      var r := FindByTicker(cs[1..], ticker);
      assert HasTicker(cs[1..], ticker) ==> HasTicker(cs, ticker);
      assert HasTicker(cs, ticker) ==> HasTicker(cs[1..], ticker) by {
        if HasTicker(cs, ticker) {
          var i :| 0 <= i < |cs| && cs[i].ticker == ticker;
          assert cs[1..][i - 1] == cs[i];
        }
      }
      r
  }

  /** With unique tickers the company found is the only one carrying the ticker. */
  lemma FindByTickerUnique(cs: seq<CompanyEntity>, ticker: string, c: CompanyEntity)
    requires UniqueTickers(cs)
    requires c in cs && c.ticker == ticker
    ensures FindByTicker(cs, ticker) == Some(c)
  {
    var f := FindByTicker(cs, ticker).value;
    var i :| 0 <= i < |cs| && cs[i] == c;
    var j :| 0 <= j < |cs| && cs[j] == f;
    assert i == j;
  }

  /** The companies with the given name, in table order. */
  function Named(cs: seq<CompanyEntity>, name: string): (r: seq<CompanyEntity>)
    ensures forall c :: c in r <==> c in cs && c.name == name
  {
    if cs == [] then []
    else if cs[0].name == name then [cs[0]] + Named(cs[1..], name)
    else Named(cs[1..], name)
  }

  /**
   * findByName, an Optional-returning derived query: no row is empty, one row
   * is that company, several rows are an IncorrectResultSizeDataAccessException.
   */
  function FindByName(cs: seq<CompanyEntity>, name: string): Result<Option<CompanyEntity>, Failure>
  {
    var m := Named(cs, name);
    if |m| == 0 then Ok(None) else if |m| == 1 then Ok(Some(m[0])) else Err(NonUniqueResult(name))
  }

  /** delete(company): the table without the row of that identity. */
  function RemoveCompany(cs: seq<CompanyEntity>, id: nat): (r: seq<CompanyEntity>)
    ensures |r| <= |cs|
    ensures forall c :: c in r <==> c in cs && c.id != id
  {
    if cs == [] then []
    else if cs[0].id == id then RemoveCompany(cs[1..], id)
    else [cs[0]] + RemoveCompany(cs[1..], id)
  }

  lemma {:induction false} RemoveCompanyWellFormed(cs: seq<CompanyEntity>, nextId: nat, id: nat)
    requires CompaniesWellFormed(cs, nextId)
    ensures CompaniesWellFormed(RemoveCompany(cs, id), nextId)
  {
    if cs != [] {
      var tail := cs[1..];
      assert forall i :: 0 <= i < |tail| ==> tail[i] == cs[i + 1];
      RemoveCompanyWellFormed(tail, nextId, id);
      if cs[0].id != id {
        var r := [cs[0]] + RemoveCompany(tail, id);
        forall j | 1 <= j < |r| ensures r[0].id != r[j].id {
          assert r[j] in tail;
        }
      }
    }
  }

  lemma {:induction false} RemoveCompanyUniqueTickers(cs: seq<CompanyEntity>, id: nat)
    requires UniqueTickers(cs)
    ensures UniqueTickers(RemoveCompany(cs, id))
  {
    if cs != [] {
      var tail := cs[1..];
      assert forall i :: 0 <= i < |tail| ==> tail[i] == cs[i + 1];
      RemoveCompanyUniqueTickers(tail, id);
      if cs[0].id != id {
        var r := [cs[0]] + RemoveCompany(tail, id);
        forall j | 1 <= j < |r| ensures r[0].ticker != r[j].ticker {
          assert r[j] in tail;
        }
      }
    }
  }

  // ================================================================ name search

  function Names(cs: seq<CompanyEntity>): (r: seq<string>)
    ensures |r| == |cs| && forall i :: 0 <= i < |cs| ==> r[i] == cs[i].name
  {
    if cs == [] then [] else [cs[0].name] + Names(cs[1..])
  }

  /** The names accepted by findByNameStartingWithIgnoreCase, in table order. */
  function MatchingNames(names: seq<string>, keyword: string): (r: seq<string>)
    ensures forall x :: x in r ==> x in names && StartsWithIgnoreCase(x, keyword)
    ensures multiset(r) <= multiset(names)
    ensures forall x :: StartsWithIgnoreCase(x, keyword) ==> multiset(r)[x] == multiset(names)[x]
  {
    if names == [] then []
    else
      assert names == [names[0]] + names[1..];
      if StartsWithIgnoreCase(names[0], keyword) then [names[0]] + MatchingNames(names[1..], keyword)
      else MatchingNames(names[1..], keyword)
  }

  /** Every pair in order, not just neighbours. */
  predicate Sorted(s: seq<string>)
  {
    forall i, j :: 0 <= i < j < |s| ==> LessEq(s[i], s[j])
  }

  function InsertSorted(x: string, s: seq<string>): seq<string>
  {
    if s == [] then [x]
    else if LessEq(x, s[0]) then [x] + s
    else [s[0]] + InsertSorted(x, s[1..])
  }

  /** Insertion into a sorted sequence keeps it sorted and adds exactly the one element. */
  lemma InsertSortedSpec(x: string, s: seq<string>)
    requires Sorted(s)
    ensures Sorted(InsertSorted(x, s))
    ensures multiset(InsertSorted(x, s)) == multiset(s) + multiset{x}
  {
    InsertSortedMultiset(x, s);
    InsertSortedSorted(x, s);
  }

  lemma {:induction false} InsertSortedMultiset(x: string, s: seq<string>)
    ensures multiset(InsertSorted(x, s)) == multiset(s) + multiset{x}
  {
    if s != [] && !LessEq(x, s[0]) {
      InsertSortedMultiset(x, s[1..]);
      assert s == [s[0]] + s[1..];
    }
  }

  lemma {:induction false} InsertSortedSorted(x: string, s: seq<string>)
    requires Sorted(s)
    ensures Sorted(InsertSorted(x, s))
  {
    if s == [] {
    } else if LessEq(x, s[0]) {
      LessEqReflexive(s[0]);
      InsertLeast(x, s);
    } else {
      LessEqTotal(x, s[0]);
      var tail := s[1..];
      SortedTail(s);
      InsertSortedSorted(x, tail);
      InsertSortedMultiset(x, tail);
      var t := InsertSorted(x, tail);
      forall k | 0 <= k < |t| ensures LessEq(s[0], t[k]) {
        assert t[k] in multiset(t);
        if t[k] != x {
          assert t[k] in multiset(tail);
          var m :| 0 <= m < |tail| && tail[m] == t[k];
          assert s[m + 1] == t[k];
        }
      }
      SortedCons(s[0], t);
    }
  }

  lemma SortedTail(s: seq<string>)
    requires Sorted(s) && s != []
    ensures Sorted(s[1..])
  {
    var tail := s[1..];
    forall i, j | 0 <= i < j < |tail| ensures LessEq(tail[i], tail[j]) {
      assert tail[i] == s[i + 1] && tail[j] == s[j + 1];
    }
  }

  /** An element no greater than any element of a sorted sequence can go in front of it. */
  lemma SortedCons(a: string, t: seq<string>)
    requires Sorted(t)
    requires forall k :: 0 <= k < |t| ==> LessEq(a, t[k])
    ensures Sorted([a] + t)
  {
    var r := [a] + t;
    forall i, j | 0 <= i < j < |r| ensures LessEq(r[i], r[j]) {
      if i > 0 {
        assert r[i] == t[i - 1] && r[j] == t[j - 1];
      } else {
        assert r[j] == t[j - 1];
      }
    }
  }

  /** Placing an element before a sorted sequence whose first element is not smaller keeps it sorted. */
  lemma InsertLeast(x: string, s: seq<string>)
    requires Sorted(s) && s != [] && LessEq(x, s[0])
    requires forall k :: 0 <= k < |s| ==> LessEq(s[0], s[k])
    ensures Sorted([x] + s)
  {
    forall k | 0 <= k < |s| ensures LessEq(x, s[k]) {
      LessEqTransitive(x, s[0], s[k]);
    }
    SortedCons(x, s);
  }

  lemma {:induction false} LessEqReflexive(a: string)
    ensures LessEq(a, a)
  {
    if a != [] {
      LessEqReflexive(a[1..]);
    }
  }

  lemma {:induction false} LessEqTransitive(a: string, b: string, c: string)
    requires LessEq(a, b) && LessEq(b, c)
    ensures LessEq(a, c)
  {
    if a != [] && b != [] && c != [] && a[0] == b[0] && b[0] == c[0] {
      LessEqTransitive(a[1..], b[1..], c[1..]);
    }
  }

  /** ORDER BY name ascending. */
  function SortNames(s: seq<string>): (r: seq<string>)
    ensures Sorted(r)
    ensures multiset(r) == multiset(s)
  {
    if s == [] then []
    else
      assert s == [s[0]] + s[1..];
      InsertSortedSpec(s[0], SortNames(s[1..]));
      InsertSorted(s[0], SortNames(s[1..]))
  }

  function Take(s: seq<string>, n: nat): (r: seq<string>)
  {
    if |s| <= n then s else s[..n]
  }

  /** The first page of a sorted, limited findByNameStartingWithIgnoreCase, mapped to names. */
  function FirstNamesStartingWith(cs: seq<CompanyEntity>, keyword: string, limit: nat): seq<string>
  {
    Take(SortNames(MatchingNames(Names(cs), keyword)), limit)
  }

  /** The page is a prefix of the sorted matches, as long as the limit allows. */
  lemma FirstNamesIsPrefix(m: seq<string>, limit: nat)
    ensures var sorted := SortNames(m);
            |sorted| == |m| && Take(sorted, limit) == sorted[..if |m| <= limit then |m| else limit]
  {
    var sorted := SortNames(m);
    assert |multiset(sorted)| == |multiset(m)|;
  }

  /**
   * Nothing that matches is lost: a stored name starting with the keyword is
   * on the page unless the page is full.
   */
  lemma FirstNamesStartingWithComplete(cs: seq<CompanyEntity>, keyword: string, limit: nat, x: string)
    requires x in Names(cs) && StartsWithIgnoreCase(x, keyword)
    ensures var r := FirstNamesStartingWith(cs, keyword, limit);
            x in r || |r| == limit
  {
    var m := MatchingNames(Names(cs), keyword);
    assert multiset(m)[x] == multiset(Names(cs))[x];
    assert x in multiset(m);
    var sorted := SortNames(m);
    FirstNamesIsPrefix(m, limit);
    if |m| <= limit {
      assert sorted[..|m|] == sorted;
      assert x in multiset(sorted);
    }
  }

  /**
   * The page holds at most `limit` names, as many as there are matches up to
   * the limit, in ascending order, each drawn from the matches.
   */
  lemma FirstNamesStartingWithSize(cs: seq<CompanyEntity>, keyword: string, limit: nat)
    ensures var r := FirstNamesStartingWith(cs, keyword, limit);
            var m := MatchingNames(Names(cs), keyword);
            && |r| == (if |m| <= limit then |m| else limit)
            && Sorted(r)
            && multiset(r) <= multiset(m)
  {
    var m := MatchingNames(Names(cs), keyword);
    var sorted := SortNames(m);
    FirstNamesIsPrefix(m, limit);
    var n := if |m| <= limit then |m| else limit;
    SortedPrefix(sorted, n);
    MultisetPrefix(sorted, n);
  }

  lemma SortedPrefix(s: seq<string>, n: nat)
    requires Sorted(s) && n <= |s|
    ensures Sorted(s[..n])
  {
    var p := s[..n];
    forall i, j | 0 <= i < j < |p| ensures LessEq(p[i], p[j]) {
      assert p[i] == s[i] && p[j] == s[j];
    }
  }

  lemma MultisetPrefix(s: seq<string>, n: nat)
    requires n <= |s|
    ensures multiset(s[..n]) <= multiset(s)
  {
    assert s == s[..n] + s[n..];
    assert multiset(s) == multiset(s[..n]) + multiset(s[n..]);
  }

  /** Each name on the page is the name of a stored company and starts with the keyword, ignoring case. */
  lemma FirstNamesStartingWithMatch(cs: seq<CompanyEntity>, keyword: string, limit: nat, i: nat)
    requires i < |FirstNamesStartingWith(cs, keyword, limit)|
    ensures var x := FirstNamesStartingWith(cs, keyword, limit)[i];
            StartsWithIgnoreCase(x, keyword) && exists c :: c in cs && c.name == x
  {
    var m := MatchingNames(Names(cs), keyword);
    var r := FirstNamesStartingWith(cs, keyword, limit);
    FirstNamesStartingWithSize(cs, keyword, limit);
    assert r[i] in multiset(r);
    assert r[i] in m;
    assert r[i] in Names(cs);
    var k :| 0 <= k < |Names(cs)| && Names(cs)[k] == r[i];
    assert cs[k] in cs && cs[k].name == r[i];
  }

  /** In a sorted sequence, whatever lies beyond a prefix sorts at or after everything in it. */
  lemma SortedPrefixSmallest(sorted: seq<string>, n: nat, x: string)
    requires Sorted(sorted) && n <= |sorted|
    requires x in multiset(sorted) - multiset(sorted[..n])
    ensures forall i :: 0 <= i < n ==> LessEq(sorted[i], x)
  {
    var tail := sorted[n..];
    assert sorted[..n] + tail == sorted;
    assert multiset(sorted) == multiset(sorted[..n]) + multiset(tail);
    assert x in multiset(tail);
    var k :| 0 <= k < |tail| && tail[k] == x;
    assert sorted[n + k] == x;
  }

  /** Every match left off the page sorts at or after every name on it: the page holds the smallest ones. */
  lemma FirstNamesStartingWithSmallest(cs: seq<CompanyEntity>, keyword: string, limit: nat, x: string)
    requires x in multiset(MatchingNames(Names(cs), keyword)) - multiset(FirstNamesStartingWith(cs, keyword, limit))
    ensures var r := FirstNamesStartingWith(cs, keyword, limit);
            forall i :: 0 <= i < |r| ==> LessEq(r[i], x)
  {
    var m := MatchingNames(Names(cs), keyword);
    var sorted := SortNames(m);
    FirstNamesIsPrefix(m, limit);
    var r := FirstNamesStartingWith(cs, keyword, limit);
    SortedPrefixSmallest(sorted, |r|, x);
  }

  // ================================================================ repositories

  /** CompanyRepository over an in-memory table. */
  class CompanyRepository {
    var companies: seq<CompanyEntity>
    var nextId: nat

    ghost predicate Valid()
      reads this
    {
      CompaniesWellFormed(companies, nextId)
    }

    constructor ()
      ensures Valid() && companies == []
    {
      companies := [];
      nextId := 1;
    }

    /** save(new CompanyEntity(company)): the row gets the next identity value. */
    method Save(company: Company) returns (e: CompanyEntity)
      requires Valid()
      modifies this
      ensures Valid()
      ensures e == CompanyEntity(old(nextId), company.ticker, company.name)
      ensures companies == old(companies) + [e] && nextId == old(nextId) + 1
    {
      e := CompanyEntity(nextId, company.ticker, company.name);
      companies := companies + [e];
      nextId := nextId + 1;
    }

    /** delete(company): removes the row with that identity. */
    method Delete(e: CompanyEntity)
      requires Valid()
      modifies this
      ensures Valid()
      ensures companies == RemoveCompany(old(companies), e.id) && nextId == old(nextId)
    {
      RemoveCompanyWellFormed(companies, nextId, e.id);
      companies := RemoveCompany(companies, e.id);
    }
  }

  /** DividendRepository over an in-memory table with the (companyId, date) unique constraint. */
  class DividendRepository {
    var records: seq<DividendEntity>
    var nextId: nat

    function Store(): DividendStore
      reads this
    {
      DividendStore(records, nextId)
    }

    ghost predicate Valid()
      reads this
    {
      WellFormed(Store())
    }

    constructor ()
      ensures Valid() && records == []
    {
      records := [];
      nextId := 1;
    }

    /** save of a new entity: inserted, or rejected by the unique constraint with nothing changed. */
    method Save(e: DividendEntity) returns (r: Result<DividendEntity, Failure>)
      requires Valid() && e.id.None?
      modifies this
      ensures Valid()
      ensures HasKey(old(records), e.companyId, e.date) ==> r == Err(UniqueViolation) && Store() == old(Store())
      ensures !HasKey(old(records), e.companyId, e.date) ==>
                r == Ok(e.(id := Some(old(nextId)))) && Store() == Insert(old(Store()), e)
    {
      if HasKey(records, e.companyId, e.date) {
        r := Err(UniqueViolation);
      } else {
        PersistIfNewWellFormed(Store(), e);
        r := Ok(e.(id := Some(nextId)));
        records, nextId := records + [r.value], nextId + 1;
      }
    }

    /** saveAll of new entities, in one transaction: all inserted, or none if the constraint rejects any. */
    method SaveAll(es: seq<DividendEntity>) returns (r: Result<seq<DividendEntity>, Failure>)
      requires Valid()
      requires forall k :: 0 <= k < |es| ==> es[k].id.None?
      modifies this
      ensures Valid()
      ensures UniqueKeys(old(records) + es) ==>
                r == Ok(AssignIds(es, old(nextId))) && Store() == InsertAll(old(Store()), es)
      ensures !UniqueKeys(old(records) + es) ==> r == Err(UniqueViolation) && Store() == old(Store())
    {
      if UniqueKeys(records + es) {
        InsertAllWellFormed(Store(), es);
        r := Ok(AssignIds(es, nextId));
        records, nextId := records + r.value, nextId + |es|;
      } else {
        r := Err(UniqueViolation);
      }
    }

    /** deleteAllByCompanyId. */
    method DeleteAllByCompanyId(companyId: nat)
      requires Valid()
      modifies this
      ensures Valid()
      ensures records == WithoutCompany(old(records), companyId) && nextId == old(nextId)
    {
      WithoutCompanyWellFormed(Store(), companyId);
      records := WithoutCompany(records, companyId);
    }
  }

  /** Both tables well formed, and every dividend record points at a stored company. */
  ghost predicate StoreValid(cr: CompanyRepository, dr: DividendRepository)
    reads cr, dr
  {
    cr.Valid() && dr.Valid() && RefIntegrity(cr.companies, dr.records)
  }
}
