/**
 * The persisted records. DividendEntity is immutable once built: the
 * constructor copies three values and the store assigns the identifier.
 */
module Entity {
  import opened Wrappers
  import opened Model

  /** A stored company; the store assigns its id. */
  datatype CompanyEntity = CompanyEntity(id: nat, ticker: string, name: string)

  /**
   * A stored dividend. Every field but id is non-null by type; id is None
   * until the store assigns it.
   */
  datatype DividendEntity = DividendEntity(id: Option<nat>, companyId: nat, date: LocalDateTime, dividend: string)

  /** new DividendEntity(companyId, dividend). */
  function NewDividendEntity(companyId: nat, d: Dividend): DividendEntity
  {
    DividendEntity(None, companyId, d.date, d.dividend)
  }

  /** new Dividend(e.getDate(), e.getDividend()), the read-side mapping. */
  function ToDividend(e: DividendEntity): Dividend
  {
    Dividend(e.date, e.dividend)
  }

  /**
   * The constructor keeps the company id as given, leaves the id unset, and
   * what the read side maps back is the very dividend that went in: same
   * date, same amount string.
   */
  lemma NewDividendEntityRoundTrip(companyId: nat, d: Dividend)
    ensures NewDividendEntity(companyId, d).companyId == companyId
    ensures NewDividendEntity(companyId, d).id == None
    ensures ToDividend(NewDividendEntity(companyId, d)) == d
  {
  }

  /** Two records collide under the (companyId, date) unique constraint. */
  predicate SameKey(a: DividendEntity, b: DividendEntity)
  {
    a.companyId == b.companyId && a.date == b.date
  }

  /** The table's unique constraint on (companyId, date). */
  predicate UniqueKeys(rs: seq<DividendEntity>)
  {
    forall i, j :: 0 <= i < j < |rs| ==> !SameKey(rs[i], rs[j])
  }

  predicate HasKey(rs: seq<DividendEntity>, companyId: nat, date: LocalDateTime)
  {
    exists i :: 0 <= i < |rs| && rs[i].companyId == companyId && rs[i].date == date
  }

  /** How many records carry the pair (companyId, date). */
  function CountKey(rs: seq<DividendEntity>, companyId: nat, date: LocalDateTime): nat
  {
    if rs == [] then 0
    else
      var last := rs[|rs| - 1];
      CountKey(rs[..|rs| - 1], companyId, date) + (if last.companyId == companyId && last.date == date then 1 else 0)
  }

  lemma {:induction false} CountKeyPositive(rs: seq<DividendEntity>, i: nat)
    requires i < |rs|
    ensures CountKey(rs, rs[i].companyId, rs[i].date) >= 1
  {
    if i < |rs| - 1 {
      CountKeyPositive(rs[..|rs| - 1], i);
    }
  }

  lemma {:induction false} CountKeyZero(rs: seq<DividendEntity>, companyId: nat, date: LocalDateTime)
    requires !HasKey(rs, companyId, date)
    ensures CountKey(rs, companyId, date) == 0
  {
    if rs != [] {
      var p := rs[..|rs| - 1];
      assert forall i :: 0 <= i < |p| ==> p[i] == rs[i];
      CountKeyZero(p, companyId, date);
    }
  }

  /**
   * The unique constraint means what it says: the records satisfy it exactly
   * when no (companyId, date) pair is carried by more than one record.
   */
  lemma {:induction false} UniqueKeysIffAtMostOne(rs: seq<DividendEntity>)
    ensures UniqueKeys(rs) <==> forall c: nat, d: LocalDateTime :: CountKey(rs, c, d) <= 1
  {
    if UniqueKeys(rs) {
      forall c: nat, d: LocalDateTime ensures CountKey(rs, c, d) <= 1 {
        AtMostOne(rs, c, d);
      }
    } else {
      var i, j :| 0 <= i < j < |rs| && SameKey(rs[i], rs[j]);
      TwoWithKey(rs, i, j);
    }
  }

  lemma {:induction false} AtMostOne(rs: seq<DividendEntity>, c: nat, d: LocalDateTime)
    requires UniqueKeys(rs)
    ensures CountKey(rs, c, d) <= 1
  {
    if rs != [] {
      var p := rs[..|rs| - 1];
      assert UniqueKeys(p) by {
        forall i, j | 0 <= i < j < |p| ensures !SameKey(p[i], p[j]) {
          assert p[i] == rs[i] && p[j] == rs[j];
        }
      }
      var last := rs[|rs| - 1];
      if last.companyId == c && last.date == d {
        assert forall i :: 0 <= i < |p| ==> p[i] == rs[i] && !SameKey(rs[i], last);
        CountKeyZero(p, c, d);
      } else {
        AtMostOne(p, c, d);
      }
    }
  }

  lemma {:induction false} TwoWithKey(rs: seq<DividendEntity>, i: nat, j: nat)
    requires i < j < |rs| && SameKey(rs[i], rs[j])
    ensures CountKey(rs, rs[j].companyId, rs[j].date) >= 2
  {
    var p := rs[..|rs| - 1];
    if j == |rs| - 1 {
      assert p[i] == rs[i];
      CountKeyPositive(p, i);
    } else {
      assert p[i] == rs[i] && p[j] == rs[j];
      TwoWithKey(p, i, j);
    }
  }
}
