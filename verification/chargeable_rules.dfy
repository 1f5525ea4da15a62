/** The chargeable business rule (app/domain/business_rules_chargeable.py): three filters in a
    fixed order split the usage report into the billable rows and two error reports. */
module ChargeableRules {

  import opened Wrappers
  import opened Seqs
  import opened Frames

  /** The columns the chargeable filters read. */
  const ChargeableRequired: seq<Column> := [PartNumber, ItemCount, PartnerID]

  /** Where a row ends up. The filters run in this order, so a row without a part number is
      reported as such even when its item count is not positive. */
  datatype Fate = NoPartNumber | MissingCount | NonPositiveCount | SkipListed | Kept

  function FateOf(x: Row, skip: seq<int>): Fate
  {
    if x.partNumber.None? then NoPartNumber
    else if x.itemCount.None? then MissingCount
    else if x.itemCount.value <= 0 then NonPositiveCount
    else if x.partnerID in skip then SkipListed
    else Kept
  }

  /** The rows of a given fate, in their original order: the reference the filters are
      checked against. */
  function WithFate(rows: seq<Row>, skip: seq<int>, f: Fate): seq<Row>
  {
    Filter((x: Row) => FateOf(x, skip) == f, rows)
  }

  /** A row with a part number whose item count is missing or not positive. */
  predicate CountError(x: Row, skip: seq<int>)
  {
    FateOf(x, skip) == MissingCount || FateOf(x, skip) == NonPositiveCount
  }

  /** The rows the item-count error report is meant to hold, in their original order. */
  function CountErrors(rows: seq<Row>, skip: seq<int>): seq<Row>
  {
    Filter((x: Row) => CountError(x, skip), rows)
  }

  /** The billable rows and the two error reports. Skip-listed rows go nowhere. */
  datatype Split = Split(kept: Table, noPartNumber: Table, nonPositive: Table)

  /** The mask `itemCount > 0`. A missing count compares false. */
  predicate CountPositive(x: Row)
  {
    x.itemCount.Some? && x.itemCount.value > 0
  }

  /** The mask `itemCount <= 0`. A missing count compares false here too. */
  predicate CountAtMostZero(x: Row)
  {
    x.itemCount.Some? && x.itemCount.value <= 0
  }

  /** The rule as the source writes it: the error report selects `itemCount <= 0` while the
      billable rows keep `itemCount > 0`, so a row with a part number and a missing count is
      in neither. */
  function FilterChargeableAsWritten(t: Table, skip: seq<int>): (r: Result<Split, Error>)
    ensures r.Success? <==> forall c :: c in ChargeableRequired ==> c in t.columns
    ensures r.Failure? ==> r.error == MissingColumns(Missing(t.columns, ChargeableRequired))
    ensures r.Success? ==>
      && r.value.kept.columns == t.columns
      && r.value.noPartNumber.columns == t.columns
      && r.value.nonPositive.columns == t.columns
    ensures r.Success? ==>
      && r.value.kept.rows == WithFate(t.rows, skip, Kept)
      && r.value.noPartNumber.rows == WithFate(t.rows, skip, NoPartNumber)
      && r.value.nonPositive.rows == WithFate(t.rows, skip, NonPositiveCount)
  {
    var _ :- RequireColumns(t, ChargeableRequired);
    var noPart := Filter((x: Row) => x.partNumber.None?, t.rows);
    var withPart := Filter((x: Row) => x.partNumber.Some?, t.rows);
    var nonPositive := Filter(CountAtMostZero, withPart);
    var positive := Filter(CountPositive, withPart);
    var kept := Filter((x: Row) => x.partnerID !in skip, positive);
    MasksSelectFates(t.rows, skip);
    Success(Split(Table(t.columns, kept), Table(t.columns, noPart), Table(t.columns, nonPositive)))
  }

  /** The rule as intended: the error report takes every row with a part number that the
      `itemCount > 0` mask drops, so a missing count is reported with the non-positive ones. */
  function FilterChargeable(t: Table, skip: seq<int>): (r: Result<Split, Error>)
    ensures r.Success? <==> forall c :: c in ChargeableRequired ==> c in t.columns
    ensures r.Failure? ==> r.error == MissingColumns(Missing(t.columns, ChargeableRequired))
    ensures r.Success? ==>
      && r.value.kept.columns == t.columns
      && r.value.noPartNumber.columns == t.columns
      && r.value.nonPositive.columns == t.columns
    ensures r.Success? ==>
      && r.value.kept.rows == WithFate(t.rows, skip, Kept)
      && r.value.noPartNumber.rows == WithFate(t.rows, skip, NoPartNumber)
      && r.value.nonPositive.rows == CountErrors(t.rows, skip)
  {
    var _ :- RequireColumns(t, ChargeableRequired);
    var noPart := Filter((x: Row) => x.partNumber.None?, t.rows);
    var withPart := Filter((x: Row) => x.partNumber.Some?, t.rows);
    var nonPositive := Filter((x: Row) => !CountPositive(x), withPart);
    var positive := Filter(CountPositive, withPart);
    var kept := Filter((x: Row) => x.partnerID !in skip, positive);
    MasksSelectFates(t.rows, skip);
    Success(Split(Table(t.columns, kept), Table(t.columns, noPart), Table(t.columns, nonPositive)))
  }

  /** Each successive mask selects exactly the rows of one fate, or of the count errors. */
  lemma MasksSelectFates(rows: seq<Row>, skip: seq<int>)
    ensures Filter((x: Row) => x.partNumber.None?, rows) == WithFate(rows, skip, NoPartNumber)
    ensures Filter(CountAtMostZero, Filter((x: Row) => x.partNumber.Some?, rows))
            == WithFate(rows, skip, NonPositiveCount)
    ensures Filter((x: Row) => !CountPositive(x), Filter((x: Row) => x.partNumber.Some?, rows))
            == CountErrors(rows, skip)
    ensures Filter((x: Row) => x.partnerID !in skip,
                   Filter(CountPositive, Filter((x: Row) => x.partNumber.Some?, rows)))
            == WithFate(rows, skip, Kept)
  {
    FilterCongruent((x: Row) => x.partNumber.None?, (x: Row) => FateOf(x, skip) == NoPartNumber, rows);
    NonPositiveMask(rows, skip);
    CountErrorMask(rows, skip);
    KeptMasks(rows, skip);
  }

  lemma NonPositiveMask(rows: seq<Row>, skip: seq<int>)
    ensures Filter(CountAtMostZero, Filter((x: Row) => x.partNumber.Some?, rows))
            == WithFate(rows, skip, NonPositiveCount)
  {
    FilterFuse((x: Row) => x.partNumber.Some?, CountAtMostZero, (x: Row) => FateOf(x, skip) == NonPositiveCount, rows);
  }

  lemma CountErrorMask(rows: seq<Row>, skip: seq<int>)
    ensures Filter((x: Row) => !CountPositive(x), Filter((x: Row) => x.partNumber.Some?, rows))
            == CountErrors(rows, skip)
  {
    FilterFuse((x: Row) => x.partNumber.Some?, (x: Row) => !CountPositive(x), (x: Row) => CountError(x, skip), rows);
  }

  lemma KeptMasks(rows: seq<Row>, skip: seq<int>)
    ensures Filter((x: Row) => x.partnerID !in skip,
                   Filter(CountPositive, Filter((x: Row) => x.partNumber.Some?, rows)))
            == WithFate(rows, skip, Kept)
  {
    var billable := (x: Row) => x.partNumber.Some? && CountPositive(x);
    FilterFuse((x: Row) => x.partNumber.Some?, CountPositive, billable, rows);
    FilterFuse(billable, (x: Row) => x.partnerID !in skip, (x: Row) => FateOf(x, skip) == Kept, rows);
  }

  /** Every row has exactly one fate: the five selections together are a permutation of the
      input, so the counts add up and no row is duplicated. */
  lemma FatesPartition(rows: seq<Row>, skip: seq<int>)
    ensures multiset(WithFate(rows, skip, Kept)) + multiset(WithFate(rows, skip, NoPartNumber))
            + multiset(WithFate(rows, skip, MissingCount)) + multiset(WithFate(rows, skip, NonPositiveCount))
            + multiset(WithFate(rows, skip, SkipListed))
            == multiset(rows)
  {
    var a := multiset(WithFate(rows, skip, Kept)) + multiset(WithFate(rows, skip, NoPartNumber))
             + multiset(WithFate(rows, skip, MissingCount)) + multiset(WithFate(rows, skip, NonPositiveCount))
             + multiset(WithFate(rows, skip, SkipListed));
    FilterCounts((x: Row) => FateOf(x, skip) == Kept, rows);
    FilterCounts((x: Row) => FateOf(x, skip) == NoPartNumber, rows);
    FilterCounts((x: Row) => FateOf(x, skip) == MissingCount, rows);
    FilterCounts((x: Row) => FateOf(x, skip) == NonPositiveCount, rows);
    FilterCounts((x: Row) => FateOf(x, skip) == SkipListed, rows);
    forall x ensures a[x] == multiset(rows)[x] {
    }
    assert a == multiset(rows);
  }

  /** With the intended rule every row is billed, reported once, or skip-listed: the three
      tables and the skip-listed rows together are a permutation of the input. */
  lemma ChargeablePartition(t: Table, skip: seq<int>)
    requires FilterChargeable(t, skip).Success?
    ensures var r := FilterChargeable(t, skip).value;
            multiset(r.kept.rows) + multiset(r.noPartNumber.rows) + multiset(r.nonPositive.rows)
            + multiset(WithFate(t.rows, skip, SkipListed))
            == multiset(t.rows)
  {
    var r := FilterChargeable(t, skip).value;
    var a := multiset(r.kept.rows) + multiset(r.noPartNumber.rows) + multiset(r.nonPositive.rows)
             + multiset(WithFate(t.rows, skip, SkipListed));
    FilterCounts((x: Row) => FateOf(x, skip) == Kept, t.rows);
    FilterCounts((x: Row) => FateOf(x, skip) == NoPartNumber, t.rows);
    FilterCounts((x: Row) => CountError(x, skip), t.rows);
    FilterCounts((x: Row) => FateOf(x, skip) == SkipListed, t.rows);
    forall x ensures a[x] == multiset(t.rows)[x] {
    }
    assert a == multiset(t.rows);
  }

  /** As written, a row with a part number and a missing count is in none of the three tables
      and is not skip-listed either: it is dropped without a report. */
  lemma MissingCountRowLost(t: Table, skip: seq<int>, x: Row)
    requires FilterChargeableAsWritten(t, skip).Success?
    requires x in t.rows && x.partNumber.Some? && x.itemCount.None?
    ensures var r := FilterChargeableAsWritten(t, skip).value;
            && x !in r.kept.rows && x !in r.noPartNumber.rows && x !in r.nonPositive.rows
            && x !in WithFate(t.rows, skip, SkipListed)
    ensures var r := FilterChargeableAsWritten(t, skip).value;
            multiset(r.kept.rows) + multiset(r.noPartNumber.rows) + multiset(r.nonPositive.rows)
            + multiset(WithFate(t.rows, skip, SkipListed))
            != multiset(t.rows)
  {
    var r := FilterChargeableAsWritten(t, skip).value;
    assert FateOf(x, skip) == MissingCount;
    assert x in multiset(t.rows);
    assert x !in multiset(r.kept.rows) && x !in multiset(r.noPartNumber.rows);
    assert x !in multiset(r.nonPositive.rows) && x !in multiset(WithFate(t.rows, skip, SkipListed));
  }

  /** What each output holds, stated per row: a row is billed exactly when it has a part number,
      a positive count and a partner ID off the skip list. */
  lemma FateMembership(rows: seq<Row>, skip: seq<int>, x: Row)
    ensures x in WithFate(rows, skip, Kept) <==>
              x in rows && x.partNumber.Some? && CountPositive(x) && x.partnerID !in skip
    ensures x in WithFate(rows, skip, NoPartNumber) <==> x in rows && x.partNumber.None?
    ensures x in WithFate(rows, skip, MissingCount) <==>
              x in rows && x.partNumber.Some? && x.itemCount.None?
    ensures x in WithFate(rows, skip, NonPositiveCount) <==>
              x in rows && x.partNumber.Some? && CountAtMostZero(x)
    ensures x in CountErrors(rows, skip) <==> x in rows && x.partNumber.Some? && !CountPositive(x)
    ensures x in WithFate(rows, skip, SkipListed) <==>
              x in rows && x.partNumber.Some? && CountPositive(x) && x.partnerID in skip
  {
  }

  /** Each output keeps the rows in their original order. */
  lemma FatesKeepOrder(rows: seq<Row>, skip: seq<int>, f: Fate)
    ensures IsSubseq(WithFate(rows, skip, f), rows)
  {
    FilterIsSubseq((x: Row) => FateOf(x, skip) == f, rows);
  }

  /** Applying the rule again to the billable rows changes nothing: it is idempotent. */
  lemma FilterChargeableIdempotent(t: Table, skip: seq<int>)
    requires FilterChargeable(t, skip).Success?
    ensures var kept := FilterChargeable(t, skip).value.kept;
            && FilterChargeable(kept, skip).Success?
            && FilterChargeable(kept, skip).value.kept == kept
            && FilterChargeable(kept, skip).value.noPartNumber.rows == []
            && FilterChargeable(kept, skip).value.nonPositive.rows == []
  {
    var kept := FilterChargeable(t, skip).value.kept;
    assert kept.columns == t.columns;
    forall x | x in kept.rows ensures FateOf(x, skip) == Kept {
      FateMembership(t.rows, skip, x);
    }
    FilterKeepsAll((x: Row) => FateOf(x, skip) == Kept, kept.rows);
    NoOtherFate(kept.rows, skip, Kept, NoPartNumber);
    NoOtherFate(kept.rows, skip, Kept, MissingCount);
    FilterCongruent((x: Row) => CountError(x, skip), (x: Row) => FateOf(x, skip) == MissingCount, kept.rows);
  }

  /** The correction only concerns missing counts: on a report where every count is present
      the intended rule and the rule as written give the same tables. */
  lemma RulesAgreeWithoutMissingCounts(t: Table, skip: seq<int>)
    requires forall x :: x in t.rows ==> x.itemCount.Some?
    ensures FilterChargeable(t, skip) == FilterChargeableAsWritten(t, skip)
  {
    FilterCongruent((x: Row) => CountError(x, skip), (x: Row) => FateOf(x, skip) == NonPositiveCount, t.rows);
  }

  /** The two rules differ only in the item-count report: they fail alike, keep the same rows
      and report the same rows without a part number, and the report as written is the
      intended one less its rows whose count is missing. */
  lemma RulesDifferOnlyInCountReport(t: Table, skip: seq<int>)
    ensures FilterChargeable(t, skip).Success? <==> FilterChargeableAsWritten(t, skip).Success?
    ensures FilterChargeable(t, skip).Failure? ==> FilterChargeable(t, skip) == FilterChargeableAsWritten(t, skip)
    ensures FilterChargeable(t, skip).Success? ==>
      var intended := FilterChargeable(t, skip).value;
      var written := FilterChargeableAsWritten(t, skip).value;
      && written.kept == intended.kept
      && written.noPartNumber == intended.noPartNumber
      && written.nonPositive.columns == intended.nonPositive.columns
      && written.nonPositive.rows == Filter((x: Row) => x.itemCount.Some?, intended.nonPositive.rows)
  {
    if FilterChargeable(t, skip).Success? {
      FilterFuse((x: Row) => CountError(x, skip), (x: Row) => x.itemCount.Some?,
                 (x: Row) => FateOf(x, skip) == NonPositiveCount, t.rows);
    }
  }

  /** Rows that all share one fate have none of any other. */
  lemma {:induction false} NoOtherFate(rows: seq<Row>, skip: seq<int>, f: Fate, g: Fate)
    requires forall x :: x in rows ==> FateOf(x, skip) == f
    requires f != g
    ensures WithFate(rows, skip, g) == []
  {
    if rows != [] {
      assert rows == [rows[0]] + rows[1..];
      NoOtherFate(rows[1..], skip, f, g);
      FilterCons((x: Row) => FateOf(x, skip) == g, rows[0], rows[1..]);
    }
  }
}

/** The fixture of the chargeable rule's tests, worked through the model. */
module ChargeableRulesExamples {

  import opened Wrappers
  import opened Seqs
  import opened Frames
  import opened ChargeableRules

  function Sample(partNumber: Option<string>, itemCount: int, partnerID: int): Row
  {
    Row(partnerID, "", None, None, partNumber, Some(itemCount), None, None, None)
  }

  /** A row whose item count cell is empty. */
  function Uncounted(partNumber: Option<string>, partnerID: int): Row
  {
    Row(partnerID, "", None, None, partNumber, None, None, None, None)
  }

  /** Part numbers A, missing, B, C, D with counts 10, 5, -2, 20, 30 for partners 1 to 5:
      skipping partner 1 bills partners 4 and 5, reports partner 2 for its part number and
      partner 3 for its count. No count is missing, so the rule as written agrees. */
  lemma FixtureExample()
    ensures var rows := [Sample(Some("A"), 10, 1), Sample(None, 5, 2), Sample(Some("B"), -2, 3),
                         Sample(Some("C"), 20, 4), Sample(Some("D"), 30, 5)];
            var r := FilterChargeable(Table({PartNumber, ItemCount, PartnerID}, rows), [1]);
            && r.Success?
            && r.value.kept.rows == [rows[3], rows[4]]
            && r.value.noPartNumber.rows == [rows[1]]
            && r.value.nonPositive.rows == [rows[2]]
            && FilterChargeableAsWritten(Table({PartNumber, ItemCount, PartnerID}, rows), [1]) == r
  {
    var rows := [Sample(Some("A"), 10, 1), Sample(None, 5, 2), Sample(Some("B"), -2, 3),
                 Sample(Some("C"), 20, 4), Sample(Some("D"), 30, 5)];
    FiveRows(rows[0], rows[1], rows[2], rows[3], rows[4], [1]);
    RulesAgreeWithoutMissingCounts(Table({PartNumber, ItemCount, PartnerID}, rows), [1]);
  }

  /** Five rows whose fates are skip-listed, no part number, non-positive, kept, kept. */
  lemma FiveRows(a: Row, b: Row, c: Row, d: Row, e: Row, skip: seq<int>)
    requires FateOf(a, skip) == SkipListed && FateOf(b, skip) == NoPartNumber
    requires FateOf(c, skip) == NonPositiveCount && FateOf(d, skip) == Kept && FateOf(e, skip) == Kept
    ensures WithFate([a, b, c, d, e], skip, Kept) == [d, e]
    ensures WithFate([a, b, c, d, e], skip, NoPartNumber) == [b]
    ensures WithFate([a, b, c, d, e], skip, NonPositiveCount) == [c]
  {
    var t3 := [d, e];
    var t2 := [c] + t3;
    var t1 := [b] + t2;
    assert [a] + t1 == [a, b, c, d, e];
    assert WithFate(t3, skip, Kept) == [d, e] by {
      FilterCons((x: Row) => FateOf(x, skip) == Kept, d, [e]);
      FilterCons((x: Row) => FateOf(x, skip) == Kept, e, []);
      assert [e] + [] == [e] && [d] + [e] == t3;
    }
    assert WithFate(t3, skip, NoPartNumber) == [] && WithFate(t3, skip, NonPositiveCount) == [] by {
      NoOtherFate(t3, skip, Kept, NoPartNumber);
      NoOtherFate(t3, skip, Kept, NonPositiveCount);
    }
    FateStep(c, t3, skip, Kept);
    FateStep(c, t3, skip, NoPartNumber);
    FateStep(c, t3, skip, NonPositiveCount);
    FateStep(b, t2, skip, Kept);
    FateStep(b, t2, skip, NoPartNumber);
    FateStep(b, t2, skip, NonPositiveCount);
    FateStep(a, t1, skip, Kept);
    FateStep(a, t1, skip, NoPartNumber);
    FateStep(a, t1, skip, NonPositiveCount);
  }

  lemma FateStep(x: Row, rows: seq<Row>, skip: seq<int>, f: Fate)
    ensures WithFate([x] + rows, skip, f)
            == if FateOf(x, skip) == f then [x] + WithFate(rows, skip, f) else WithFate(rows, skip, f)
  {
    FilterCons((y: Row) => FateOf(y, skip) == f, x, rows);
  }

  /** Part number A with an empty item count: as written the row is in none of the three
      tables; the intended rule reports it with the count errors. */
  lemma LostRowExample()
    ensures var cols := {PartNumber, ItemCount, PartnerID};
            var rows := [Uncounted(Some("A"), 7)];
            && FilterChargeableAsWritten(Table(cols, rows), [])
               == Success(Split(Table(cols, []), Table(cols, []), Table(cols, [])))
            && FilterChargeable(Table(cols, rows), [])
               == Success(Split(Table(cols, []), Table(cols, []), Table(cols, rows)))
  {
    var x := Uncounted(Some("A"), 7);
    assert [x] == [x] + [];
    FateStep(x, [], [], Kept);
    FateStep(x, [], [], NoPartNumber);
    FateStep(x, [], [], NonPositiveCount);
    FilterCons((y: Row) => CountError(y, []), x, []);
  }

  /** A table without the required columns is rejected with the columns it lacks. */
  lemma MissingColumnsExample()
    ensures FilterChargeable(Table({PartnerID}, []), []) == Failure(MissingColumns([PartNumber, ItemCount]))
  {
    assert Missing({PartnerID}, ChargeableRequired) == [PartNumber, ItemCount] by {
      var m := Missing({PartnerID}, ChargeableRequired);
      assert IsSubseq(m, [PartNumber, ItemCount, PartnerID]);
      assert PartNumber in m && ItemCount in m && PartnerID !in m;
    }
  }
}
