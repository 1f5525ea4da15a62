/** The orchestration of app/services/processor.py: the plan-ID column, then the chargeable
    branch, then the domains branch, each stage validating the columns it needs. A run is the
    sequence of files it writes and the error that stopped it, if any. */
module Processor {

  import opened Wrappers
  import opened Seqs
  import opened Frames
  import opened Strings
  import opened DomainRules
  import opened ChargeableRules
  import opened DfFunctions
  import opened SqlDecoder
  import opened SqlGenerator

  // ---------------------------------------------------------------------------
  // Totals by product
  // ---------------------------------------------------------------------------

  /** The item count a row adds to a sum: a missing count adds nothing, as a grouped sum skips
      missing values. */
  function CountOf(x: Row): int
  {
    if x.itemCount.Some? then x.itemCount.value else 0
  }

  /** The sum of the item counts of the rows whose product is `p`: the reference for totals. */
  function SumFor(rows: seq<Row>, p: string): int
  {
    if rows == [] then 0
    else (if rows[0].product == Some(p) then CountOf(rows[0]) else 0) + SumFor(rows[1..], p)
  }

  /** Item counts accumulated per product in one pass; rows without a product are ignored, as
      grouping ignores a missing key. */
  function Totals(rows: seq<Row>): map<string, int>
  {
    if rows == [] then map[]
    else
      var rest := Totals(rows[1..]);
      match rows[0].product
      case None => rest
      case Some(p) => rest[p := (if p in rest then rest[p] else 0) + CountOf(rows[0])]
  }

  /** One entry per product that occurs, holding the sum of its rows' item counts. */
  lemma {:induction false} TotalsMeaning(rows: seq<Row>)
    ensures forall p :: p in Totals(rows) <==> exists x :: x in rows && x.product == Some(p)
    ensures forall p :: p in Totals(rows) ==> Totals(rows)[p] == SumFor(rows, p)
  {
    if rows != [] {
      TotalsMeaning(rows[1..]);
      assert rows == [rows[0]] + rows[1..];
      forall p | p !in Totals(rows[1..]) ensures SumFor(rows[1..], p) == 0 {
        NoProductNoSum(rows[1..], p);
      }
    }
  }

  lemma {:induction false} NoProductNoSum(rows: seq<Row>, p: string)
    requires forall x :: x in rows ==> x.product != Some(p)
    ensures SumFor(rows, p) == 0
  {
    if rows != [] {
      assert rows[0] in rows;
      assert forall x :: x in rows[1..] ==> x in rows;
      NoProductNoSum(rows[1..], p);
    }
  }

  /** The totals written to totals_by_product.csv: the product and item count columns must be
      present. */
  function TotalsByProduct(t: Table): (r: Result<map<string, int>, Error>)
    ensures r.Success? <==> Product in t.columns && ItemCount in t.columns
    ensures r.Failure? ==> r.error == MissingColumns(Missing(t.columns, [Product, ItemCount]))
    ensures r.Success? ==>
      && (forall p :: p in r.value <==> exists x :: x in t.rows && x.product == Some(p))
      && (forall p :: p in r.value ==> r.value[p] == SumFor(t.rows, p))
  {
    var _ :- RequireColumns(t, [Product, ItemCount]);
    TotalsMeaning(t.rows);
    Success(Totals(t.rows))
  }

  // ---------------------------------------------------------------------------
  // The plan-ID column as a generic derived column
  // ---------------------------------------------------------------------------

  /** The plan-ID rule applied to one accountGuid cell. Those cells are always text. */
  function PlanIdCell(v: Cell): (r: Result<Cell, Error>)
    ensures r.Success? ==> Fits(PartnerPurchasedPlanID, r.value)
    ensures v.Text? ==> r == match MapPartnerPurchasedPlanId(v.text)
                            case Success(id) => Success(Text(id))
                            case Failure(e) => Failure(e)
  {
    if v.Text? then
      var id :- MapPartnerPurchasedPlanId(v.text);
      Success(Text(id))
    else Failure(LengthMismatch(PlanIdLength, []))
  }

  /** The plan-ID rule on the accountGuid cell of a row, in terms of the row's GUID. */
  lemma PlanIdCellOfRow(x: Row)
    ensures PlanIdCell(x.Get(AccountGuid)).Success? <==> |KeepAlnum(x.accountGuid)| == PlanIdLength
    ensures PlanIdCell(x.Get(AccountGuid)).Success? ==>
              PlanIdCell(x.Get(AccountGuid)).value == Text(KeepAlnum(x.accountGuid))
    ensures PlanIdCell(x.Get(AccountGuid)).Failure? ==>
              PlanIdCell(x.Get(AccountGuid)).error == LengthMismatch(PlanIdLength, KeepAlnum(x.accountGuid))
  {
  }

  /** Deriving the column generically with the plan-ID rule is the same as the dedicated
      business rule: same table, or the same error. */
  lemma PlanIdColumnAgrees(t: Table)
    ensures AddProcessedColumn(t, PartnerPurchasedPlanID, AccountGuid, PlanIdCell)
            == AddPartnerPurchasedPlanIdColumn(t)
  {
    if AccountGuid in t.columns {
      forall x | x in t.rows {
        PlanIdCellOfRow(x);
      }
      if AddProcessedColumn(t, PartnerPurchasedPlanID, AccountGuid, PlanIdCell).Success? {
        PlanIdColumnsAgree(t);
      } else {
        PlanIdErrorsAgree(t);
      }
    }
  }

  lemma PlanIdColumnsAgree(t: Table)
    requires AccountGuid in t.columns
    requires forall x :: x in t.rows ==> (PlanIdCell(x.Get(AccountGuid)).Success? <==> |KeepAlnum(x.accountGuid)| == PlanIdLength)
    requires forall x :: x in t.rows && PlanIdCell(x.Get(AccountGuid)).Success? ==>
               PlanIdCell(x.Get(AccountGuid)).value == Text(KeepAlnum(x.accountGuid))
    requires AddProcessedColumn(t, PartnerPurchasedPlanID, AccountGuid, PlanIdCell).Success?
    ensures AddProcessedColumn(t, PartnerPurchasedPlanID, AccountGuid, PlanIdCell)
            == AddPartnerPurchasedPlanIdColumn(t)
  {
    var a := AddProcessedColumn(t, PartnerPurchasedPlanID, AccountGuid, PlanIdCell).value;
    assert forall i :: 0 <= i < |t.rows| ==> PlanIdCell(t.rows[i].Get(AccountGuid)).Success?;
    assert forall i :: 0 <= i < |t.rows| ==> t.rows[i] in t.rows;
    var b := AddPartnerPurchasedPlanIdColumn(t).value;
    forall i | 0 <= i < |t.rows| ensures a.rows[i] == b.rows[i] {
      assert t.rows[i] in t.rows;
      forall c ensures a.rows[i].Get(c) == b.rows[i].Get(c) {
      }
      RowsEqualByCells(a.rows[i], b.rows[i]);
    }
    assert a.rows == b.rows;
  }

  lemma PlanIdErrorsAgree(t: Table)
    requires AccountGuid in t.columns
    requires forall x :: x in t.rows ==> (PlanIdCell(x.Get(AccountGuid)).Success? <==> |KeepAlnum(x.accountGuid)| == PlanIdLength)
    requires forall x :: x in t.rows && PlanIdCell(x.Get(AccountGuid)).Failure? ==>
               PlanIdCell(x.Get(AccountGuid)).error == LengthMismatch(PlanIdLength, KeepAlnum(x.accountGuid))
    requires AddProcessedColumn(t, PartnerPurchasedPlanID, AccountGuid, PlanIdCell).Failure?
    ensures AddProcessedColumn(t, PartnerPurchasedPlanID, AccountGuid, PlanIdCell)
            == AddPartnerPurchasedPlanIdColumn(t)
  {
    var a := AddProcessedColumn(t, PartnerPurchasedPlanID, AccountGuid, PlanIdCell);
    var b := AddPartnerPurchasedPlanIdColumn(t);
    assert forall i :: 0 <= i < |t.rows| ==> t.rows[i] in t.rows;
    var i :| 0 <= i < |t.rows| && PlanIdCell(t.rows[i].Get(AccountGuid)).Failure?
             && a.error == PlanIdCell(t.rows[i].Get(AccountGuid)).error
             && forall j :: 0 <= j < i ==> PlanIdCell(t.rows[j].Get(AccountGuid)).Success?;
    assert b.Failure?;
    var k :| 0 <= k < |t.rows| && |KeepAlnum(t.rows[k].accountGuid)| != PlanIdLength
             && b.error == LengthMismatch(PlanIdLength, KeepAlnum(t.rows[k].accountGuid))
             && forall j :: 0 <= j < k ==> |KeepAlnum(t.rows[j].accountGuid)| == PlanIdLength;
    assert i == k;
  }

  // ---------------------------------------------------------------------------
  // The run
  // ---------------------------------------------------------------------------

  /** What a run is given besides the report: the skip list, the reduction rules and the
      part-number-to-product map. */
  datatype Config = Config(skip: seq<int>, reductionRules: map<string, real>, productMap: map<string, string>)

  /** The default skip list and reduction rules of the configuration. */
  const DefaultSkip: seq<int> := [26392]
  const DefaultReductionRules: map<string, real> :=
    map["EA000001GB0O" := 1000.0, "PMQ00005GB0R" := 5000.0, "SSX006NR" := 1000.0, "SPQ00001MB0R" := 2000.0]

  /** A file the run writes, with its contents. A statement file is opened before its rows are
      read, so a statement that fails leaves the file empty. */
  datatype Output =
    | TotalsCsv(totals: map<string, int>)
    | ChargeableSql(text: string)
    | ErrorLogs(noPartNumber: seq<Row>, nonPositive: seq<Row>)
    | DomainsSql(text: string)

  datatype Run = Run(outputs: seq<Output>, failure: Option<Error>)

  /** The tuple a billed row contributes: its partner ID, the product its part number maps
      to, its plan ID and plan, and its usage truncated to an integer. */
  ghost predicate IsBilledTuple(c: Config, x: Row, tuple: seq<SqlValue>)
    requires HasProduct(c.productMap, x)
  {
    && |tuple| == 5
    && tuple[0] == SqlInt(x.partnerID)
    && tuple[1] == SqlText(c.productMap[x.partNumber.value])
    && tuple[2] == OptionalSql(x.planId)
    && tuple[3] == OptionalSql(x.plan)
    && exists u :: IsUsageOf(c.reductionRules, x, Some(u)) && tuple[4] == SqlInt(TruncateToInt(u))
  }

  /** The sum of the item counts of the rows whose part number maps to product `p`. */
  function ProductSum(m: map<string, string>, rows: seq<Row>, p: string): int
  {
    if rows == [] then 0
    else (if HasProduct(m, rows[0]) && m[rows[0].partNumber.value] == p then CountOf(rows[0]) else 0)
         + ProductSum(m, rows[1..], p)
  }

  /** `totals` has one entry per product that some row's part number maps to, holding the
      sum of those rows' item counts. */
  ghost predicate IsTotalsOf(m: map<string, string>, rows: seq<Row>, totals: map<string, int>)
  {
    && (forall p :: p in totals <==> exists x :: x in rows && HasProduct(m, x) && m[x.partNumber.value] == p)
    && (forall p :: p in totals ==> totals[p] == ProductSum(m, rows, p))
  }

  /** The first run, then the second unless the first failed. */
  function Then(a: Run, b: Run): (r: Run)
    ensures a.failure.Some? ==> r == a
    ensures a.failure.None? ==> r.outputs == a.outputs + b.outputs && r.failure == b.failure
  {
    if a.failure.Some? then a else Run(a.outputs + b.outputs, b.failure)
  }

  /** The part number of `x` has a reduction rule of zero, so its usage is a division by zero. */
  predicate RuleIsZero(rules: map<string, real>, x: Row)
  {
    x.partNumber.Some? && x.partNumber.value in rules && rules[x.partNumber.value] == 0.0
  }

  /** The rows the chargeable statement bills: those the filter keeps whose part number has
      a product, in report order. */
  function Billed(c: Config, rows: seq<Row>): seq<Row>
  {
    Filter((x: Row) => HasProduct(c.productMap, x), WithFate(rows, c.skip, Kept))
  }

  /** The chargeable rows after filtering, product mapping and usage reduction, with the
      filter's three tables. It fails when a required column is absent, or with the first
      billed row whose reduction rule is zero. */
  function ChargeableStages(t: Table, c: Config): (r: Result<(Split, Table), Error>)
    ensures RequireColumns(t, ChargeableRequired).Failure? ==>
              r == Failure(MissingColumns(Missing(t.columns, ChargeableRequired)))
    ensures RequireColumns(t, ChargeableRequired).Success? ==>
              (r.Success? <==> forall i :: 0 <= i < |Billed(c, t.rows)| ==>
                                 !RuleIsZero(c.reductionRules, Billed(c, t.rows)[i]))
    ensures RequireColumns(t, ChargeableRequired).Success? && r.Failure? ==>
              exists i :: 0 <= i < |Billed(c, t.rows)|
                          && RuleIsZero(c.reductionRules, Billed(c, t.rows)[i])
                          && r.error == DivisionByZero(Billed(c, t.rows)[i].partNumber.value)
                          && forall j :: 0 <= j < i ==> !RuleIsZero(c.reductionRules, Billed(c, t.rows)[j])
    ensures r.Success? ==>
      && r.value.0.kept.rows == WithFate(t.rows, c.skip, Kept)
      && r.value.0.noPartNumber.rows == WithFate(t.rows, c.skip, NoPartNumber)
      && r.value.0.nonPositive.rows == CountErrors(t.rows, c.skip)
    ensures r.Success? ==>
      && |r.value.1.rows| == |Billed(c, t.rows)|
      && forall i :: 0 <= i < |Billed(c, t.rows)| ==>
           && HasProduct(c.productMap, Billed(c, t.rows)[i])
           && r.value.1.rows[i] == WithProduct(c.productMap, Billed(c, t.rows)[i]).(usage := r.value.1.rows[i].usage)
           && IsUsageOf(c.reductionRules, Billed(c, t.rows)[i], r.value.1.rows[i].usage)
  {
    var _ :- RequireColumns(t, ChargeableRequired);
    var split := FilterChargeable(t, c.skip).value;
    var mapped := ApplyProductMapping(split.kept, c.productMap).value;
    MappedStage(t, c, split, mapped);
    var reduced :- ApplyUsageReduction(mapped, c.reductionRules);
    ReducedStage(c, Billed(c, t.rows), mapped, reduced);
    Success((split, reduced))
  }

  /** After the filter and the product lookup, the rows are the billed rows, each given its
      product, and the columns the usage reduction needs are present. */
  lemma MappedStage(t: Table, c: Config, split: Split, mapped: Table)
    requires RequireColumns(t, ChargeableRequired).Success?
    requires split == FilterChargeable(t, c.skip).value
    requires mapped == ApplyProductMapping(split.kept, c.productMap).value
    ensures ItemCount in mapped.columns && PartNumber in mapped.columns
    ensures |mapped.rows| == |Billed(c, t.rows)|
    ensures forall i :: 0 <= i < |mapped.rows| ==>
              && HasProduct(c.productMap, Billed(c, t.rows)[i])
              && mapped.rows[i] == WithProduct(c.productMap, Billed(c, t.rows)[i])
              && mapped.rows[i].partNumber == Billed(c, t.rows)[i].partNumber
  {
    assert split.kept.rows == WithFate(t.rows, c.skip, Kept);
  }

  /** Usages computed on the rows given their products are the usages of the billed rows. */
  lemma ReducedStage(c: Config, billed: seq<Row>, mapped: Table, reduced: Table)
    requires |mapped.rows| == |billed|
    requires forall i :: 0 <= i < |billed| ==>
               HasProduct(c.productMap, billed[i]) && mapped.rows[i] == WithProduct(c.productMap, billed[i])
    requires |reduced.rows| == |mapped.rows|
    requires forall i :: 0 <= i < |mapped.rows| ==>
               && reduced.rows[i] == mapped.rows[i].(usage := reduced.rows[i].usage)
               && IsUsageOf(c.reductionRules, mapped.rows[i], reduced.rows[i].usage)
    ensures forall i :: 0 <= i < |billed| ==>
              && HasProduct(c.productMap, billed[i])
              && reduced.rows[i] == WithProduct(c.productMap, billed[i]).(usage := reduced.rows[i].usage)
              && IsUsageOf(c.reductionRules, billed[i], reduced.rows[i].usage)
  {
    forall i | 0 <= i < |billed|
      ensures HasProduct(c.productMap, billed[i])
      ensures reduced.rows[i] == WithProduct(c.productMap, billed[i]).(usage := reduced.rows[i].usage)
      ensures IsUsageOf(c.reductionRules, billed[i], reduced.rows[i].usage)
    {
      ReducedRow(c, billed[i], mapped.rows[i], reduced.rows[i]);
    }
  }

  /** The chargeable branch: totals, then the chargeable statement, then the two error logs. */
  function ProcessChargeable(t: Table, c: Config): (r: Run)
    ensures RequireColumns(t, ChargeableRequired).Failure? ==>
              r == Run([], Some(MissingColumns(Missing(t.columns, ChargeableRequired))))
    ensures r.failure.Some? ==> r.outputs == [] || (|r.outputs| == 2 && r.outputs[1] == ChargeableSql([]))
    ensures r.failure.None? ==>
      && |r.outputs| == 3
      && r.outputs[0].TotalsCsv? && r.outputs[1].ChargeableSql? && r.outputs[2].ErrorLogs?
  {
    match ChargeableStages(t, c)
    case Failure(e) => Run([], Some(e))
    case Success((split, reduced)) =>
      match TotalsByProduct(reduced)
      case Failure(e) => Run([], Some(e))
      case Success(totals) =>
        match RenderChargeable(reduced)
        case Failure(e) => Run([TotalsCsv(totals), ChargeableSql([])], Some(e))
        case Success(sql) =>
          Run([TotalsCsv(totals), ChargeableSql(sql), ErrorLogs(split.noPartNumber.rows, split.nonPositive.rows)], None)
  }

  /** The domains branch: the de-duplicated domains, then their statement. */
  function ProcessDomains(t: Table): (r: Run)
    ensures r.failure.None? <==> PartnerPurchasedPlanID in t.columns && Domains in t.columns
    ensures r.failure.Some? ==> r == Run([], Some(MissingColumns(Missing(t.columns, [Domains, PartnerPurchasedPlanID]))))
    ensures r.failure.None? ==>
      && r.outputs == [DomainsSql(RenderDomains(PrepareDomains(t).value).value)]
  {
    match RequireColumns(t, [Domains, PartnerPurchasedPlanID])
    case Failure(e) => Run([], Some(e))
    case Success(_) =>
      match PrepareDomains(t)
      case Failure(e) => Run([], Some(e))
      case Success(domains) =>
        match RenderDomains(domains)
        case Failure(e) => Run([DomainsSql([])], Some(e))
        case Success(sql) => Run([DomainsSql(sql)], None)
  }

  /** The whole run on a loaded report: validate accountGuid, derive the plan IDs once, then
      the chargeable branch and the domains branch on the same augmented table. */
  function Process(report: Table, c: Config): (r: Run)
    ensures AccountGuid !in report.columns ==> r == Run([], Some(MissingColumns([AccountGuid])))
    ensures r.failure.None? ==>
      && |r.outputs| == 4
      && r.outputs[0].TotalsCsv? && r.outputs[1].ChargeableSql? && r.outputs[2].ErrorLogs?
      && r.outputs[3].DomainsSql?
  {
    match RequireColumns(report, [AccountGuid])
    case Failure(e) =>
      var m := Missing(report.columns, [AccountGuid]);
      assert |m| <= 1 && AccountGuid in m;
      assert m == [AccountGuid] by {
        assert m[0] in m;
      }
      Run([], Some(e))
    case Success(_) =>
      match AddProcessedColumn(report, PartnerPurchasedPlanID, AccountGuid, PlanIdCell)
      case Failure(e) => Run([], Some(e))
      case Success(t) => Then(ProcessChargeable(t, c), ProcessDomains(t))
  }

  // ---------------------------------------------------------------------------
  // Properties of the run
  // ---------------------------------------------------------------------------

  /** The report with its plan IDs, as both branches see it. */
  function Augmented(report: Table): Result<Table, Error>
  {
    AddPartnerPurchasedPlanIdColumn(report)
  }

  /** One account GUID that does not normalize to 32 characters stops the run before any file
      is written, with the error of the first such GUID. */
  lemma InvalidGuidStopsRun(report: Table, c: Config, i: int)
    requires AccountGuid in report.columns
    requires 0 <= i < |report.rows| && |KeepAlnum(report.rows[i].accountGuid)| != PlanIdLength
    requires forall j :: 0 <= j < i ==> |KeepAlnum(report.rows[j].accountGuid)| == PlanIdLength
    ensures Process(report, c) == Run([], Some(LengthMismatch(PlanIdLength, KeepAlnum(report.rows[i].accountGuid))))
  {
    PlanIdColumnAgrees(report);
    var b := AddPartnerPurchasedPlanIdColumn(report);
    var k :| 0 <= k < |report.rows| && |KeepAlnum(report.rows[k].accountGuid)| != PlanIdLength
             && b.error == LengthMismatch(PlanIdLength, KeepAlnum(report.rows[k].accountGuid))
             && forall j :: 0 <= j < k ==> |KeepAlnum(report.rows[j].accountGuid)| == PlanIdLength;
    assert k == i;
  }

  /** The domains file depends on the report alone: the skip list, the reduction rules and the
      product map of the chargeable branch do not affect it. */
  lemma DomainsIndependentOfConfig(report: Table, c1: Config, c2: Config)
    requires Process(report, c1).failure.None? && Process(report, c2).failure.None?
    ensures Process(report, c1).outputs[3] == Process(report, c2).outputs[3]
  {
  }

  /** On success, the domains file holds one tuple per distinct domain among the augmented
      rows that have both a domain and a plan ID, each the first such row for its domain. */
  lemma DomainsFileContents(report: Table, c: Config)
    requires Process(report, c).failure.None?
    ensures Augmented(report).Success?
    ensures var t := Augmented(report).value;
            var decoded := ParseStatement(DomainsHeader, Process(report, c).outputs[3].text);
            && decoded.Some?
            && |decoded.value| == |PrepareDomains(t).value.rows|
            && forall i :: 0 <= i < |decoded.value| ==>
                 var y := PrepareDomains(t).value.rows[i];
                 && decoded.value[i] == [SqlText(y.planId.value), SqlText(y.domain.value)]
                 && FirstWith(DomainKey, Filter(Complete, t.rows), y.domain) == Some(y)
  {
    PlanIdColumnAgrees(report);
  }

  /** On success, the chargeable file holds one tuple per billable row whose part number has a
      product, in report order, starting with its partner ID and product; the error logs hold
      exactly the two rejected sets. */
  lemma ChargeableFileContents(report: Table, c: Config)
    requires Process(report, c).failure.None?
    ensures Augmented(report).Success?
    ensures var rows := Augmented(report).value.rows;
            var billed := Billed(c, rows);
            var decoded := ParseStatement(ChargeableHeader, Process(report, c).outputs[1].text);
            && decoded.Some?
            && |decoded.value| == |billed|
            && (forall i :: 0 <= i < |billed| ==>
                  HasProduct(c.productMap, billed[i]) && IsBilledTuple(c, billed[i], decoded.value[i]))
            && Process(report, c).outputs[2]
               == ErrorLogs(WithFate(rows, c.skip, NoPartNumber), CountErrors(rows, c.skip))
  {
    ChargeableOutputs(report, c);
    ChargeableBranch(Augmented(report).value, c);
  }

  /** The run writes its item-count log with the intended rule. The log the rule as written
      would write is that log less its rows whose count is missing; both rules keep the same
      rows, so the totals and the chargeable statement are the same under either. */
  lemma CountLogAsWritten(report: Table, c: Config)
    requires Process(report, c).failure.None?
    ensures Augmented(report).Success?
    ensures var t := Augmented(report).value;
            var written := FilterChargeableAsWritten(t, c.skip);
            && written.Success?
            && written.value.kept.rows == WithFate(t.rows, c.skip, Kept)
            && Process(report, c).outputs[2].noPartNumber == written.value.noPartNumber.rows
            && written.value.nonPositive.rows
               == Filter((x: Row) => x.itemCount.Some?, Process(report, c).outputs[2].nonPositive)
  {
    ChargeableOutputs(report, c);
    var t := Augmented(report).value;
    ChargeableShape(t, c);
    RulesDifferOnlyInCountReport(t, c.skip);
  }

  /** On success, the totals file holds, for each product that a kept row's part number maps
      to, the sum of those rows' item counts. */
  lemma TotalsFileContents(report: Table, c: Config)
    requires Process(report, c).failure.None?
    ensures Augmented(report).Success?
    ensures Process(report, c).outputs[0].TotalsCsv?
    ensures IsTotalsOf(c.productMap, WithFate(Augmented(report).value.rows, c.skip, Kept),
                       Process(report, c).outputs[0].totals)
  {
    ChargeableOutputs(report, c);
    TotalsBranch(Augmented(report).value, c);
  }

  /** A successful run's second and third files are those of its chargeable branch. */
  lemma ChargeableOutputs(report: Table, c: Config)
    requires Process(report, c).failure.None?
    ensures Augmented(report).Success?
    ensures ProcessChargeable(Augmented(report).value, c).failure.None?
    ensures Process(report, c).outputs[0] == ProcessChargeable(Augmented(report).value, c).outputs[0]
    ensures Process(report, c).outputs[1] == ProcessChargeable(Augmented(report).value, c).outputs[1]
    ensures Process(report, c).outputs[2] == ProcessChargeable(Augmented(report).value, c).outputs[2]
  {
    PlanIdColumnAgrees(report);
    var t := Augmented(report).value;
    assert Process(report, c) == Then(ProcessChargeable(t, c), ProcessDomains(t));
  }

  /** The chargeable branch's files, in terms of the table it is given. */
  lemma ChargeableBranch(t: Table, c: Config)
    requires ProcessChargeable(t, c).failure.None?
    ensures var billed := Billed(c, t.rows);
            var decoded := ParseStatement(ChargeableHeader, ProcessChargeable(t, c).outputs[1].text);
            && decoded.Some?
            && |decoded.value| == |billed|
            && (forall i :: 0 <= i < |billed| ==>
                  HasProduct(c.productMap, billed[i]) && IsBilledTuple(c, billed[i], decoded.value[i]))
            && ProcessChargeable(t, c).outputs[2]
               == ErrorLogs(WithFate(t.rows, c.skip, NoPartNumber), CountErrors(t.rows, c.skip))
  {
    ChargeableShape(t, c);
    var billed := Billed(c, t.rows);
    var reduced := ChargeableStages(t, c).value.1;
    var decoded := ParseStatement(ChargeableHeader, RenderChargeable(reduced).value);
    RenderedRows(decoded.value, reduced.rows, billed, c);
  }

  /** Tuples read back from the billed rows, each given its product and its usage, are the
      billed tuples of those rows. */
  lemma RenderedRows(decoded: seq<seq<SqlValue>>, rows: seq<Row>, billed: seq<Row>, c: Config)
    requires |decoded| == |rows| == |billed|
    requires forall i :: 0 <= i < |rows| ==>
               && rows[i].usage.Some?
               && decoded[i] == [SqlInt(rows[i].partnerID), OptionalSql(rows[i].product),
                                 OptionalSql(rows[i].planId), OptionalSql(rows[i].plan),
                                 SqlInt(TruncateToInt(rows[i].usage.value))]
    requires forall i :: 0 <= i < |billed| ==>
               && HasProduct(c.productMap, billed[i])
               && rows[i] == WithProduct(c.productMap, billed[i]).(usage := rows[i].usage)
               && IsUsageOf(c.reductionRules, billed[i], rows[i].usage)
    ensures forall i :: 0 <= i < |billed| ==>
              HasProduct(c.productMap, billed[i]) && IsBilledTuple(c, billed[i], decoded[i])
  {
    forall i | 0 <= i < |billed|
      ensures HasProduct(c.productMap, billed[i]) && IsBilledTuple(c, billed[i], decoded[i])
    {
      var u := rows[i].usage.value;
      assert IsUsageOf(c.reductionRules, billed[i], Some(u));
    }
  }

  /** A successful chargeable branch wrote totals that sum the kept rows' item counts by the
      product their part number maps to. */
  lemma TotalsBranch(t: Table, c: Config)
    requires ProcessChargeable(t, c).failure.None?
    ensures ProcessChargeable(t, c).outputs[0].TotalsCsv?
    ensures IsTotalsOf(c.productMap, WithFate(t.rows, c.skip, Kept), ProcessChargeable(t, c).outputs[0].totals)
  {
    var reduced, mapped := ReducedKeptRows(t, c);
    var kept := WithFate(t.rows, c.skip, Kept);
    var totals := TotalsByProduct(reduced).value;
    forall p
      ensures p in totals <==> exists x :: x in kept && HasProduct(c.productMap, x) && c.productMap[x.partNumber.value] == p
      ensures p in totals ==> totals[p] == ProductSum(c.productMap, kept, p)
    {
      SameProductsAndCounts(reduced.rows, mapped, p);
      MapKnownProducts(c.productMap, kept, p);
      MapKnownSum(c.productMap, kept, p);
    }
  }

  /** The table a successful chargeable branch totals: the kept rows after the product
      lookup, with the same products and item counts. */
  lemma ReducedKeptRows(t: Table, c: Config) returns (reduced: Table, mapped: seq<Row>)
    requires ProcessChargeable(t, c).failure.None?
    ensures ChargeableStages(t, c).Success? && reduced == ChargeableStages(t, c).value.1
    ensures TotalsByProduct(reduced).Success?
    ensures ProcessChargeable(t, c).outputs[0] == TotalsCsv(TotalsByProduct(reduced).value)
    ensures mapped == MapKnown(c.productMap, WithFate(t.rows, c.skip, Kept))
    ensures |reduced.rows| == |mapped|
    ensures forall i :: 0 <= i < |reduced.rows| ==>
              reduced.rows[i].product == mapped[i].product && reduced.rows[i].itemCount == mapped[i].itemCount
  {
    ChargeableShape(t, c);
    var split := ChargeableStages(t, c).value.0;
    reduced := ChargeableStages(t, c).value.1;
    var m := ApplyProductMapping(split.kept, c.productMap).value;
    assert split.kept.rows == WithFate(t.rows, c.skip, Kept);
    assert reduced == ApplyUsageReduction(m, c.reductionRules).value;
    mapped := m.rows;
  }

  /** Rows that agree on product and item count, position by position, have the same
      products and the same sums. */
  lemma {:induction false} SameProductsAndCounts(a: seq<Row>, b: seq<Row>, p: string)
    requires |a| == |b|
    requires forall i :: 0 <= i < |a| ==> a[i].product == b[i].product && a[i].itemCount == b[i].itemCount
    ensures (exists x :: x in a && x.product == Some(p)) <==> (exists y :: y in b && y.product == Some(p))
    ensures SumFor(a, p) == SumFor(b, p)
  {
    if exists x :: x in a && x.product == Some(p) {
      var x :| x in a && x.product == Some(p);
      var i :| 0 <= i < |a| && a[i] == x;
      assert b[i] in b;
    }
    if exists y :: y in b && y.product == Some(p) {
      var y :| y in b && y.product == Some(p);
      var i :| 0 <= i < |b| && b[i] == y;
      assert a[i] in a;
    }
    if a != [] {
      SameProductsAndCounts(a[1..], b[1..], p);
    }
  }

  /** After the product lookup, product `p` occurs exactly when some row's part number maps
      to it. */
  lemma {:induction false} MapKnownProducts(m: map<string, string>, rows: seq<Row>, p: string)
    ensures (exists y :: y in MapKnown(m, rows) && y.product == Some(p))
            <==> (exists x :: x in rows && HasProduct(m, x) && m[x.partNumber.value] == p)
  {
    if rows != [] {
      MapKnownProducts(m, rows[1..], p);
      assert rows == [rows[0]] + rows[1..];
      if HasProduct(m, rows[0]) {
        assert MapKnown(m, rows) == [WithProduct(m, rows[0])] + MapKnown(m, rows[1..]);
      }
    }
  }

  /** Summing by product after the lookup is summing by the product each part number maps
      to. */
  lemma {:induction false} MapKnownSum(m: map<string, string>, rows: seq<Row>, p: string)
    ensures SumFor(MapKnown(m, rows), p) == ProductSum(m, rows, p)
  {
    if rows != [] {
      MapKnownSum(m, rows[1..], p);
      if HasProduct(m, rows[0]) {
        var r := [WithProduct(m, rows[0])] + MapKnown(m, rows[1..]);
        assert r[0] == WithProduct(m, rows[0]) && r[1..] == MapKnown(m, rows[1..]);
      }
    }
  }

  /** A successful chargeable branch wrote the totals, the rendered statement and the filter's
      two error tables. */
  lemma ChargeableShape(t: Table, c: Config)
    requires ProcessChargeable(t, c).failure.None?
    ensures ChargeableStages(t, c).Success?
    ensures RenderChargeable(ChargeableStages(t, c).value.1).Success?
    ensures ProcessChargeable(t, c).outputs[1] == ChargeableSql(RenderChargeable(ChargeableStages(t, c).value.1).value)
    ensures ProcessChargeable(t, c).outputs[2]
            == ErrorLogs(ChargeableStages(t, c).value.0.noPartNumber.rows, ChargeableStages(t, c).value.0.nonPositive.rows)
  {
  }

  /** A row given its product and then its usage is the original row with both columns
      set, and the usage is the original row's usage. */
  lemma ReducedRow(c: Config, x: Row, y: Row, z: Row)
    requires HasProduct(c.productMap, x) && y == WithProduct(c.productMap, x)
    requires z == y.(usage := z.usage) && IsUsageOf(c.reductionRules, y, z.usage)
    ensures z == WithProduct(c.productMap, x).(usage := z.usage)
    ensures IsUsageOf(c.reductionRules, x, z.usage)
  {
    assert y.partNumber == x.partNumber && y.itemCount == x.itemCount;
  }
}

/** The totals of the processor's tests, worked through the model. */
module ProcessorExamples {

  import opened Wrappers
  import opened Frames
  import opened ChargeableRules
  import opened DfFunctions
  import opened Processor

  function Sold(product: string, itemCount: int): Row
  {
    Row(0, "", None, None, None, Some(itemCount), None, Some(product), None)
  }

  /** Products A, B, A with counts 10, 20, 30 total A: 40 and B: 20. */
  lemma TotalsExample()
    ensures TotalsByProduct(Table({Product, ItemCount}, [Sold("A", 10), Sold("B", 20), Sold("A", 30)]))
            == Success(map["A" := 40, "B" := 20])
  {
    var rows := [Sold("A", 10), Sold("B", 20), Sold("A", 30)];
    assert rows[1..] == [Sold("B", 20), Sold("A", 30)];
    assert rows[1..][1..] == [Sold("A", 30)];
    assert Totals([Sold("A", 30)]) == map["A" := 30] by {
      assert [Sold("A", 30)][1..] == [];
    }
    assert Totals(rows[1..]) == map["A" := 30, "B" := 20];
    assert Totals(rows) == map["A" := 40, "B" := 20];
    assert RequireColumns(Table({Product, ItemCount}, rows), [Product, ItemCount]).Success?;
  }

  /** Under the default configuration, partner 26392 is skipped and 5000 items of part
      EA000001GB0O are a usage of 5. */
  lemma DefaultConfigExample()
    ensures FateOf(Row(26392, "", None, None, Some("EA000001GB0O"), Some(5000), None, None, None), DefaultSkip)
            == SkipListed
    ensures ReducedUsage(DefaultReductionRules, Row(7, "", None, None, Some("EA000001GB0O"), Some(5000), None, None, None))
            == Success(Some(5.0))
  {
  }
}
