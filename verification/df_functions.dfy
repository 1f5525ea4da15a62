/** The table transformations of app/domain/df_functions.py: the derived product and usage
    columns, the domains table and the generic derived column. */
module DfFunctions {

  import opened Wrappers
  import opened Seqs
  import opened Frames

  // ---------------------------------------------------------------------------
  // A derived column
  // ---------------------------------------------------------------------------

  /** The table with column `target` computed from column `source` by `f`, cell by cell; the
      first cell `f` rejects aborts the whole table. */
  function AddProcessedColumn(t: Table, target: Column, source: Column, f: Cell -> Result<Cell, Error>)
    : (r: Result<Table, Error>)
    requires forall v :: f(v).Success? ==> Fits(target, f(v).value)
    ensures source !in t.columns ==> r == Failure(MissingColumns([source]))
    ensures source in t.columns ==>
      (r.Success? <==> forall i :: 0 <= i < |t.rows| ==> f(t.rows[i].Get(source)).Success?)
    ensures r.Success? ==>
      && r.value.columns == t.columns + {target}
      && |r.value.rows| == |t.rows|
      && forall i :: 0 <= i < |t.rows| ==>
           && r.value.rows[i].Get(target) == f(t.rows[i].Get(source)).value
           && forall c :: c != target ==> r.value.rows[i].Get(c) == t.rows[i].Get(c)
    ensures r.Failure? && source in t.columns ==>
      exists i :: 0 <= i < |t.rows|
        && f(t.rows[i].Get(source)).Failure?
        && r.error == f(t.rows[i].Get(source)).error
        && forall j :: 0 <= j < i ==> f(t.rows[j].Get(source)).Success?
  {
    if source !in t.columns then Failure(MissingColumns([source]))
    else
      var cells :- MapResult((x: Row) => f(x.Get(source)), t.rows);
      var g := (x: Row) => f(x.Get(source));
      forall i | 0 <= i < |cells| ensures Fits(target, cells[i]) {
        var v := t.rows[i].Get(source);
        assert g(t.rows[i]) == f(v) && f(v).Success? && cells[i] == f(v).value;
      }
      Success(Table(t.columns + {target},
                    seq(|t.rows|, i requires 0 <= i < |t.rows| => t.rows[i].Put(target, cells[i]))))
  }

  // ---------------------------------------------------------------------------
  // Product mapping
  // ---------------------------------------------------------------------------

  /** A row whose part number the mapping knows. */
  predicate HasProduct(m: map<string, string>, x: Row)
  {
    x.partNumber.Some? && x.partNumber.value in m
  }

  /** The row with its product looked up from its part number. */
  function WithProduct(m: map<string, string>, x: Row): Row
    requires HasProduct(m, x)
  {
    x.(product := Some(m[x.partNumber.value]))
  }

  /** Looks up every part number and keeps the rows whose part number is known, in one pass. */
  function MapKnown(m: map<string, string>, rows: seq<Row>): seq<Row>
  {
    if rows == [] then []
    else if HasProduct(m, rows[0]) then [WithProduct(m, rows[0])] + MapKnown(m, rows[1..])
    else MapKnown(m, rows[1..])
  }

  /** The table with a product column; rows whose part number the mapping does not know are
      dropped. */
  function ApplyProductMapping(t: Table, m: map<string, string>): (r: Result<Table, Error>)
    ensures r.Failure? <==> PartNumber !in t.columns
    ensures r.Failure? ==> r.error == MissingColumns([PartNumber])
    ensures r.Success? ==> r.value.columns == t.columns + {Product}
    ensures r.Success? ==>
      var known := Filter((x: Row) => HasProduct(m, x), t.rows);
      && |r.value.rows| == |known|
      && forall i :: 0 <= i < |known| ==>
           HasProduct(m, known[i]) && r.value.rows[i] == WithProduct(m, known[i])
  {
    if PartNumber !in t.columns then Failure(MissingColumns([PartNumber]))
    else
      MapKnownIsFilterThenMap(m, t.rows);
      Success(Table(t.columns + {Product}, MapKnown(m, t.rows)))
  }

  /** The one-pass lookup equals selecting the known rows, then looking each one up. */
  lemma {:induction false} MapKnownIsFilterThenMap(m: map<string, string>, rows: seq<Row>)
    ensures var known := Filter((x: Row) => HasProduct(m, x), rows);
            && |MapKnown(m, rows)| == |known|
            && forall i :: 0 <= i < |known| ==>
                 HasProduct(m, known[i]) && MapKnown(m, rows)[i] == WithProduct(m, known[i])
  {
    if rows != [] {
      MapKnownIsFilterThenMap(m, rows[1..]);
      FilterCons((x: Row) => HasProduct(m, x), rows[0], rows[1..]);
      assert rows == [rows[0]] + rows[1..];
    }
  }

  /** Every row that comes out is an input row with a known part number, given the product
      that part number maps to; every such input row comes out. */
  lemma ProductMappingRows(t: Table, m: map<string, string>)
    requires PartNumber in t.columns
    ensures forall y :: y in ApplyProductMapping(t, m).value.rows <==>
      exists x :: x in t.rows && HasProduct(m, x) && y == WithProduct(m, x)
  {
    var known := Filter((x: Row) => HasProduct(m, x), t.rows);
    var out := ApplyProductMapping(t, m).value.rows;
    forall y ensures y in out <==> exists x :: x in t.rows && HasProduct(m, x) && y == WithProduct(m, x) {
      if y in out {
        var i :| 0 <= i < |out| && out[i] == y;
        assert known[i] in known;
      }
      if x :| x in t.rows && HasProduct(m, x) && y == WithProduct(m, x) {
        assert x in known;
        var i :| 0 <= i < |known| && known[i] == x;
        assert out[i] == y;
      }
    }
  }

  // ---------------------------------------------------------------------------
  // Usage reduction
  // ---------------------------------------------------------------------------

  /** `u` is the usage of row `x`: its item count divided by the reduction rule of its part
      number, or the item count itself when no rule applies; missing when the count is. */
  predicate IsUsageOf(rules: map<string, real>, x: Row, u: Option<real>)
  {
    if x.itemCount.None? then u.None?
    else
      && u.Some?
      && if x.partNumber.Some? && x.partNumber.value in rules
         then u.value * rules[x.partNumber.value] == x.itemCount.value as real
         else u.value == x.itemCount.value as real
  }

  /** The usage of one row: its item count, divided by the reduction rule of its part number
      when there is one; a rule of zero is a division by zero. */
  function ReducedUsage(rules: map<string, real>, x: Row): (r: Result<Option<real>, Error>)
    ensures r.Failure? <==> x.partNumber.Some? && x.partNumber.value in rules && rules[x.partNumber.value] == 0.0
    ensures r.Failure? ==> r.error == DivisionByZero(x.partNumber.value)
    ensures r.Success? ==> IsUsageOf(rules, x, r.value)
  {
    if x.partNumber.Some? && x.partNumber.value in rules then
      var divisor := rules[x.partNumber.value];
      if divisor == 0.0 then Failure(DivisionByZero(x.partNumber.value))
      else if x.itemCount.None? then Success(None)
      else Success(Some(x.itemCount.value as real / divisor))
    else if x.itemCount.None? then Success(None)
    else Success(Some(x.itemCount.value as real))
  }

  /** The usage is the only value of a row that fixes it: with a non-zero rule, one usage. */
  lemma UsageUnique(rules: map<string, real>, x: Row, u: Option<real>, w: Option<real>)
    requires ReducedUsage(rules, x).Success?
    requires IsUsageOf(rules, x, u) && IsUsageOf(rules, x, w)
    ensures u == w
  {
    if x.itemCount.Some? && x.partNumber.Some? && x.partNumber.value in rules {
      var d := rules[x.partNumber.value];
      assert u.value * d == w.value * d;
      assert (u.value - w.value) * d == 0.0;
    }
  }

  /** The table with a usage column computed row by row. */
  function ApplyUsageReduction(t: Table, rules: map<string, real>): (r: Result<Table, Error>)
    ensures ItemCount !in t.columns || PartNumber !in t.columns ==>
              r == Failure(MissingColumns(Missing(t.columns, [ItemCount, PartNumber])))
    ensures ItemCount in t.columns && PartNumber in t.columns ==>
              (r.Success? <==> forall i :: 0 <= i < |t.rows| ==> ReducedUsage(rules, t.rows[i]).Success?)
    ensures ItemCount in t.columns && PartNumber in t.columns && r.Failure? ==>
              exists i :: 0 <= i < |t.rows| && ReducedUsage(rules, t.rows[i]).Failure?
                          && r.error == DivisionByZero(t.rows[i].partNumber.value)
                          && forall j :: 0 <= j < i ==> ReducedUsage(rules, t.rows[j]).Success?
    ensures r.Success? ==>
      && r.value.columns == t.columns + {Usage}
      && |r.value.rows| == |t.rows|
      && forall i :: 0 <= i < |t.rows| ==>
           && r.value.rows[i] == t.rows[i].(usage := r.value.rows[i].usage)
           && IsUsageOf(rules, t.rows[i], r.value.rows[i].usage)
  {
    var _ :- RequireColumns(t, [ItemCount, PartNumber]);
    var usages :- MapResult((x: Row) => ReducedUsage(rules, x), t.rows);
    Success(Table(t.columns + {Usage},
                  seq(|t.rows|, i requires 0 <= i < |t.rows| => t.rows[i].(usage := usages[i]))))
  }

  // ---------------------------------------------------------------------------
  // The domains table
  // ---------------------------------------------------------------------------

  const DomainsRequired: seq<Column> := [Domains, PartnerPurchasedPlanID]

  /** A row with both a plan ID and a domain. */
  predicate Complete(x: Row)
  {
    x.planId.Some? && x.domain.Some?
  }

  function DomainKey(x: Row): Option<string>
  {
    x.domain
  }

  /** The domains and plan IDs of the complete rows, one row per domain: the first. */
  function PrepareDomains(t: Table): (r: Result<Table, Error>)
    ensures r.Success? <==> forall c :: c in DomainsRequired ==> c in t.columns
    ensures r.Failure? ==> r.error == MissingColumns(Missing(t.columns, DomainsRequired))
    ensures r.Success? ==>
      var rows := r.value.rows;
      && r.value.columns == {Domains, PartnerPurchasedPlanID}
      && IsSubseq(rows, t.rows)
      && (forall i :: 0 <= i < |rows| ==> Complete(rows[i]))
      && (forall i, j :: 0 <= i < j < |rows| ==> rows[i].domain != rows[j].domain)
      && (forall x :: x in t.rows && Complete(x) ==> exists y :: y in rows && y.domain == x.domain)
      && (forall y :: y in rows ==> FirstWith(DomainKey, Filter(Complete, t.rows), y.domain) == Some(y))
      && rows == Firsts(DomainKey, Filter(Complete, t.rows))
  {
    var _ :- RequireColumns(t, DomainsRequired);
    var withId := Filter((x: Row) => x.planId.Some?, t.rows);
    var complete := Filter((x: Row) => x.domain.Some?, withId);
    var unique := FirstWins(DomainKey, complete);
    DomainsSelection(t.rows);
    FirstWinsIsFirsts(DomainKey, Filter(Complete, t.rows));
    Success(Table({Domains, PartnerPurchasedPlanID}, unique))
  }

  /** The two masks select the complete rows, in order; de-duplicating them keeps a
      subsequence of the input that covers every domain. */
  lemma DomainsSelection(rows: seq<Row>)
    ensures Filter((x: Row) => x.domain.Some?, Filter((x: Row) => x.planId.Some?, rows)) == Filter(Complete, rows)
    ensures IsSubseq(FirstWins(DomainKey, Filter(Complete, rows)), rows)
    ensures forall x :: x in rows && Complete(x) ==>
              exists y :: y in FirstWins(DomainKey, Filter(Complete, rows)) && y.domain == x.domain
  {
    var complete := Filter(Complete, rows);
    var unique := FirstWins(DomainKey, complete);
    FilterFuse((x: Row) => x.planId.Some?, (x: Row) => x.domain.Some?, Complete, rows);
    FilterIsSubseq(Complete, rows);
    SubseqTrans(unique, complete, rows);
    forall x | x in rows && Complete(x)
      ensures exists y :: y in unique && y.domain == x.domain
    {
      assert DomainKey(x) in KeySet(DomainKey, complete);
      assert DomainKey(x) in KeySet(DomainKey, unique);
    }
  }
}

/** The table transformations' tests, worked through the model. */
module DfFunctionsExamples {

  import opened Wrappers
  import opened Seqs
  import opened Frames
  import opened DfFunctions

  /** A row with only a part number and an item count. */
  function Counted(partNumber: string, itemCount: int): Row
  {
    Row(0, "", None, None, Some(partNumber), Some(itemCount), None, None, None)
  }

  /** Part numbers X, Y and Z with X and Y mapped: two rows remain, with products prod1 and
      prod2, and Z is gone. */
  lemma ProductMappingExample()
    ensures var t := Table({PartNumber}, [Counted("X", 1), Counted("Y", 1), Counted("Z", 1)]);
            var r := ApplyProductMapping(t, map["X" := "prod1", "Y" := "prod2"]);
            && r.Success?
            && Product in r.value.columns
            && r.value.rows == [Counted("X", 1).(product := Some("prod1")), Counted("Y", 1).(product := Some("prod2"))]
  {
    var rows := [Counted("X", 1), Counted("Y", 1), Counted("Z", 1)];
    var m := map["X" := "prod1", "Y" := "prod2"];
    var known := (x: Row) => HasProduct(m, x);
    assert Filter(known, rows[2..]) == [] by {
      FilterCons(known, rows[2], []);
    }
    assert Filter(known, rows[1..]) == [rows[1]] by {
      assert rows[1..] == [rows[1]] + rows[2..];
      FilterCons(known, rows[1], rows[2..]);
    }
    assert Filter(known, rows) == [rows[0], rows[1]] by {
      assert rows == [rows[0]] + rows[1..];
      FilterCons(known, rows[0], rows[1..]);
    }
  }

  /** Counts 1000 and 2000 under rules 100 and 1000 give usages 10 and 2. */
  lemma UsageReductionExample()
    ensures var t := Table({ItemCount, PartNumber}, [Counted("A", 1000), Counted("B", 2000)]);
            var r := ApplyUsageReduction(t, map["A" := 100.0, "B" := 1000.0]);
            && r.Success?
            && Usage in r.value.columns
            && r.value.rows[0].usage == Some(10.0)
            && r.value.rows[1].usage == Some(2.0)
  {
  }

  /** A row with only a domain and a plan ID, either of which may be empty. */
  function Listed(domain: Option<string>, planId: Option<string>): Row
  {
    Row(0, "", domain, None, None, None, planId, None, None)
  }

  /** Domains a.com, b.com, empty and a.com with plan IDs id1, id2, id3 and empty: the third
      row lacks a domain, the fourth a plan ID, so a.com with id1 and b.com with id2 remain. */
  lemma PrepareDomainsExample()
    ensures var t := Table({Domains, PartnerPurchasedPlanID},
                           [Listed(Some("a.com"), Some("id1")), Listed(Some("b.com"), Some("id2")),
                            Listed(None, Some("id3")), Listed(Some("a.com"), None)]);
            var r := PrepareDomains(t);
            && r.Success?
            && r.value.rows == [Listed(Some("a.com"), Some("id1")), Listed(Some("b.com"), Some("id2"))]
  {
    var rows := [Listed(Some("a.com"), Some("id1")), Listed(Some("b.com"), Some("id2")),
                 Listed(None, Some("id3")), Listed(Some("a.com"), None)];
    var complete := [rows[0], rows[1]];
    assert Filter(Complete, rows) == complete by {
      assert Filter(Complete, rows[3..]) == [] by {
        FilterCons(Complete, rows[3], []);
      }
      assert Filter(Complete, rows[2..]) == [] by {
        assert rows[2..] == [rows[2]] + rows[3..];
        FilterCons(Complete, rows[2], rows[3..]);
      }
      assert Filter(Complete, rows[1..]) == [rows[1]] by {
        assert rows[1..] == [rows[1]] + rows[2..];
        FilterCons(Complete, rows[1], rows[2..]);
      }
      assert rows == [rows[0]] + rows[1..];
      FilterCons(Complete, rows[0], rows[1..]);
    }
    assert IsFirstAt(DomainKey, complete, 1);
    assert FirstsFrom(DomainKey, complete, 1) == [rows[1]];
  }
}
