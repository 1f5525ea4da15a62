/** The typed stand-in for the pandas DataFrame the translator threads through its stages:
    a set of present columns and a sequence of rows. */
module Frames {

  import opened Wrappers
  import opened Seqs

  /** The columns the translator reads or derives, named as in the usage report. */
  datatype Column =
    | PartnerID
    | AccountGuid
    | Domains
    | Plan
    | PartNumber
    | ItemCount
    | PartnerPurchasedPlanID
    | Product
    | Usage

  /** One row of the usage report, with the derived cells the pipeline adds to it.
      A missing cell is `None`. A field whose column is not among the table's columns
      is not part of the table and is never read. The item count is a whole number: a
      fractional count is outside the model. */
  datatype Row = Row(
    partnerID: int,
    accountGuid: string,
    domain: Option<string>,
    plan: Option<string>,
    partNumber: Option<string>,
    itemCount: Option<int>,
    planId: Option<string>,
    product: Option<string>,
    usage: Option<real>)
  {
    /** The cell of column `c` in this row. */
    function Get(c: Column): (v: Cell)
      ensures Fits(c, v)
    {
      match c
      case PartnerID => Whole(partnerID)
      case AccountGuid => Text(accountGuid)
      case Domains => OptionalText(domain)
      case Plan => OptionalText(plan)
      case PartNumber => OptionalText(partNumber)
      case ItemCount => if itemCount.Some? then Whole(itemCount.value) else Null
      case PartnerPurchasedPlanID => OptionalText(planId)
      case Product => OptionalText(product)
      case Usage => if usage.Some? then Fraction(usage.value) else Null
    }

    /** This row with the cell of column `c` replaced by `v`. */
    function Put(c: Column, v: Cell): (r: Row)
      requires Fits(c, v)
      ensures r.Get(c) == v
      ensures forall d :: d != c ==> r.Get(d) == Get(d)
    {
      match c
      case PartnerID => this.(partnerID := v.n)
      case AccountGuid => this.(accountGuid := v.text)
      case Domains => this.(domain := TextOf(v))
      case Plan => this.(plan := TextOf(v))
      case PartNumber => this.(partNumber := TextOf(v))
      case ItemCount => this.(itemCount := if v.Whole? then Some(v.n) else None)
      case PartnerPurchasedPlanID => this.(planId := TextOf(v))
      case Product => this.(product := TextOf(v))
      case Usage => this.(usage := if v.Fraction? then Some(v.q) else None)
    }
  }

  /** A cell seen independently of its column, as a generic column function sees it. */
  datatype Cell = Null | Text(text: string) | Whole(n: int) | Fraction(q: real)

  /** The cells column `c` can hold. */
  predicate Fits(c: Column, v: Cell)
  {
    match c
    case PartnerID => v.Whole?
    case ItemCount => v.Whole? || v.Null?
    case AccountGuid => v.Text?
    case Usage => v.Fraction? || v.Null?
    case _ => v.Text? || v.Null?
  }

  function OptionalText(o: Option<string>): Cell
  {
    if o.Some? then Text(o.value) else Null
  }

  function TextOf(v: Cell): Option<string>
  {
    if v.Text? then Some(v.text) else None
  }

  /** Two rows that agree on every column are the same row. */
  lemma RowsEqualByCells(a: Row, b: Row)
    requires forall c :: a.Get(c) == b.Get(c)
    ensures a == b
  {
    assert a.Get(PartnerID) == b.Get(PartnerID);
    assert a.Get(AccountGuid) == b.Get(AccountGuid);
    assert a.Get(Domains) == b.Get(Domains);
    assert a.Get(Plan) == b.Get(Plan);
    assert a.Get(PartNumber) == b.Get(PartNumber);
    assert a.Get(ItemCount) == b.Get(ItemCount);
    assert a.Get(PartnerPurchasedPlanID) == b.Get(PartnerPurchasedPlanID);
    assert a.Get(Product) == b.Get(Product);
    assert a.Get(Usage) == b.Get(Usage);
  }

  datatype Table = Table(columns: set<Column>, rows: seq<Row>)

  /** The errors the translator raises, reduced to what they carry. */
  datatype Error =
    | MissingColumns(columns: seq<Column>)       // a required column is absent
    | LengthMismatch(expected: int, found: string) // a normalized identifier has the wrong length
    | MissingValue(column: Column)               // a cell that must be numeric is missing
    | DivisionByZero(partNumber: string)         // a reduction rule divides by zero

  /** The members of `required` that are not among `columns`, in the order requested. */
  function Missing(columns: set<Column>, required: seq<Column>): (m: seq<Column>)
    ensures forall c :: c in m <==> c in required && c !in columns
    ensures IsSubseq(m, required)
  {
    var absent := (c: Column) => c !in columns;
    FilterIsSubseq(absent, required);
    Filter(absent, required)
  }

  /** Succeeds exactly when every required column is present; otherwise the error lists the
      absent ones. */
  function RequireColumns(t: Table, required: seq<Column>): (r: Result<(), Error>)
    ensures r.Success? <==> forall c :: c in required ==> c in t.columns
    ensures r.Failure? ==> r.error == MissingColumns(Missing(t.columns, required))
  {
    var m := Missing(t.columns, required);
    if m == [] then Success(())
    else
      assert m[0] in m;
      Failure(MissingColumns(m))
  }
}
