/** A reader for the multi-row INSERT statements the generator writes. It is not part of the
    translator: it is the inverse the generator's contracts are stated against. */
module SqlDecoder {

  import opened Wrappers
  import opened Strings

  /** Reads one value at the front of `s`: `NULL`, a quoted literal or an integer. */
  function ParseValue(s: string): (r: Option<(SqlValue, string)>)
    ensures r.Some? ==> |r.value.1| < |s|
  {
    if |s| >= 4 && s[..4] == "NULL" then Some((SqlNull, s[4..]))
    else if s != [] && s[0] == '\'' then
      match ParseQuoted(s[1..])
      case None => None
      case Some((x, rest)) => Some((SqlText(x), rest))
    else
      match ParseInt(s)
      case None => None
      case Some((n, rest)) => Some((SqlInt(n), rest))
  }

  /** Reads `v, v, …, v)`: the values of one tuple and its closing parenthesis. */
  function ParseValues(s: string): (r: Option<(seq<SqlValue>, string)>)
    ensures r.Some? ==> |r.value.1| < |s|
    decreases |s|
  {
    match ParseValue(s)
    case None => None
    case Some((v, rest)) =>
      if |rest| >= 2 && rest[..2] == ", " then
        match ParseValues(rest[2..])
        case None => None
        case Some((vs, rest')) => Some(([v] + vs, rest'))
      else if rest != [] && rest[0] == ')' then Some(([v], rest[1..]))
      else None
  }

  /** Reads `(…),\n(…),\n…(…)\n;\n`: the tuples of a statement and its terminator. */
  function ParseTuples(s: string): Option<seq<seq<SqlValue>>>
    decreases |s|
  {
    if s == [] || s[0] != '(' then None
    else
      match ParseValues(s[1..])
      case None => None
      case Some((vs, rest)) =>
        if rest == "\n;\n" then Some([vs])
        else if |rest| >= 2 && rest[..2] == ",\n" then
          match ParseTuples(rest[2..])
          case None => None
          case Some(ts) => Some([vs] + ts)
        else None
  }

  /** Reads a whole statement opened by `header`: the header line, the tuples, then `;`. */
  function ParseStatement(header: string, text: string): Option<seq<seq<SqlValue>>>
  {
    var n := |header| + 1;
    if |text| >= n && text[..n] == header + "\n" then
      var body := text[n..];
      if body == "\n;\n" then Some([]) else ParseTuples(body)
    else
      None
  }
}

/** SQL INSERT rendering (app/services/sql_generator.py): each generator returns the text it
    would write to its file. */
module SqlGenerator {

  import opened Wrappers
  import opened Seqs
  import opened Frames
  import opened Strings
  import opened SqlDecoder

  // ---------------------------------------------------------------------------
  // Statement layout
  // ---------------------------------------------------------------------------

  function QuoteIdentifier(name: string): string
  {
    "\"" + name + "\""
  }

  /** `INSERT INTO <table> ("c1", "c2", …) VALUES` */
  function InsertHeader(table: string, columns: seq<string>): string
  {
    "INSERT INTO " + table + " (" + Join(", ", Map(QuoteIdentifier, columns)) + ") VALUES"
  }

  /** One row: its escaped values, comma-separated, in parentheses. */
  function TupleText(values: seq<SqlValue>): string
  {
    "(" + Join(", ", Map(Escape, values)) + ")"
  }

  /** The header line, the tuples separated by `,` and a newline, a newline, then `;`. */
  function Statement(header: string, tuples: seq<seq<SqlValue>>): string
  {
    header + "\n" + Join(",\n", Map(TupleText, tuples)) + "\n" + ";\n"
  }

  /** Python's `int()` on a number: truncation toward zero. */
  function TruncateToInt(x: real): (n: int)
    ensures 0.0 <= x ==> n as real <= x < n as real + 1.0
    ensures x < 0.0 ==> n as real - 1.0 < x <= n as real
  {
    if x >= 0.0 then x.Floor else -((-x).Floor)
  }

  function OptionalSql(o: Option<string>): SqlValue
  {
    if o.Some? then SqlText(o.value) else SqlNull
  }

  // ---------------------------------------------------------------------------
  // The chargeable statement
  // ---------------------------------------------------------------------------

  const ChargeableHeader: string :=
    InsertHeader("chargeable", ["partnerID", "product", "partnerPurchasedPlanID", "plan", "usage"])

  /** The columns a chargeable tuple reads. */
  const ChargeableSources: seq<Column> := [PartnerID, Product, PartnerPurchasedPlanID, Plan, Usage]

  /** The values of one chargeable row, failing as the row lookup does: usage is read (and
      converted) first, then the other cells in tuple order. */
  function ChargeableTuple(columns: set<Column>, x: Row): (r: Result<seq<SqlValue>, Error>)
    ensures r.Success? <==> (forall c :: c in ChargeableSources ==> c in columns) && x.usage.Some?
  {
    if Usage !in columns then Failure(MissingColumns([Usage]))
    else if x.usage.None? then Failure(MissingValue(Usage))
    else
      var m := Missing(columns, [PartnerID, Product, PartnerPurchasedPlanID, Plan]);
      if m != [] then
        Failure(MissingColumns([m[0]]))
      else
        Success([SqlInt(x.partnerID), OptionalSql(x.product), OptionalSql(x.planId),
                 OptionalSql(x.plan), SqlInt(TruncateToInt(x.usage.value))])
  }

  /** The contents of insert_into_chargeable.sql for a table of chargeable rows. */
  function RenderChargeable(t: Table): (r: Result<string, Error>)
    ensures t.rows == [] ==> r == Success(ChargeableHeader + "\n\n;\n")
    ensures r.Success? <==>
      || t.rows == []
      || ((forall c :: c in ChargeableSources ==> c in t.columns)
          && forall i :: 0 <= i < |t.rows| ==> t.rows[i].usage.Some?)
    ensures r.Success? ==>
      var decoded := ParseStatement(ChargeableHeader, r.value);
      && decoded.Some?
      && |decoded.value| == |t.rows|
      && forall i :: 0 <= i < |t.rows| ==>
           && t.rows[i].usage.Some?
           && decoded.value[i] == [SqlInt(t.rows[i].partnerID), OptionalSql(t.rows[i].product),
                                   OptionalSql(t.rows[i].planId), OptionalSql(t.rows[i].plan),
                                   SqlInt(TruncateToInt(t.rows[i].usage.value))]
  {
    var tuples :- MapResult((x: Row) => ChargeableTuple(t.columns, x), t.rows);
    assert forall i :: 0 <= i < |tuples| ==> |tuples[i]| == 5;
    StatementRoundTrip(ChargeableHeader, tuples);
    Success(Statement(ChargeableHeader, tuples))
  }

  // ---------------------------------------------------------------------------
  // The domains statement
  // ---------------------------------------------------------------------------

  const DomainsHeader: string :=
    InsertHeader("domains", ["partnerPurchasedPlanID", "domain"])

  /** The values of one domains row: the plan ID, then the domain. */
  function DomainsTuple(columns: set<Column>, x: Row): (r: Result<seq<SqlValue>, Error>)
    ensures r.Success? <==> PartnerPurchasedPlanID in columns && Domains in columns
  {
    var m := Missing(columns, [PartnerPurchasedPlanID, Domains]);
    if m != [] then
      Failure(MissingColumns([m[0]]))
    else
      Success([OptionalSql(x.planId), OptionalSql(x.domain)])
  }

  /** The contents of insert_into_domains.sql for a table of domain rows. */
  function RenderDomains(t: Table): (r: Result<string, Error>)
    ensures t.rows == [] ==> r == Success(DomainsHeader + "\n\n;\n")
    ensures r.Success? <==>
      t.rows == [] || (PartnerPurchasedPlanID in t.columns && Domains in t.columns)
    ensures r.Success? ==>
      var decoded := ParseStatement(DomainsHeader, r.value);
      && decoded.Some?
      && |decoded.value| == |t.rows|
      && forall i :: 0 <= i < |t.rows| ==>
           decoded.value[i] == [OptionalSql(t.rows[i].planId), OptionalSql(t.rows[i].domain)]
  {
    var tuples :- MapResult((x: Row) => DomainsTuple(t.columns, x), t.rows);
    assert forall i :: 0 <= i < |tuples| ==> |tuples[i]| == 2;
    StatementRoundTrip(DomainsHeader, tuples);
    Success(Statement(DomainsHeader, tuples))
  }

  // ---------------------------------------------------------------------------
  // Round trip: the decoder reads back exactly the values that were rendered
  // ---------------------------------------------------------------------------

  /** A value followed by a separator reads back as itself. */
  lemma ValueRoundTrip(v: SqlValue, rest: string)
    requires rest != [] && (rest[0] == ',' || rest[0] == ')')
    ensures ParseValue(Escape(v) + rest) == Some((v, rest))
  {
    match v
    case SqlNull =>
      var s := Escape(v) + rest;
      assert s[..4] == "NULL" && s[4..] == rest;
    case SqlText(x) => TextRoundTrip(x, rest);
    case SqlInt(n) => IntRoundTrip(n, rest);
  }

  lemma TextRoundTrip(x: string, rest: string)
    requires rest != [] && (rest[0] == ',' || rest[0] == ')')
    ensures ParseValue(Escape(SqlText(x)) + rest) == Some((SqlText(x), rest))
  {
    var s := Escape(SqlText(x)) + rest;
    assert s[0] == '\'';
    assert s[1..] == DoubleQuotes(x) + "'" + rest;
    QuotedRoundTrip(x, rest);
  }

  lemma IntRoundTrip(n: int, rest: string)
    requires rest != [] && (rest[0] == ',' || rest[0] == ')')
    ensures ParseValue(Escape(SqlInt(n)) + rest) == Some((SqlInt(n), rest))
  {
    var s := Escape(SqlInt(n)) + rest;
    var m: nat := if n < 0 then -n else n;
    assert IntText(n)[0] == '-' || IntText(n)[0] == NatText(m)[0];
    assert s[0] == IntText(n)[0];
    IntTextRoundTrip(n, rest);
  }

  /** The escaped values of a tuple, its closing parenthesis and anything after read back as
      the values and the text after the parenthesis. */
  lemma {:induction false} ValuesRoundTrip(vs: seq<SqlValue>, rest: string)
    requires |vs| > 0
    ensures ParseValues(Join(", ", Map(Escape, vs)) + ")" + rest) == Some((vs, rest))
    decreases |vs|
  {
    if |vs| == 1 {
      var after := ")" + rest;
      SplitFirstValue(vs, rest, after);
      ValueRoundTrip(vs[0], after);
      LastValue(vs[0], rest);
      assert [vs[0]] == vs;
    } else {
      var tail := Join(", ", Map(Escape, vs[1..])) + ")" + rest;
      SplitFirstValue(vs, rest, ", " + tail);
      ValueRoundTrip(vs[0], ", " + tail);
      ValuesRoundTrip(vs[1..], rest);
      NextValue(vs[0], tail, vs[1..], rest);
      assert [vs[0]] + vs[1..] == vs;
    }
  }

  /** The text of a tuple's values is the first value's text, then what follows it. */
  lemma SplitFirstValue(vs: seq<SqlValue>, rest: string, after: string)
    requires |vs| > 0
    requires after == if |vs| == 1 then ")" + rest else ", " + (Join(", ", Map(Escape, vs[1..])) + ")" + rest)
    ensures Join(", ", Map(Escape, vs)) + ")" + rest == Escape(vs[0]) + after
  {
    var es := Map(Escape, vs);
    if |vs| > 1 {
      assert es[1..] == Map(Escape, vs[1..]);
      assert Join(", ", es) == es[0] + ", " + Join(", ", es[1..]);
    }
  }

  /** After the last value the reader expects the closing parenthesis. */
  lemma LastValue(v: SqlValue, rest: string)
    requires ParseValue(Escape(v) + (")" + rest)) == Some((v, ")" + rest))
    ensures ParseValues(Escape(v) + (")" + rest)) == Some(([v], rest))
  {
    var after := ")" + rest;
    assert after[0] == ')' && after[1..] == rest;
  }

  /** After a value followed by `, ` the reader continues with the next value. */
  lemma NextValue(v: SqlValue, tail: string, vs: seq<SqlValue>, rest: string)
    requires ParseValue(Escape(v) + (", " + tail)) == Some((v, ", " + tail))
    requires ParseValues(tail) == Some((vs, rest))
    ensures ParseValues(Escape(v) + (", " + tail)) == Some(([v] + vs, rest))
  {
    var after := ", " + tail;
    assert after[..2] == ", " && after[2..] == tail;
  }

  /** The tuples of a statement, up to and including its terminator, read back as the tuples. */
  lemma {:induction false} TuplesRoundTrip(ts: seq<seq<SqlValue>>)
    requires |ts| > 0
    requires forall i :: 0 <= i < |ts| ==> |ts[i]| > 0
    ensures ParseTuples(Join(",\n", Map(TupleText, ts)) + "\n;\n") == Some(ts)
    decreases |ts|
  {
    var values := Join(", ", Map(Escape, ts[0]));
    if |ts| == 1 {
      var after := "\n;\n";
      SplitFirstTuple(ts, after, after);
      ValuesRoundTrip(ts[0], after);
      LastTuple(values + ")" + after, ts[0]);
      assert [ts[0]] == ts;
    } else {
      var more := Join(",\n", Map(TupleText, ts[1..])) + "\n;\n";
      var after := ",\n" + more;
      SplitFirstTuple(ts, "\n;\n", after);
      ValuesRoundTrip(ts[0], after);
      TuplesRoundTrip(ts[1..]);
      NextTuple(values + ")" + after, ts[0], more, ts[1..]);
      assert [ts[0]] + ts[1..] == ts;
    }
  }

  /** The joined tuples begin with the first tuple's parenthesised values; what follows is
      the terminator for a single tuple, or `,`, a newline and the remaining tuples. */
  lemma SplitFirstTuple(ts: seq<seq<SqlValue>>, end: string, after: string)
    requires |ts| > 0
    requires after == if |ts| == 1 then end else ",\n" + Join(",\n", Map(TupleText, ts[1..])) + end
    ensures Join(",\n", Map(TupleText, ts)) + end
            == "(" + (Join(", ", Map(Escape, ts[0])) + ")" + after)
  {
    var tt := Map(TupleText, ts);
    if |ts| > 1 {
      assert tt[1..] == Map(TupleText, ts[1..]);
      assert Join(",\n", tt) == tt[0] + ",\n" + Join(",\n", tt[1..]);
    }
  }

  /** A tuple starts with its opening parenthesis. */
  lemma OpenTuple(inner: string)
    ensures ("(" + inner)[0] == '(' && ("(" + inner)[1..] == inner
  {
  }

  /** A tuple followed by the terminator ends the statement. */
  lemma LastTuple(inner: string, vs: seq<SqlValue>)
    requires ParseValues(inner) == Some((vs, "\n;\n"))
    ensures ParseTuples("(" + inner) == Some([vs])
  {
    OpenTuple(inner);
  }

  /** After a tuple followed by `,` and a newline the reader continues with the next tuple. */
  lemma NextTuple(inner: string, vs: seq<SqlValue>, more: string, ts: seq<seq<SqlValue>>)
    requires ParseValues(inner) == Some((vs, ",\n" + more))
    requires ParseTuples(more) == Some(ts)
    ensures ParseTuples("(" + inner) == Some([vs] + ts)
  {
    var after := ",\n" + more;
    assert after[..2] == ",\n" && after[2..] == more;
    assert after != "\n;\n";
    OpenTuple(inner);
  }

  /** A rendered statement reads back as exactly the tuples it was rendered from, one per
      record, in order; with no records it is the header followed by an empty line and `;`. */
  lemma StatementRoundTrip(header: string, ts: seq<seq<SqlValue>>)
    requires forall i :: 0 <= i < |ts| ==> |ts[i]| > 0
    ensures ParseStatement(header, Statement(header, ts)) == Some(ts)
    ensures ts == [] ==> Statement(header, ts) == header + "\n\n;\n"
  {
    var body := Join(",\n", Map(TupleText, ts)) + "\n;\n";
    var text := Statement(header, ts);
    assert text == (header + "\n") + body;
    var n := |header| + 1;
    assert text[..n] == header + "\n";
    assert text[n..] == body;
    if ts != [] {
      TuplesRoundTrip(ts);
      assert Map(TupleText, ts)[0] == TupleText(ts[0]);
      assert body[0] == '(';
    }
  }

  // ---------------------------------------------------------------------------
  // Read back: whatever the decoder accepts is the rendering of what it returned
  // ---------------------------------------------------------------------------

  /** A value the reader accepts was written as the escape of that value. */
  lemma ValueReadBack(s: string)
    requires ParseValue(s).Some?
    ensures s == Escape(ParseValue(s).value.0) + ParseValue(s).value.1
  {
    if |s| >= 4 && s[..4] == "NULL" {
      assert s == s[..4] + s[4..];
    } else if s != [] && s[0] == '\'' {
      QuotedReadBack(s[1..]);
      assert s == "'" + s[1..];
    } else {
      IntTextReadBack(s);
    }
  }

  /** Values the reader accepts were written as a tuple's joined values and its closing
      parenthesis. */
  lemma {:induction false} ValuesReadBack(s: string)
    requires ParseValues(s).Some?
    ensures |ParseValues(s).value.0| > 0
    ensures s == Join(", ", Map(Escape, ParseValues(s).value.0)) + ")" + ParseValues(s).value.1
    decreases |s|
  {
    var (v, after) := ParseValue(s).value;
    ValueReadBack(s);
    if |after| >= 2 && after[..2] == ", " {
      var (vs, rest) := ParseValues(after[2..]).value;
      ValuesReadBack(after[2..]);
      var all := [v] + vs;
      assert all[0] == v && all[1..] == vs;
      assert after == ", " + after[2..];
      SplitFirstValue(all, rest, after);
    } else {
      SplitFirstValue([v], after[1..], after);
    }
  }

  /** Tuples the reader accepts were written as the joined tuples and the terminator. */
  lemma {:induction false} TuplesReadBack(s: string)
    requires ParseTuples(s).Some?
    ensures |ParseTuples(s).value| > 0
    ensures forall i :: 0 <= i < |ParseTuples(s).value| ==> |ParseTuples(s).value[i]| > 0
    ensures s == Join(",\n", Map(TupleText, ParseTuples(s).value)) + "\n;\n"
    decreases |s|
  {
    var (vs, rest) := ParseValues(s[1..]).value;
    ValuesReadBack(s[1..]);
    assert s == "(" + s[1..];
    if rest == "\n;\n" {
      SplitFirstTuple([vs], rest, rest);
    } else {
      var ts := ParseTuples(rest[2..]).value;
      TuplesReadBack(rest[2..]);
      var all := [vs] + ts;
      assert all[0] == vs && all[1..] == ts;
      assert rest == ",\n" + rest[2..];
      SplitFirstTuple(all, "\n;\n", rest);
    }
  }

  /** A statement the reader accepts is the rendering of the tuples it returns: rendering
      and reading are inverse bijections between tuple lists and statement texts. */
  lemma StatementReadBack(header: string, text: string)
    requires ParseStatement(header, text).Some?
    ensures forall i :: 0 <= i < |ParseStatement(header, text).value| ==> |ParseStatement(header, text).value[i]| > 0
    ensures text == Statement(header, ParseStatement(header, text).value)
  {
    var n := |header| + 1;
    var body := text[n..];
    assert text == (header + "\n") + body;
    if body == "\n;\n" {
      assert Statement(header, []) == header + "\n" + "" + "\n" + ";\n";
    } else {
      TuplesReadBack(body);
      var ts := ParseTuples(body).value;
      assert Statement(header, ts) == (header + "\n") + (Join(",\n", Map(TupleText, ts)) + "\n;\n");
    }
  }
}

/** The SQL writers' tests, worked through the model. */
module SqlGeneratorExamples {

  import opened Wrappers
  import opened Seqs
  import opened Frames
  import opened Strings
  import opened SqlDecoder
  import opened SqlGenerator

  /** A chargeable row: partner ID, product, plan ID, plan and usage. */
  function Charged(partnerID: int, product: string, planId: string, plan: string, usage: real): Row
  {
    Row(partnerID, "", None, Some(plan), None, None, Some(planId), Some(product), Some(usage))
  }

  /** A domains row: domain and plan ID. */
  function Listed(domain: string, planId: string): Row
  {
    Row(0, "", Some(domain), None, None, None, Some(planId), None, None)
  }

  /** The chargeable statement starts with exactly the `INSERT` line the writer's test looks for. */
  lemma ChargeableHeaderText()
    ensures ChargeableHeader
            == "INSERT INTO chargeable (\"partnerID\", \"product\", \"partnerPurchasedPlanID\", \"plan\", \"usage\") VALUES"
  {
    InsertHeaderFive("chargeable", "partnerID", "product", "partnerPurchasedPlanID", "plan", "usage");
    QuotedColumnNames();
    ChargeableOpening();
    ChargeableFirstName();
    ChargeableSecondName();
    ChargeableThirdName();
    ChargeableFourthName();
    ChargeableFifthName();
    ChargeableClosing();
  }

  /** The domains statement starts with exactly the `INSERT` line the writer's test looks for. */
  lemma DomainsHeaderText()
    ensures DomainsHeader == "INSERT INTO domains (\"partnerPurchasedPlanID\", \"domain\") VALUES"
  {
    InsertHeaderTwo("domains", "partnerPurchasedPlanID", "domain");
    QuotedColumnNames();
    DomainsOpening();
    DomainsFirstName();
    DomainsSecondName();
    DomainsClosing();
  }

  /** The `INSERT` line for two columns, piece by piece. */
  lemma InsertHeaderTwo(table: string, a: string, b: string)
    ensures InsertHeader(table, [a, b])
            == "INSERT INTO " + table + " (" + QuoteIdentifier(a) + ", " + QuoteIdentifier(b) + ") VALUES"
  {
    var qs := [QuoteIdentifier(a), QuoteIdentifier(b)];
    assert Map(QuoteIdentifier, [a, b]) == qs;
    assert Join(", ", qs) == qs[0] + ", " + qs[1] by {
      assert qs[1..] == [qs[1]];
    }
  }

  /** The `INSERT` line for five columns, piece by piece. */
  lemma InsertHeaderFive(table: string, a: string, b: string, c: string, d: string, e: string)
    ensures InsertHeader(table, [a, b, c, d, e])
            == "INSERT INTO " + table + " (" + QuoteIdentifier(a) + ", " + QuoteIdentifier(b) + ", "
               + QuoteIdentifier(c) + ", " + QuoteIdentifier(d) + ", " + QuoteIdentifier(e) + ") VALUES"
  {
    var qs := [QuoteIdentifier(a), QuoteIdentifier(b), QuoteIdentifier(c), QuoteIdentifier(d), QuoteIdentifier(e)];
    assert Map(QuoteIdentifier, [a, b, c, d, e]) == qs;
    JoinFive(", ", qs[0], qs[1], qs[2], qs[3], qs[4]);
    assert qs == [qs[0], qs[1], qs[2], qs[3], qs[4]];
  }

  /** The quoted names of the statements' columns. */
  lemma QuotedColumnNames()
    ensures QuoteIdentifier("partnerID") == "\"partnerID\""
    ensures QuoteIdentifier("product") == "\"product\""
    ensures QuoteIdentifier("partnerPurchasedPlanID") == "\"partnerPurchasedPlanID\""
    ensures QuoteIdentifier("plan") == "\"plan\""
    ensures QuoteIdentifier("usage") == "\"usage\""
    ensures QuoteIdentifier("domain") == "\"domain\""
  {
  }

  // The `INSERT` lines spelled out one piece at a time: a literal comparison of the whole
  // line at once is beyond the solver's budget.

  lemma ChargeableOpening()
    ensures "INSERT INTO " + "chargeable" + " (" == "INSERT INTO chargeable ("
  {
  }

  lemma ChargeableFirstName()
    ensures "INSERT INTO chargeable (" + "\"partnerID\"" == "INSERT INTO chargeable (\"partnerID\""
  {
  }

  lemma ChargeableSecondName()
    ensures "INSERT INTO chargeable (\"partnerID\"" + ", " + "\"product\""
            == "INSERT INTO chargeable (\"partnerID\", \"product\""
  {
  }

  lemma ChargeableThirdName()
    ensures "INSERT INTO chargeable (\"partnerID\", \"product\"" + ", " + "\"partnerPurchasedPlanID\""
            == "INSERT INTO chargeable (\"partnerID\", \"product\", \"partnerPurchasedPlanID\""
  {
  }

  lemma ChargeableFourthName()
    ensures "INSERT INTO chargeable (\"partnerID\", \"product\", \"partnerPurchasedPlanID\"" + ", " + "\"plan\""
            == "INSERT INTO chargeable (\"partnerID\", \"product\", \"partnerPurchasedPlanID\", \"plan\""
  {
  }

  lemma ChargeableFifthName()
    ensures "INSERT INTO chargeable (\"partnerID\", \"product\", \"partnerPurchasedPlanID\", \"plan\"" + ", " + "\"usage\""
            == "INSERT INTO chargeable (\"partnerID\", \"product\", \"partnerPurchasedPlanID\", \"plan\", \"usage\""
  {
  }

  lemma ChargeableClosing()
    ensures "INSERT INTO chargeable (\"partnerID\", \"product\", \"partnerPurchasedPlanID\", \"plan\", \"usage\"" + ") VALUES"
            == "INSERT INTO chargeable (\"partnerID\", \"product\", \"partnerPurchasedPlanID\", \"plan\", \"usage\") VALUES"
  {
  }

  lemma DomainsOpening()
    ensures "INSERT INTO " + "domains" + " (" == "INSERT INTO domains ("
  {
  }

  lemma DomainsFirstName()
    ensures "INSERT INTO domains (" + "\"partnerPurchasedPlanID\"" == "INSERT INTO domains (\"partnerPurchasedPlanID\""
  {
  }

  lemma DomainsSecondName()
    ensures "INSERT INTO domains (\"partnerPurchasedPlanID\"" + ", " + "\"domain\""
            == "INSERT INTO domains (\"partnerPurchasedPlanID\", \"domain\""
  {
  }

  lemma DomainsClosing()
    ensures "INSERT INTO domains (\"partnerPurchasedPlanID\", \"domain\"" + ") VALUES"
            == "INSERT INTO domains (\"partnerPurchasedPlanID\", \"domain\") VALUES"
  {
  }

  /** Partners 1 and 2 with usages 10 and 20: the statement reads back as their two tuples. */
  lemma ChargeableStatementExample()
    ensures var t := Table({PartnerID, Product, PartnerPurchasedPlanID, Plan, Usage},
                           [Charged(1, "prodA", "idA", "planA", 10.0), Charged(2, "prodB", "idB", "planB", 20.0)]);
            var r := RenderChargeable(t);
            && r.Success?
            && ParseStatement(ChargeableHeader, r.value)
               == Some([[SqlInt(1), SqlText("prodA"), SqlText("idA"), SqlText("planA"), SqlInt(10)],
                        [SqlInt(2), SqlText("prodB"), SqlText("idB"), SqlText("planB"), SqlInt(20)]])
  {
    var t := Table({PartnerID, Product, PartnerPurchasedPlanID, Plan, Usage},
                   [Charged(1, "prodA", "idA", "planA", 10.0), Charged(2, "prodB", "idB", "planB", 20.0)]);
    var r := RenderChargeable(t);
    assert r.Success?;
    var d := ParseStatement(ChargeableHeader, r.value).value;
    assert TruncateToInt(10.0) == 10 && TruncateToInt(20.0) == 20;
    assert d[0] == [SqlInt(1), SqlText("prodA"), SqlText("idA"), SqlText("planA"), SqlInt(10)];
    assert d[1] == [SqlInt(2), SqlText("prodB"), SqlText("idB"), SqlText("planB"), SqlInt(20)];
    assert d == [d[0], d[1]];
  }

  /** The first of those tuples is written `(1, 'prodA', 'idA', 'planA', 10)`. */
  lemma ChargeableTupleTextExample()
    ensures TupleText([SqlInt(1), SqlText("prodA"), SqlText("idA"), SqlText("planA"), SqlInt(10)])
            == "(1, 'prodA', 'idA', 'planA', 10)"
  {
    ChargeableTupleText(1, "prodA", "idA", "planA", 10);
    assert IntText(10) == "10" by {
      assert NatText(10) == NatText(1) + "0";
    }
    Spelled();
  }

  /** The tuple text spelled out: the values, then the parentheses. */
  lemma Spelled()
    ensures "(" + ("1" + ", " + ("'" + "prodA" + "'") + ", " + ("'" + "idA" + "'") + ", "
                   + ("'" + "planA" + "'") + ", " + "10") + ")"
            == "(1, 'prodA', 'idA', 'planA', 10)"
  {
    SpelledValues();
    SpelledTuple();
  }

  lemma SpelledValues()
    ensures "1" + ", " + ("'" + "prodA" + "'") + ", " + ("'" + "idA" + "'") + ", " + ("'" + "planA" + "'") + ", " + "10"
            == "1, 'prodA', 'idA', 'planA', 10"
  {
  }

  lemma SpelledTuple()
    ensures "(" + "1, 'prodA', 'idA', 'planA', 10" + ")" == "(1, 'prodA', 'idA', 'planA', 10)"
  {
  }

  /** A chargeable tuple of texts without quotes is written with each text in quotes. */
  lemma ChargeableTupleText(partnerID: int, product: string, planId: string, plan: string, usage: int)
    requires forall i :: 0 <= i < |product| ==> product[i] != '\''
    requires forall i :: 0 <= i < |planId| ==> planId[i] != '\''
    requires forall i :: 0 <= i < |plan| ==> plan[i] != '\''
    ensures TupleText([SqlInt(partnerID), SqlText(product), SqlText(planId), SqlText(plan), SqlInt(usage)])
            == "(" + (IntText(partnerID) + ", " + ("'" + product + "'") + ", " + ("'" + planId + "'") + ", "
                      + ("'" + plan + "'") + ", " + IntText(usage)) + ")"
  {
    var texts := [IntText(partnerID), "'" + product + "'", "'" + planId + "'", "'" + plan + "'", IntText(usage)];
    EscapedChargeableTuple(partnerID, product, planId, plan, usage);
    JoinFive(", ", texts[0], texts[1], texts[2], texts[3], texts[4]);
    assert texts == [texts[0], texts[1], texts[2], texts[3], texts[4]];
  }

  /** The escaped values of such a tuple. */
  lemma EscapedChargeableTuple(partnerID: int, product: string, planId: string, plan: string, usage: int)
    requires forall i :: 0 <= i < |product| ==> product[i] != '\''
    requires forall i :: 0 <= i < |planId| ==> planId[i] != '\''
    requires forall i :: 0 <= i < |plan| ==> plan[i] != '\''
    ensures Map(Escape, [SqlInt(partnerID), SqlText(product), SqlText(planId), SqlText(plan), SqlInt(usage)])
            == [IntText(partnerID), "'" + product + "'", "'" + planId + "'", "'" + plan + "'", IntText(usage)]
  {
    Unquoted(product);
    Unquoted(planId);
    Unquoted(plan);
  }

  /** Five texts joined by a separator. */
  lemma JoinFive(sep: string, a: string, b: string, c: string, d: string, e: string)
    ensures Join(sep, [a, b, c, d, e]) == a + sep + b + sep + c + sep + d + sep + e
  {
    assert Join(sep, [e]) == e;
    assert Join(sep, [d, e]) == d + sep + e by {
      assert [d, e][1..] == [e];
    }
    assert Join(sep, [c, d, e]) == c + sep + (d + sep + e) by {
      assert [c, d, e][1..] == [d, e];
    }
    assert Join(sep, [b, c, d, e]) == b + sep + (c + sep + (d + sep + e)) by {
      assert [b, c, d, e][1..] == [c, d, e];
    }
    assert [a, b, c, d, e][1..] == [b, c, d, e];
  }

  /** Plan IDs idA and idB with domains a.com and b.com: the statement reads back as their
      two tuples. */
  lemma DomainsStatementExample()
    ensures var t := Table({PartnerPurchasedPlanID, Domains}, [Listed("a.com", "idA"), Listed("b.com", "idB")]);
            var r := RenderDomains(t);
            && r.Success?
            && ParseStatement(DomainsHeader, r.value)
               == Some([[SqlText("idA"), SqlText("a.com")], [SqlText("idB"), SqlText("b.com")]])
  {
    var t := Table({PartnerPurchasedPlanID, Domains}, [Listed("a.com", "idA"), Listed("b.com", "idB")]);
    var r := RenderDomains(t);
    assert r.Success?;
    var d := ParseStatement(DomainsHeader, r.value).value;
    assert d[0] == [SqlText("idA"), SqlText("a.com")];
    assert d[1] == [SqlText("idB"), SqlText("b.com")];
    assert d == [d[0], d[1]];
  }

  /** The first of those tuples is written `('idA', 'a.com')`. */
  lemma DomainsTupleTextExample()
    ensures TupleText([SqlText("idA"), SqlText("a.com")]) == "('idA', 'a.com')"
  {
    DomainsTupleText("idA", "a.com");
    DomainsSpelledValues();
    DomainsSpelledTuple();
  }

  lemma DomainsSpelledValues()
    ensures ("'" + "idA" + "'") + ", " + ("'" + "a.com" + "'") == "'idA', 'a.com'"
  {
  }

  lemma DomainsSpelledTuple()
    ensures "(" + "'idA', 'a.com'" + ")" == "('idA', 'a.com')"
  {
  }

  /** A domains tuple of texts without quotes is written with each text in quotes. */
  lemma DomainsTupleText(planId: string, domain: string)
    requires forall i :: 0 <= i < |planId| ==> planId[i] != '\''
    requires forall i :: 0 <= i < |domain| ==> domain[i] != '\''
    ensures TupleText([SqlText(planId), SqlText(domain)]) == "(" + (("'" + planId + "'") + ", " + ("'" + domain + "'")) + ")"
  {
    var vs := [SqlText(planId), SqlText(domain)];
    Unquoted(planId);
    Unquoted(domain);
    var texts := ["'" + planId + "'", "'" + domain + "'"];
    assert Map(Escape, vs) == texts;
    assert Join(", ", texts) == texts[0] + ", " + texts[1] by {
      assert texts[1..] == [texts[1]];
    }
  }

  /** A text without quotes is escaped by wrapping it in quotes. */
  lemma Unquoted(s: string)
    requires forall i :: 0 <= i < |s| ==> s[i] != '\''
    ensures Escape(SqlText(s)) == "'" + s + "'"
  {
    DoubleQuotesWithoutQuotes(s);
  }
}
