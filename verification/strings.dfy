/** String utilities: identifier normalization and SQL literal escaping
    (app/utils/strings.py), with the decoders that invert the escaping. */
module Strings {

  import opened Wrappers
  import opened Seqs
  import opened Frames

  // ---------------------------------------------------------------------------
  // Normalization
  // ---------------------------------------------------------------------------

  /** An alphanumeric character (ASCII letters and digits). */
  predicate IsAlnum(c: char)
  {
    ('a' <= c <= 'z') || ('A' <= c <= 'Z') || ('0' <= c <= '9')
  }

  /** The alphanumeric characters of `s`, in their original order. */
  function KeepAlnum(s: string): (r: string)
    ensures |r| <= |s|
    ensures forall i :: 0 <= i < |r| ==> IsAlnum(r[i])
    ensures IsSubseq(r, s)
    ensures forall c :: IsAlnum(c) ==> multiset(r)[c] == multiset(s)[c]
  {
    FilterIsSubseq(IsAlnum, s);
    FilterCounts(IsAlnum, s);
    var r := Filter(IsAlnum, s);
    assert forall i :: 0 <= i < |r| ==> r[i] in r;
    r
  }

  /** Strips every non-alphanumeric character; with an expected length, fails unless the
      stripped string has exactly that length. */
  function Normalize(s: string, expectedLength: Option<int>): (r: Result<string, Error>)
    ensures r.Success? <==> expectedLength.None? || |KeepAlnum(s)| == expectedLength.value
    ensures r.Success? ==> r.value == KeepAlnum(s)
    ensures r.Success? && expectedLength.Some? ==> |r.value| == expectedLength.value
    ensures r.Failure? ==> r.error == LengthMismatch(expectedLength.value, KeepAlnum(s))
  {
    var result := KeepAlnum(s);
    if expectedLength.Some? && |result| != expectedLength.value then
      Failure(LengthMismatch(expectedLength.value, result))
    else
      Success(result)
  }

  /** A string is its own normalization exactly when it is entirely alphanumeric. */
  lemma KeepAlnumFixpoint(s: string)
    ensures KeepAlnum(s) == s <==> forall i :: 0 <= i < |s| ==> IsAlnum(s[i])
  {
    if forall i :: 0 <= i < |s| ==> IsAlnum(s[i]) {
      FilterKeepsAll(IsAlnum, s);
    }
  }

  /** Normalizing twice is normalizing once. */
  lemma KeepAlnumIdempotent(s: string)
    ensures KeepAlnum(KeepAlnum(s)) == KeepAlnum(s)
  {
    KeepAlnumFixpoint(KeepAlnum(s));
  }

  /** A character that is not alphanumeric, wherever it stands, does not contribute. */
  lemma KeepAlnumSkipsPunctuation(a: string, c: char, b: string)
    requires !IsAlnum(c)
    ensures KeepAlnum(a + [c] + b) == KeepAlnum(a + b)
  {
    FilterAppend(IsAlnum, a + [c], b);
    FilterAppend(IsAlnum, a, [c]);
    FilterAppend(IsAlnum, a, b);
    assert Filter(IsAlnum, [c]) == [] by {
      assert [c][1..] == [];
    }
    assert Filter(IsAlnum, a) + [] == Filter(IsAlnum, a);
  }

  /** A string normalizes to the empty string exactly when none of its characters is
      alphanumeric. */
  lemma NormalizesToEmpty(s: string)
    ensures Normalize(s, None) == Success("") <==> forall i :: 0 <= i < |s| ==> !IsAlnum(s[i])
  {
    var r := KeepAlnum(s);
    if r != [] {
      var c := r[0];
      assert multiset(r)[c] > 0;
      assert c in multiset(s);
      var i :| 0 <= i < |s| && s[i] == c;
    } else {
      forall i | 0 <= i < |s| ensures !IsAlnum(s[i]) {
        assert multiset(s)[s[i]] > 0;
      }
    }
  }

  /** Without an expected length normalization never fails, and it never lengthens. */
  lemma NormalizeUnchecked(s: string)
    ensures Normalize(s, None).Success?
    ensures |Normalize(s, None).value| <= |s|
    ensures Normalize(Normalize(s, None).value, None) == Normalize(s, None)
  {
    KeepAlnumIdempotent(s);
  }

  /** Python's `sep.join(xs)`: the strings of `xs` with `sep` between neighbours. */
  function Join(sep: string, xs: seq<string>): string
  {
    if |xs| == 0 then ""
    else if |xs| == 1 then xs[0]
    else xs[0] + sep + Join(sep, xs[1..])
  }

  // ---------------------------------------------------------------------------
  // Decimal text of integers
  // ---------------------------------------------------------------------------

  predicate IsDigit(c: char)
  {
    '0' <= c <= '9'
  }

  predicate AllDigits(s: string)
  {
    forall i :: 0 <= i < |s| ==> IsDigit(s[i])
  }

  function DigitChar(d: nat): (c: char)
    requires d < 10
    ensures IsDigit(c)
  {
    (d + '0' as int) as char
  }

  function DigitValue(c: char): (d: nat)
    requires IsDigit(c)
    ensures d < 10 && DigitChar(d) == c
  {
    c as int - '0' as int
  }

  /** The decimal text of a natural number, without leading zeros. */
  function NatText(n: nat): (r: string)
    ensures |r| > 0 && AllDigits(r)
    decreases n
  {
    if n < 10 then [DigitChar(n)] else NatText(n / 10) + [DigitChar(n % 10)]
  }

  /** The decimal text Python's `str` gives an integer: a minus sign for negatives. */
  function IntText(n: int): (r: string)
  {
    if n < 0 then "-" + NatText(-n) else NatText(n)
  }

  /** The value of a string of decimal digits. */
  function DigitsValue(d: string): nat
    requires AllDigits(d)
  {
    if d == [] then 0 else DigitsValue(d[..|d| - 1]) * 10 + DigitValue(d[|d| - 1])
  }

  /** The length of the run of digits at the front of `s`. */
  function DigitRun(s: string): (k: nat)
    ensures k <= |s|
    ensures forall i :: 0 <= i < k ==> IsDigit(s[i])
    ensures k < |s| ==> !IsDigit(s[k])
  {
    if s == [] || !IsDigit(s[0]) then 0 else 1 + DigitRun(s[1..])
  }

  /** A digit string as `str` writes one: not empty, and no leading zero unless it is `0`. */
  predicate Canonical(d: string)
  {
    d != [] && AllDigits(d) && (|d| > 1 ==> d[0] != '0')
  }

  /** Reads a natural number at the front of `s`, returning it and the text after it; a run
      of digits with a leading zero other than `0` itself is refused. */
  function ParseNat(s: string): (r: Option<(nat, string)>)
    ensures r.Some? ==> |r.value.1| < |s|
  {
    var k := DigitRun(s);
    if k == 0 || (k > 1 && s[0] == '0') then None
    else Some((DigitsValue(s[..k]), s[k..]))
  }

  /** Reads an optionally negative integer at the front of `s`; `-0` is refused. */
  function ParseInt(s: string): (r: Option<(int, string)>)
    ensures r.Some? ==> |r.value.1| < |s|
  {
    if s != [] && s[0] == '-' then
      match ParseNat(s[1..])
      case None => None
      case Some((m, rest)) => if m == 0 then None else Some((0 - m as int, rest))
    else
      match ParseNat(s)
      case None => None
      case Some((m, rest)) => Some((m, rest))
  }

  lemma {:induction false} NatTextValue(n: nat)
    ensures DigitsValue(NatText(n)) == n
    decreases n
  {
    if n >= 10 {
      var t := NatText(n);
      NatTextValue(n / 10);
      assert t[..|t| - 1] == NatText(n / 10);
    }
  }

  lemma {:induction false} DigitRunOfDigits(d: string, rest: string)
    requires AllDigits(d)
    requires rest == [] || !IsDigit(rest[0])
    ensures DigitRun(d + rest) == |d|
  {
    if d != [] {
      assert (d + rest)[1..] == d[1..] + rest;
      DigitRunOfDigits(d[1..], rest);
    } else {
      assert d + rest == rest;
    }
  }

  /** The text of a number starts with a zero only when the number is zero. */
  lemma {:induction false} NatTextLeading(n: nat)
    ensures NatText(n)[0] == '0' <==> n == 0
    decreases n
  {
    if n >= 10 {
      NatTextLeading(n / 10);
      assert NatText(n)[0] == NatText(n / 10)[0];
    }
  }

  /** The text of a number is canonical. */
  lemma NatTextCanonical(n: nat)
    ensures Canonical(NatText(n))
  {
    if |NatText(n)| > 1 {
      NatTextLeading(n);
    }
  }

  /** A canonical digit string with more than one digit has a value of at least ten. */
  lemma {:induction false} CanonicalAtLeastTen(d: string)
    requires Canonical(d) && |d| > 1
    ensures DigitsValue(d) >= 10
  {
    var init := d[..|d| - 1];
    if |init| > 1 {
      assert init[0] == d[0];
      CanonicalAtLeastTen(init);
    } else {
      assert init == [d[0]];
      assert DigitsValue(init) == DigitsValue([]) * 10 + DigitValue(d[0]);
    }
  }

  /** A canonical digit string is the text of its value. */
  lemma {:induction false} CanonicalText(d: string)
    requires Canonical(d)
    ensures NatText(DigitsValue(d)) == d
    decreases |d|
  {
    var n := DigitsValue(d);
    var init := d[..|d| - 1];
    if |d| == 1 {
      assert init == [];
      assert d == [DigitChar(DigitValue(d[0]))];
    } else {
      CanonicalAtLeastTen(d);
      assert init[0] == d[0];
      CanonicalText(init);
      assert n / 10 == DigitsValue(init) && n % 10 == DigitValue(d[|d| - 1]);
      assert d == init + [d[|d| - 1]];
    }
  }

  /** Reading back the text of `m` gives `m` and leaves the following text. */
  lemma NatTextRoundTrip(m: nat, rest: string)
    requires rest == [] || !IsDigit(rest[0])
    ensures ParseNat(NatText(m) + rest) == Some((m, rest))
  {
    var d := NatText(m);
    DigitRunOfDigits(d, rest);
    NatTextValue(m);
    NatTextCanonical(m);
    assert (d + rest)[..|d|] == d;
    assert (d + rest)[|d|..] == rest;
  }

  /** Reading back the decimal text of `n` gives `n` and leaves the following text. */
  lemma IntTextRoundTrip(n: int, rest: string)
    requires rest == [] || !IsDigit(rest[0])
    ensures ParseInt(IntText(n) + rest) == Some((n, rest))
  {
    if n < 0 {
      NegativeTextRoundTrip(n, rest);
    } else {
      var d := NatText(n);
      assert IntText(n) + rest == d + rest;
      assert IsDigit(d[0]);
      NatTextRoundTrip(n, rest);
    }
  }

  lemma NegativeTextRoundTrip(n: int, rest: string)
    requires n < 0
    requires rest == [] || !IsDigit(rest[0])
    ensures ParseInt(IntText(n) + rest) == Some((n, rest))
  {
    var t := NatText(-n) + rest;
    NatTextRoundTrip(-n, rest);
    MinusSign(t);
    assert IntText(n) + rest == "-" + t;
  }

  /** A minus sign before a positive number's text reads as the negated number. */
  lemma MinusSign(t: string)
    requires ParseNat(t).Some? && ParseNat(t).value.0 != 0
    ensures ParseInt("-" + t) == Some((0 - ParseNat(t).value.0 as int, ParseNat(t).value.1))
  {
    assert ("-" + t)[0] == '-' && ("-" + t)[1..] == t;
  }

  /** Whatever ParseNat reads was written as the text of its result. */
  lemma NatTextReadBack(s: string)
    requires ParseNat(s).Some?
    ensures s == NatText(ParseNat(s).value.0) + ParseNat(s).value.1
  {
    var k := DigitRun(s);
    assert Canonical(s[..k]);
    CanonicalText(s[..k]);
    assert s == s[..k] + s[k..];
  }

  /** Whatever ParseInt reads was written as the decimal text of its result. */
  lemma IntTextReadBack(s: string)
    requires ParseInt(s).Some?
    ensures s == IntText(ParseInt(s).value.0) + ParseInt(s).value.1
  {
    if s != [] && s[0] == '-' {
      NatTextReadBack(s[1..]);
      assert s == "-" + s[1..];
    } else {
      NatTextReadBack(s);
    }
  }

  // ---------------------------------------------------------------------------
  // SQL literals
  // ---------------------------------------------------------------------------

  /** The values the translator places into a statement: Python's `None`, `str` and `int`. */
  datatype SqlValue = SqlNull | SqlText(text: string) | SqlInt(n: int)

  /** `s` with every single quote doubled. */
  function DoubleQuotes(s: string): string
  {
    if s == [] then []
    else if s[0] == '\'' then "''" + DoubleQuotes(s[1..])
    else [s[0]] + DoubleQuotes(s[1..])
  }

  /** After doubling, every quote of the text belongs to a pair. */
  lemma {:induction false} DoubleQuotesPaired(s: string)
    ensures QuotesPaired(DoubleQuotes(s))
  {
    if s != [] {
      var tail := DoubleQuotes(s[1..]);
      DoubleQuotesPaired(s[1..]);
      if s[0] == '\'' {
        assert ("''" + tail)[2..] == tail;
      } else {
        assert ([s[0]] + tail)[1..] == tail;
      }
    }
  }

  /** Quote doubling distributes over concatenation. */
  lemma {:induction false} DoubleQuotesAppend(a: string, b: string)
    ensures DoubleQuotes(a + b) == DoubleQuotes(a) + DoubleQuotes(b)
  {
    if a == [] {
      assert a + b == b;
    } else {
      assert (a + b)[1..] == a[1..] + b;
      DoubleQuotesAppend(a[1..], b);
    }
  }

  /** A string without quotes is unchanged by quote doubling. */
  lemma {:induction false} DoubleQuotesWithoutQuotes(s: string)
    requires forall i :: 0 <= i < |s| ==> s[i] != '\''
    ensures DoubleQuotes(s) == s
  {
    if s != [] {
      DoubleQuotesWithoutQuotes(s[1..]);
      assert s == [s[0]] + s[1..];
    }
  }

  /** Every single quote in `s` belongs to a doubled pair, so `s` cannot end a literal early. */
  predicate QuotesPaired(s: string)
  {
    if s == [] then true
    else if s[0] == '\'' then |s| >= 2 && s[1] == '\'' && QuotesPaired(s[2..])
    else QuotesPaired(s[1..])
  }

  /** The SQL text of a value: `NULL`, a single-quoted literal with doubled quotes, or the
      decimal text of an integer (ISO/IEC 9075 character string literals). */
  function Escape(v: SqlValue): (r: string)
    ensures v.SqlNull? ==> r == "NULL"
    ensures v.SqlText? ==> |r| >= 2 && r[0] == '\'' && r[|r| - 1] == '\'' && QuotesPaired(r[1..|r| - 1])
    ensures v.SqlText? ==> Unquote(r) == Some(v.text)
    ensures v.SqlInt? ==> ParseInt(r) == Some((v.n, []))
  {
    match v
    case SqlNull => "NULL"
    case SqlText(s) =>
      var r := "'" + DoubleQuotes(s) + "'";
      assert r[1..|r| - 1] == DoubleQuotes(s);
      DoubleQuotesPaired(s);
      QuotedRoundTrip(s, []);
      assert r[1..] == DoubleQuotes(s) + "'" + [];
      r
    case SqlInt(n) =>
      IntTextRoundTrip(n, []);
      assert IntText(n) + [] == IntText(n);
      IntText(n)
  }

  /** Reads the body of a quoted literal whose opening quote has been consumed: a doubled
      quote stands for one quote, a single quote closes the literal. Returns the text and
      what follows the closing quote. */
  function ParseQuoted(s: string): (r: Option<(string, string)>)
    ensures r.Some? ==> |r.value.1| < |s|
  {
    if s == [] then None
    else if s[0] == '\'' then
      if |s| >= 2 && s[1] == '\'' then
        match ParseQuoted(s[2..])
        case None => None
        case Some((body, rest)) => Some(("'" + body, rest))
      else
        Some(([], s[1..]))
    else
      match ParseQuoted(s[1..])
      case None => None
      case Some((body, rest)) => Some(([s[0]] + body, rest))
  }

  /** The text a complete quoted literal stands for. */
  function Unquote(lit: string): Option<string>
  {
    if lit != [] && lit[0] == '\'' then
      match ParseQuoted(lit[1..])
      case Some((body, rest)) => if rest == [] then Some(body) else None
      case None => None
    else
      None
  }

  /** Reading a doubled-quote body followed by the closing quote recovers the text. */
  lemma {:induction false} QuotedRoundTrip(x: string, rest: string)
    requires rest == [] || rest[0] != '\''
    ensures ParseQuoted(DoubleQuotes(x) + "'" + rest) == Some((x, rest))
  {
    var s := DoubleQuotes(x) + "'" + rest;
    if x == [] {
      assert s == "'" + rest;
      assert s[1..] == rest;
    } else {
      var s' := DoubleQuotes(x[1..]) + "'" + rest;
      QuotedRoundTrip(x[1..], rest);
      if x[0] == '\'' {
        assert s == "''" + s';
        assert s[2..] == s';
        assert "'" + x[1..] == x;
      } else {
        assert s == [x[0]] + s';
        assert s[1..] == s';
        assert [x[0]] + x[1..] == x;
      }
    }
  }

  /** Whatever ParseQuoted reads was written by doubling the quotes of its result. */
  lemma {:induction false} QuotedReadBack(s: string)
    requires ParseQuoted(s).Some?
    ensures s == DoubleQuotes(ParseQuoted(s).value.0) + "'" + ParseQuoted(s).value.1
  {
    if s[0] == '\'' {
      if |s| >= 2 && s[1] == '\'' {
        QuotedReadBack(s[2..]);
        var body := ParseQuoted(s[2..]).value.0;
        assert ("'" + body)[1..] == body;
        assert s == "''" + s[2..];
      } else {
        assert s == "'" + s[1..];
      }
    } else {
      QuotedReadBack(s[1..]);
      var body := ParseQuoted(s[1..]).value.0;
      assert ([s[0]] + body)[1..] == body;
      assert s == [s[0]] + s[1..];
    }
  }

  /** Escaping a string is a bijection onto the quoted literals: a literal unquotes to `x`
      exactly when it is the escape of `x`. */
  lemma EscapeTextBijective(lit: string, x: string)
    ensures Unquote(lit) == Some(x) <==> lit == Escape(SqlText(x))
  {
    if Unquote(lit) == Some(x) {
      QuotedReadBack(lit[1..]);
      assert lit == [lit[0]] + lit[1..];
    }
  }
}

/** The cases the translator's tests pin down, checked against the model. */
module StringsExamples {

  import opened Wrappers
  import opened Seqs
  import opened Frames
  import opened Strings

  lemma EscapeNullExample()
    ensures Escape(SqlNull) == "NULL"
  {
  }

  lemma EscapeQuoteExample()
    ensures Escape(SqlText("O'Reilly")) == "'O''Reilly'"
  {
    DoubleQuotesExample();
  }

  lemma DoubleQuotesExample()
    ensures DoubleQuotes("O'Reilly") == "O''Reilly"
  {
    assert "O'Reilly" == "O'" + "Reilly";
    DoubleQuotesAppend("O'", "Reilly");
    NoQuotesExample();
    OneQuoteExample();
  }

  lemma NoQuotesExample()
    ensures DoubleQuotes("Reilly") == "Reilly"
  {
    DoubleQuotesWithoutQuotes("Reilly");
  }

  /** A text without quotes is only wrapped in quotes. */
  lemma EscapeSimpleExample()
    ensures Escape(SqlText("simple")) == "'simple'"
  {
    DoubleQuotesWithoutQuotes("simple");
  }

  lemma OneQuoteExample()
    ensures DoubleQuotes("O'") == "O''"
  {
  }

  lemma EscapeEmptyExample()
    ensures Escape(SqlText("")) == "''"
  {
  }

  lemma EscapeIntExample()
    ensures Escape(SqlInt(123)) == "123"
  {
    assert NatText(12) == NatText(1) + "2";
    assert NatText(123) == NatText(12) + "3";
  }

  /** Three separators between four alphanumeric characters all drop out. */
  lemma DropSeparators(a: char, p: char, b: char, q: char, c: char, r: char, d: char)
    requires IsAlnum(a) && IsAlnum(b) && IsAlnum(c) && IsAlnum(d)
    requires !IsAlnum(p) && !IsAlnum(q) && !IsAlnum(r)
    ensures KeepAlnum([a, p, b, q, c, r, d]) == [a, b, c, d]
  {
    DropFirst(a, p, b, q, c, r, d);
    DropSecond(a, b, q, c, r, d);
    DropThird(a, b, c, r, d);
    KeepAlnumFixpoint([a, b, c, d]);
  }

  lemma DropFirst(a: char, p: char, b: char, q: char, c: char, r: char, d: char)
    requires !IsAlnum(p)
    ensures KeepAlnum([a, p, b, q, c, r, d]) == KeepAlnum([a, b, q, c, r, d])
  {
    assert [a, p, b, q, c, r, d] == [a] + [p] + [b, q, c, r, d];
    assert [a, b, q, c, r, d] == [a] + [b, q, c, r, d];
    KeepAlnumSkipsPunctuation([a], p, [b, q, c, r, d]);
  }

  lemma DropSecond(a: char, b: char, q: char, c: char, r: char, d: char)
    requires !IsAlnum(q)
    ensures KeepAlnum([a, b, q, c, r, d]) == KeepAlnum([a, b, c, r, d])
  {
    assert [a, b, q, c, r, d] == [a, b] + [q] + [c, r, d];
    assert [a, b, c, r, d] == [a, b] + [c, r, d];
    KeepAlnumSkipsPunctuation([a, b], q, [c, r, d]);
  }

  lemma DropThird(a: char, b: char, c: char, r: char, d: char)
    requires !IsAlnum(r)
    ensures KeepAlnum([a, b, c, r, d]) == KeepAlnum([a, b, c, d])
  {
    assert [a, b, c, r, d] == [a, b, c] + [r] + [d];
    assert [a, b, c, d] == [a, b, c] + [d];
    KeepAlnumSkipsPunctuation([a, b, c], r, [d]);
  }

  /** `a-b_c.1` normalizes to `abc1`, which has the expected length 4. */
  lemma NormalizeExample()
    ensures Normalize("a-b_c.1", Some(4)) == Success("abc1")
  {
    DropSeparators('a', '-', 'b', '_', 'c', '.', '1');
  }

  /** Punctuation alone normalizes to the empty string. */
  lemma NormalizePunctuationExample()
    ensures Normalize("!@#$%^&*()", None) == Success("")
  {
    var s := "!@#$%^&*()";
    assert forall i :: 0 <= i < |s| ==> !IsAlnum(s[i]);
    NormalizesToEmpty(s);
  }

  /** `abc` is not of the expected length 5. */
  lemma NormalizeLengthExample()
    ensures Normalize("abc", Some(5)) == Failure(LengthMismatch(5, "abc"))
  {
    KeepAlnumFixpoint("abc");
  }
}
