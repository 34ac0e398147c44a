/**
 * `sql_value` and `insert_line`: how one Python value becomes an SQL
 * literal, and how one row becomes an INSERT statement.
 *
 * A text literal is a quote, the text with every quote doubled, and a
 * quote (the `<quote symbol>` rule of `<character string literal>` in
 * section 5.3 of ISO/IEC 9075-2). Reading such a literal back recovers the
 * text, and a reader that splits the VALUES list at top-level ", " recovers
 * every rendered value.
 */
module SqlText {
  import opened Wrappers
  import opened Strings
  import opened Num

  const QUOTE: char := '\''

  /** The Python values the dump writers hand to `sql_value`. */
  datatype Value =
    | Null
    | Bool(b: bool)
    | Int(i: int)
    | Real(f: Float)
    | Text(t: string)

  /** A `dict.get` that may give None. */
  function IntOrNull(n: Option<int>): Value {
    if n.Some? then Int(n.value) else Null
  }

  function TextOrNull(t: Option<string>): Value {
    if t.Some? then Text(t.value) else Null
  }

  function RealOrNull(f: Option<Float>): Value {
    if f.Some? then Real(f.value) else Null
  }

  /** `s.replace("'", "''")`. */
  function DoubleQuotes(s: string): (r: string)
    ensures |r| >= |s|
    decreases |s|
  {
    if |s| == 0 then ""
    else (if s[0] == QUOTE then [QUOTE, QUOTE] else [s[0]]) + DoubleQuotes(s[1..])
  }

  /** `f"'{text}'"` of the doubled text. */
  function Quote(s: string): (r: string)
    ensures |r| >= 2 && r[0] == QUOTE && r[|r| - 1] == QUOTE
  {
    [QUOTE] + DoubleQuotes(s) + [QUOTE]
  }

  /** `sql_value(value)`. */
  function SqlValue(v: Value): string {
    match v
    case Null => "NULL"
    case Bool(b) => if b then "1" else "0"
    case Int(i) => IntToString(i)
    case Real(f) => if f.finite then f.repr else "NULL"
    case Text(t) => Quote(t)
  }

  /** What the database stores: a bool is stored as the integer 1 or 0. */
  function Stored(v: Value): (w: Value)
    ensures !w.Bool?
    ensures !v.Bool? ==> w == v
  {
    if v.Bool? then Int(if v.b then 1 else 0) else v
  }

  // ---------------------------------------------------------------------
  // Reading literals back
  // ---------------------------------------------------------------------

  /** Reads the inside of a quoted literal, `body` being what follows the
      opening quote: a doubled quote stands for one quote, a single quote
      closes the literal. Gives the text and what follows the literal. */
  function ReadQuoted(body: string): (r: Option<(string, string)>)
    ensures r.Some? ==> |r.value.1| < |body| && r.value.1 == body[|body| - |r.value.1|..]
    decreases |body|
  {
    if |body| == 0 then None
    else if body[0] != QUOTE then
      match ReadQuoted(body[1..])
      case None => None
      case Some((t, rest)) => Some(([body[0]] + t, rest))
    else if |body| >= 2 && body[1] == QUOTE then
      match ReadQuoted(body[2..])
      case None => None
      case Some((t, rest)) => Some(([QUOTE] + t, rest))
    else Some(("", body[1..]))
  }

  /** The text of a complete quoted literal, if `lit` is one. */
  function Unquote(lit: string): Option<string> {
    if |lit| > 0 && lit[0] == QUOTE then
      match ReadQuoted(lit[1..])
      case Some((t, rest)) => if rest == "" then Some(t) else None
      case None => None
    else None
  }

  /** A doubled text followed by the closing quote reads back as the text,
      as long as what follows does not start with another quote. */
  lemma {:induction false} ReadQuotedDoubled(t: string, rest: string)
    requires |rest| == 0 || rest[0] != QUOTE
    ensures ReadQuoted(DoubleQuotes(t) + [QUOTE] + rest) == Some((t, rest))
    decreases |t|
  {
    if |t| == 0 {
      ReadQuotedClose(rest);
    } else {
      ReadQuotedDoubled(t[1..], rest);
      ReadQuotedStep(t, rest);
    }
  }

  lemma ReadQuotedClose(rest: string)
    requires |rest| == 0 || rest[0] != QUOTE
    ensures ReadQuoted(DoubleQuotes("") + [QUOTE] + rest) == Some(("", rest))
  {
    assert DoubleQuotes("") + [QUOTE] + rest == [QUOTE] + rest;
    assert ([QUOTE] + rest)[1..] == rest;
  }

  lemma ReadQuotedStep(t: string, rest: string)
    requires |t| > 0
    requires ReadQuoted(DoubleQuotes(t[1..]) + [QUOTE] + rest) == Some((t[1..], rest))
    ensures ReadQuoted(DoubleQuotes(t) + [QUOTE] + rest) == Some((t, rest))
  {
    var tail := DoubleQuotes(t[1..]) + [QUOTE] + rest;
    DoubledSplit(t, rest);
    assert [t[0]] + t[1..] == t;
    if t[0] == QUOTE {
      ReadQuotedDoubledQuote(tail);
      assert [QUOTE] + t[1..] == t;
    } else {
      ReadQuotedPlain(t[0], tail);
    }
  }

  /** The first character's doubling, then the rest of the literal. */
  lemma DoubledSplit(t: string, rest: string)
    requires |t| > 0
    ensures DoubleQuotes(t) + [QUOTE] + rest
         == (if t[0] == QUOTE then [QUOTE, QUOTE] else [t[0]]) + (DoubleQuotes(t[1..]) + [QUOTE] + rest)
  {
    var h := if t[0] == QUOTE then [QUOTE, QUOTE] else [t[0]];
    var d := DoubleQuotes(t[1..]);
    assert DoubleQuotes(t) == h + d;
    Regroup(h, d, [QUOTE], rest);
  }

  lemma Regroup<T>(a: seq<T>, b: seq<T>, c: seq<T>, d: seq<T>)
    ensures a + b + c + d == a + (b + c + d)
  {
  }

  lemma ReadQuotedDoubledQuote(tail: string)
    ensures ReadQuoted([QUOTE, QUOTE] + tail) ==
      match ReadQuoted(tail)
      case None => None
      case Some((t, rest)) => Some(([QUOTE] + t, rest))
  {
    assert ([QUOTE, QUOTE] + tail)[2..] == tail;
  }

  lemma ReadQuotedPlain(c: char, tail: string)
    requires c != QUOTE
    ensures ReadQuoted([c] + tail) ==
      match ReadQuoted(tail)
      case None => None
      case Some((t, rest)) => Some(([c] + t, rest))
  {
    assert ([c] + tail)[1..] == tail;
  }

  /** Stripping the outer quotes and un-doubling recovers the text. */
  lemma QuoteRoundTrip(t: string)
    ensures Unquote(Quote(t)) == Some(t)
  {
    ReadQuotedDoubled(t, "");
    assert Quote(t)[1..] == DoubleQuotes(t) + [QUOTE] + "";
  }

  /** Distinct texts give distinct literals. */
  lemma QuoteInjective(a: string, b: string)
    requires Quote(a) == Quote(b)
    ensures a == b
  {
    QuoteRoundTrip(a);
    QuoteRoundTrip(b);
  }

  /** Integer text never starts with a quote. */
  lemma IntTextUnquoted(i: int)
    ensures |IntToString(i)| > 0 && IntToString(i)[0] != QUOTE
  {
    if i >= 0 {
      assert IsDigit(NatToString(i)[0]);
    }
  }

  /** Apart from floats, whose text is Python's `repr`, two values render
      alike exactly when the database stores them alike: `True` and `1`
      both become "1", and nothing else collides. */
  lemma SqlValueInjective(v: Value, w: Value)
    requires !v.Real? && !w.Real?
    ensures SqlValue(v) == SqlValue(w) <==> Stored(v) == Stored(w)
  {
    if SqlValue(v) == SqlValue(w) {
      IntTextUnquoted(if v.Int? then v.i else 0);
      IntTextUnquoted(if w.Int? then w.i else 0);
      if v.Int? && w.Int? {
        IntToStringInjective(v.i, w.i);
      } else if v.Text? && w.Text? {
        QuoteInjective(v.t, w.t);
      } else if v.Int? && w.Bool? {
        IntToStringInjective(v.i, if w.b then 1 else 0);
      } else if v.Bool? && w.Int? {
        IntToStringInjective(if v.b then 1 else 0, w.i);
      }
    }
  }

  /** `NULL` comes from `None` or a float that is NaN or infinite, and
      never from a text, a bool or an integer. */
  lemma SqlValueNull(v: Value)
    ensures v.Null? || (v.Real? && !v.f.finite) ==> SqlValue(v) == "NULL"
    ensures v.Text? || v.Bool? || v.Int? ==> SqlValue(v) != "NULL"
  {
    if v.Int? {
      if v.i >= 0 {
        assert IsDigit(NatToString(v.i)[0]);
      } else {
        assert IntToString(v.i)[0] == '-';
      }
    }
  }

  // ---------------------------------------------------------------------
  // insert_line
  // ---------------------------------------------------------------------

  /** `insert_line(table, columns, values)`. */
  function InsertLine(table: string, columns: seq<string>, values: seq<Value>): string {
    "INSERT INTO " + table + " (" + Join(", ", columns) + ") VALUES (" + Join(", ", Rendered(values)) + ");"
  }

  /** Everything before the values. */
  function InsertHead(table: string, columns: seq<string>): string {
    "INSERT INTO " + table + " (" + Join(", ", columns) + ") VALUES ("
  }

  /** `sql_value(v) for v in values`, in order. */
  function Rendered(values: seq<Value>): (r: seq<string>)
    ensures |r| == |values|
    ensures forall k :: 0 <= k < |values| ==> r[k] == SqlValue(values[k])
  {
    seq(|values|, k requires 0 <= k < |values| => SqlValue(values[k]))
  }

  /** A float whose `repr` holds neither a comma nor a quote: true of every
      finite Python float (`repr` gives digits, a sign, a dot and an
      exponent). */
  predicate PlainText(s: string) {
    forall k :: 0 <= k < |s| ==> s[k] != ',' && s[k] != QUOTE
  }

  predicate PlainFloat(v: Value) {
    v.Real? ==> PlainText(v.f.repr)
  }

  /** The length of the unquoted literal at the head of `s`: up to the
      first comma. */
  function PlainLength(s: string): (n: nat)
    ensures n <= |s|
    ensures forall k :: 0 <= k < n ==> s[k] != ','
    ensures n < |s| ==> s[n] == ','
    decreases |s|
  {
    if |s| == 0 || s[0] == ',' then 0 else 1 + PlainLength(s[1..])
  }

  /** The literal at the head of `s` and what follows it. */
  function LiteralAt(s: string): (r: (string, string))
    ensures r.0 + r.1 == s
  {
    if |s| > 0 && s[0] == QUOTE then
      match ReadQuoted(s[1..])
      case Some((_, rest)) => (s[..|s| - |rest|], rest)
      case None => (s, "")
    else
      var n := PlainLength(s);
      (s[..n], s[n..])
  }

  /** A reader of a VALUES list: the literals separated by ", " outside
      quotes. */
  function Literals(s: string): (r: seq<string>)
    ensures |r| >= 1
    decreases |s|
  {
    var (lit, rest) := LiteralAt(s);
    if |rest| >= 2 && rest[..2] == ", " then [lit] + Literals(rest[2..]) else [lit]
  }

  /** The head literal of a rendered value followed by `rest` is that value. */
  lemma LiteralAtRendered(v: Value, rest: string)
    requires PlainFloat(v)
    requires |rest| == 0 || rest[0] == ','
    ensures LiteralAt(SqlValue(v) + rest) == (SqlValue(v), rest)
  {
    if v.Text? {
      LiteralAtQuoted(v.t, rest);
    } else {
      var r := SqlValue(v);
      assert PlainText(r) by {
        if v.Int? {
          IntTextPlain(v.i);
        }
      }
      LiteralAtPlain(r, rest);
    }
  }

  lemma LiteralAtQuoted(t: string, rest: string)
    requires |rest| == 0 || rest[0] == ','
    ensures LiteralAt(Quote(t) + rest) == (Quote(t), rest)
  {
    ReadQuotedDoubled(t, rest);
    Enclosed(QUOTE, DoubleQuotes(t), QUOTE, rest);
  }

  lemma Enclosed<T>(x: T, a: seq<T>, y: T, rest: seq<T>)
    ensures var s := [x] + a + [y] + rest;
      && s[0] == x
      && s[1..] == a + [y] + rest
      && s[..|s| - |rest|] == [x] + a + [y]
  {
  }

  lemma LiteralAtPlain(r: string, rest: string)
    requires PlainText(r)
    requires |rest| == 0 || rest[0] == ','
    ensures LiteralAt(r + rest) == (r, rest)
  {
    assert |r| == 0 || r[0] != QUOTE;
    PlainLengthOf(r, rest);
    if |r| == 0 {
      assert r + rest == rest;
    }
  }

  lemma IntTextPlain(i: int)
    ensures PlainText(IntToString(i))
  {
    var n := if i < 0 then -i else i;
    assert forall k :: 0 <= k < |NatToString(n)| ==> IsDigit(NatToString(n)[k]);
  }

  lemma {:induction false} PlainLengthOf(r: string, rest: string)
    requires PlainText(r)
    requires |rest| == 0 || rest[0] == ','
    ensures PlainLength(r + rest) == |r|
    decreases |r|
  {
    if |r| > 0 {
      assert (r + rest)[1..] == r[1..] + rest;
      PlainLengthOf(r[1..], rest);
    } else {
      assert r + rest == rest;
    }
  }

  /** Reading the VALUES list of an INSERT line gives back every rendered
      value, in order. */
  lemma {:induction false} LiteralsOfRendered(values: seq<Value>)
    requires |values| > 0
    requires forall k :: 0 <= k < |values| ==> PlainFloat(values[k])
    ensures Literals(Join(", ", Rendered(values))) == Rendered(values)
    decreases |values|
  {
    var rs := Rendered(values);
    if |values| == 1 {
      LiteralAtRendered(values[0], "");
      assert SqlValue(values[0]) + "" == SqlValue(values[0]);
    } else {
      var tail := Join(", ", rs[1..]);
      JoinCons(", ", rs);
      LiteralAtRendered(values[0], ", " + tail);
      assert (", " + tail)[..2] == ", ";
      assert (", " + tail)[2..] == tail;
      assert rs[1..] == Rendered(values[1..]);
      LiteralsOfRendered(values[1..]);
    }
  }

  /** An INSERT line reads back: after the fixed head and before the
      closing `);` lie exactly the rendered values, in order. */
  lemma InsertLineReads(table: string, columns: seq<string>, values: seq<Value>)
    requires |values| > 0
    requires forall k :: 0 <= k < |values| ==> PlainFloat(values[k])
    ensures var line := InsertLine(table, columns, values);
      var head := InsertHead(table, columns);
      && |head| + 2 <= |line|
      && line[..|head|] == head
      && line[|line| - 2..] == ");"
      && Literals(line[|head|..|line| - 2]) == Rendered(values)
  {
    var line := InsertLine(table, columns, values);
    var head := InsertHead(table, columns);
    var body := Join(", ", Rendered(values));
    assert line == head + body + ");";
    assert line[|head|..|line| - 2] == body;
    LiteralsOfRendered(values);
  }
}
