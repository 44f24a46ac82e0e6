/** The comma-separated line one side of a snapshot is published as. */
module RedisLine {
  import opened Sequences
  import opened Fields
  import opened Snapshot

  // ---------- decimal numbers ----------

  function Digit(n: nat): char
    requires n < 10
  {
    "0123456789"[n]
  }

  function Digits(n: nat): (s: string) {
    if n < 10 then [Digit(n)] else Digits(n / 10) + [Digit(n % 10)]
  }

  /** `std::to_string`. */
  function ToString(x: int): string {
    if x < 0 then "-" + Digits(-x) else Digits(x)
  }

  function DigitValue(c: char): int {
    c as int - '0' as int
  }

  /** The number a string of digits denotes. */
  function Value(s: string): int {
    if s == "" then 0 else 10 * Value(s[..|s| - 1]) + DigitValue(s[|s| - 1])
  }

  function Parse(s: string): int {
    if s != "" && s[0] == '-' then -Value(s[1..]) else Value(s)
  }

  lemma {:induction false} DigitsDenote(n: nat)
    ensures Value(Digits(n)) == n && Digits(n) != ""
    ensures forall i :: 0 <= i < |Digits(n)| ==> '0' <= Digits(n)[i] <= '9'
  {
    if n < 10 {
      assert Digits(n)[..0] == "";
    } else {
      DigitsDenote(n / 10);
      assert Digits(n)[..|Digits(n)| - 1] == Digits(n / 10);
    }
  }

  /** Printed numbers are non-empty, comma-free, and read back as themselves. */
  lemma ToStringDenotes(x: int)
    ensures ToString(x) != "" && ',' !in ToString(x) && Parse(ToString(x)) == x
  {
    DigitsDenote(if x < 0 then -x else x);
  }

  lemma {:induction false} DigitsAreCanonical(n: nat)
    ensures Digits(n) != "" && (Digits(n)[0] == '0' ==> n == 0 && |Digits(n)| == 1)
  {
    if n < 10 {
    } else {
      DigitsAreCanonical(n / 10);
      assert Digits(n)[0] == Digits(n / 10)[0];
    }
  }

  /** The number's magnitude, after the sign if it is negative: digits, and no leading zero but zero's own. */
  predicate IsCanonical(s: string, negative: bool) {
    var digits := if negative && s != "" then s[1..] else s;
    && (negative ==> s != "" && s[0] == '-' && digits != "0")
    && digits != "" && (forall i :: 0 <= i < |digits| ==> '0' <= digits[i] <= '9')
    && (digits[0] == '0' ==> digits == "0")
  }

  lemma ToStringIsCanonical(x: int)
    ensures IsCanonical(ToString(x), x < 0)
  {
    var n := if x < 0 then -x else x;
    DigitsDenote(n);
    DigitsAreCanonical(n);
    if Digits(n) == "0" { assert Value("0") == 10 * Value("") + 0; }
  }

  // ---------- the line ----------

  function FieldsOf(quotes: seq<Quote>): (f: seq<string>)
    ensures |f| == 2 * |quotes|
  {
    if quotes == [] then [] else
    var q := quotes[|quotes| - 1];
    FieldsOf(quotes[..|quotes| - 1]) + [ToString(q.price), ToString(q.qty)]
  }

  lemma TextAppend(a: string, b: string, c: string, e: string)
    ensures a + (b + c + e) == a + b + c + e
  {
    Regroup(a, b + c, e);
    Regroup(a, b, c);
  }

  lemma {:induction false} JoinAppend(fields: seq<string>, f: string)
    ensures Join(fields + [f], ',') == if fields == [] then f else Join(fields, ',') + "," + f
    decreases |fields|
  {
    if fields == [] {
    } else {
      var rest := fields[1..];
      assert fields == [fields[0]] + rest && fields + [f] == [fields[0]] + (rest + [f]);
      JoinAppend(rest, f);
      JoinCons(fields[0], rest, ',');
      JoinCons(fields[0], rest + [f], ',');
      if rest != [] { TextAppend(fields[0] + ",", Join(rest, ','), ",", f); }
    }
  }

  lemma JoinQuote(fields: seq<string>, q: Quote)
    ensures Join(fields + [ToString(q.price), ToString(q.qty)], ',')
            == (if fields == [] then "" else Join(fields, ',') + ",") + (ToString(q.price) + "," + ToString(q.qty))
  {
    JoinAppend(fields, ToString(q.price));
    JoinAppend(fields + [ToString(q.price)], ToString(q.qty));
    assert fields + [ToString(q.price), ToString(q.qty)] == fields + [ToString(q.price)] + [ToString(q.qty)];
  }

  /** The formatting loop of the Redis fan-out. */
  method FormatLine(quotes: seq<Quote>) returns (line: string)
    ensures line == Join(FieldsOf(quotes), ',')
  {
    line := "";
    for i := 0 to |quotes|
      invariant line == Join(FieldsOf(quotes[..i]), ',') + if 0 < i < |quotes| then "," else ""
    {
      assert quotes[..i + 1][..i] == quotes[..i];
      JoinQuote(FieldsOf(quotes[..i]), quotes[i]);
      line := line + (ToString(quotes[i].price) + "," + ToString(quotes[i].qty));
      if i != |quotes| - 1 {
        line := line + ",";
      }
    }
    assert quotes[..|quotes|] == quotes;
  }

  lemma {:induction false} FieldsAreClean(quotes: seq<Quote>)
    ensures FreeOf(FieldsOf(quotes), ',') && forall i :: 0 <= i < 2 * |quotes| ==> FieldsOf(quotes)[i] != ""
    decreases |quotes|
  {
    if quotes == [] {
    } else {
      var q := quotes[|quotes| - 1];
      FieldsAreClean(quotes[..|quotes| - 1]);
      ToStringDenotes(q.price);
      ToStringDenotes(q.qty);
    }
  }

  /** The published line is cut into exactly its price and quantity fields, in order. */
  lemma LineIsRecoverable(quotes: seq<Quote>)
    ensures Split(Join(FieldsOf(quotes), ','), ',') == FieldsOf(quotes)
    ensures |Split(Join(FieldsOf(quotes), ','), ',')| == 2 * |quotes|
    ensures Join(FieldsOf(quotes), ',') == "" <==> quotes == []
  {
    FieldsAreClean(quotes);
    SplitJoin(FieldsOf(quotes), ',');
  }

  /** The fields of quote `i` read back as its price and quantity. */
  lemma {:induction false} FieldsDenote(quotes: seq<Quote>, i: nat)
    requires i < |quotes|
    ensures Parse(FieldsOf(quotes)[2 * i]) == quotes[i].price
    ensures Parse(FieldsOf(quotes)[2 * i + 1]) == quotes[i].qty
    decreases |quotes|
  {
    var n := |quotes| - 1;
    if i == n {
      ToStringDenotes(quotes[n].price);
      ToStringDenotes(quotes[n].qty);
    } else {
      FieldsDenote(quotes[..n], i);
    }
  }

  /** Different snapshots never print the same line. */
  lemma LineIsInjective(x: seq<Quote>, y: seq<Quote>)
    requires Join(FieldsOf(x), ',') == Join(FieldsOf(y), ',')
    ensures x == y
  {
    LineIsRecoverable(x);
    LineIsRecoverable(y);
    forall i | 0 <= i < |x| ensures x[i] == y[i] {
      FieldsDenote(x, i);
      FieldsDenote(y, i);
    }
  }
}
