/**
 * The admin's display columns for a movie: budget and revenue as dollar
 * amounts with thousands separators (Python's `format(n, ",")`), and profit
 * as a coloured HTML span.
 */
module MovieAdmin {
  import opened Wrappers
  import opened Strings
  import opened Movies

  /** A comma before every group of three digits, counted from the right. */
  function Group(ds: string): (r: string)
    ensures ds != [] ==> |r| == |ds| + (|ds| - 1) / 3
    decreases |ds|
  {
    if |ds| <= 3 then ds else Group(ds[..|ds| - 3]) + "," + ds[|ds| - 3..]
  }

  /** Reading `Group(ds)` from the right, every fourth character is a comma
      and the others are the digits of `ds` in order: position `4 * q + m`
      from the right (`m < 4`) is a comma when `m == 3` and otherwise digit
      `3 * q + m` from the right. */
  lemma {:induction false} GroupFromRight(ds: string, q: nat, m: nat)
    requires ds != [] && m < 4 && 4 * q + m < |Group(ds)|
    ensures var r := Group(ds);
      r[|r| - 1 - (4 * q + m)] == if m == 3 then ',' else ds[|ds| - 1 - (3 * q + m)]
    decreases |ds|
  {
    if |ds| > 3 {
      var pre := ds[..|ds| - 3];
      var r := Group(ds);
      var g := Group(pre);
      var last := ds[|ds| - 3..];
      assert r == g + "," + last;
      assert |r| == |g| + 4;
      if q > 0 {
        GroupFromRight(pre, q - 1, m);
        assert r[|r| - 1 - (4 * q + m)] == g[|g| - 1 - (4 * (q - 1) + m)];
      } else if m < 3 {
        assert r[|r| - 1 - m] == last[2 - m];
      }
    }
  }

  /** `s` with every comma removed. */
  function WithoutCommas(s: string): (r: string)
    decreases |s|
  {
    if s == [] then "" else (if s[0] == ',' then "" else [s[0]]) + WithoutCommas(s[1..])
  }

  lemma {:induction false} WithoutCommasAppend(a: string, b: string)
    ensures WithoutCommas(a + b) == WithoutCommas(a) + WithoutCommas(b)
    decreases |a|
  {
    if a == [] {
      assert a + b == b;
    } else {
      assert (a + b)[1..] == a[1..] + b;
      WithoutCommasAppend(a[1..], b);
    }
  }

  lemma {:induction false} WithoutCommasIdentity(s: string)
    requires forall i :: 0 <= i < |s| ==> s[i] != ','
    ensures WithoutCommas(s) == s
    decreases |s|
  {
    if s != [] {
      WithoutCommasIdentity(s[1..]);
      assert [s[0]] + s[1..] == s;
    }
  }

  /** Removing the separators gives the digits back. */
  lemma {:induction false} UngroupGroup(ds: string)
    requires AllDigits(ds)
    ensures WithoutCommas(Group(ds)) == ds
    decreases |ds|
  {
    if |ds| <= 3 {
      WithoutCommasIdentity(ds);
    } else {
      var pre, last := ds[..|ds| - 3], ds[|ds| - 3..];
      UngroupGroup(pre);
      WithoutCommasAppend(Group(pre) + ",", last);
      WithoutCommasAppend(Group(pre), ",");
      WithoutCommasIdentity(last);
      assert pre + last == ds;
    }
  }

  /** `f"${n:,}"`: a dollar sign, then a minus sign for a negative amount, then the grouped digits. */
  function Dollars(n: int): string {
    "$" + (if n < 0 then "-" else "") + Group(NatToString(if n < 0 then -n else n))
  }

  /** Reads a `Dollars` text back: `$`, an optional `-`, digits with commas. */
  function ParseDollars(s: string): Option<int> {
    if s == [] || s[0] != '$' then None
    else
      var neg := |s| > 1 && s[1] == '-';
      var digits := WithoutCommas(if neg then s[2..] else s[1..]);
      if digits == [] || !AllDigits(digits) then None
      else
        var v: int := DigitsValue(digits);
        Some(if neg then -v else v)
  }

  /** A displayed amount names exactly the amount it was made from. */
  lemma ParseDollarsOfDollars(n: int)
    ensures ParseDollars(Dollars(n)) == Some(n)
  {
    var a: nat := if n < 0 then -n else n;
    var ds := NatToString(a);
    var g := Group(ds);
    UngroupGroup(ds);
    DigitsValueOfNatToString(a);
    GroupFirst(ds);
    var s := Dollars(n);
    if n < 0 {
      assert s == "$" + "-" + g;
      assert s[1] == '-' && s[2..] == g;
    } else {
      assert s == "$" + g;
      assert s[1] == ds[0] && s[1..] == g;
    }
  }

  /** The grouped text starts with the first digit. */
  lemma {:induction false} GroupFirst(ds: string)
    requires ds != []
    ensures |Group(ds)| >= 1 && Group(ds)[0] == ds[0]
    decreases |ds|
  {
    if |ds| > 3 {
      GroupFirst(ds[..|ds| - 3]);
    }
  }

  /** `MovieAdmin.budget_display`. */
  function BudgetDisplay(m: Movie): string {
    if Truthy(m.budget) then Dollars(m.budget.value) else "-"
  }

  /** `MovieAdmin.revenue_display`. */
  function RevenueDisplay(m: Movie): string {
    if Truthy(m.revenue) then Dollars(m.revenue.value) else "-"
  }

  /** A budget is shown as `-` exactly when it is missing or zero; otherwise the
      shown text reads back as the budget. */
  lemma BudgetDisplayed(m: Movie)
    ensures BudgetDisplay(m) == "-" <==> !Truthy(m.budget)
    ensures Truthy(m.budget) ==> ParseDollars(BudgetDisplay(m)) == Some(m.budget.value)
  {
    if Truthy(m.budget) {
      ParseDollarsOfDollars(m.budget.value);
    }
  }

  /** The same rules hold for revenue. */
  lemma RevenueDisplayed(m: Movie)
    ensures RevenueDisplay(m) == "-" <==> !Truthy(m.revenue)
    ensures Truthy(m.revenue) ==> ParseDollars(RevenueDisplay(m)) == Some(m.revenue.value)
  {
    if Truthy(m.revenue) {
      ParseDollarsOfDollars(m.revenue.value);
    }
  }

  /** The colour of a profit: green for a gain, red for a loss, black for break-even. */
  function ProfitColour(p: int): (c: string)
    ensures c == "green" <==> p > 0
    ensures c == "red" <==> p < 0
    ensures c == "black" <==> p == 0
  {
    if p > 0 then "green" else if p < 0 then "red" else "black"
  }

  /** The span the admin is meant to show for a known profit. */
  function ProfitSpan(p: int): string {
    "<span style=\"color: " + ProfitColour(p) + ";\">" + Dollars(p) + "</span>"
  }

  /** `MovieAdmin.profit_display` as intended: `-` for an unknown profit, else the coloured span. */
  function ProfitDisplay(m: Movie): string {
    match Profit(m)
    case None => "-"
    case Some(p) => ProfitSpan(p)
  }

  /** The open tag of a profit span, up to the amount. */
  function SpanOpen(colour: string): string {
    "<span style=\"color: " + colour + ";\">"
  }

  /** The profit display is `-` exactly when the profit is unknown; otherwise it
      is a span in the profit's colour whose text reads back as the profit. */
  lemma ProfitDisplayed(m: Movie)
    ensures ProfitDisplay(m) == "-" <==> Profit(m).None?
    ensures Profit(m).Some? ==>
      var p := Profit(m).value;
      var d := ProfitDisplay(m);
      var open := SpanOpen(ProfitColour(p));
      |d| >= |open| + 7 && d[..|open|] == open && d[|d| - 7..] == "</span>"
      && ParseDollars(d[|open|..|d| - 7]) == Some(p)
  {
    if Profit(m).Some? {
      var p := Profit(m).value;
      var open := SpanOpen(ProfitColour(p));
      var d := ProfitDisplay(m);
      assert d == open + Dollars(p) + "</span>";
      assert d[..|open|] == open;
      assert d[|open|..|d| - 7] == Dollars(p);
      ParseDollarsOfDollars(p);
    }
  }

  // ---------------------------------------------------------------------
  // profit_display as written. Django's `format_html` passes every argument
  // through `conditional_escape`, which turns the integer profit into a
  // (safe) string before `str.format` applies the `{:,}` field; a `,`
  // format specifier on a string raises ValueError("Cannot specify ',' with
  // 's'."). So the method as written fails for every known profit.
  // ---------------------------------------------------------------------

  /** A format field applied to one argument, after `format_html` escaped it. */
  datatype FormatArg = IntArg(i: int) | StrArg(s: string)

  /** The error `str.format` raises for a `,` specifier on a string. */
  datatype FormatError = CommaWithString

  /** `format(arg, ",")` in Python. */
  function FormatComma(a: FormatArg): Result<string, FormatError> {
    match a
    case IntArg(i) => Ok((if i < 0 then "-" else "") + Group(NatToString(if i < 0 then -i else i)))
    case StrArg(_) => Err(CommaWithString)
  }

  /** `conditional_escape(arg)`: any non-safe value becomes its escaped text. */
  function ConditionalEscape(a: FormatArg): (r: FormatArg)
    ensures r.StrArg?
  {
    match a
    case IntArg(i) => StrArg(IntToString(i))
    case StrArg(s) => StrArg(s)
  }

  /** `MovieAdmin.profit_display` exactly as written, with `format_html`'s escaping. */
  function ProfitDisplayAsWritten(m: Movie): Result<string, FormatError> {
    match Profit(m)
    case None => Ok("-")
    case Some(p) =>
      match FormatComma(ConditionalEscape(IntArg(p)))
      case Err(e) => Err(e)
      case Ok(text) => Ok(SpanOpen(ProfitColour(p)) + "$" + text + "</span>")
  }

  /** As written, every movie with a known profit makes the display raise. */
  lemma ProfitDisplayAsWrittenFails(m: Movie)
    ensures ProfitDisplayAsWritten(m).Err? <==> Profit(m).Some?
  {
  }

  /** A concrete movie: budget 100, revenue 250, so profit 150. The display
      as written raises. */
  lemma ProfitDisplayAsWrittenExample()
    ensures ProfitDisplayAsWritten(Movie(Some("Example"), Some(100), Some(250), None, None, None, None, None))
      == Err(CommaWithString)
  {
    var m := Movie(Some("Example"), Some(100), Some(250), None, None, None, None, None);
    assert Profit(m) == Some(150);
  }

  /** Formatting the integer itself, as intended, gives the `Dollars` text. */
  lemma ProfitDisplayIntended(m: Movie)
    requires Profit(m).Some?
    ensures FormatComma(IntArg(Profit(m).value)).Ok?
    ensures SpanOpen(ProfitColour(Profit(m).value)) + "$" + FormatComma(IntArg(Profit(m).value)).value + "</span>"
      == ProfitDisplay(m)
  {
  }
}
