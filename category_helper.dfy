/**
 * The parsers of the list query string: `parseBoolean`, `parseNumber`,
 * `parseSort` and `buildListQuery`.  A query value is what Express put in
 * `req.query`: absent, null, a string, or something else such as an array,
 * given by the text `String(v)` makes of it.  `Number(v)` is modelled on
 * whole numbers written in decimal, on white space and on texts without a
 * digit; other numerals (fractions, exponents, hexadecimal) and whole
 * numbers above 2^53, which a double does not hold exactly, give
 * `Unmodelled`.
 */
module CategoryHelper {
  import opened Wrappers
  import opened Ascii
  import opened CategoryOrdering

  /** A value of `req.query`. */
  datatype QueryValue = Absent | Null | Text(s: string) | Other(shown: string)

  /** `String(v)` for a present value. */
  function Shown(v: QueryValue): string
    requires v.Text? || v.Other?
  {
    if v.Text? then v.s else v.shown
  }

  /** The values the parsers treat as missing: undefined, null and the empty string. */
  predicate Missing(v: QueryValue) {
    v.Absent? || v.Null? || v == Text("")
  }

  /* ---------- parseBoolean ---------- */

  /**
   * `parseBoolean`: after lower-casing, `true`, `1`, `yes` are true and
   * `false`, `0`, `no` are false; a missing value and any other text give
   * nothing.
   */
  function ParseBoolean(v: QueryValue): Option<bool> {
    if Missing(v) then None
    else
      var s := Lower(Shown(v));
      if s == "true" || s == "1" || s == "yes" then Some(true)
      else if s == "false" || s == "0" || s == "no" then Some(false)
      else None
  }

  /** The text a boolean is written as in a query string. */
  function BooleanText(b: bool): string {
    if b then "true" else "false"
  }

  /** A boolean written in the query is read back. */
  lemma ParseBooleanRoundTrip(b: bool)
    ensures ParseBoolean(Text(BooleanText(b))) == Some(b)
  {
    assert Lower("true") == "true" && Lower("false") == "false";
  }

  /** Letter case does not matter. */
  lemma ParseBooleanIgnoresCase(v: QueryValue)
    requires v.Text?
    ensures ParseBoolean(Text(Upper(v.s))) == ParseBoolean(v)
  {
    assert Lower(Upper(v.s)) == Lower(v.s);
  }

  /** Upper-case forms are read, other words are not. */
  lemma ParseBooleanExamples()
    ensures ParseBoolean(Text("TRUE")) == Some(true) && ParseBoolean(Text("Yes")) == Some(true)
    ensures ParseBoolean(Text("0")) == Some(false) && ParseBoolean(Text("No")) == Some(false)
    ensures ParseBoolean(Text("on")) == None && ParseBoolean(Absent) == None && ParseBoolean(Null) == None
  {
    assert Lower("TRUE") == "true" && Lower("Yes") == "yes" && Lower("No") == "no";
    assert Lower("on") == "on" && Lower("0") == "0";
  }

  /* ---------- parseNumber ---------- */

  /** Every whole number up to 2^53 is a double. */
  const ExactLimit: nat := 0x20_0000_0000_0000

  /** What `Number(v)` gives, where the model decides it. */
  datatype Numeric = Finite(n: int) | NotFinite | Unmodelled

  predicate NoDigit(s: string) {
    forall i :: 0 <= i < |s| ==> !IsDigit(s[i])
  }

  /**
   * `Number(s)` for a text: white space around it is ignored and white space
   * alone is 0; an optional sign and decimal digits is that whole number;
   * `Infinity` with or without a sign is not finite, and so is NaN, which a
   * text without any digit gives.
   */
  function StringToNumber(s: string): Numeric {
    NumberText(Trim(s))
  }

  /** `Number` on a text without white space at its ends. */
  function NumberText(t: string): Numeric {
    if t == [] then Finite(0)
    else
      var signed := t[0] == '-' || t[0] == '+';
      var body := if signed then t[1..] else t;
      if body == "Infinity" then NotFinite
      else if body != [] && AllDigits(body) then
        var n: int := DecimalValue(body);
        if n > ExactLimit then Unmodelled
        else if t[0] == '-' then Finite(-n) else Finite(n)
      else if NoDigit(t) then NotFinite
      else Unmodelled
  }

  /** Digits are read as their value. */
  lemma NumberTextDigits(d: string)
    requires d != [] && AllDigits(d) && DecimalValue(d) <= ExactLimit
    ensures NumberText(d) == Finite(DecimalValue(d))
  {
    assert d[0] != '-' && d[0] != '+';
    assert d != "Infinity" by {
      assert d[0] != 'I';
    }
  }

  /** A minus sign and digits are read as the negated value. */
  lemma NumberTextNegative(d: string)
    requires d != [] && AllDigits(d) && DecimalValue(d) <= ExactLimit
    ensures NumberText("-" + d) == Finite(-(DecimalValue(d) as int))
  {
    var t := "-" + d;
    assert t[0] == '-' && t[1..] == d;
    assert d != "Infinity" by {
      assert d[0] != 'I';
    }
  }

  /** A text without a digit is not a number. */
  lemma NumberTextNoDigit(t: string)
    requires t != [] && NoDigit(t)
    ensures NumberText(t) == NotFinite
  {
    var body := if t[0] == '-' || t[0] == '+' then t[1..] else t;
    assert !(body != [] && AllDigits(body)) by {
      if body != [] {
        assert body[0] == t[|t| - |body|];
      }
    }
  }

  /** `parseNumber`: nothing for a missing value and for what is not a finite number. */
  function ParseNumber(v: QueryValue): (r: Option<Numeric>)
    ensures r.Some? ==> !r.value.NotFinite?
  {
    if Missing(v) then None
    else
      var n := StringToNumber(Shown(v));
      if n.NotFinite? then None else Some(n)
  }

  /** The text of a whole number, as a query string carries it. */
  function IntText(n: int): string {
    if n < 0 then "-" + Decimal(-n) else Decimal(n)
  }

  lemma DigitsHaveNoSpace(d: string)
    requires AllDigits(d) && d != []
    ensures Trim(d) == d
  {
    assert !IsSpace(d[0]) && !IsSpace(d[|d| - 1]);
    TrimNoSpace(d);
  }

  /** A whole number written in the query is read back, up to 2^53 either side of 0. */
  lemma ParseNumberRoundTrip(n: int)
    requires -(ExactLimit as int) <= n <= ExactLimit
    ensures ParseNumber(Text(IntText(n))) == Some(Finite(n))
  {
    if n < 0 {
      var m: nat := -n;
      var d := Decimal(m);
      var t := "-" + d;
      assert IntText(n) == t;
      DecimalRoundTrip(m);
      assert DecimalValue(d) == m <= ExactLimit;
      assert !IsSpace(t[|t| - 1]) by {
        assert t[|t| - 1] == d[|d| - 1];
      }
      TrimNoSpace(t);
      NumberTextNegative(d);
      assert StringToNumber(t) == Finite(n);
    } else {
      var d := Decimal(n);
      assert IntText(n) == d;
      DecimalRoundTrip(n);
      DigitsHaveNoSpace(d);
      NumberTextDigits(d);
      assert StringToNumber(d) == Finite(n);
    }
  }

  lemma NoDigitSlice(s: string, a: nat, b: nat)
    requires a <= b <= |s| && NoDigit(s)
    ensures NoDigit(s[a..b])
  {
    assert forall k :: 0 <= k < b - a ==> s[a..b][k] == s[a + k];
  }

  /** A text without a digit is no number, except white space alone, which is 0. */
  lemma ParseNumberWithoutDigits(s: string)
    requires NoDigit(s)
    ensures Trim(s) != [] ==> ParseNumber(Text(s)) == None
    ensures s != [] && Trim(s) == [] ==> ParseNumber(Text(s)) == Some(Finite(0))
  {
    var u := TrimStart(s);
    NoDigitSlice(s, |s| - |u|, |s|);
    var t := TrimEnd(u);
    NoDigitSlice(u, 0, |t|);
    assert t == Trim(s);
    if t != [] {
      NumberTextNoDigit(t);
    }
  }

  /* ---------- parseSort ---------- */

  /** The four orders listCategories accepts. */
  predicate IsListKey(k: SortKey) {
    k != LevelThenSortOrder
  }

  /** The text of an order: `name`, `sortOrder`, `-name` or `-sortOrder`. */
  function SortText(k: SortKey): string
    requires IsListKey(k)
  {
    match k
    case Name => "name"
    case SortOrder => "sortOrder"
    case NameDesc => "-name"
    case SortOrderDesc => "-sortOrder"
  }

  /** `parseSort`: a string that is exactly one of the four orders; anything else gives nothing. */
  function ParseSort(v: QueryValue): (r: Option<SortKey>)
    ensures r.Some? ==> IsListKey(r.value)
  {
    if !v.Text? then None
    else if v.s == "name" then Some(Name)
    else if v.s == "sortOrder" then Some(SortOrder)
    else if v.s == "-name" then Some(NameDesc)
    else if v.s == "-sortOrder" then Some(SortOrderDesc)
    else None
  }

  /** `parseSort` reads exactly the texts of the four orders, each as its own order. */
  lemma ParseSortInverse(v: QueryValue, k: SortKey)
    requires IsListKey(k)
    ensures ParseSort(v) == Some(k) <==> v == Text(SortText(k))
  {
  }

  /** Other spellings, such as another letter case, give nothing. */
  lemma ParseSortExamples()
    ensures ParseSort(Text("Name")) == None && ParseSort(Text("-sortorder")) == None
    ensures ParseSort(Other("name")) == None
  {
  }

  /* ---------- buildListQuery ---------- */

  /** The query of listCategories as Express parsed it. */
  datatype RawQuery = RawQuery(
    parentId: QueryValue, q: QueryValue, isActive: QueryValue,
    page: QueryValue, limit: QueryValue, sort: QueryValue)

  /**
   * The options buildListQuery hands to listCategories: `parentId` and
   * `search` as given (null read as undefined), the others parsed.
   */
  datatype ListQuery = ListQuery(
    parentId: QueryValue, search: QueryValue, isActive: Option<bool>,
    page: Option<Numeric>, limit: Option<Numeric>, sort: Option<SortKey>)

  /** `v ?? undefined`. */
  function OrUndefined(v: QueryValue): (r: QueryValue)
    ensures !r.Null?
    ensures !v.Null? ==> r == v
  {
    if v.Null? then Absent else v
  }

  /** `buildListQuery`: `q` becomes `search`; `isActive`, `page`, `limit` and `sort` go through their parsers. */
  function BuildListQuery(qs: RawQuery): ListQuery {
    ListQuery(OrUndefined(qs.parentId), OrUndefined(qs.q), ParseBoolean(qs.isActive),
      ParseNumber(qs.page), ParseNumber(qs.limit), ParseSort(qs.sort))
  }

  /** A listing request a client means to send. */
  datatype ListRequest = ListRequest(
    parentId: Option<string>, search: Option<string>, isActive: Option<bool>,
    page: Option<int>, limit: Option<int>, sort: Option<SortKey>)

  function TextOr(o: Option<string>): QueryValue {
    if o.Some? then Text(o.value) else Absent
  }

  /** The query string that carries `r`: each given option written as text. */
  function QueryOf(r: ListRequest): RawQuery
    requires r.sort.Some? ==> IsListKey(r.sort.value)
  {
    RawQuery(TextOr(r.parentId), TextOr(r.search),
      if r.isActive.Some? then Text(BooleanText(r.isActive.value)) else Absent,
      if r.page.Some? then Text(IntText(r.page.value)) else Absent,
      if r.limit.Some? then Text(IntText(r.limit.value)) else Absent,
      if r.sort.Some? then Text(SortText(r.sort.value)) else Absent)
  }

  /** A whole number of at most 2^53 either side of 0. */
  predicate Exact(n: Option<int>) {
    n.Some? ==> -(ExactLimit as int) <= n.value <= ExactLimit
  }

  /** A request written as a query string is built back into the same options. */
  lemma BuildListQueryRoundTrip(r: ListRequest)
    requires r.sort.Some? ==> IsListKey(r.sort.value)
    requires Exact(r.page) && Exact(r.limit)
    ensures var built := BuildListQuery(QueryOf(r));
      && built.parentId == TextOr(r.parentId)
      && built.search == TextOr(r.search)
      && built.isActive == r.isActive
      && built.page == (if r.page.Some? then Some(Finite(r.page.value)) else None)
      && built.limit == (if r.limit.Some? then Some(Finite(r.limit.value)) else None)
      && built.sort == r.sort
  {
    if r.isActive.Some? {
      ParseBooleanRoundTrip(r.isActive.value);
    }
    if r.page.Some? {
      ParseNumberRoundTrip(r.page.value);
    }
    if r.limit.Some? {
      ParseNumberRoundTrip(r.limit.value);
    }
    if r.sort.Some? {
      ParseSortInverse(Text(SortText(r.sort.value)), r.sort.value);
    }
  }

  /** `?page=%20` passes as page 0, which listCategories turns into a negative skip. */
  lemma BlankPageIsZero()
    ensures ParseNumber(Text(" ")) == Some(Finite(0))
  {
    assert Trim(" ") == [];
  }
}
