/** Wine records and the filter predicates of getTopKSimilar (app.js:136-171). */
module Wines {
  import opened Wrappers

  /** The `price` column after dynamic typing: absent (`null`/`undefined`),
      a number, or a value for which `isNaN` holds. */
  datatype Price = NoPrice | Numeric(amount: real) | NotNumeric

  /** One CSV row: the columns the core reads. A missing column is `None`. */
  datatype Record = Record(country: Option<string>, variety: Option<string>, price: Price)

  /** A row with the `_index` field added at load time. */
  datatype Wine = Wine(record: Record, index: nat)

  /** The options object of getTopKSimilar with its defaults: an empty filter
      string means "no filter", `None` stands for `maxPrice` being `null` or "". */
  datatype SearchOptions = SearchOptions(
    filterCountry: string,
    filterVariety: string,
    maxPrice: Option<real>,
    excludeIndices: set<int>)

  const NoFilters := SearchOptions("", "", None, {})

  /** Lower-casing of one character (A-Z only). */
  function LowerChar(c: char): (r: char)
  {
    if 'A' <= c <= 'Z' then (c as int - 'A' as int + 'a' as int) as char else c
  }

  /** String.prototype.toLowerCase, restricted to A-Z. */
  function Lower(s: string): (r: string)
    ensures |r| == |s|
  {
    seq(|s|, i requires 0 <= i < |s| => LowerChar(s[i]))
  }

  /** A string attribute is truthy when it is present and not empty. */
  predicate Truthy(attr: Option<string>)
  {
    attr.Some? && attr.value != ""
  }

  /** The country/variety test: it applies only when both the filter and the
      wine's attribute are non-empty, and then compares them lower-cased. */
  predicate MatchesText(filter: string, attr: Option<string>): (r: bool)
    ensures filter == "" || !Truthy(attr) ==> r
    ensures filter != "" && Truthy(attr) ==> (r <==> Lower(attr.value) == Lower(filter))
  {
    filter != "" && Truthy(attr) ==> Lower(attr.value) == Lower(filter)
  }

  /** The price test: it drops a wine only when a bound is set, the wine's
      price is numeric, and that price is above the bound. */
  predicate WithinPrice(maxPrice: Option<real>, price: Price): (r: bool)
    ensures maxPrice.None? || !price.Numeric? ==> r
    ensures maxPrice.Some? && price.Numeric? && price.amount > maxPrice.value ==> !r
  {
    maxPrice.Some? && price.Numeric? ==> price.amount <= maxPrice.value
  }

  /** Position i survives the `continue`s of the scan: not excluded, backed
      by a wine, and accepted by the three filters. */
  predicate Eligible(wines: seq<Wine>, opts: SearchOptions, i: nat): (r: bool)
    ensures r ==> i < |wines| && i !in opts.excludeIndices
    ensures opts == NoFilters ==> (r <==> i < |wines|)
  {
    && i !in opts.excludeIndices
    && i < |wines|
    && MatchesText(opts.filterCountry, wines[i].record.country)
    && MatchesText(opts.filterVariety, wines[i].record.variety)
    && WithinPrice(opts.maxPrice, wines[i].record.price)
  }

  /** Two filter strings that agree once lower-cased accept the same wines. */
  lemma MatchesTextCaseInsensitive(f1: string, f2: string, attr: Option<string>)
    requires Lower(f1) == Lower(f2)
    ensures MatchesText(f1, attr) == MatchesText(f2, attr)
  {
    assert |f1| == |Lower(f1)| == |Lower(f2)| == |f2|;
  }

  /** The price filter never drops a wine whose price equals the bound, nor a
      wine whose price is missing or non-numeric. */
  lemma WithinPriceKeeps(bound: real, price: Price)
    requires price.NoPrice? || price.NotNumeric? || price == Numeric(bound)
    ensures WithinPrice(Some(bound), price)
  {
  }
}
