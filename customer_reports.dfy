/** The customer reports: the filter-column whitelist, the search guard and sanitizer, and the statistics. */
module CustomerReports {
  import opened Text
  import opened SearchText

  /** `AllowedFilterColumns`, a set compared ignoring case. */
  const ALLOWED_FILTER_COLUMNS: seq<string> := ["Email", "FirstName", "LastName", "Nationality", "Status"]

  /** The columns a search term is matched against. */
  const SEARCH_COLUMNS: seq<string> := ["Email", "FirstName", "LastName"]

  /**
   * `GetCustomersWithFilterAsync`: a column outside the whitelist yields no query; otherwise the
   * column and the value go into the filter as given.
   */
  function GetCustomersWithFilter(filterColumn: string, filterValue: string): (r: Query)
    ensures r.EqualsQuery? <==> InWhitelist(ALLOWED_FILTER_COLUMNS, filterColumn)
    ensures r.NoQuery? <==> !InWhitelist(ALLOWED_FILTER_COLUMNS, filterColumn)
    ensures r.EqualsQuery? ==> r.column == filterColumn && r.value == filterValue
    ensures r.EqualsQuery? ==> AllAsciiLetters(r.column)
  {
    if InWhitelist(ALLOWED_FILTER_COLUMNS, filterColumn) then
      WhitelistedColumnIsLetters(ALLOWED_FILTER_COLUMNS, filterColumn);
      EqualsQuery(filterColumn, filterValue)
    else NoQuery
  }

  /**
   * `SearchCustomersAsync`: a blank term yields no query; any other term is sanitized and matched
   * against the e-mail and both names.
   */
  function SearchCustomers(searchTerm: string): (r: Query)
    ensures r.NoQuery? <==> IsBlank(searchTerm)
    ensures !r.EqualsQuery?
    ensures r.LikeQuery? ==> r.columns == SEARCH_COLUMNS && r.pattern == Sanitize(searchTerm)
    ensures r.LikeQuery? ==> '\'' !in r.pattern && ';' !in r.pattern && !Contains(r.pattern, "--")
    ensures r.LikeQuery? ==> IsSubsequence(r.pattern, searchTerm)
  {
    if IsBlank(searchTerm) then NoQuery
    else
      SanitizeIsClean(searchTerm);
      SanitizeIsSubsequence(searchTerm);
      LikeQuery(SEARCH_COLUMNS, Sanitize(searchTerm))
  }

  /** A quote in the value is not escaped: an accepted filter carries it into the query untouched. */
  lemma FilterValueNotSanitized()
    ensures GetCustomersWithFilter("status", "x' OR '1'='1").EqualsQuery?
    ensures Occurrences(GetCustomersWithFilter("status", "x' OR '1'='1").value, '\'') == 4
  {
    assert EqualsIgnoreCase(ALLOWED_FILTER_COLUMNS[4], "status");
    assert multiset("x' OR '1'='1")['\''] == 4;
  }

  datatype CustomerStatistics = CustomerStatistics(
    totalCustomers: int,
    activeCustomers: int,
    newCustomersThisMonth: int,
    averageOrderValue: real)

  /** Counts that fit together: no more active or new customers than customers in all. */
  predicate Consistent(s: CustomerStatistics)
  {
    0 <= s.activeCustomers <= s.totalCustomers
    && 0 <= s.newCustomersThisMonth <= s.totalCustomers
    && s.averageOrderValue >= 0.0
  }

  /**
   * `GetCustomerStatisticsAsync`: the query it builds is never run; it answers the same sample
   * figures for every region, and they are consistent.
   */
  function GetCustomerStatistics(region: string): (r: CustomerStatistics)
    ensures r.totalCustomers == 1000 && r.activeCustomers == 850
    ensures r.newCustomersThisMonth == 45 && r.averageOrderValue == 250000.0
    ensures Consistent(r)
  {
    CustomerStatistics(1000, 850, 45, 250000.0)
  }
}
