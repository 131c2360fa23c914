/** The catalog's product search: the keyword guard, the sanitizer and the column whitelist. */
module ProductSearch {
  import opened Text
  import opened SearchText

  /** The columns a keyword is matched against. */
  const KEYWORD_COLUMNS: seq<string> := ["Name", "Description"]

  /** The columns `AdvancedSearchAsync` accepts. */
  const ALLOWED_COLUMNS: seq<string> := ["Name", "Description", "CategoryId", "BrandId"]

  /**
   * `SearchProductsAsync`: a blank keyword yields no query; any other keyword is sanitized and
   * matched against the name and the description.
   */
  function SearchProducts(keyword: string): (r: Query)
    ensures r.NoQuery? <==> IsBlank(keyword)
    ensures !r.EqualsQuery?
    ensures r.LikeQuery? ==> r.columns == KEYWORD_COLUMNS && r.pattern == Sanitize(keyword)
    ensures r.LikeQuery? ==> '\'' !in r.pattern && ';' !in r.pattern && !Contains(r.pattern, "--")
    ensures r.LikeQuery? ==> IsSubsequence(r.pattern, keyword)
  {
    if IsBlank(keyword) then NoQuery
    else
      SanitizeIsClean(keyword);
      SanitizeIsSubsequence(keyword);
      LikeQuery(KEYWORD_COLUMNS, Sanitize(keyword))
  }

  /** A keyword made only of quotes is not blank, yet it sanitizes to the empty pattern, which matches every product. */
  lemma QuotesOnlyKeywordMatchesAll()
    ensures SearchProducts("''") == LikeQuery(KEYWORD_COLUMNS, "")
  {
    assert !IsBlank("''") by {
      assert !IsWhiteSpace("''"[0]);
    }
    assert ReplaceAll("''", "'", "") == "";
    assert ReplaceAll("", ";", "") == "";
    assert ReplaceAll("", "--", "") == "";
  }

  /**
   * `AdvancedSearchAsync`: a column outside the whitelist, compared ignoring case, yields no
   * query; otherwise the column and the value go into the filter as given.
   */
  function AdvancedSearch(column: string, value: string): (r: Query)
    ensures r.EqualsQuery? <==> InWhitelist(ALLOWED_COLUMNS, column)
    ensures r.NoQuery? <==> !InWhitelist(ALLOWED_COLUMNS, column)
    ensures r.EqualsQuery? ==> r.column == column && r.value == value
    ensures r.EqualsQuery? ==> AllAsciiLetters(r.column)
  {
    if InWhitelist(ALLOWED_COLUMNS, column) then
      WhitelistedColumnIsLetters(ALLOWED_COLUMNS, column);
      EqualsQuery(column, value)
    else NoQuery
  }

  /** The whitelist ignores case, and a column carrying anything besides letters is refused. */
  lemma AdvancedSearchExamples(value: string)
    ensures AdvancedSearch("brandid", value) == EqualsQuery("brandid", value)
    ensures AdvancedSearch("Name = Name OR Name", value) == NoQuery
    ensures AdvancedSearch("Price", value) == NoQuery
  {
    assert EqualsIgnoreCase(ALLOWED_COLUMNS[3], "brandid");
    assert !AllAsciiLetters("Name = Name OR Name") by {
      assert !IsAsciiLetter("Name = Name OR Name"[4]);
    }
    assert !InWhitelist(ALLOWED_COLUMNS, "Price") by {
      forall k | 0 <= k < |ALLOWED_COLUMNS|
        ensures !EqualsIgnoreCase(ALLOWED_COLUMNS[k], "Price")
      {
        assert |Upper(ALLOWED_COLUMNS[k])| == |ALLOWED_COLUMNS[k]|;
        if k == 0 {
          assert Upper(ALLOWED_COLUMNS[k])[0] == 'N';
        }
      }
    }
  }
}
