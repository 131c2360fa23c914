/**
 * What the catalog search and the customer reports share: the `Replace` chain they run over a
 * search term, and the case-insensitive column whitelist check.
 */
module SearchText {
  import opened Text

  /**
   * What a search hands to the database, with the database itself left out: nothing at all (the
   * service answers with an empty list), a LIKE match of a pattern against some columns, or an
   * equality filter on one column.
   */
  datatype Query =
    | NoQuery
    | LikeQuery(columns: seq<string>, pattern: string)
    | EqualsQuery(column: string, value: string)

  /**
   * The search sanitizer: null or empty gives empty; otherwise every `'` is removed, then
   * every `;`, then every "--" found scanning left to right.
   */
  function Sanitize(input: string): (r: string)
  {
    if input == [] then []
    else ReplaceAll(ReplaceAll(ReplaceAll(input, "'", ""), ";", ""), "--", "")
  }

  /** The sanitized term holds no quote, no semicolon and no dash pair. */
  lemma SanitizeIsClean(input: string)
    ensures '\'' !in Sanitize(input)
    ensures ';' !in Sanitize(input)
    ensures !Contains(Sanitize(input), "--")
  {
    if input != [] {
      var a := ReplaceAll(input, "'", "");
      var b := ReplaceAll(a, ";", "");
      RemoveCharLeavesNone(input, '\'');
      RemoveCharLeavesNone(a, ';');
      RemoveAllIsSubsequence(a, ";");
      SubsequenceKeepsAbsence(b, a, '\'');
      RemoveAllIsSubsequence(b, "--");
      SubsequenceKeepsAbsence(Sanitize(input), b, '\'');
      SubsequenceKeepsAbsence(Sanitize(input), b, ';');
      RemoveDoubleDashLeavesNone(b);
    }
  }

  /** The sanitizer only deletes characters. */
  lemma SanitizeIsSubsequence(input: string)
    ensures IsSubsequence(Sanitize(input), input)
    ensures |Sanitize(input)| <= |input|
  {
    if input == [] {
      SubsequenceRefl(input);
    } else {
      var a := ReplaceAll(input, "'", "");
      var b := ReplaceAll(a, ";", "");
      RemoveAllIsSubsequence(input, "'");
      RemoveAllIsSubsequence(a, ";");
      RemoveAllIsSubsequence(b, "--");
      SubsequenceTransitive(b, a, input);
      SubsequenceTransitive(Sanitize(input), b, input);
      RemoveNeverLengthens(input, "'");
      RemoveNeverLengthens(a, ";");
      RemoveNeverLengthens(b, "--");
    }
  }

  /** A term that is already clean passes through unchanged; so sanitizing twice is sanitizing once. */
  lemma SanitizeIdempotent(input: string)
    ensures Sanitize(Sanitize(input)) == Sanitize(input)
  {
    var s := Sanitize(input);
    SanitizeIsClean(input);
    if s != [] {
      AbsentCharNotContained(s, '\'');
      ReplaceAbsent(s, "'", "");
      AbsentCharNotContained(s, ';');
      ReplaceAbsent(s, ";", "");
      ReplaceAbsent(s, "--", "");
    }
  }

  lemma AbsentCharNotContained(s: string, c: char)
    requires c !in s
    ensures !Contains(s, [c])
  {
    forall i | 0 <= i <= |s| - 1
      ensures !OccursAt(s, [c], i)
    {
      assert s[i..i + 1][0] == s[i];
    }
  }

  /** `names.Contains(column, StringComparer.OrdinalIgnoreCase)`. */
  predicate InWhitelist(names: seq<string>, column: string)
  {
    exists k :: 0 <= k < |names| && EqualsIgnoreCase(names[k], column)
  }

  predicate AllAsciiLetters(s: string)
  {
    forall i :: 0 <= i < |s| ==> IsAsciiLetter(s[i])
  }

  /**
   * A column that passes a whitelist of letter-only names is itself made of ASCII letters only,
   * so it cannot carry a quote, a space or a comment into the query text it is spliced into.
   */
  lemma {:induction false} WhitelistedColumnIsLetters(names: seq<string>, column: string)
    requires forall k :: 0 <= k < |names| ==> AllAsciiLetters(names[k])
    requires InWhitelist(names, column)
    ensures AllAsciiLetters(column)
  {
    var k :| 0 <= k < |names| && EqualsIgnoreCase(names[k], column);
    var w := names[k];
    assert Upper(w) == Upper(column);
    forall i | 0 <= i < |column|
      ensures IsAsciiLetter(column[i])
    {
      assert Upper(column)[i] == UpperChar(column[i]);
      assert Upper(w)[i] == UpperChar(w[i]);
      assert IsAsciiLetter(w[i]);
    }
  }

  /** The whitelist check ignores case: a column passes exactly when its upper-cased form does. */
  lemma WhitelistIgnoresCase(names: seq<string>, column: string)
    ensures InWhitelist(names, column) <==> InWhitelist(names, Upper(column))
  {
    assert Upper(Upper(column)) == Upper(column) by {
      forall i | 0 <= i < |column|
        ensures Upper(Upper(column))[i] == Upper(column)[i]
      {
      }
    }
  }
}
