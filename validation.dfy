/**
 * Input validation and sanitisation helpers: e-mail and alphanumeric checks by regular
 * expression, a directory-traversal check, a blacklist of SQL keywords, quote escaping with
 * comment stripping, and a password rule.
 */
module Validation {
  import opened Text

  /** No '@' and no white space: the regular-expression class `[^@\s]`. */
  predicate IsEmailChar(c: char)
  {
    c != '@' && !IsWhiteSpace(c)
  }

  /**
   * The whole of `s` matches `[^@\s]+@[^@\s]+\.[^@\s]+`: one '@' with text before it, and after
   * it a '.' with text on both sides, and no white space or other '@' anywhere.
   */
  ghost predicate EmailShape(s: string)
  {
    exists at, dot | 0 < at && at + 1 < dot && dot + 1 < |s| ::
      s[at] == '@' && s[dot] == '.'
      && forall k :: 0 <= k < |s| && k != at ==> IsEmailChar(s[k])
  }

  /** The same shape, decided by scanning: one '@', and a '.' with text on each side after it. */
  function EmailShapeCheck(s: string): (r: bool)
  {
    var at := IndexOf(s, '@');
    0 < at < |s|
    && (forall k :: 0 <= k < |s| && k != at ==> IsEmailChar(s[k]))
    && at + 2 < |s| && '.' in s[at + 2..|s| - 1]
  }

  lemma EmailShapeCheckCorrect(s: string)
    ensures EmailShapeCheck(s) <==> EmailShape(s)
  {
    var at := IndexOf(s, '@');
    if EmailShapeCheck(s) {
      var j :| 0 <= j < |s[at + 2..|s| - 1]| && s[at + 2..|s| - 1][j] == '.';
      var dot := at + 2 + j;
      assert s[dot] == '.';
      assert s[at] == '@';
    }
    if EmailShape(s) {
      var a, dot :| 0 < a && a + 1 < dot && dot + 1 < |s| && s[a] == '@' && s[dot] == '.'
                    && forall k :: 0 <= k < |s| && k != a ==> IsEmailChar(s[k]);
      assert at == a by {
        assert at <= a;
        assert !IsEmailChar(s[at]);
      }
      assert s[at + 2..|s| - 1][dot - at - 2] == '.';
    }
  }

  /**
   * `IsValidEmail`: false for blank input, otherwise whether the pattern
   * `^[^@\s]+@[^@\s]+\.[^@\s]+$` matches. Without the Multiline option, `$` also matches just
   * before a final "\n", so an address followed by one newline is accepted.
   */
  function IsValidEmail(email: string): (r: bool)
    ensures r <==> EmailShape(email) || (|email| > 0 && email[|email| - 1] == '\n' && EmailShape(email[..|email| - 1]))
  {
    EmailShapeCheckCorrect(email);
    if IsBlank(email) then false
    else if EmailShapeCheck(email) then true
    else
      EmailShapeCheckCorrect(email[..|email| - 1]);
      email[|email| - 1] == '\n' && EmailShapeCheck(email[..|email| - 1])
  }

  lemma EmailWithNewlineAccepted()
    ensures IsValidEmail("a@b.c\n")
    ensures !IsValidEmailStrict("a@b.c\n")
  {
    var s := "a@b.c";
    assert EmailShapeCheck(s) by {
      assert IndexOf(s, '@') == 1;
      assert s[3..4][0] == '.';
    }
    EmailShapeCheckCorrect(s);
    assert "a@b.c\n"[..5] == s;
    assert !IsEmailChar("a@b.c\n"[5]);
  }

  /** E-mail validation as evidently intended: the pattern must match the whole input. */
  function IsValidEmailStrict(email: string): (r: bool)
    ensures r <==> EmailShape(email)
    ensures r ==> !IsBlank(email) && forall i :: 0 <= i < |email| ==> !IsWhiteSpace(email[i])
  {
    EmailShapeCheckCorrect(email);
    EmailShapeCheck(email)
  }

  /** `path.Replace('/', '\\')`. */
  function NormalizeSeparators(path: string): (r: string)
    ensures |r| == |path|
    ensures forall i :: 0 <= i < |path| ==> r[i] == if path[i] == '/' then '\\' else path[i]
  {
    seq(|path|, i requires 0 <= i < |path| => if path[i] == '/' then '\\' else path[i])
  }

  /**
   * `IsValidFilePath`: false for blank input or a ".." anywhere after normalising '/' to '\';
   * otherwise whether the normalised path starts with the base path, ignoring case.
   */
  function IsValidFilePath(path: string, allowedBasePath: string): (r: bool)
    ensures r ==> !IsBlank(path) && !Contains(path, "..")
    ensures r ==> StartsWithIgnoreCase(NormalizeSeparators(path), allowedBasePath)
    ensures !IsBlank(path) && !Contains(path, "..") && StartsWithIgnoreCase(NormalizeSeparators(path), allowedBasePath) ==> r
  {
    var normalized := NormalizeSeparators(path);
    NormalizeKeepsDots(path);
    if IsBlank(path) then false
    else if Contains(normalized, "..") then false
    else StartsWithIgnoreCase(normalized, allowedBasePath)
  }

  /** Normalising separators neither creates nor removes a "..". */
  lemma NormalizeKeepsDots(path: string)
    ensures Contains(NormalizeSeparators(path), "..") <==> Contains(path, "..")
  {
    var n := NormalizeSeparators(path);
    if Contains(path, "..") {
      var i :| 0 <= i <= |path| - 2 && OccursAt(path, "..", i);
      assert path[i..i + 2][0] == path[i] && path[i..i + 2][1] == path[i + 1];
      assert n[i..i + 2] == "..";
      assert OccursAt(n, "..", i);
    }
    if Contains(n, "..") {
      var i :| 0 <= i <= |n| - 2 && OccursAt(n, "..", i);
      assert n[i..i + 2][0] == n[i] && n[i..i + 2][1] == n[i + 1];
      assert path[i..i + 2] == "..";
      assert OccursAt(path, "..", i);
    }
  }

  /** The SQL fragments `IsSafeSqlInput` refuses, in upper case. */
  const SqlPatterns: seq<string> := [
    "DROP TABLE", "DROP DATABASE", "DELETE FROM", "TRUNCATE",
    "INSERT INTO", "UPDATE SET", "EXEC ", "EXECUTE "
  ]

  /** `IsSafeSqlInput`: the empty input is safe; otherwise unsafe iff its upper case contains a pattern. */
  function IsSafeSqlInput(input: string): (r: bool)
    ensures input == [] ==> r
    ensures !r <==> exists i | 0 <= i < |SqlPatterns| :: Contains(UpperInvariant(input), SqlPatterns[i])
  {
    if input == [] then
      assert forall i | 0 <= i < |SqlPatterns| :: !Contains(UpperInvariant(input), SqlPatterns[i]) by {
        forall i | 0 <= i < |SqlPatterns| ensures !Contains(UpperInvariant(input), SqlPatterns[i]) {
          assert |SqlPatterns[i]| > 0;
        }
      }
      true
    else !ContainsAny(UpperInvariant(input), SqlPatterns)
  }

  /** The `foreach` over the patterns with its early `return false`. */
  function ContainsAny(s: string, patterns: seq<string>): (r: bool)
    ensures r <==> exists i | 0 <= i < |patterns| :: Contains(s, patterns[i])
  {
    if patterns == [] then false
    else if Contains(s, patterns[0]) then true
    else
      assert forall i | 1 <= i < |patterns| :: patterns[i] == patterns[1..][i - 1];
      ContainsAny(s, patterns[1..])
  }

  /** Lower case is no way around the blacklist. */
  lemma LowerCaseDropDetected()
    ensures !IsSafeSqlInput("x; drop table users")
  {
    var u := UpperInvariant("x; drop table users");
    assert u[3..13] == "DROP TABLE";
    assert OccursAt(u, SqlPatterns[0], 3);
  }

  /** `SanitizeSqlInput`, as written: quotes doubled, then the dash pair, the comment opener and
   *  the comment closer each removed in one left-to-right pass. */
  function SanitizeSqlInput(input: string): (r: string)
    ensures input == [] ==> r == []
    ensures Occurrences(r, '\'') == 2 * Occurrences(input, '\'')
    ensures IsSubsequence(r, ReplaceAll(input, "'", "''"))
  {
    var quoted := ReplaceAll(input, "'", "''");
    var noDashes := ReplaceAll(quoted, "--", "");
    var noOpen := ReplaceAll(noDashes, "/*", "");
    var r := ReplaceAll(noOpen, "*/", "");
    DoubleCharCount(input, '\'');
    RemoveKeepsOccurrences(quoted, "--", '\'');
    RemoveKeepsOccurrences(noDashes, "/*", '\'');
    RemoveKeepsOccurrences(noOpen, "*/", '\'');
    RemoveAllIsSubsequence(quoted, "--");
    RemoveAllIsSubsequence(noDashes, "/*");
    RemoveAllIsSubsequence(noOpen, "*/");
    SubsequenceTransitive(noOpen, noDashes, quoted);
    SubsequenceTransitive(r, noOpen, quoted);
    r
  }

  /** Removing a comment opener can join two dashes: a comment marker survives the sanitiser. */
  lemma SanitizerLeavesComment()
    ensures SanitizeSqlInput("-/*-") == "--"
    ensures SanitizeSqlInputCorrected("-/*-") == ""
  {
    SanitizeSampleAsWritten();
    StripCommentsOf("-/*-");
  }

  /** The source's four passes on the sample: only the middle marker is removed. */
  lemma SanitizeSampleAsWritten()
    ensures SanitizeSqlInput("-/*-") == "--"
  {
    SampleHasNoQuote();
    SampleHasNoDoubleDash();
    SampleOpenMarkerJoinsDashes();
    JoinedDashesHaveNoCloseMarker();
  }

  /** The sample holds no "--" yet. */
  lemma SampleHasNoDoubleDash()
    ensures ReplaceAll("-/*-", "--", "") == "-/*-"
  {
    var s := "-/*-";
    assert ReplaceAll(s[3..], "--", "") == s[3..];
    assert ReplaceAll(s[2..], "--", "") == s[2..];
    assert ReplaceAll(s[1..], "--", "") == s[1..];
  }

  /** The third pass finds no closing marker in "--". */
  lemma JoinedDashesHaveNoCloseMarker()
    ensures ReplaceAll("--", "*/", "") == "--"
  {
    assert ReplaceAll("--"[1..], "*/", "") == "-";
  }

  /** The sample holds no quote, so quoting leaves it alone. */
  lemma SampleHasNoQuote()
    ensures ReplaceAll("-/*-", "'", "''") == "-/*-"
  {
    var s := "-/*-";
    assert ReplaceAll(s[3..], "'", "''") == s[3..];
    assert ReplaceAll(s[2..], "'", "''") == s[2..];
    assert ReplaceAll(s[1..], "'", "''") == s[1..];
  }

  /** Removing the opening block-comment marker from the sample joins the two dashes around it. */
  lemma SampleOpenMarkerJoinsDashes()
    ensures ReplaceAll("-/*-", "/*", "") == "--"
  {
    var s := "-/*-";
    assert ReplaceAll(s[3..], "/*", "") == s[3..];
    assert s[1..][..2] == "/*";
    assert ReplaceAll(s[1..], "/*", "") == "-";
  }

  lemma StripCommentsOf(s: string)
    requires s == "-/*-"
    ensures StripComments(ReplaceAll(s, "'", "''")) == ""
  {
    SampleHasNoQuote();
    assert !Contains(s, "--") by {
      assert s[0..2] == "-/" && s[1..3] == "/*" && s[2..4] == "*-";
    }
    assert s[1..3] == "/*";
    assert OccursAt(s, "/*", 1);
    SampleOpenMarkerJoinsDashes();
    assert OccursAt("--", "--", 0);
    assert ReplaceAll("--", "--", "") == "";
    assert !Contains("", "--") && !Contains("", "/*") && !Contains("", "*/");
    assert StripComments("") == "";
    assert StripComments("--") == "";
    assert StripComments(s) == StripComments("--");
  }

  /** Comment markers removed until none is left; every round strictly shortens the text. */
  function StripComments(s: string): (r: string)
    ensures !Contains(r, "--") && !Contains(r, "/*") && !Contains(r, "*/")
    ensures IsSubsequence(r, s)
    ensures forall c :: c != '-' && c != '/' && c != '*' ==> Occurrences(r, c) == Occurrences(s, c)
    decreases |s|
  {
    if Contains(s, "--") then
      RemoveShortensWhenContained(s, "--");
      StripStep(s, "--")
    else if Contains(s, "/*") then
      RemoveShortensWhenContained(s, "/*");
      StripStep(s, "/*")
    else if Contains(s, "*/") then
      RemoveShortensWhenContained(s, "*/");
      StripStep(s, "*/")
    else
      SubsequenceRefl(s);
      s
  }

  /** One removal round followed by the rest of the stripping. */
  function StripStep(s: string, marker: string): (r: string)
    requires marker in {"--", "/*", "*/"} && |ReplaceAll(s, marker, "")| < |s|
    ensures !Contains(r, "--") && !Contains(r, "/*") && !Contains(r, "*/")
    ensures IsSubsequence(r, s)
    ensures forall c :: c != '-' && c != '/' && c != '*' ==> Occurrences(r, c) == Occurrences(s, c)
    decreases |s|, 0
  {
    var t := ReplaceAll(s, marker, "");
    var r := StripComments(t);
    RemoveAllIsSubsequence(s, marker);
    SubsequenceTransitive(r, t, s);
    assert forall c :: c != '-' && c != '/' && c != '*' ==> Occurrences(t, c) == Occurrences(s, c) by {
      forall c | c != '-' && c != '/' && c != '*' ensures Occurrences(t, c) == Occurrences(s, c) {
        RemoveKeepsOccurrences(s, marker, c);
      }
    }
    r
  }

  /** Sanitising as evidently intended: quotes doubled, and no comment marker left at all. */
  function SanitizeSqlInputCorrected(input: string): (r: string)
    ensures input == [] ==> r == []
    ensures !Contains(r, "--") && !Contains(r, "/*") && !Contains(r, "*/")
    ensures Occurrences(r, '\'') == 2 * Occurrences(input, '\'')
    ensures IsSubsequence(r, ReplaceAll(input, "'", "''"))
  {
    DoubleCharCount(input, '\'');
    StripComments(ReplaceAll(input, "'", "''"))
  }

  /** `^[a-zA-Z0-9]+` up to the end of the text. */
  predicate AllAlphanumeric(s: string)
  {
    |s| > 0 && forall i :: 0 <= i < |s| ==> IsAsciiLetter(s[i]) || IsAsciiDigit(s[i])
  }

  /** `IsAlphanumeric`: false for empty input, else the pattern `^[a-zA-Z0-9]+$`, whose `$` also
   *  matches before a final "\n". */
  function IsAlphanumeric(input: string): (r: bool)
    ensures input == [] ==> !r
    ensures r <==> AllAlphanumeric(input) || (|input| > 1 && input[|input| - 1] == '\n' && AllAlphanumeric(input[..|input| - 1]))
  {
    if input == [] then false
    else AllAlphanumeric(input) || (input[|input| - 1] == '\n' && AllAlphanumeric(input[..|input| - 1]))
  }

  lemma AlphanumericWithNewlineAccepted()
    ensures IsAlphanumeric("abc\n") && !IsAlphanumericStrict("abc\n")
  {
    assert "abc\n"[..3] == "abc";
    assert !IsAsciiLetter("abc\n"[3]) && !IsAsciiDigit("abc\n"[3]);
  }

  /** The alphanumeric check as evidently intended: letters and digits only, at least one. */
  function IsAlphanumericStrict(input: string): (r: bool)
    ensures r <==> |input| > 0 && forall i :: 0 <= i < |input| ==> IsAsciiLetter(input[i]) || IsAsciiDigit(input[i])
  {
    AllAlphanumeric(input)
  }

  const MIN_PASSWORD_LENGTH: int := 8

  /** `IsValidPassword`: at least eight characters, one of them a digit. */
  function IsValidPassword(password: string): (r: bool)
    ensures r <==> |password| >= MIN_PASSWORD_LENGTH && exists i | 0 <= i < |password| :: IsAsciiDigit(password[i])
  {
    if password == [] then false
    else if |password| < MIN_PASSWORD_LENGTH then false
    else HasDigit(password)
  }

  /** `password.Any(char.IsDigit)`. */
  function HasDigit(s: string): (r: bool)
    ensures r <==> exists i | 0 <= i < |s| :: IsAsciiDigit(s[i])
  {
    if s == [] then false
    else if IsAsciiDigit(s[0]) then true
    else
      assert forall i | 1 <= i < |s| :: s[i] == s[1..][i - 1];
      HasDigit(s[1..])
  }
}
