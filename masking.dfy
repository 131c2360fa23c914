/**
 * The masks the secure logger puts over personal data before it is written: card numbers and
 * other secrets keep only their last four characters, e-mail names keep only their ends.
 */
module Masking {
  import opened Text

  /** `new string('*', n)`. */
  function Stars(n: nat): (r: string)
    ensures |r| == n && forall i :: 0 <= i < n ==> r[i] == '*'
  {
    seq(n, _ => '*')
  }

  /**
   * `MaskCreditCard`: fewer than four characters come back unchanged; otherwise every character
   * but the last four becomes '*'.
   */
  function MaskCreditCard(cardNumber: string): (r: string)
    ensures |cardNumber| < 4 ==> r == cardNumber
    ensures |r| == |cardNumber|
    ensures |cardNumber| >= 4 ==> r[|r| - 4..] == cardNumber[|cardNumber| - 4..]
    ensures |cardNumber| >= 4 ==> forall i :: 0 <= i < |r| - 4 ==> r[i] == '*'
  {
    if |cardNumber| < 4 then cardNumber
    else Stars(|cardNumber| - 4) + cardNumber[|cardNumber| - 4..]
  }

  /** Masking a masked number changes nothing more. */
  lemma MaskCreditCardIdempotent(cardNumber: string)
    ensures MaskCreditCard(MaskCreditCard(cardNumber)) == MaskCreditCard(cardNumber)
  {
    var m := MaskCreditCard(cardNumber);
    if |cardNumber| >= 4 {
      assert MaskCreditCard(m) == Stars(|m| - 4) + m[|m| - 4..];
      assert m[..|m| - 4] == Stars(|m| - 4);
      assert m == m[..|m| - 4] + m[|m| - 4..];
    }
  }

  /** Two numbers with the same length and last four digits mask alike: nothing else leaks. */
  lemma MaskCreditCardHidesPrefix(a: string, b: string)
    requires |a| == |b| >= 4 && a[|a| - 4..] == b[|b| - 4..]
    ensures MaskCreditCard(a) == MaskCreditCard(b)
  {
  }

  /** `email.Split('@')[0]`: the text before the first '@'. */
  function EmailName(email: string): (r: string)
    ensures '@' !in r && r == email[..IndexOf(email, '@')]
  {
    NoSeparatorBeforeIndex(email, '@');
    email[..IndexOf(email, '@')]
  }

  /** `email.Split('@')[1]`: the text between the first '@' and the next one (or the end). */
  function EmailDomain(email: string): (r: string)
    requires '@' in email
    ensures '@' !in r
    ensures var rest := email[IndexOf(email, '@') + 1..]; r == rest[..IndexOf(rest, '@')]
  {
    var rest := email[IndexOf(email, '@') + 1..];
    NoSeparatorBeforeIndex(rest, '@');
    rest[..IndexOf(rest, '@')]
  }

  /** The text before the first occurrence of a character does not hold it. */
  lemma NoSeparatorBeforeIndex(s: string, c: char)
    ensures c !in s[..IndexOf(s, c)]
  {
    var end := IndexOf(s, c);
    assert forall k :: 0 <= k < end ==> s[..end][k] == s[k];
  }

  /** The name shown: its first and last characters around "***", or just "***" when it is short. */
  function MaskName(name: string): (r: string)
    ensures |name| > 2 ==> r == [name[0]] + "***" + [name[|name| - 1]]
    ensures |name| <= 2 ==> r == "***"
    ensures '@' !in name ==> '@' !in r
  {
    if |name| > 2 then [name[0]] + "***" + [name[|name| - 1]] else "***"
  }

  /**
   * `MaskEmail`: input without '@' comes back unchanged; otherwise the masked name, '@', and the
   * domain; whatever follows a second '@' is dropped.
   */
  function MaskEmail(email: string): (r: string)
    ensures '@' !in email ==> r == email
    ensures '@' in email ==> r == MaskName(EmailName(email)) + "@" + EmailDomain(email)
    ensures '@' in email ==> Occurrences(r, '@') == 1
  {
    if '@' !in email then email
    else
      var maskedName := MaskName(EmailName(email));
      var domain := EmailDomain(email);
      var r := maskedName + "@" + domain;
      assert multiset(r) == multiset(maskedName) + multiset{'@'} + multiset(domain) by {
        assert r == maskedName + ("@" + domain);
      }
      assert multiset(maskedName)['@'] == 0 && multiset(domain)['@'] == 0;
      r
  }

  /** At most two characters of the name survive, and the masked name is three or five long. */
  lemma MaskEmailRevealsLittle(email: string)
    requires '@' in email
    ensures var name := EmailName(email);
            var shown := MaskName(name);
            (|shown| == 3 || |shown| == 5)
            && forall i :: 0 <= i < |shown| && shown[i] != '*' ==> shown[i] == name[0] || shown[i] == name[|name| - 1]
  {
  }

  /** `MaskSensitiveData`: all stars up to four characters, otherwise all but the last four. */
  function MaskSensitiveData(data: string): (r: string)
    ensures |r| == |data|
    ensures |data| <= 4 ==> forall i :: 0 <= i < |r| ==> r[i] == '*'
    ensures |data| > 4 ==> r[|r| - 4..] == data[|data| - 4..] && forall i :: 0 <= i < |r| - 4 ==> r[i] == '*'
  {
    if data == [] then []
    else if |data| <= 4 then Stars(|data|)
    else Stars(|data| - 4) + data[|data| - 4..]
  }

  /** Beyond four characters the generic mask is the card mask; at four or fewer it hides everything. */
  lemma SensitiveMatchesCard(data: string)
    ensures |data| > 4 ==> MaskSensitiveData(data) == MaskCreditCard(data)
    ensures |data| == 4 ==> MaskSensitiveData(data) == "****" && MaskCreditCard(data) == data
  {
  }
}
