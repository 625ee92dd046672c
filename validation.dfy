/**
 * `ValidationUtils.checkPasswordStrength` (js/utils.js): five independent checks on a
 * password, a score counting how many pass, and a three-level verdict on the score.
 * The character classes are those of the source's regular expressions, which without
 * the `u` flag test single UTF-16 code units: `[a-z]`, `[A-Z]`, `\d` (ASCII digits only)
 * and the listed punctuation.
 */
module ValidationUtils {

  datatype Checks = Checks(length: bool, lowercase: bool, uppercase: bool, number: bool, special: bool)

  datatype Strength = Weak | Medium | Strong

  datatype PasswordReport = PasswordReport(checks: Checks, score: nat, strength: Strength)

  /** The characters of `/[!@#$%^&*(),.?":{}|<>]/`. */
  const SpecialChars: string := "!@#$%^&*(),.?\":{}|<>"

  const MinLength := 8

  predicate HasCharBetween(s: string, lo: char, hi: char)
  {
    exists i :: 0 <= i < |s| && lo <= s[i] <= hi
  }

  predicate HasSpecialChar(s: string)
  {
    exists i :: 0 <= i < |s| && s[i] in SpecialChars
  }

  function RunChecks(password: string): (c: Checks)
    ensures c.length <==> |password| >= MinLength
    ensures c.lowercase <==> (exists i :: 0 <= i < |password| && 'a' <= password[i] <= 'z')
    ensures c.uppercase <==> (exists i :: 0 <= i < |password| && 'A' <= password[i] <= 'Z')
    ensures c.number <==> (exists i :: 0 <= i < |password| && '0' <= password[i] <= '9')
    ensures c.special <==> (exists i :: 0 <= i < |password| && password[i] in SpecialChars)
  {
    Checks(
      |password| >= MinLength,
      HasCharBetween(password, 'a', 'z'),
      HasCharBetween(password, 'A', 'Z'),
      HasCharBetween(password, '0', '9'),
      HasSpecialChar(password))
  }

  function Count(b: bool): nat { if b then 1 else 0 }

  /** `Object.values(checks).filter(Boolean).length`. */
  function Score(c: Checks): (n: nat)
    ensures n <= 5
    ensures n == 0 <==> !c.length && !c.lowercase && !c.uppercase && !c.number && !c.special
    ensures n == 5 <==> c.length && c.lowercase && c.uppercase && c.number && c.special
  {
    Count(c.length) + Count(c.lowercase) + Count(c.uppercase) + Count(c.number) + Count(c.special)
  }

  /** `checkPasswordStrength(password)`. */
  function CheckPasswordStrength(password: string): (r: PasswordReport)
    ensures r.checks == RunChecks(password)
    ensures r.score == Score(r.checks) && r.score <= 5
    ensures r.strength == Strong <==> r.score >= 4
    ensures r.strength == Medium <==> r.score == 3
    ensures r.strength == Weak <==> r.score <= 2
  {
    var checks := RunChecks(password);
    var score := Score(checks);
    var strength :=
      if score >= 4 then Strong
      else if score >= 3 then Medium
      else Weak;
    PasswordReport(checks, score, strength)
  }

  /** Verdicts are ordered: weak below medium below strong. */
  function Rank(s: Strength): nat
  {
    match s
    case Weak => 0
    case Medium => 1
    case Strong => 2
  }

  /**
   * Every check is about something a password can only gain by getting longer, so
   * appending characters never lowers the score or the verdict.
   */
  lemma ExtensionNeverWeakens(password: string, more: string)
    ensures CheckPasswordStrength(password).score <= CheckPasswordStrength(password + more).score
    ensures Rank(CheckPasswordStrength(password).strength) <= Rank(CheckPasswordStrength(password + more).strength)
  {
    var p, q := password, password + more;
    BetweenExtends(p, more, 'a', 'z');
    BetweenExtends(p, more, 'A', 'Z');
    BetweenExtends(p, more, '0', '9');
    SpecialExtends(p, more);
  }

  lemma BetweenExtends(p: string, more: string, lo: char, hi: char)
    ensures HasCharBetween(p, lo, hi) ==> HasCharBetween(p + more, lo, hi)
  {
    if HasCharBetween(p, lo, hi) {
      var i :| 0 <= i < |p| && lo <= p[i] <= hi;
      assert (p + more)[i] == p[i];
    }
  }

  lemma SpecialExtends(p: string, more: string)
    ensures HasSpecialChar(p) ==> HasSpecialChar(p + more)
  {
    if HasSpecialChar(p) {
      var i :| 0 <= i < |p| && p[i] in SpecialChars;
      assert (p + more)[i] == p[i];
    }
  }

  /** A short lower-case word passes only the lower-case check and is weak. */
  lemma WeakExample()
    ensures CheckPasswordStrength("abc").score == 1
    ensures CheckPasswordStrength("abc").strength == Weak
  {
    AbcClasses();
    AbcNoSpecial();
    assert RunChecks("abc") == Checks(false, true, false, false, false);
  }

  lemma AbcClasses()
    ensures HasCharBetween("abc", 'a', 'z')
    ensures !HasCharBetween("abc", 'A', 'Z') && !HasCharBetween("abc", '0', '9')
  {
    var weak := "abc";
    assert 'a' <= weak[0] <= 'z';
  }

  lemma AbcNoSpecial()
    ensures !HasSpecialChar("abc")
  {
    var weak := "abc";
    forall i | 0 <= i < |weak| ensures weak[i] !in SpecialChars {
      assert weak[i] in "abc";
    }
  }

  /** A nine-character password with both cases, a digit and a mark passes every check and is strong. */
  lemma StrongExample()
    ensures CheckPasswordStrength("Abcdefg1!").score == 5
    ensures CheckPasswordStrength("Abcdefg1!").strength == Strong
  {
    var strong := "Abcdefg1!";
    assert RunChecks(strong) == Checks(true, true, true, true, true) by {
      assert 'A' <= strong[0] <= 'Z' && 'a' <= strong[1] <= 'z' && '0' <= strong[7] <= '9';
      assert strong[8] == SpecialChars[0];
    }
  }
}
