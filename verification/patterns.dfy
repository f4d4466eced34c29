/** The three regular expressions the forms test, written out as string
    predicates with the meaning JavaScript's `RegExp.prototype.test` gives
    them: an anchored pattern must match the whole string, an unanchored one
    any substring. */
module Patterns {
  import opened Text

  /** `[^\s@]`: any character other than white space and '@'. */
  predicate IsMailChar(c: char) {
    !IsSpace(c) && c != '@'
  }

  /** `s[lo..hi]` is a non-empty run of `[^\s@]`. */
  predicate MailRun(s: string, lo: int, hi: int)
    requires 0 <= lo <= hi <= |s|
  {
    lo < hi && forall k | lo <= k < hi :: IsMailChar(s[k])
  }

  /** `/^[^\s@]+@[^\s@]+\.[^\s@]+$/.test(s)`, the address check of the
      new-user form: the whole string is a run, '@', a run, '.', a run. */
  predicate IsStrictEmail(s: string) {
    exists i, j | 0 <= i < j < |s| :: StrictEmailSplit(s, i, j)
  }

  /** `s` matches the anchored pattern with its '@' at `i` and the '.' that
      ends the domain run at `j`. */
  predicate StrictEmailSplit(s: string, i: int, j: int)
    requires 0 <= i < j < |s|
  {
    && MailRun(s, 0, i) && s[i] == '@'
    && MailRun(s, i + 1, j) && s[j] == '.'
    && MailRun(s, j + 1, |s|)
  }

  /** `s[lo..hi]` is a non-empty run of `\S`. */
  predicate SolidRun(s: string, lo: int, hi: int)
    requires 0 <= lo <= hi <= |s|
  {
    lo < hi && forall k | lo <= k < hi :: !IsSpace(s[k])
  }

  /** `/\S+@\S+\.\S+/.test(s)`, the address check of the login form: being
      unanchored, it succeeds when SOME substring `s[a..b]` has the shape. */
  predicate IsLooseEmail(s: string) {
    exists a, i, j, b | 0 <= a < i < j < b <= |s| :: LooseEmailAt(s, a, i, j, b)
  }

  /** The substring `s[a..b]` matches the pattern with its '@' at `i` and
      the '.' at `j`. */
  predicate LooseEmailAt(s: string, a: int, i: int, j: int, b: int)
    requires 0 <= a < i < j < b <= |s|
  {
    && SolidRun(s, a, i) && s[i] == '@'
    && SolidRun(s, i + 1, j) && s[j] == '.'
    && SolidRun(s, j + 1, b)
  }

  /** An address the new-user form accepts has no white space at all, so
      trimming it changes nothing and it is never blank. */
  lemma StrictEmailHasNoSpace(s: string)
    requires IsStrictEmail(s)
    ensures NoSpace(s) && |s| >= 5
  {
    var i, j :| 0 <= i < j < |s| && StrictEmailSplit(s, i, j);
    forall k | 0 <= k < |s| ensures !IsSpace(s[k]) {
      if k < i {
        assert IsMailChar(s[k]);
      } else if i < k < j {
        assert IsMailChar(s[k]);
      } else if j < k {
        assert IsMailChar(s[k]);
      }
    }
  }

  /** Every address the new-user form accepts is also accepted by the login
      form, so an account can always sign in with the address it was
      created with. */
  lemma StrictEmailIsLooseEmail(s: string)
    requires IsStrictEmail(s)
    ensures IsLooseEmail(s)
  {
    var i, j :| 0 <= i < j < |s| && StrictEmailSplit(s, i, j);
    assert SolidRun(s, 0, i) && SolidRun(s, i + 1, j) && SolidRun(s, j + 1, |s|) by {
      assert forall k | 0 <= k < i :: IsMailChar(s[k]);
      assert forall k | i + 1 <= k < j :: IsMailChar(s[k]);
      assert forall k | j + 1 <= k < |s| :: IsMailChar(s[k]);
    }
    assert LooseEmailAt(s, 0, i, j, |s|);
  }

  /** The two checks differ: the login form accepts an address embedded in
      surrounding text, which the new-user form rejects. */
  lemma LooseEmailAcceptsEmbeddedAddress()
    ensures IsLooseEmail("to: a@b.c") && !IsStrictEmail("to: a@b.c")
  {
    var s := "to: a@b.c";
    assert LooseEmailAt(s, 4, 5, 7, 9);
    assert IsSpace(s[3]);
    if IsStrictEmail(s) {
      StrictEmailHasNoSpace(s);
      assert false;
    }
  }

  /** The line terminators of ECMAScript, the characters `.` does not match. */
  predicate IsLineTerminator(c: char) {
    c == '\n' || c == '\r' || c as int == 0x2028 || c as int == 0x2029
  }

  /** The character classes `[a-z]`, `[A-Z]` and `\d` (ASCII only, as the
      patterns carry no `u` flag). */
  datatype CharClass = Lower | Upper | Digit

  predicate InClass(c: char, cls: CharClass) {
    match cls
    case Lower => IsAsciiLower(c)
    case Upper => IsAsciiUpper(c)
    case Digit => IsDigit(c)
  }

  /** The lookahead `(?=.*X)` tried at position `p`: some `X` at or after
      `p` with no line terminator in between. */
  predicate LookaheadFinds(s: string, p: int, cls: CharClass)
    requires 0 <= p <= |s|
  {
    exists k | p <= k < |s| ::
      InClass(s[k], cls) && forall m | p <= m < k :: !IsLineTerminator(s[m])
  }

  /** `/(?=.*[a-z])(?=.*[A-Z])(?=.*\d)/.test(s)`, the password-strength
      check: some start position from which all three lookaheads succeed. */
  predicate IsStrongPassword(s: string) {
    exists p | 0 <= p <= |s| ::
      LookaheadFinds(s, p, Lower) && LookaheadFinds(s, p, Upper) && LookaheadFinds(s, p, Digit)
  }

  /** `s` contains a character of the class. */
  predicate HasClass(s: string, cls: CharClass) {
    exists k | 0 <= k < |s| :: InClass(s[k], cls)
  }

  predicate NoLineTerminator(s: string) {
    forall k | 0 <= k < |s| :: !IsLineTerminator(s[k])
  }

  /** A strong password always holds an ASCII lower-case letter, an upper-case
      letter and a digit; on a single line the converse holds as well. */
  lemma StrongPasswordIffHasAllClasses(s: string)
    ensures IsStrongPassword(s) ==> HasClass(s, Lower) && HasClass(s, Upper) && HasClass(s, Digit)
    ensures NoLineTerminator(s) && HasClass(s, Lower) && HasClass(s, Upper) && HasClass(s, Digit)
      ==> IsStrongPassword(s)
  {
    if IsStrongPassword(s) {
      var p :| 0 <= p <= |s| && LookaheadFinds(s, p, Lower)
        && LookaheadFinds(s, p, Upper) && LookaheadFinds(s, p, Digit);
      forall cls: CharClass ensures HasClass(s, cls) {
        var k :| p <= k < |s| && InClass(s[k], cls)
          && forall m | p <= m < k :: !IsLineTerminator(s[m]);
      }
    }
    if NoLineTerminator(s) && HasClass(s, Lower) && HasClass(s, Upper) && HasClass(s, Digit) {
      forall cls: CharClass | HasClass(s, cls) ensures LookaheadFinds(s, 0, cls) {
        var k :| 0 <= k < |s| && InClass(s[k], cls);
      }
    }
  }
}
