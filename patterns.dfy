/**
 * The regular-expression tests of the signup and login handlers (api/user.js),
 * each written as a matcher that follows the structure of the expression and
 * set beside a reference description of the strings it accepts, with a lemma
 * that the two agree.
 *
 * None of the expressions carries a flag, so `^` and `$` are the ends of the
 * whole string and `.` matches any character except a line terminator.
 */
module Patterns {
  import opened JsText

  /** The bracket expressions that occur in the handlers' expressions. */
  datatype CharClass =
    | NameChar      // [a-zA-Z ]
    | LocalChar     // [\w-\.]  : word characters, '-' and '.'
    | LabelChar     // [\w-]
    | NotSpaceOrAt  // [^\s@]
    | Lower         // [a-z]
    | Upper         // [A-Z]
    | Special       // [!@#$%^&*(),.?":{}|<>]

  predicate In(k: CharClass, c: char) {
    match k
    case NameChar => IsAsciiLetter(c) || c == ' '
    case LocalChar => IsWordChar(c) || c == '-' || c == '.'
    case LabelChar => IsWordChar(c) || c == '-'
    case NotSpaceOrAt => !IsJsSpace(c) && c != '@'
    case Lower => IsAsciiLower(c)
    case Upper => IsAsciiUpper(c)
    case Special => IsSpecial(c)
  }

  /** One of !@#$%^&*(),.?":{}|<> */
  predicate IsSpecial(c: char) {
    c == '!' || c == '@' || c == '#' || c == '$' || c == '%' || c == '^' || c == '&' ||
    c == '*' || c == '(' || c == ')' || c == ',' || c == '.' || c == '?' || c == '"' ||
    c == ':' || c == '{' || c == '}' || c == '|' || c == '<' || c == '>'
  }

  /** No class above contains a line terminator, so `.*` can always reach past a class member. */
  lemma ClassExcludesLineTerminators(k: CharClass, c: char)
    requires In(k, c)
    ensures !IsLineTerminator(c)
  {
  }

  /** Every character of s is in class k. */
  predicate AllIn(k: CharClass, s: string) {
    forall i :: 0 <= i < |s| ==> In(k, s[i])
  }

  /** [k]+ matches the whole of s. */
  predicate OnePlus(k: CharClass, s: string) {
    |s| > 0 && AllIn(k, s)
  }

  /** Some character of s is in class k. */
  ghost predicate Contains(k: CharClass, s: string) {
    exists i :: 0 <= i < |s| && In(k, s[i])
  }

  /** s holds exactly one '@'. */
  predicate SingleAt(s: string) {
    IndexOf(s, '@') < |s| && forall i :: 0 <= i < |s| && s[i] == '@' ==> i == IndexOf(s, '@')
  }

  // ---------------------------------------------------------------------------
  // Names: /^[a-zA-Z ]+$/ (api/user.js:50 and :57)

  /** The name test. A name that passes is non-empty and holds no digit, hyphen or apostrophe. */
  predicate NameMatches(s: string)
    ensures NameMatches(s) ==>
      |s| > 0 && forall i :: 0 <= i < |s| ==> !IsAsciiDigit(s[i]) && s[i] != '-' && s[i] != '\''
  {
    OnePlus(NameChar, s)
  }

  /** A name passes exactly when it is non-empty and made of ASCII letters and spaces. */
  lemma NameMatchesIff(s: string)
    ensures NameMatches(s) <==>
      |s| > 0 && forall i :: 0 <= i < |s| ==> IsAsciiLower(s[i]) || IsAsciiUpper(s[i]) || s[i] == ' '
  {
  }

  /** A name with a digit, a hyphen or an apostrophe anywhere in it is refused. */
  lemma NameRejectsDigitHyphenApostrophe(s: string, k: int)
    requires 0 <= k < |s| && (IsAsciiDigit(s[k]) || s[k] == '-' || s[k] == '\'')
    ensures !NameMatches(s)
  {
  }

  // ---------------------------------------------------------------------------
  // Signup email: /^[\w-\.]+@([\w-]+\.)+[\w-]{2,4}$/ (api/user.js:64)

  /** The final label [\w-]{2,4} followed by the end of the string. */
  predicate TopLabel(t: string) {
    2 <= |t| <= 4 && AllIn(LabelChar, t)
  }

  /**
   * ([\w-]+\.)+[\w-]{2,4}$ matched against the text after the '@'. A label holds
   * no '.', so the first group ends at the first '.'; after it comes either the
   * final label or one more repetition of the group.
   */
  predicate DomainMatches(d: string)
    ensures DomainMatches(d) ==> forall i :: 0 <= i < |d| ==> d[i] != '@' && !IsJsSpace(d[i])
    decreases |d|
  {
    var dot := IndexOf(d, '.');
    dot < |d| && OnePlus(LabelChar, d[..dot]) &&
    (TopLabel(d[dot + 1..]) || DomainMatches(d[dot + 1..]))
  }

  /** The signup test. [\w-\.] holds no '@', so the local part ends at the first '@'. */
  predicate SignupEmailMatches(s: string)
    ensures SignupEmailMatches(s) ==> SingleAt(s) && forall i :: 0 <= i < |s| ==> !IsJsSpace(s[i])
  {
    var at := IndexOf(s, '@');
    at < |s| && OnePlus(LocalChar, s[..at]) && DomainMatches(s[at + 1..])
  }

  /** The labels written one after the other, each followed by a '.'. */
  function Dotted(labels: seq<string>): string {
    if labels == [] then [] else labels[0] + "." + Dotted(labels[1..])
  }

  /** s is local@label1.label2. ... .labelN.tld with the character sets of the expression. */
  ghost predicate SignupEmailParts(s: string, local: string, labels: seq<string>, tld: string) {
    OnePlus(LocalChar, local) &&
    |labels| > 0 && (forall i :: 0 <= i < |labels| ==> OnePlus(LabelChar, labels[i])) &&
    TopLabel(tld) &&
    s == local + "@" + Dotted(labels) + tld
  }

  /**
   * The strings the signup expression accepts: one or more of [A-Za-z0-9_.-], an '@',
   * one or more groups of [A-Za-z0-9_-]+ each followed by '.', and a final label of
   * two to four [A-Za-z0-9_-] (digits, '_' and '-' included).
   */
  ghost predicate SignupEmailForm(s: string) {
    exists local, labels, tld :: SignupEmailParts(s, local, labels, tld)
  }

  lemma {:induction false} DomainWitness(d: string) returns (labels: seq<string>, tld: string)
    requires DomainMatches(d)
    ensures |labels| > 0 && (forall i :: 0 <= i < |labels| ==> OnePlus(LabelChar, labels[i]))
    ensures TopLabel(tld) && d == Dotted(labels) + tld
    decreases |d|
  {
    var dot := IndexOf(d, '.');
    var first, rest := d[..dot], d[dot + 1..];
    assert d == first + "." + rest;
    if TopLabel(rest) {
      labels, tld := [first], rest;
      assert Dotted(labels) == first + ".";
    } else {
      var more;
      more, tld := DomainWitness(rest);
      labels := [first] + more;
      assert labels[1..] == more;
      assert Dotted(labels) + tld == first + "." + (Dotted(more) + tld);
    }
  }

  lemma {:induction false} DottedDomainMatches(labels: seq<string>, tld: string)
    requires |labels| > 0 && (forall i :: 0 <= i < |labels| ==> OnePlus(LabelChar, labels[i]))
    requires TopLabel(tld)
    ensures DomainMatches(Dotted(labels) + tld)
    decreases |labels|
  {
    var first, rest := labels[0], Dotted(labels[1..]) + tld;
    var d := Dotted(labels) + tld;
    assert d == first + ("." + rest);
    assert OnePlus(LabelChar, first);
    IndexOfAfter(first, '.', "." + rest);
    assert d[..|first|] == first && d[|first| + 1..] == rest;
    if |labels| > 1 {
      DottedDomainMatches(labels[1..], tld);
    } else {
      assert rest == tld;
    }
  }

  /** The signup matcher accepts exactly the strings of SignupEmailForm. */
  lemma SignupEmailIff(s: string)
    ensures SignupEmailMatches(s) <==> SignupEmailForm(s)
  {
    if SignupEmailMatches(s) {
      SignupEmailMatchesForm(s);
    }
    if SignupEmailForm(s) {
      var local, labels, tld :| SignupEmailParts(s, local, labels, tld);
      FormSignupEmailMatches(s, local, labels, tld);
    }
  }

  lemma SignupEmailMatchesForm(s: string)
    requires SignupEmailMatches(s)
    ensures SignupEmailForm(s)
  {
    var at := IndexOf(s, '@');
    var labels, tld := DomainWitness(s[at + 1..]);
    assert s == s[..at] + "@" + s[at + 1..];
    assert SignupEmailParts(s, s[..at], labels, tld);
  }

  lemma FormSignupEmailMatches(s: string, local: string, labels: seq<string>, tld: string)
    requires SignupEmailParts(s, local, labels, tld)
    ensures SignupEmailMatches(s)
  {
    var d := Dotted(labels) + tld;
    assert s == local + ("@" + d);
    assert forall k :: 0 <= k < |local| ==> local[k] != '@' by {
      assert AllIn(LocalChar, local);
    }
    IndexOfAfter(local, '@', "@" + d);
    assert s[..|local|] == local && s[|local| + 1..] == d;
    DottedDomainMatches(labels, tld);
  }

  // ---------------------------------------------------------------------------
  // Login email: /^[^\s@]+@[^\s@]+\.[^\s@]+$/ (api/user.js:167)

  /** [^\s@]+\.[^\s@]+$ against the text after the '@': some '.' has a character on each side. */
  predicate InnerDotted(d: string) {
    AllIn(NotSpaceOrAt, d) && exists k :: 0 < k < |d| - 1 && d[k] == '.'
  }

  /** The login test. [^\s@] holds no '@', so the part before it ends at the first '@'. */
  predicate LoginEmailMatches(s: string)
    ensures LoginEmailMatches(s) ==> SingleAt(s) && forall i :: 0 <= i < |s| ==> !IsJsSpace(s[i])
  {
    var at := IndexOf(s, '@');
    at < |s| && OnePlus(NotSpaceOrAt, s[..at]) && InnerDotted(s[at + 1..])
  }

  ghost predicate LoginEmailParts(s: string, a: string, b: string, c: string) {
    OnePlus(NotSpaceOrAt, a) && OnePlus(NotSpaceOrAt, b) && OnePlus(NotSpaceOrAt, c) &&
    s == a + "@" + b + "." + c
  }

  /** The strings the login expression accepts: a@b.c with a, b, c free of white space and '@'. */
  ghost predicate LoginEmailForm(s: string) {
    exists a, b, c :: LoginEmailParts(s, a, b, c)
  }

  /** The login matcher accepts exactly the strings of LoginEmailForm. */
  lemma LoginEmailIff(s: string)
    ensures LoginEmailMatches(s) <==> LoginEmailForm(s)
  {
    if LoginEmailMatches(s) {
      LoginEmailMatchesForm(s);
    }
    if LoginEmailForm(s) {
      var a, b, c :| LoginEmailParts(s, a, b, c);
      FormLoginEmailMatches(s, a, b, c);
    }
  }

  lemma LoginEmailMatchesForm(s: string)
    requires LoginEmailMatches(s)
    ensures LoginEmailForm(s)
  {
    var at := IndexOf(s, '@');
    var d := s[at + 1..];
    var k :| 0 < k < |d| - 1 && d[k] == '.';
    assert s == s[..at] + "@" + d[..k] + "." + d[k + 1..];
    assert LoginEmailParts(s, s[..at], d[..k], d[k + 1..]);
  }

  lemma FormLoginEmailMatches(s: string, a: string, b: string, c: string)
    requires LoginEmailParts(s, a, b, c)
    ensures LoginEmailMatches(s)
  {
    var d := b + "." + c;
    assert s == a + ("@" + d);
    assert forall k :: 0 <= k < |a| ==> a[k] != '@' by {
      assert AllIn(NotSpaceOrAt, a);
    }
    IndexOfAfter(a, '@', "@" + d);
    assert s[..|a|] == a && s[|a| + 1..] == d;
    assert d[|b|] == '.';
    assert In(NotSpaceOrAt, '.');
    assert AllIn(NotSpaceOrAt, d);
  }

  /** Shape of a dotted run of labels: it ends in '.', and holds only label characters and dots. */
  lemma {:induction false} DottedShape(labels: seq<string>)
    requires |labels| > 0 && (forall i :: 0 <= i < |labels| ==> OnePlus(LabelChar, labels[i]))
    ensures |Dotted(labels)| >= 2 && Dotted(labels)[|Dotted(labels)| - 1] == '.'
    ensures forall k :: 0 <= k < |Dotted(labels)| ==>
      In(LabelChar, Dotted(labels)[k]) || Dotted(labels)[k] == '.'
    decreases |labels|
  {
    var first, rest := labels[0], Dotted(labels[1..]);
    assert OnePlus(LabelChar, first);
    assert Dotted(labels) == first + "." + rest;
    if |labels| > 1 {
      DottedShape(labels[1..]);
    } else {
      assert rest == [];
    }
  }

  /** Every address signup accepts is also accepted at login. */
  lemma SignupEmailIsLoginEmail(s: string)
    requires SignupEmailMatches(s)
    ensures LoginEmailMatches(s)
  {
    SignupEmailIff(s);
    var local, labels, tld :| SignupEmailParts(s, local, labels, tld);
    var b := DottedBody(labels);
    assert s == local + "@" + b + "." + tld;
    assert AllIn(NotSpaceOrAt, local) && AllIn(NotSpaceOrAt, tld);
    FormLoginEmailMatches(s, local, b, tld);
  }

  /** A dotted run of labels is some text free of white space and '@', then a final '.'. */
  lemma DottedBody(labels: seq<string>) returns (b: string)
    requires |labels| > 0 && (forall i :: 0 <= i < |labels| ==> OnePlus(LabelChar, labels[i]))
    ensures Dotted(labels) == b + "." && OnePlus(NotSpaceOrAt, b)
  {
    DottedShape(labels);
    var dotted := Dotted(labels);
    b := dotted[..|dotted| - 1];
    assert dotted == b + ".";
    forall i | 0 <= i < |b| ensures In(NotSpaceOrAt, b[i]) {
      assert b[i] == dotted[i];
    }
  }

  /** A character outside [A-Za-z0-9_.-] before the '@' makes the signup test fail. */
  lemma SignupRefusesLocalChar(s: string, k: int)
    requires 0 <= k < IndexOf(s, '@') && !In(LocalChar, s[k])
    ensures !SignupEmailMatches(s)
  {
    assert s[..IndexOf(s, '@')][k] == s[k];
  }

  /** The converse fails: login takes "jo+tag@example.com", which signup refuses for its '+'. */
  lemma LoginEmailIsLooser(s: string)
    requires s == "jo+tag@example.com"
    ensures LoginEmailMatches(s) && !SignupEmailMatches(s)
  {
    var a, b, c := "jo+tag", "example", "com";
    assert s == a + "@" + b + "." + c;
    assert s == a + ("@" + b + "." + c);
    PlusAddress(s, a, b, c);
  }

  lemma PlusAddress(s: string, a: string, b: string, c: string)
    requires a == "jo+tag" && b == "example" && c == "com"
    requires s == a + "@" + b + "." + c && s == a + ("@" + b + "." + c)
    ensures LoginEmailMatches(s) && !SignupEmailMatches(s)
  {
    PlusAddressRefused(s, a, b + "." + c);
    PlainChars(a);
    PlainChars(b);
    PlainChars(c);
    FormLoginEmailMatches(s, a, b, c);
  }

  /** The '+' at index 2 stands before the first '@', so signup refuses the address. */
  lemma PlusAddressRefused(s: string, a: string, d: string)
    requires a == "jo+tag" && s == a + ("@" + d)
    ensures !SignupEmailMatches(s)
  {
    IndexOfAfter(a, '@', "@" + d);
    SignupRefusesLocalChar(s, 2);
  }

  /** Word characters and '+' are neither white space nor '@'. */
  lemma PlainChars(t: string)
    requires forall i :: 0 <= i < |t| ==> IsWordChar(t[i]) || t[i] == '+'
    ensures AllIn(NotSpaceOrAt, t)
  {
  }

  // ---------------------------------------------------------------------------
  // Signup password:
  // /^(?=.*[a-z])(?=.*[A-Z])(?=.*[!@#$%^&*(),.?":{}|<>])(?=.{8,})/ (api/user.js:78)

  /**
   * (?=.*[k]) at the start of s: a character of class k that only characters
   * matched by `.` (no line terminator) precede.
   */
  predicate LookaheadFinds(k: CharClass, s: string)
    decreases |s|
  {
    |s| > 0 && (In(k, s[0]) || (!IsLineTerminator(s[0]) && LookaheadFinds(k, s[1..])))
  }

  /** (?=.{n,}) at the start of s: s opens with n characters that are not line terminators. */
  predicate LeadingRun(s: string, n: nat)
    ensures LeadingRun(s, n) ==> |s| >= n
    decreases n
  {
    n == 0 || (|s| > 0 && !IsLineTerminator(s[0]) && LeadingRun(s[1..], n - 1))
  }

  /** The password test: all four lookaheads from position 0. */
  predicate PasswordMatches(p: string)
    ensures PasswordMatches(p) ==> |p| >= 8
  {
    LookaheadFinds(Lower, p) && LookaheadFinds(Upper, p) && LookaheadFinds(Special, p) &&
    LeadingRun(p, 8)
  }

  /** Index of the first line terminator, |s| when there is none. */
  function LineEnd(s: string): (i: nat)
    ensures i <= |s|
    ensures forall k :: 0 <= k < i ==> !IsLineTerminator(s[k])
    ensures i < |s| ==> IsLineTerminator(s[i])
    decreases |s|
  {
    if |s| == 0 || IsLineTerminator(s[0]) then 0 else 1 + LineEnd(s[1..])
  }

  /** The text before the first line terminator: all that a `.`-based lookahead can see. */
  function FirstLine(s: string): string {
    s[..LineEnd(s)]
  }

  /**
   * The rule the expression states: within the text before the first line
   * terminator, a lower-case letter, an upper-case letter, a special character
   * and at least eight characters. No digit is asked for.
   */
  ghost predicate StrongPassword(p: string) {
    var line := FirstLine(p);
    Contains(Lower, line) && Contains(Upper, line) && Contains(Special, line) && |line| >= 8
  }

  lemma {:induction false} LookaheadFindsIff(k: CharClass, s: string)
    ensures LookaheadFinds(k, s) <==> Contains(k, FirstLine(s))
    decreases |s|
  {
    if |s| > 0 {
      var line := FirstLine(s);
      if In(k, s[0]) {
        ClassExcludesLineTerminators(k, s[0]);
        assert line[0] == s[0];
      } else if IsLineTerminator(s[0]) {
        assert line == [];
      } else {
        LookaheadFindsIff(k, s[1..]);
        var tail := FirstLine(s[1..]);
        assert line == [s[0]] + tail;
        if Contains(k, line) {
          var i :| 0 <= i < |line| && In(k, line[i]);
          assert i > 0 && line[i] == tail[i - 1];
        }
        if Contains(k, tail) {
          var i :| 0 <= i < |tail| && In(k, tail[i]);
          assert line[i + 1] == tail[i];
        }
      }
    }
  }

  lemma {:induction false} LeadingRunIff(s: string, n: nat)
    ensures LeadingRun(s, n) <==> |FirstLine(s)| >= n
    decreases n
  {
    if n > 0 && |s| > 0 && !IsLineTerminator(s[0]) {
      LeadingRunIff(s[1..], n - 1);
      assert LineEnd(s) == 1 + LineEnd(s[1..]);
    }
  }

  /** The password test accepts exactly the strong passwords. */
  lemma PasswordMatchesIff(p: string)
    ensures PasswordMatches(p) <==> StrongPassword(p)
  {
    LookaheadFindsIff(Lower, p);
    LookaheadFindsIff(Upper, p);
    LookaheadFindsIff(Special, p);
    LeadingRunIff(p, 8);
  }

  /** For a password without a line break the rule speaks of the whole password. */
  lemma PasswordWithoutLineBreak(p: string)
    requires forall k :: 0 <= k < |p| ==> !IsLineTerminator(p[k])
    ensures PasswordMatches(p) <==>
      Contains(Lower, p) && Contains(Upper, p) && Contains(Special, p) && |p| >= 8
  {
    PasswordMatchesIff(p);
    assert LineEnd(p) == |p|;
    assert FirstLine(p) == p;
  }

  /** No digit is needed: "Abcdefg!" passes. */
  lemma PasswordNeedsNoDigit()
    ensures PasswordMatches("Abcdefg!")
  {
    var p := "Abcdefg!";
    PasswordWithoutLineBreak(p);
    assert In(Lower, p[1]) && In(Upper, p[0]) && In(Special, p[7]);
  }

  /** A special character after a line break is not seen: "Abcdefgh\n!" fails. */
  lemma PasswordLineBreakHidesTail(p: string)
    requires p == "Abcdefgh\n!"
    ensures !PasswordMatches(p)
  {
    var line := "Abcdefgh";
    assert p == line + "\n!";
    IndexOfLineTerminator(line, "\n!");
    assert FirstLine(p) == line;
    forall i | 0 <= i < |line| ensures !In(Special, line[i]) {
      assert IsAsciiLetter(line[i]);
    }
    LookaheadFindsIff(Special, p);
  }

  /** The first line ends where the first line terminator stands. */
  lemma IndexOfLineTerminator(a: string, b: string)
    requires forall k :: 0 <= k < |a| ==> !IsLineTerminator(a[k])
    requires |b| > 0 && IsLineTerminator(b[0])
    ensures FirstLine(a + b) == a
  {
    var s := a + b;
    assert IsLineTerminator(s[|a|]);
    assert LineEnd(s) == |a|;
  }
}
