/** The regular expressions the controllers test request fields against,
    as predicates over strings (sequences of Unicode characters).

    Every pattern has a declarative predicate saying which strings it
    describes. The amount, name and e-mail patterns also have a matcher
    that scans the string the way a regular-expression engine does; the
    checks call those matchers, and a lemma proves each accepts exactly the
    strings its predicate describes. The digit and password patterns are
    used as their predicates directly. */
module Validators {

  import opened Common

  // ---------------------------------------------------------------------
  // Character classes

  /** `\d`: an ASCII digit. */
  predicate IsDigit(c: char) { '0' <= c <= '9' }

  predicate IsLower(c: char) { 'a' <= c <= 'z' }

  predicate IsUpper(c: char) { 'A' <= c <= 'Z' }

  /** `[a-zA-Z]` */
  predicate IsLetter(c: char) { IsLower(c) || IsUpper(c) }

  /** `\s`: the white space and line terminators of JavaScript patterns. */
  predicate IsSpace(c: char) {
    || c == '\t' || c == '\n' || c == '\U{B}' || c == '\U{C}' || c == '\r' || c == ' '
    || c == '\U{A0}' || c == '\U{1680}' || ('\U{2000}' <= c <= '\U{200A}')
    || c == '\U{2028}' || c == '\U{2029}' || c == '\U{202F}' || c == '\U{205F}'
    || c == '\U{3000}' || c == '\U{FEFF}'
  }

  /** The characters `.` does not match. */
  predicate IsLineTerminator(c: char) {
    c == '\n' || c == '\r' || c == '\U{2028}' || c == '\U{2029}'
  }

  /** `[!@#$%^&*()]` */
  predicate IsSpecial(c: char) {
    c == '!' || c == '@' || c == '#' || c == '$' || c == '%' || c == '^'
    || c == '&' || c == '*' || c == '(' || c == ')'
  }

  /** `[a-z0-9._-]`, the characters of an e-mail's local part. */
  predicate IsLocalChar(c: char) {
    IsLower(c) || IsDigit(c) || c == '.' || c == '_' || c == '-'
  }

  /** `[a-z0-9.-]`, the characters of an e-mail's domain. */
  predicate IsDomainChar(c: char) {
    IsLower(c) || IsDigit(c) || c == '.' || c == '-'
  }

  // ---------------------------------------------------------------------
  // Room number and beds: /^\d+$/

  /** One or more digits and nothing else. */
  predicate IsDigits(s: string) {
    |s| > 0 && forall i :: 0 <= i < |s| ==> IsDigit(s[i])
  }

  /** The number a digit string stands for (the store's cast to a double
      agrees with it up to 2^53). */
  function DigitsValue(s: string): nat
  {
    if s == [] then 0
    else DigitsValue(s[..|s| - 1]) * 10 + DigitValue(s[|s| - 1])
  }

  function DigitValue(c: char): nat {
    if IsDigit(c) then c as int - '0' as int else 0
  }

  // ---------------------------------------------------------------------
  // Price and amounts: /^\d+(\.\d{1,2})?$/

  /** The pattern matches `s` with the optional group starting at `k`:
      digits before `k`, a dot at `k`, one or two digits after it. */
  predicate AmountSplitAt(s: string, k: int) {
    && 0 < k < |s|
    && IsDigits(s[..k])
    && s[k] == '.'
    && 1 <= |s| - (k + 1) <= 2
    && IsDigits(s[k + 1..])
  }

  /** The strings `/^\d+(\.\d{1,2})?$/` matches. */
  predicate IsAmount(s: string) {
    IsDigits(s) || exists k :: 0 < k < |s| && AmountSplitAt(s, k)
  }

  /** The states of a scan for the amount pattern. */
  datatype AmountState = Empty | Whole | Point | Cents1 | Cents2 | Stuck

  function AmountStep(q: AmountState, c: char): AmountState {
    match q
    case Empty => if IsDigit(c) then Whole else Stuck
    case Whole => if IsDigit(c) then Whole else if c == '.' then Point else Stuck
    case Point => if IsDigit(c) then Cents1 else Stuck
    case Cents1 => if IsDigit(c) then Cents2 else Stuck
    case Cents2 => Stuck
    case Stuck => Stuck
  }

  /** The state after scanning all of `s`. */
  function AmountRun(s: string): AmountState
  {
    if s == [] then Empty else AmountStep(AmountRun(s[..|s| - 1]), s[|s| - 1])
  }

  /** The matcher for the amount pattern. */
  predicate AmountAccepts(s: string) {
    AmountRun(s) == Whole || AmountRun(s) == Cents1 || AmountRun(s) == Cents2
  }

  lemma DigitsSnoc(p: string, c: char)
    ensures IsDigits(p + [c]) <==> (p == [] || IsDigits(p)) && IsDigit(c)
  {
    var s := p + [c];
    assert s[..|p|] == p;
    if (p == [] || IsDigits(p)) && IsDigit(c) {
      forall i | 0 <= i < |s| ensures IsDigit(s[i]) {
        if i < |p| { assert s[i] == p[i]; }
      }
    }
    assert s[|p|] == c;
    if IsDigits(s) && p != [] {
      forall i | 0 <= i < |p| ensures IsDigit(p[i]) { assert p[i] == s[i]; }
    }
  }

  /** What each state of the scan says about the text scanned so far. */
  lemma {:induction false} AmountRunMeaning(s: string)
    ensures AmountRun(s) == Empty <==> s == []
    ensures AmountRun(s) == Whole <==> IsDigits(s)
    ensures AmountRun(s) == Point <==> |s| >= 2 && IsDigits(s[..|s| - 1]) && s[|s| - 1] == '.'
    ensures AmountRun(s) == Cents1 <==> |s| >= 3 && AmountSplitAt(s, |s| - 2)
    ensures AmountRun(s) == Cents2 <==> |s| >= 4 && AmountSplitAt(s, |s| - 3)
    decreases |s|
  {
    if s != [] {
      var p, c := s[..|s| - 1], s[|s| - 1];
      assert s == p + [c];
      AmountRunMeaning(p);
      DigitsSnoc(p, c);
      if |s| >= 2 {
        assert s[..|s| - 1][..|s| - 2] == s[..|s| - 2];
        DigitsSnoc(s[..|s| - 2], s[|s| - 2]);
        assert s[..|s| - 2] + [s[|s| - 2]] == p;
        assert s[|s| - 1..] == [c];
      }
      if |s| >= 3 {
        assert p[..|p| - 2] == s[..|s| - 3];
        assert p[|p| - 1..] == [p[|p| - 1]];
        assert s[|s| - 2..] == [s[|s| - 2], c];
        assert s[..|s| - 2] == p[..|p| - 1];
      }
      if |s| >= 4 {
        assert p[..|p| - 3] == s[..|s| - 4];
        assert p[|p| - 2..] == [p[|p| - 2], p[|p| - 1]];
        assert s[|s| - 3..] == [s[|s| - 3], s[|s| - 2], c];
        assert s[..|s| - 3] == p[..|p| - 2];
      }
    }
  }

  /** The matcher accepts exactly the strings the amount pattern describes. */
  lemma AmountAcceptsIff(s: string)
    ensures AmountAccepts(s) <==> IsAmount(s)
  {
    AmountRunMeaning(s);
    if IsAmount(s) && !IsDigits(s) {
      var k :| 0 < k < |s| && AmountSplitAt(s, k);
      assert k == |s| - 2 || k == |s| - 3;
    }
  }

  /** An amount is all digits, or has its dot second or third from the end
      with digits everywhere else. */
  lemma AmountShape(s: string)
    ensures IsAmount(s) <==>
      || IsDigits(s)
      || (|s| >= 3 && AmountSplitAt(s, |s| - 2))
      || (|s| >= 4 && AmountSplitAt(s, |s| - 3))
  {
    if IsAmount(s) && !IsDigits(s) {
      var k :| 0 < k < |s| && AmountSplitAt(s, k);
      assert k == |s| - 2 || k == |s| - 3;
    }
  }

  /** The value of an accepted amount in hundredths, as the store casts it
      to a number. */
  function AmountCents(s: string): nat
  {
    if |s| >= 3 && s[|s| - 2] == '.' then
      DigitsValue(s[..|s| - 2]) * 100 + DigitValue(s[|s| - 1]) * 10
    else if |s| >= 4 && s[|s| - 3] == '.' then
      DigitsValue(s[..|s| - 3]) * 100 + DigitsValue(s[|s| - 2..])
    else
      DigitsValue(s) * 100
  }

  // ---------------------------------------------------------------------
  // Names: /^[a-zA-Z]+(?:\s+[a-zA-Z]+)*$/

  /** Words of ASCII letters separated by runs of white space, with no white
      space at either end. */
  predicate IsName(s: string) {
    && |s| > 0
    && IsLetter(s[0])
    && IsLetter(s[|s| - 1])
    && forall i :: 0 <= i < |s| ==> IsLetter(s[i]) || IsSpace(s[i])
  }

  /** The states of a scan for the name pattern: nothing read, inside a
      word, inside a gap between words, failed. */
  datatype NameState = Start | InWord | InGap | Dead

  function NameStep(q: NameState, c: char): NameState {
    match q
    case Start => if IsLetter(c) then InWord else Dead
    case InWord => if IsLetter(c) then InWord else if IsSpace(c) then InGap else Dead
    case InGap => if IsLetter(c) then InWord else if IsSpace(c) then InGap else Dead
    case Dead => Dead
  }

  function NameRun(s: string): NameState
  {
    if s == [] then Start else NameStep(NameRun(s[..|s| - 1]), s[|s| - 1])
  }

  /** The matcher for the name pattern. */
  predicate NameAccepts(s: string) { NameRun(s) == InWord }

  /** Letters and white space only. */
  predicate WordsAndGaps(s: string) {
    forall i :: 0 <= i < |s| ==> IsLetter(s[i]) || IsSpace(s[i])
  }

  lemma {:induction false} NameRunMeaning(s: string)
    ensures NameRun(s) == Start <==> s == []
    ensures NameRun(s) == InWord <==> IsName(s)
    ensures NameRun(s) == InGap <==> |s| > 0 && IsLetter(s[0]) && IsSpace(s[|s| - 1]) && WordsAndGaps(s)
    decreases |s|
  {
    if s != [] {
      var p, c := s[..|s| - 1], s[|s| - 1];
      NameRunMeaning(p);
      assert WordsAndGaps(s) <==> WordsAndGaps(p) && (IsLetter(c) || IsSpace(c)) by {
        if WordsAndGaps(s) {
          forall i | 0 <= i < |p| ensures IsLetter(p[i]) || IsSpace(p[i]) { assert p[i] == s[i]; }
        }
        if WordsAndGaps(p) && (IsLetter(c) || IsSpace(c)) {
          forall i | 0 <= i < |s| ensures IsLetter(s[i]) || IsSpace(s[i]) {
            if i < |p| { assert s[i] == p[i]; }
          }
        }
      }
      if p != [] { assert p[0] == s[0]; }
    }
  }

  /** The matcher accepts exactly the strings the name pattern describes. */
  lemma NameAcceptsIff(s: string)
    ensures NameAccepts(s) <==> IsName(s)
  {
    NameRunMeaning(s);
  }

  // ---------------------------------------------------------------------
  // E-mail addresses: /^[a-z0-9._-]+@[a-z0-9.-]+\.[a-z]{2,4}$/

  /** The pattern matches `s` with the `@` at `at` and the final dot at
      `dot`. */
  predicate EmailSplit(s: string, at: int, dot: int) {
    && 0 < at && at + 1 < dot && dot < |s|
    && s[at] == '@' && s[dot] == '.'
    && (forall i :: 0 <= i < at ==> IsLocalChar(s[i]))
    && (forall i :: at < i < dot ==> IsDomainChar(s[i]))
    && 2 <= |s| - (dot + 1) <= 4
    && (forall i :: dot < i < |s| ==> IsLower(s[i]))
  }

  /** The strings the e-mail pattern describes. */
  predicate IsEmail(s: string) {
    exists at, dot :: 0 <= at < |s| && 0 <= dot < |s| && EmailSplit(s, at, dot)
  }

  /** The index of the last `c` in `s`. */
  function LastIndexOf(s: string, c: char): (r: Option<nat>)
    ensures r.Some? ==> r.value < |s| && s[r.value] == c && forall i :: r.value < i < |s| ==> s[i] != c
    ensures r.None? ==> forall i :: 0 <= i < |s| ==> s[i] != c
  {
    if s == [] then None
    else if s[|s| - 1] == c then Some(|s| - 1)
    else LastIndexOf(s[..|s| - 1], c)
  }

  /** The matcher for the e-mail pattern: the local part must end at the
      first `@` (it cannot hold one) and the suffix must start after the
      last dot (it cannot hold one), so only that split needs testing. */
  predicate EmailAccepts(s: string) {
    var at := IndexOf(s, '@');
    var dot := LastIndexOf(s, '.');
    at.Some? && dot.Some? && EmailSplit(s, at.value, dot.value)
  }

  /** The matcher accepts exactly the strings the e-mail pattern describes. */
  lemma EmailAcceptsIff(s: string)
    ensures EmailAccepts(s) <==> IsEmail(s)
  {
    if IsEmail(s) {
      var at, dot :| 0 <= at < |s| && 0 <= dot < |s| && EmailSplit(s, at, dot);
      var a := IndexOf(s, '@');
      var d := LastIndexOf(s, '.');
      assert !IsLocalChar('@');
      assert a == Some(at);
      assert d == Some(dot);
    }
  }

  // ---------------------------------------------------------------------
  // Passwords: /^(?=.*[A-Z])(?=.*[a-z])(?=.*\d)(?=.*[!@#$%^&*()]).{8,16}$/

  /** Eight to sixteen characters other than line terminators, among them an
      upper-case letter, a lower-case letter, a digit and one of
      `!@#$%^&*()`. (The look-aheads scan `.*`, which stops at a line
      terminator, but `.{8,16}$` already excludes those.) */
  predicate IsPassword(s: string) {
    && 8 <= |s| <= 16
    && (forall i :: 0 <= i < |s| ==> !IsLineTerminator(s[i]))
    && (exists i :: 0 <= i < |s| && IsUpper(s[i]))
    && (exists i :: 0 <= i < |s| && IsLower(s[i]))
    && (exists i :: 0 <= i < |s| && IsDigit(s[i]))
    && (exists i :: 0 <= i < |s| && IsSpecial(s[i]))
  }

  // ---------------------------------------------------------------------
  // Sample inputs from the source's own tests and error messages

  lemma RoomNumberSamples()
    ensures !IsDigits("101A") && IsDigits("101")
  {
    assert !IsDigit("101A"[3]);
  }

  lemma AmountSamples()
    ensures !IsAmount("100.005")
    ensures !IsAmount("invalid_amount")
    ensures IsAmount("100") && IsAmount("100.5") && IsAmount("100.50")
    ensures !IsAmount("") && !IsAmount(".5") && !IsAmount("100.")
  {
    var a, b, c, d := "100.005", "invalid_amount", ".5", "100.";
    AmountShape(a);
    assert !IsDigit(a[3]) && a[4] == '0' && a[5] == '0';
    AmountShape(b);
    assert !IsDigit(b[0]) && b[|b| - 2] == 'n' && b[|b| - 3] == 'u';
    AmountShape(c);
    assert !IsDigit(c[0]);
    AmountShape(d);
    assert !IsDigit(d[3]) && d[1] == '0' && d[2] == '0';
    assert AmountSplitAt("100.5", 3);
    assert AmountSplitAt("100.50", 3);
  }

  lemma NameSamples()
    ensures IsName("Johny Doe") && IsName("Test User")
    ensures !IsName(" Johny") && !IsName("Johny ") && !IsName("J0hny")
  {
    assert !IsLetter("J0hny"[1]) && !IsSpace("J0hny"[1]);
  }

  /** A local part, a domain and a two-to-four-letter suffix make an address. */
  lemma EmailCompose(local: string, domain: string, suffix: string)
    requires |local| > 0 && forall i :: 0 <= i < |local| ==> IsLocalChar(local[i])
    requires |domain| > 0 && forall i :: 0 <= i < |domain| ==> IsDomainChar(domain[i])
    requires 2 <= |suffix| <= 4 && forall i :: 0 <= i < |suffix| ==> IsLower(suffix[i])
    ensures IsEmail(local + "@" + domain + "." + suffix)
  {
    var s := local + "@" + domain + "." + suffix;
    var at, dot := |local|, |local| + 1 + |domain|;
    forall i | 0 <= i < at ensures IsLocalChar(s[i]) { assert s[i] == local[i]; }
    forall i | at < i < dot ensures IsDomainChar(s[i]) { assert s[i] == domain[i - at - 1]; }
    forall i | dot < i < |s| ensures IsLower(s[i]) { assert s[i] == suffix[i - dot - 1]; }
    assert EmailSplit(s, at, dot);
  }

  /** `s` ends in a dot followed by `k` lower-case letters. */
  predicate DotSuffix(s: string, k: int) {
    0 <= k < |s| && s[|s| - k - 1] == '.' && forall i :: |s| - k <= i < |s| ==> IsLower(s[i])
  }

  /** An address starts with a local-part character and ends in a dot
      followed by a suffix of two to four lower-case letters. */
  lemma EmailEnds(s: string)
    ensures IsEmail(s) ==> IsLocalChar(s[0]) && |s| >= 6
    ensures IsEmail(s) ==> exists k :: 2 <= k <= 4 && DotSuffix(s, k)
  {
    if IsEmail(s) {
      var at, dot :| 0 <= at < |s| && 0 <= dot < |s| && EmailSplit(s, at, dot);
      assert DotSuffix(s, |s| - (dot + 1));
    }
  }

  lemma EmailSamples()
    ensures IsEmail("test@example.com")
    ensures !IsEmail("Test@example.com")
    ensures !IsEmail("test@example.travel")
    ensures !IsEmail("test@example")
  {
    EmailCompose("test", "example", "com");
    assert "test" + "@" + "example" + "." + "com" == "test@example.com";
    EmailEnds("Test@example.com");
    EmailEnds("test@example.travel");
    EmailEnds("test@example");
  }

  lemma PasswordAccepted()
    ensures IsPassword("Test@1234") && IsPassword("StPtssword123!")
  {
    var a := "Test@1234";
    assert IsUpper(a[0]) && IsLower(a[1]) && IsDigit(a[5]) && IsSpecial(a[4]);
    var b := "StPtssword123!";
    assert IsUpper(b[0]) && IsLower(b[1]) && IsDigit(b[10]) && IsSpecial(b[13]);
  }

  lemma PasswordRejected()
    ensures !IsPassword("test@1234") && !IsPassword("Test@12") && !IsPassword("Test1234")
  {
    var noUpper := "test@1234";
    if IsPassword(noUpper) {
      var i :| 0 <= i < |noUpper| && IsUpper(noUpper[i]);
      assert false;
    }
    var noSpecial := "Test1234";
    if IsPassword(noSpecial) {
      var i :| 0 <= i < |noSpecial| && IsSpecial(noSpecial[i]);
      assert false;
    }
  }
}
