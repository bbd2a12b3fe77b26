/** The input validators of utils/validation.js. Every validator first trims its
    argument; lengths of titles, post bodies and comments are counted in code points
    after normalising line breaks, the nickname limit in UTF-16 units. */
module Validation {
  import opened Wrappers
  import opened JsText

  const TITLE_MAX: nat := 26
  const CONTENT_MAX: nat := 500
  const COMMENT_MAX: nat := 300
  const NICKNAME_MAX: nat := 10
  const PASSWORD_MIN: nat := 8
  const PASSWORD_MAX: nat := 20

  const AT: CodeUnit := '@' as int
  const DOT: CodeUnit := '.' as int

  // ---------------------------------------------------------------- lengths

  /** `getLength`: the number of characters a reader sees, that is code points of the
      trimmed value where every CR LF line break counts once. */
  function GetLength(value: JsString): (n: nat)
    ensures n == CodePointCount(Trim(value)) - CrlfCount(Trim(value))
    ensures n <= |Trim(value)|
    ensures Trim(value) != [] ==> n >= 1
  {
    var normalized := ReplaceCrlf(Trim(value));
    CodePointCountReplaceCrlf(Trim(value));
    CodePointCount(normalized)
  }

  function ValidateTitle(titleValue: JsString): (ok: bool)
    ensures ok <==> CodePointCount(Trim(titleValue)) - CrlfCount(Trim(titleValue)) <= TITLE_MAX
  {
    GetLength(titleValue) <= TITLE_MAX
  }

  function ValidatePostContent(contentValue: JsString): (ok: bool)
    ensures ok <==> CodePointCount(Trim(contentValue)) - CrlfCount(Trim(contentValue)) <= CONTENT_MAX
  {
    GetLength(contentValue) <= CONTENT_MAX
  }

  function ValidateComment(commentValue: JsString): (ok: bool)
    ensures ok <==> CodePointCount(Trim(commentValue)) - CrlfCount(Trim(commentValue)) <= COMMENT_MAX
  {
    GetLength(commentValue) <= COMMENT_MAX
  }

  // ---------------------------------------------------------------- character classes

  predicate IsLowerLetter(u: CodeUnit) { 'a' as int <= u <= 'z' as int }
  predicate IsUpperLetter(u: CodeUnit) { 'A' as int <= u <= 'Z' as int }
  predicate IsAsciiLetter(u: CodeUnit) { IsLowerLetter(u) || IsUpperLetter(u) }
  /** `\d` of a regular expression without the `u` flag. */
  predicate IsDigit(u: CodeUnit) { '0' as int <= u <= '9' as int }

  /** `[a-zA-Z0-9._%+-]` */
  predicate IsLocalPartChar(u: CodeUnit) {
    || IsAsciiLetter(u) || IsDigit(u)
    || u == '.' as int || u == '_' as int || u == '%' as int || u == '+' as int || u == '-' as int
  }

  /** `[a-zA-Z0-9.-]` */
  predicate IsDomainChar(u: CodeUnit) {
    IsAsciiLetter(u) || IsDigit(u) || u == '.' as int || u == '-' as int
  }

  /** `[@$!%*?&]` */
  predicate IsPasswordSymbol(u: CodeUnit) {
    || u == '@' as int || u == '$' as int || u == '!' as int || u == '%' as int
    || u == '*' as int || u == '?' as int || u == '&' as int
  }

  /** `[A-Za-z\d@$!%*?&]` */
  predicate IsPasswordChar(u: CodeUnit) {
    IsAsciiLetter(u) || IsDigit(u) || IsPasswordSymbol(u)
  }

  predicate AllLocalPart(s: JsString) { forall k :: 0 <= k < |s| ==> IsLocalPartChar(s[k]) }
  predicate AllDomain(s: JsString) { forall k :: 0 <= k < |s| ==> IsDomainChar(s[k]) }
  predicate AllLetters(s: JsString) { forall k :: 0 <= k < |s| ==> IsAsciiLetter(s[k]) }
  predicate AllPasswordChars(s: JsString) { forall k :: 0 <= k < |s| ==> IsPasswordChar(s[k]) }

  predicate Contains(s: JsString, cls: CodeUnit -> bool) {
    exists k :: 0 <= k < |s| && cls(s[k])
  }

  // ---------------------------------------------------------------- email

  /** `v[..at]`, `v[at + 1..dot]` and `v[dot + 1..]` are the local part, the domain and
      the top-level domain of a match of the email pattern. */
  predicate EmailSplitAt(v: JsString, at: nat, dot: nat) {
    && 0 < at && at + 1 < dot && dot + 3 <= |v|
    && v[at] == AT && v[dot] == DOT
    && AllLocalPart(v[..at]) && AllDomain(v[at + 1..dot]) && AllLetters(v[dot + 1..])
  }

  /** The strings matched by /^[a-zA-Z0-9._%+-]+@[a-zA-Z0-9.-]+\.[a-zA-Z]{2,}$/: some
      `@` and some `.` split the string into a non-empty local part, a non-empty domain
      and a top-level domain of at least two letters. */
  predicate MatchesEmailPattern(v: JsString) {
    exists at: nat, dot: nat | at < dot < |v| :: EmailSplitAt(v, at, dot)
  }

  function ValidateEmail(email: JsString): (ok: bool)
    ensures ok <==> MatchesEmailPattern(Trim(email))
  {
    var emailValue := Trim(email);
    if emailValue == [] then false
    else MatchesEmailPattern(emailValue)
  }

  /** A decision procedure for the email pattern that does not search: the local part
      ends at the first `@` and the top-level domain starts after the last `.`. */
  function EmailByParts(v: JsString): bool {
    match IndexOf(v, AT)
    case None => false
    case Some(at) =>
      var rest := v[at + 1..];
      match LastIndexOf(rest, DOT)
      case None => false
      case Some(d) => EmailSplitAt(v, at, at + 1 + d)
  }

  /** In a match of the pattern the `@` of the split is the only one. */
  lemma SplitHasOnlyOneAt(v: JsString, at: nat, dot: nat)
    requires EmailSplitAt(v, at, dot)
    ensures forall k :: 0 <= k < |v| && k != at ==> v[k] != AT
  {
    forall k | 0 <= k < |v| && k != at
      ensures v[k] != AT
    {
      if k < at {
        assert IsLocalPartChar(v[..at][k]);
      } else if k < dot {
        assert IsDomainChar(v[at + 1..dot][k - at - 1]);
      } else if k > dot {
        assert IsAsciiLetter(v[dot + 1..][k - dot - 1]);
      }
    }
  }

  /** In a match of the pattern the `.` of the split is the last one. */
  lemma SplitDotIsLast(v: JsString, at: nat, dot: nat)
    requires EmailSplitAt(v, at, dot)
    ensures forall k :: dot < k < |v| ==> v[k] != DOT
  {
    forall k | dot < k < |v|
      ensures v[k] != DOT
    {
      assert IsAsciiLetter(v[dot + 1..][k - dot - 1]);
    }
  }

  /** A match of the pattern is found by splitting at the first `@` and the last `.`. */
  lemma SplitFoundByParts(v: JsString, at: nat, dot: nat)
    requires EmailSplitAt(v, at, dot)
    ensures EmailByParts(v)
  {
    SplitHasOnlyOneAt(v, at, dot);
    assert IndexOf(v, AT) == Some(at);
    SplitDotIsLast(v, at, dot);
    var rest := v[at + 1..];
    var d := dot - at - 1;
    assert rest[d] == DOT;
    assert forall k :: d < k < |rest| ==> rest[k] == v[k + at + 1];
    assert LastIndexOf(rest, DOT) == Some(d);
  }

  /** The regular expression's search and the split at the first `@` and the last `.`
      accept the same strings. */
  lemma EmailByPartsCorrect(v: JsString)
    ensures EmailByParts(v) <==> MatchesEmailPattern(v)
  {
    if MatchesEmailPattern(v) {
      var at: nat, dot: nat :| at < dot < |v| && EmailSplitAt(v, at, dot);
      SplitFoundByParts(v, at, dot);
    }
  }

  /** A valid email contains exactly one `@`. */
  lemma ValidEmailHasOneAt(email: JsString)
    requires ValidateEmail(email)
    ensures exists at :: 0 <= at < |Trim(email)| && Trim(email)[at] == AT
                         && forall k :: 0 <= k < |Trim(email)| && k != at ==> Trim(email)[k] != AT
  {
    var v := Trim(email);
    var at: nat, dot: nat :| at < dot < |v| && EmailSplitAt(v, at, dot);
    SplitHasOnlyOneAt(v, at, dot);
  }

  // ---------------------------------------------------------------- password

  /** The look-ahead `(?=.*[cls])` tried at the start of the string: some unit of the
      class occurs with no line terminator (which `.` does not match) before it. */
  predicate LookaheadFinds(v: JsString, cls: CodeUnit -> bool) {
    exists i :: 0 <= i < |v| && cls(v[i]) && forall k :: 0 <= k < i ==> !IsLineTerminator(v[k])
  }

  /** The strings matched by
      /^(?=.*[a-z])(?=.*[A-Z])(?=.*\d)(?=.*[@$!%*?&])[A-Za-z\d@$!%*?&]{8,20}$/ */
  predicate MatchesPasswordPattern(v: JsString) {
    && LookaheadFinds(v, IsLowerLetter) && LookaheadFinds(v, IsUpperLetter)
    && LookaheadFinds(v, IsDigit) && LookaheadFinds(v, IsPasswordSymbol)
    && PASSWORD_MIN <= |v| <= PASSWORD_MAX && AllPasswordChars(v)
  }

  /** Over password characters, which include no line terminator, a look-ahead
      succeeds exactly when the class occurs somewhere. */
  lemma LookaheadIsContains(v: JsString, cls: CodeUnit -> bool)
    requires AllPasswordChars(v)
    ensures LookaheadFinds(v, cls) <==> Contains(v, cls)
  {
    if Contains(v, cls) {
      var i :| 0 <= i < |v| && cls(v[i]);
      assert forall k :: 0 <= k < i ==> IsPasswordChar(v[k]);
    }
  }

  /** The password rule in words: 8 to 20 characters, all letters, digits or the
      symbols @$!%*?&, with at least one lower-case letter, one upper-case letter, one
      digit and one symbol. */
  predicate PasswordRule(v: JsString) {
    && PASSWORD_MIN <= |v| <= PASSWORD_MAX && AllPasswordChars(v)
    && Contains(v, IsLowerLetter) && Contains(v, IsUpperLetter)
    && Contains(v, IsDigit) && Contains(v, IsPasswordSymbol)
  }

  /** The password pattern matches exactly the strings that follow the rule. */
  lemma PasswordPatternIsRule(v: JsString)
    ensures MatchesPasswordPattern(v) <==> PasswordRule(v)
  {
    if AllPasswordChars(v) {
      LookaheadIsContains(v, IsLowerLetter);
      LookaheadIsContains(v, IsUpperLetter);
      LookaheadIsContains(v, IsDigit);
      LookaheadIsContains(v, IsPasswordSymbol);
    }
  }

  function ValidatePassword(password: JsString): (ok: bool)
    ensures ok <==> PasswordRule(Trim(password))
  {
    var passwordValue := Trim(password);
    PasswordPatternIsRule(passwordValue);
    if passwordValue == [] then false
    else if !MatchesPasswordPattern(passwordValue) then false
    else true
  }

  // ---------------------------------------------------------------- nickname

  /** `validateNickname`: the trimmed value is non-empty, at most ten UTF-16 units long
      (`.length`) and contains no `\s` character. */
  function ValidateNickname(nickname: JsString): (ok: bool)
    ensures ok ==> 1 <= CodePointCount(Trim(nickname)) <= NICKNAME_MAX
  {
    var nicknameValue := Trim(nickname);
    nicknameValue != [] && |nicknameValue| <= NICKNAME_MAX && !HasWhitespace(nicknameValue)
  }

  // ---------------------------------------------------------------- properties

  /** Every validator trims first, so surrounding whitespace never changes a verdict. */
  lemma ValidatorsIgnoreSurroundingWhitespace(s: JsString)
    ensures ValidateTitle(s) == ValidateTitle(Trim(s))
    ensures ValidatePostContent(s) == ValidatePostContent(Trim(s))
    ensures ValidateComment(s) == ValidateComment(Trim(s))
    ensures ValidateEmail(s) == ValidateEmail(Trim(s))
    ensures ValidatePassword(s) == ValidatePassword(Trim(s))
    ensures ValidateNickname(s) == ValidateNickname(Trim(s))
  {
    TrimIdempotent(s);
  }

  /** `s[i..j]` is a word of 1 to 10 code units and everything around it is whitespace. */
  predicate ShortWordAt(s: JsString, i: nat, j: nat) {
    && i < j <= |s| && j - i <= NICKNAME_MAX && !HasWhitespace(s[i..j])
    && AllWhitespace(s[..i]) && AllWhitespace(s[j..])
  }

  lemma ValidNicknameIsShortWord(s: JsString) returns (i: nat, j: nat)
    requires ValidateNickname(s)
    ensures ShortWordAt(s, i, j)
  {
    i := TrimOffset(s);
    j := i + |Trim(s)|;
  }

  lemma ShortWordIsValidNickname(s: JsString, i: nat, j: nat)
    requires ShortWordAt(s, i, j)
    ensures ValidateNickname(s)
  {
    var w := s[i..j];
    assert !IsWhitespace(w[0]) && !IsWhitespace(w[|w| - 1]);
    assert s == s[..i] + w + s[j..];
    TrimOfPadded(s[..i], w, s[j..]);
  }

  /** A nickname is accepted exactly when it is one word of 1 to 10 code units with
      nothing but whitespace around it. */
  lemma NicknameIsOneShortWord(s: JsString)
    ensures ValidateNickname(s) <==> exists i: nat, j: nat :: ShortWordAt(s, i, j)
  {
    if ValidateNickname(s) {
      var i, j := ValidNicknameIsShortWord(s);
    }
    if exists i: nat, j: nat :: ShortWordAt(s, i, j) {
      var i: nat, j: nat :| ShortWordAt(s, i, j);
      ShortWordIsValidNickname(s, i, j);
    }
  }

  /** An empty or whitespace-only email or password is rejected. */
  lemma BlankCredentialsRejected(s: JsString)
    requires AllWhitespace(s)
    ensures !ValidateEmail(s) && !ValidatePassword(s) && !ValidateNickname(s)
  {
    TrimAllWhitespace(s);
  }

  lemma {:induction false} CrlfCountWithoutCr(s: JsString)
    requires forall k :: 0 <= k < |s| ==> s[k] != CR
    ensures CrlfCount(s) == 0
  {
    if |s| >= 2 {
      CrlfCountWithoutCr(s[1..]);
    }
  }

  lemma {:induction false} CodePointCountWithoutSurrogates(s: JsString)
    requires forall k :: 0 <= k < |s| ==> !IsHighSurrogate(s[k])
    ensures CodePointCount(s) == |s|
  {
    if s != [] {
      CodePointCountWithoutSurrogates(s[1..]);
    }
  }

  /** A unit that is neither whitespace nor part of a surrogate pair is one character. */
  predicate IsPlainUnit(u: CodeUnit) {
    !IsWhitespace(u) && !IsHighSurrogate(u)
  }

  /** On text without whitespace and surrogates the length is the number of units, so
      the title limit is exact: 26 such characters pass and 27 fail. */
  lemma PlainTitleLimitIsExact(s: JsString)
    requires forall k :: 0 <= k < |s| ==> IsPlainUnit(s[k])
    ensures GetLength(s) == |s|
    ensures ValidateTitle(s) <==> |s| <= TITLE_MAX
    ensures ValidatePostContent(s) <==> |s| <= CONTENT_MAX
    ensures ValidateComment(s) <==> |s| <= COMMENT_MAX
  {
    TrimOfTrimmed(s);
    CrlfCountWithoutCr(s);
    CodePointCountWithoutSurrogates(s);
  }

  /** `n` copies of the emoji U+1F600, two UTF-16 units each. */
  function Emoji(n: nat): (s: JsString)
    ensures |s| == 2 * n
    ensures forall k :: 0 <= k < |s| ==> s[k] == (if k % 2 == 0 then 0xD83D else 0xDE00)
  {
    if n == 0 then [] else [0xD83D, 0xDE00] + Emoji(n - 1)
  }

  lemma {:induction false} EmojiCount(n: nat)
    ensures CodePointCount(Emoji(n)) == n
  {
    if n > 0 {
      EmojiCount(n - 1);
      assert Emoji(n)[2..] == Emoji(n - 1);
    }
  }

  /** Emoji contain no line break and no whitespace around them. */
  lemma EmojiAreTrimmedText(n: nat)
    ensures CrlfCount(Emoji(n)) == 0
    ensures Trim(Emoji(n)) == Emoji(n)
  {
    var s := Emoji(n);
    CrlfCountWithoutCr(s);
    TrimOfTrimmed(s);
  }

  /** Titles count code points: a title of `n` emoji is valid exactly when `n` is at
      most 26, although it has `2 * n` units. */
  lemma EmojiTitleLimit(n: nat)
    ensures ValidateTitle(Emoji(n)) <==> n <= TITLE_MAX
  {
    EmojiCount(n);
    EmojiAreTrimmedText(n);
  }

  /** Nicknames count UTF-16 units: a nickname of `n` emoji is valid exactly when it
      has 1 to 5 of them, half of the 10 characters allowed. */
  lemma EmojiNicknameLimit(n: nat)
    ensures ValidateNickname(Emoji(n)) <==> 1 <= n <= NICKNAME_MAX / 2
  {
    EmojiAreTrimmedText(n);
    var s := Emoji(n);
    assert !HasWhitespace(s) by {
      forall k | 0 <= k < |s| ensures !IsWhitespace(s[k]) {}
    }
  }
}
