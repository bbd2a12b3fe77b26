/** The parts of ECMAScript string semantics the validators depend on. A JavaScript
    string is a sequence of UTF-16 code units; `trim`, `replace`, `.length`, `Array.from`
    and regular-expression classes are defined over those units. `IndexOf` and
    `LastIndexOf` are not used by the validators: they serve the first-`@` / last-`.`
    decision procedure proved equal to the email pattern. */
module JsText {
  import opened Wrappers

  type CodeUnit = u: int | 0 <= u < 0x1_0000
  type JsString = seq<CodeUnit>

  const CR: CodeUnit := 0x0D
  const LF: CodeUnit := 0x0A

  /** The string 'true', as a form field carries a boolean. */
  const TRUE_TEXT: JsString := ['t' as int, 'r' as int, 'u' as int, 'e' as int]

  /** JavaScript truthiness of a string that may be absent. */
  predicate Present(s: Option<JsString>) {
    s.Some? && s.value != []
  }

  /** The ECMAScript WhiteSpace and LineTerminator code points: exactly what
      `String.prototype.trim` strips and what the regular-expression class `\s` matches. */
  predicate IsWhitespace(u: CodeUnit) {
    || u == 0x09 || u == 0x0A || u == 0x0B || u == 0x0C || u == 0x0D || u == 0x20
    || u == 0xA0 || u == 0x1680 || 0x2000 <= u <= 0x200A
    || u == 0x2028 || u == 0x2029 || u == 0x202F || u == 0x205F || u == 0x3000 || u == 0xFEFF
  }

  /** The code units that the regular-expression `.` does not match. */
  predicate IsLineTerminator(u: CodeUnit) {
    u == 0x0A || u == 0x0D || u == 0x2028 || u == 0x2029
  }

  predicate IsHighSurrogate(u: CodeUnit) { 0xD800 <= u <= 0xDBFF }
  predicate IsLowSurrogate(u: CodeUnit) { 0xDC00 <= u <= 0xDFFF }

  predicate AllWhitespace(s: JsString) {
    forall k :: 0 <= k < |s| ==> IsWhitespace(s[k])
  }

  predicate HasWhitespace(s: JsString) {
    exists k :: 0 <= k < |s| && IsWhitespace(s[k])
  }

  /** A string that `trim` leaves as it is. */
  predicate IsTrimmed(s: JsString) {
    s == [] || (!IsWhitespace(s[0]) && !IsWhitespace(s[|s| - 1]))
  }

  /** How many units of whitespace `s` starts with. */
  function LeadingWhitespace(s: JsString): (n: nat)
    ensures n <= |s|
  {
    if |s| > 0 && IsWhitespace(s[0]) then 1 + LeadingWhitespace(s[1..]) else 0
  }

  /** How many units of whitespace `s` ends with. */
  function TrailingWhitespace(s: JsString): (n: nat)
    ensures n <= |s|
  {
    if |s| > 0 && IsWhitespace(s[|s| - 1]) then 1 + TrailingWhitespace(s[..|s| - 1]) else 0
  }

  /** `String.prototype.trim`: leading whitespace is removed, then trailing whitespace;
      what remains neither starts nor ends with whitespace. Where it sits in `s` is
      `TrimOffset`. */
  function Trim(s: JsString): (r: JsString)
    ensures IsTrimmed(r)
    ensures |r| <= |s|
  {
    var t := s[LeadingWhitespace(s)..];
    LeadingWhitespaceSpec(s);
    TrailingWhitespaceSpec(t);
    t[..|t| - TrailingWhitespace(t)]
  }

  lemma {:induction false} LeadingWhitespaceSpec(s: JsString)
    ensures AllWhitespace(s[..LeadingWhitespace(s)])
    ensures LeadingWhitespace(s) < |s| ==> !IsWhitespace(s[LeadingWhitespace(s)])
  {
    if |s| > 0 && IsWhitespace(s[0]) {
      LeadingWhitespaceSpec(s[1..]);
      assert s[..LeadingWhitespace(s)] == [s[0]] + s[1..][..LeadingWhitespace(s[1..])];
    }
  }

  lemma {:induction false} TrailingWhitespaceSpec(s: JsString)
    ensures AllWhitespace(s[|s| - TrailingWhitespace(s)..])
    ensures TrailingWhitespace(s) < |s| ==> !IsWhitespace(s[|s| - TrailingWhitespace(s) - 1])
  {
    if |s| > 0 && IsWhitespace(s[|s| - 1]) {
      var init := s[..|s| - 1];
      TrailingWhitespaceSpec(init);
      assert s[|s| - TrailingWhitespace(s)..] == init[|init| - TrailingWhitespace(init)..] + [s[|s| - 1]];
    }
  }

  /** Number of places where a CR is immediately followed by an LF. */
  function CrlfCount(s: JsString): nat {
    if |s| < 2 then 0
    else (if s[0] == CR && s[1] == LF then 1 else 0) + CrlfCount(s[1..])
  }

  /** `s.replace(/\r\n/g, '\n')`: every CR LF pair, scanned left to right, becomes one LF. */
  function ReplaceCrlf(s: JsString): (r: JsString)
    ensures |r| == |s| - CrlfCount(s)
    ensures s != [] ==> r != []
  {
    if |s| >= 2 && s[0] == CR && s[1] == LF then [LF] + ReplaceCrlf(s[2..])
    else if s == [] then []
    else [s[0]] + ReplaceCrlf(s[1..])
  }

  /** `Array.from(s).length`: the number of code points, where a high surrogate followed
      by a low surrogate is one code point and every other unit (a lone surrogate
      included) is one. */
  function CodePointCount(s: JsString): (n: nat)
    ensures n <= |s| <= 2 * n
  {
    if |s| >= 2 && IsHighSurrogate(s[0]) && IsLowSurrogate(s[1]) then 1 + CodePointCount(s[2..])
    else if s == [] then 0
    else 1 + CodePointCount(s[1..])
  }

  /** The first position of `u` in `s` (`indexOf`). */
  function IndexOf(s: JsString, u: CodeUnit): (r: Option<nat>)
    ensures r.Some? ==> r.value < |s| && s[r.value] == u && forall k :: 0 <= k < r.value ==> s[k] != u
    ensures r.None? ==> forall k :: 0 <= k < |s| ==> s[k] != u
  {
    if s == [] then None
    else if s[0] == u then Some(0)
    else match IndexOf(s[1..], u)
      case None => None
      case Some(k) => Some(k + 1)
  }

  /** The last position of `u` in `s` (`lastIndexOf`). */
  function LastIndexOf(s: JsString, u: CodeUnit): (r: Option<nat>)
    ensures r.Some? ==> r.value < |s| && s[r.value] == u && forall k :: r.value < k < |s| ==> s[k] != u
    ensures r.None? ==> forall k :: 0 <= k < |s| ==> s[k] != u
  {
    if s == [] then None
    else if s[|s| - 1] == u then Some(|s| - 1)
    else LastIndexOf(s[..|s| - 1], u)
  }

  /** A string that neither starts nor ends with whitespace is its own trim. */
  lemma TrimOfTrimmed(s: JsString)
    requires IsTrimmed(s)
    ensures Trim(s) == s
  {
    assert LeadingWhitespace(s) == 0;
    assert s[0..] == s;
    assert TrailingWhitespace(s) == 0;
  }

  /** Trimming twice is trimming once. */
  lemma TrimIdempotent(s: JsString)
    ensures Trim(Trim(s)) == Trim(s)
  {
    TrimOfTrimmed(Trim(s));
  }

  lemma {:induction false} LeadingAllWhitespace(s: JsString)
    requires AllWhitespace(s)
    ensures LeadingWhitespace(s) == |s|
  {
    if s != [] {
      LeadingAllWhitespace(s[1..]);
    }
  }

  /** A whitespace-only string trims to the empty string. */
  lemma TrimAllWhitespace(s: JsString)
    requires AllWhitespace(s)
    ensures Trim(s) == []
  {
    LeadingAllWhitespace(s);
  }

  /** `trim` removes only whitespace: the trimmed text is the slice of `s` from `i`,
      with nothing but whitespace before and after it. */
  lemma TrimOffset(s: JsString) returns (i: nat)
    ensures i + |Trim(s)| <= |s| && s[i..i + |Trim(s)|] == Trim(s)
    ensures AllWhitespace(s[..i]) && AllWhitespace(s[i + |Trim(s)|..])
  {
    i := LeadingWhitespace(s);
    var t := s[i..];
    var m := |t| - TrailingWhitespace(t);
    LeadingWhitespaceSpec(s);
    TrailingWhitespaceSpec(t);
    assert Trim(s) == t[..m];
    SuffixSlices(s, i, m);
  }

  lemma SuffixSlices(s: JsString, i: nat, m: nat)
    requires i + m <= |s|
    ensures s[i..][..m] == s[i..i + m] && s[i..][m..] == s[i + m..]
  {
  }

  lemma {:induction false} LeadingPadded(pre: JsString, rest: JsString)
    requires AllWhitespace(pre)
    requires rest == [] || !IsWhitespace(rest[0])
    ensures LeadingWhitespace(pre + rest) == |pre|
  {
    if pre == [] {
      assert pre + rest == rest;
    } else {
      assert (pre + rest)[1..] == pre[1..] + rest;
      LeadingPadded(pre[1..], rest);
    }
  }

  lemma {:induction false} TrailingPadded(rest: JsString, post: JsString)
    requires AllWhitespace(post)
    requires rest == [] || !IsWhitespace(rest[|rest| - 1])
    ensures TrailingWhitespace(rest + post) == |post|
  {
    if post == [] {
      assert rest + post == rest;
    } else {
      var n := |post| - 1;
      assert (rest + post)[..|rest + post| - 1] == rest + post[..n];
      TrailingPadded(rest, post[..n]);
    }
  }

  /** `trim` is determined by what it promises: a trimmed string padded with whitespace
      on either side trims back to itself. Together with `TrimOffset` this
      characterises it completely. */
  lemma TrimOfPadded(pre: JsString, w: JsString, post: JsString)
    requires AllWhitespace(pre) && AllWhitespace(post) && IsTrimmed(w)
    ensures Trim(pre + w + post) == w
  {
    var s := pre + w + post;
    if w == [] {
      assert s == pre + post;
      TrimAllWhitespace(pre + post);
    } else {
      assert s == pre + (w + post);
      LeadingPadded(pre, w + post);
      assert s[|pre|..] == w + post;
      TrailingPadded(w, post);
      assert (w + post)[..|w|] == w;
    }
  }

  /** Prepending one code point that cannot start a surrogate pair adds one code point. */
  lemma CodePointCountCons(u: CodeUnit, s: JsString)
    requires !IsHighSurrogate(u) || s == [] || !IsLowSurrogate(s[0])
    ensures CodePointCount([u] + s) == 1 + CodePointCount(s)
  {
    assert ([u] + s)[1..] == s;
  }

  /** The first unit of the replaced text is LF where a CR LF pair was, and otherwise
      the first unit of the input. */
  lemma ReplaceCrlfHead(s: JsString)
    requires s != []
    ensures ReplaceCrlf(s)[0] == (if |s| >= 2 && s[0] == CR && s[1] == LF then LF else s[0])
  {
  }

  /** A CR LF pair becomes one LF, which is one code point: the count drops by one. */
  lemma CrlfStep(s: JsString)
    requires |s| >= 2 && s[0] == CR && s[1] == LF
    requires CodePointCount(ReplaceCrlf(s[2..])) == CodePointCount(s[2..]) - CrlfCount(s[2..])
    ensures CodePointCount(ReplaceCrlf(s)) == CodePointCount(s) - CrlfCount(s)
  {
    CodePointCountCons(LF, ReplaceCrlf(s[2..]));
    assert s[1..][1..] == s[2..];
    assert CrlfCount(s[1..]) == CrlfCount(s[2..]);
  }

  /** A unit other than CR is copied unchanged and starts no CR LF pair. */
  lemma ReplaceCrlfKeeps(s: JsString)
    requires s != [] && s[0] != CR
    ensures ReplaceCrlf(s) == [s[0]] + ReplaceCrlf(s[1..])
    ensures CrlfCount(s) == CrlfCount(s[1..])
  {
  }

  /** Two units neither of which is CR are copied unchanged and start no CR LF pair. */
  lemma ReplaceCrlfKeepsTwo(s: JsString)
    requires |s| >= 2 && s[0] != CR && s[1] != CR
    ensures ReplaceCrlf(s) == [s[0], s[1]] + ReplaceCrlf(s[2..])
    ensures CrlfCount(s) == CrlfCount(s[2..])
  {
    assert s[1..][1..] == s[2..];
    ReplaceCrlfKeeps(s);
    ReplaceCrlfKeeps(s[1..]);
  }

  lemma CodePointCountPair(h: CodeUnit, l: CodeUnit, t: JsString)
    requires IsHighSurrogate(h) && IsLowSurrogate(l)
    ensures CodePointCount([h, l] + t) == 1 + CodePointCount(t)
  {
    assert ([h, l] + t)[2..] == t;
  }

  /** A surrogate pair is copied unchanged and stays one code point. */
  lemma SurrogatePairStep(s: JsString)
    requires |s| >= 2 && IsHighSurrogate(s[0]) && IsLowSurrogate(s[1])
    requires CodePointCount(ReplaceCrlf(s[2..])) == CodePointCount(s[2..]) - CrlfCount(s[2..])
    ensures CodePointCount(ReplaceCrlf(s)) == CodePointCount(s) - CrlfCount(s)
  {
    ReplaceCrlfKeepsTwo(s);
    CodePointCountPair(s[0], s[1], ReplaceCrlf(s[2..]));
  }

  /** Any other unit is copied unchanged and is one code point. */
  lemma SingleUnitStep(s: JsString)
    requires s != [] && !(|s| >= 2 && s[0] == CR && s[1] == LF)
    requires !(|s| >= 2 && IsHighSurrogate(s[0]) && IsLowSurrogate(s[1]))
    requires CodePointCount(ReplaceCrlf(s[1..])) == CodePointCount(s[1..]) - CrlfCount(s[1..])
    ensures CodePointCount(ReplaceCrlf(s)) == CodePointCount(s) - CrlfCount(s)
  {
    if s[1..] != [] {
      ReplaceCrlfHead(s[1..]);
    }
    CodePointCountCons(s[0], ReplaceCrlf(s[1..]));
  }

  /** Replacing CR LF by LF removes exactly one code point per pair: this is why the
      validators count each line break as one character. */
  lemma {:induction false} CodePointCountReplaceCrlf(s: JsString)
    ensures CodePointCount(ReplaceCrlf(s)) == CodePointCount(s) - CrlfCount(s)
  {
    if |s| >= 2 && s[0] == CR && s[1] == LF {
      CodePointCountReplaceCrlf(s[2..]);
      CrlfStep(s);
    } else if s == [] {
    } else if |s| >= 2 && IsHighSurrogate(s[0]) && IsLowSurrogate(s[1]) {
      CodePointCountReplaceCrlf(s[2..]);
      SurrogatePairStep(s);
    } else {
      CodePointCountReplaceCrlf(s[1..]);
      SingleUnitStep(s);
    }
  }
}
