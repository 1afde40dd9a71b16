/** Character-level text predicates that the order form relies on:
    JavaScript's notion of white space (shared by String.prototype.trim and
    the regular-expression class \s), trim itself, and the two validation
    regular expressions written out as predicates over sequences of chars. */
module JsText {

  /** The WhiteSpace and LineTerminator code points of ECMAScript. Both
      String.prototype.trim and the regex class \s use exactly this set. */
  predicate IsJsWhitespace(c: char) {
    || c == '\t' || c == '\n' || c == '\U{000B}' || c == '\U{000C}' || c == '\r'
    || c == ' ' || c == '\U{00A0}' || c == '\U{1680}'
    || ('\U{2000}' <= c <= '\U{200A}')
    || c == '\U{2028}' || c == '\U{2029}' || c == '\U{202F}' || c == '\U{205F}'
    || c == '\U{3000}' || c == '\U{FEFF}'
  }

  /** Every character of s is white space (the empty string included). */
  predicate IsBlank(s: string) {
    forall k | 0 <= k < |s| :: IsJsWhitespace(s[k])
  }

  /** No character of s is white space. */
  predicate NoWhitespace(s: string) {
    forall k | 0 <= k < |s| :: !IsJsWhitespace(s[k])
  }

  /** Drops the leading white space. */
  function TrimStart(s: string): (r: string)
    ensures |r| <= |s|
    ensures r != [] ==> !IsJsWhitespace(r[0])
  {
    if s != [] && IsJsWhitespace(s[0]) then TrimStart(s[1..]) else s
  }

  /** Drops the trailing white space. */
  function TrimEnd(s: string): (r: string)
    ensures |r| <= |s|
    ensures r != [] ==> !IsJsWhitespace(r[|r| - 1])
  {
    if s != [] && IsJsWhitespace(s[|s| - 1]) then TrimEnd(s[..|s| - 1]) else s
  }

  /** What TrimStart removes is a blank prefix: the result is the rest of s. */
  lemma {:induction false} TrimStartIsSuffix(s: string)
    ensures var r := TrimStart(s); r == s[|s| - |r|..] && IsBlank(s[..|s| - |r|])
  {
    if s != [] && IsJsWhitespace(s[0]) {
      TrimStartIsSuffix(s[1..]);
      var r := TrimStart(s[1..]);
      assert s[1..][..|s[1..]| - |r|] == s[1..|s| - |r|];
    }
  }

  /** What TrimEnd removes is a blank suffix: the result is the start of s. */
  lemma {:induction false} TrimEndIsPrefix(s: string)
    ensures var r := TrimEnd(s); r == s[..|r|] && IsBlank(s[|r|..])
  {
    if s != [] && IsJsWhitespace(s[|s| - 1]) {
      TrimEndIsPrefix(s[..|s| - 1]);
      var r := TrimEnd(s[..|s| - 1]);
      assert s[..|s| - 1][|r|..] == s[|r|..|s| - 1];
    }
  }

  /** String.prototype.trim: white space removed from both ends. The result
      is empty exactly when s is blank, and otherwise neither starts nor
      ends with white space. */
  function Trim(s: string): (r: string)
    ensures |r| <= |s|
    ensures r == [] <==> IsBlank(s)
    ensures r != [] ==> !IsJsWhitespace(r[0]) && !IsJsWhitespace(r[|r| - 1])
  {
    var t := TrimStart(s);
    var r := TrimEnd(t);
    TrimEndIsPrefix(t);
    assert r != [] ==> r[0] == t[0];
    assert t == [] <==> IsBlank(s) by {
      TrimStartIsSuffix(s);
      assert t != [] ==> t[0] == s[|s| - |t|];
      assert t == [] ==> s[..|s|] == s;
    }
    assert r == [] <==> t == [] by {
      assert t == t[0..];
    }
    r
  }

  /** Trim keeps a contiguous slice of s and removes only white space around it. */
  lemma TrimIsInnerSlice(s: string)
    ensures var r := Trim(s);
      exists i | 0 <= i <= |s| - |r| ::
        r == s[i..i + |r|] && IsBlank(s[..i]) && IsBlank(s[i + |r|..])
  {
    var t := TrimStart(s);
    var r := TrimEnd(t);
    TrimStartIsSuffix(s);
    TrimEndIsPrefix(t);
    var i := |s| - |t|;
    assert r == s[i..i + |r|];
    assert IsBlank(s[i + |r|..]) by {
      assert s[i + |r|..] == t[|r|..];
    }
  }

  /** Number of occurrences of c in s. */
  function Count(s: string, c: char): nat {
    if s == [] then 0 else (if s[0] == c then 1 else 0) + Count(s[1..], c)
  }

  lemma {:induction false} CountAppend(a: string, b: string, c: char)
    ensures Count(a + b, c) == Count(a, c) + Count(b, c)
  {
    if a == [] {
      assert a + b == b;
    } else {
      assert (a + b)[1..] == a[1..] + b;
      CountAppend(a[1..], b, c);
    }
  }

  lemma {:induction false} CountPositive(s: string, c: char)
    ensures Count(s, c) > 0 <==> c in s
  {
    if s != [] {
      CountPositive(s[1..], c);
      assert s == [s[0]] + s[1..];
    }
  }

  /** Two distinct positions holding c make c occur at least twice. */
  lemma CountTwo(s: string, c: char, i: nat, j: nat)
    requires i < j < |s| && s[i] == c && s[j] == c
    ensures Count(s, c) >= 2
  {
    assert s == s[..j] + s[j..];
    CountAppend(s[..j], s[j..], c);
    assert s[..j][i] == c;
    assert s[j..][0] == c;
    CountPositive(s[..j], c);
    CountPositive(s[j..], c);
  }

  // ---------------------------------------------------------------------
  // The phone pattern ^[\d\s\+\-\(\)]+$

  /** A character of the class [\d\s\+\-\(\)]: \d is the ASCII digits only. */
  predicate IsPhoneChar(c: char) {
    ('0' <= c <= '9') || IsJsWhitespace(c) || c == '+' || c == '-' || c == '(' || c == ')'
  }

  /** The phone regular expression accepts s: one or more phone characters. */
  predicate PhonePattern(s: string) {
    |s| > 0 && forall k | 0 <= k < |s| :: IsPhoneChar(s[k])
  }

  /** The quantifier + of the phone pattern: one phone character, followed
      either by nothing or by another string the pattern accepts. */
  lemma {:induction false} PhonePatternIsOneOrMore(s: string)
    ensures PhonePattern(s) <==> |s| > 0 && IsPhoneChar(s[0]) && (|s| == 1 || PhonePattern(s[1..]))
  {
    if |s| > 1 && IsPhoneChar(s[0]) && PhonePattern(s[1..]) {
      forall k | 0 <= k < |s| ensures IsPhoneChar(s[k]) {
        if k > 0 { assert s[1..][k - 1] == s[k]; }
      }
    }
  }

  // ---------------------------------------------------------------------
  // The email pattern ^[^\s@]+@[^\s@]+\.[^\s@]+$

  /** A character of the class [^\s@]. */
  predicate IsEmailChar(c: char) {
    !IsJsWhitespace(c) && c != '@'
  }

  predicate AllEmailChars(s: string) {
    forall k | 0 <= k < |s| :: IsEmailChar(s[k])
  }

  /** Positions at and dot split s as ^[^\s@]+@[^\s@]+\.[^\s@]+$ does: three
      non-empty runs of [^\s@] separated by that '@' and that '.'. */
  predicate EmailSplit(s: string, at: int, dot: int) {
    && AtThenDot(s, at, dot)
    && AllEmailChars(s[..at]) && AllEmailChars(s[at + 1..dot]) && AllEmailChars(s[dot + 1..])
  }

  /** Whichever split the matcher takes, the '@' it splits at is the same:
      the first run and the middle run hold no '@'. */
  lemma EmailSplitAtUnique(s: string, at1: int, dot1: int, at2: int, dot2: int)
    requires EmailSplit(s, at1, dot1) && EmailSplit(s, at2, dot2)
    ensures at1 == at2
  {
    if at1 < at2 {
      EmailCharsHoldNoAt(s, at1, dot1, at2);
    } else if at2 < at1 {
      EmailCharsHoldNoAt(s, at2, dot2, at1);
    }
  }

  /** After a split at (at, dot), no later position holds an '@'. */
  lemma EmailCharsHoldNoAt(s: string, at: int, dot: int, k: int)
    requires EmailSplit(s, at, dot) && at < k < |s|
    ensures s[k] != '@'
  {
    if k < dot {
      assert s[at + 1..dot][k - at - 1] == s[k];
    } else if k > dot {
      assert s[dot + 1..][k - dot - 1] == s[k];
    }
  }

  /** The email regular expression accepts s: some choice of the '@' and of
      the '.' splits s as the pattern requires (the backtracking matcher
      tries every such choice). */
  predicate EmailPattern(s: string) {
    exists at, dot | 0 < at < dot < |s| :: EmailSplit(s, at, dot)
  }

  /** An '@' at position at and a '.' at position dot, with at least one
      character before the '@', between the two, and after the '.'. */
  predicate AtThenDot(s: string, at: int, dot: int) {
    0 < at && at + 1 < dot < |s| - 1 && s[at] == '@' && s[dot] == '.'
  }

  /** The same language described by its characters: no white space, exactly
      one '@' with something before it, and a '.' after the '@' with at least
      one character on each side of it. */
  predicate WellFormedEmail(s: string) {
    && NoWhitespace(s)
    && Count(s, '@') == 1
    && exists at, dot | 0 < at < dot < |s| :: AtThenDot(s, at, dot)
  }

  lemma EmailPatternIsWellFormed(s: string)
    ensures EmailPattern(s) <==> WellFormedEmail(s)
  {
    if EmailPattern(s) {
      var at, dot :| 0 < at < dot < |s| && EmailSplit(s, at, dot);
      EmailPatternParts(s, at, dot);
    }
    if WellFormedEmail(s) {
      var at, dot :| 0 < at < dot < |s| && AtThenDot(s, at, dot);
      forall k | 0 <= k < |s| && k != at ensures s[k] != '@' {
        if s[k] == '@' {
          if k < at { CountTwo(s, '@', k, at); } else { CountTwo(s, '@', at, k); }
        }
      }
      assert AllEmailChars(s[..at]) by {
        forall k | 0 <= k < at ensures IsEmailChar(s[..at][k]) { assert s[..at][k] == s[k]; }
      }
      assert AllEmailChars(s[at + 1..dot]) by {
        forall k | at + 1 <= k < dot ensures IsEmailChar(s[k]) { }
      }
      assert AllEmailChars(s[dot + 1..]) by {
        forall k | dot + 1 <= k < |s| ensures IsEmailChar(s[k]) { }
      }
      assert EmailSplit(s, at, dot);
    }
  }

  /** A split accepted by the email regex yields the character-level facts. */
  lemma EmailPatternParts(s: string, at: nat, dot: nat)
    requires EmailSplit(s, at, dot)
    ensures WellFormedEmail(s)
  {
    var a, b, c := s[..at], s[at + 1..dot], s[dot + 1..];
    assert s == a + [s[at]] + b + [s[dot]] + c;
    forall k | 0 <= k < |s| ensures !IsJsWhitespace(s[k]) {
      if k < at { assert a[k] == s[k]; }
      else if at < k < dot { assert b[k - at - 1] == s[k]; }
      else if dot < k { assert c[k - dot - 1] == s[k]; }
    }
    CountAppend(a + [s[at]] + b + [s[dot]], c, '@');
    CountAppend(a + [s[at]] + b, [s[dot]], '@');
    CountAppend(a + [s[at]], b, '@');
    CountAppend(a, [s[at]], '@');
    CountPositive(a, '@');
    CountPositive(b, '@');
    CountPositive(c, '@');
    assert Count([s[dot]], '@') == 0 by { assert [s[dot]][1..] == []; }
    assert Count([s[at]], '@') == 1 by { assert [s[at]][1..] == []; }
    assert AtThenDot(s, at, dot);
  }
}
