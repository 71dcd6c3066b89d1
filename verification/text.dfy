/**
  The two Python string operations the label rules rely on: `str.strip()` with no
  argument, which removes leading and trailing whitespace as `str.isspace` defines it,
  and `str.lower()`, restricted here to the Latin letters (see LowerChar).
 */
module Text {

  /** Python's `str.isspace` on one character: the characters `str.strip()` removes. */
  predicate IsSpace(c: char) {
    || c == ' '
    || ('\t' <= c <= '\r')                    // \t \n \v \f \r
    || ('\U{1C}' <= c <= '\U{1F}')            // file, group, record and unit separators
    || c == '\U{85}' || c == '\U{A0}' || c == '\U{1680}'
    || ('\U{2000}' <= c <= '\U{200A}')
    || c == '\U{2028}' || c == '\U{2029}' || c == '\U{202F}' || c == '\U{205F}' || c == '\U{3000}'
  }

  predicate AllSpace(s: string) {
    forall k :: 0 <= k < |s| ==> IsSpace(s[k])
  }

  /** `s.lstrip()`: a suffix of `s` that does not start with whitespace (StripLeftRemovesSpace says what went). */
  function StripLeft(s: string): (r: string)
    ensures |r| <= |s|
    ensures r != [] ==> !IsSpace(r[0])
  {
    if s != [] && IsSpace(s[0]) then StripLeft(s[1..]) else s
  }

  /** What `s.lstrip()` keeps is a suffix of `s`. */
  lemma {:induction false} StripLeftIsSuffix(s: string)
    ensures StripLeft(s) == s[|s| - |StripLeft(s)|..]
    decreases |s|
  {
    if s != [] && IsSpace(s[0]) {
      StripLeftIsSuffix(s[1..]);
    }
  }

  /** `s.rstrip()`: a prefix of `s` that does not end with whitespace (StripRightRemovesSpace says what went). */
  function StripRight(s: string): (r: string)
    ensures |r| <= |s|
    ensures r != [] ==> !IsSpace(r[|r| - 1])
  {
    if s != [] && IsSpace(s[|s| - 1]) then StripRight(s[..|s| - 1]) else s
  }

  /** What `s.rstrip()` keeps is a prefix of `s`. */
  lemma {:induction false} StripRightIsPrefix(s: string)
    ensures StripRight(s) == s[..|StripRight(s)|]
    decreases |s|
  {
    if s != [] && IsSpace(s[|s| - 1]) {
      StripRightIsPrefix(s[..|s| - 1]);
    }
  }

  /** `s.lstrip()` removes whitespace only. */
  lemma {:induction false} StripLeftRemovesSpace(s: string)
    ensures AllSpace(s[..|s| - |StripLeft(s)|])
    decreases |s|
  {
    if s != [] && IsSpace(s[0]) {
      var t := s[1..];
      var r := StripLeft(t);
      StripLeftRemovesSpace(t);
      assert s[..|s| - |r|] == [s[0]] + t[..|t| - |r|];
      AllSpaceAppend([s[0]], t[..|t| - |r|]);
    }
  }

  /** `s.rstrip()` removes whitespace only. */
  lemma {:induction false} StripRightRemovesSpace(s: string)
    ensures AllSpace(s[|StripRight(s)|..])
    decreases |s|
  {
    if s != [] && IsSpace(s[|s| - 1]) {
      var t := s[..|s| - 1];
      var r := StripRight(t);
      StripRightRemovesSpace(t);
      assert s[|r|..] == t[|r|..] + [s[|s| - 1]];
      AllSpaceAppend(t[|r|..], [s[|s| - 1]]);
    }
  }

  /** A concatenation is all whitespace iff both parts are. */
  lemma AllSpaceAppend(a: string, b: string)
    ensures AllSpace(a + b) <==> AllSpace(a) && AllSpace(b)
  {
    if AllSpace(a) && AllSpace(b) {
      forall k | 0 <= k < |a + b| ensures IsSpace((a + b)[k]) {
        if k < |a| {
          assert (a + b)[k] == a[k];
        } else {
          assert (a + b)[k] == b[k - |a|];
        }
      }
    }
    if AllSpace(a + b) {
      assert forall k :: 0 <= k < |a| ==> (a + b)[k] == a[k];
      assert forall k :: 0 <= k < |b| ==> (a + b)[|a| + k] == b[k];
    }
  }

  /**
    `s.strip()`: `s` without the whitespace at both ends. It is empty exactly when
    `s` is all whitespace; StripIsTrimmedSlice and StripCutsOnlySpace say which slice
    of `s` it is.
   */
  function Strip(s: string): (r: string)
    ensures r == [] <==> AllSpace(s)
    ensures r != [] ==> !IsSpace(r[0]) && !IsSpace(r[|r| - 1])
  {
    var l := StripLeft(s);
    StripLeftEmptyIff(s);
    StripRightIsPrefix(l);
    StripRightRemovesSpace(l);
    assert StripRight(l) == [] ==> l[0..] == l;
    StripRight(l)
  }

  /** `s.lstrip()` is empty exactly when `s` is all whitespace. */
  lemma {:induction false} StripLeftEmptyIff(s: string)
    ensures StripLeft(s) == [] <==> AllSpace(s)
    decreases |s|
  {
    if s != [] {
      assert s == [s[0]] + s[1..];
      AllSpaceAppend([s[0]], s[1..]);
      if IsSpace(s[0]) {
        StripLeftEmptyIff(s[1..]);
      }
    }
  }

  /**
    `s.strip()` is the slice of `s` that starts where `s.lstrip()` starts: the
    characters before its first and after its last non-whitespace character are cut off.
   */
  lemma StripIsTrimmedSlice(s: string)
    ensures var i := |s| - |StripLeft(s)|; var j := i + |Strip(s)|;
      j <= |s| && Strip(s) == s[i..j]
  {
    var l := StripLeft(s);
    var i := |s| - |l|;
    var r := StripRight(l);
    assert Strip(s) == r;
    assert r == s[i..i + |r|] by {
      StripLeftIsSuffix(s);
      StripRightIsPrefix(l);
      assert s[i..][..|r|] == s[i..i + |r|];
    }
  }

  /** What `s.strip()` cuts off at either end of `s` is whitespace only. */
  lemma StripCutsOnlySpace(s: string)
    ensures var i := |s| - |StripLeft(s)|; var j := i + |Strip(s)|;
      j <= |s| && AllSpace(s[..i]) && AllSpace(s[j..])
  {
    var l := StripLeft(s);
    var i := |s| - |l|;
    var r := StripRight(l);
    assert Strip(s) == r;
    assert AllSpace(s[..i]) by {
      StripLeftRemovesSpace(s);
    }
    assert AllSpace(s[i + |r|..]) by {
      StripLeftIsSuffix(s);
      StripRightRemovesSpace(l);
      assert s[i + |r|..] == l[|r|..];
    }
  }

  /**
    Python's `str.lower()` on one character, for the Basic Latin, Latin-1 and
    Latin Extended-A blocks (which hold every Czech letter); every other character is
    returned unchanged. U+0130 (capital I with dot), whose lower case is two
    characters in Python, is also returned unchanged.
   */
  function LowerChar(c: char): char {
    var n := c as int;
    if 'A' <= c <= 'Z' then (n + 32) as char
    else if 0xC0 <= n <= 0xDE && n != 0xD7 then (n + 32) as char
    else if (0x100 <= n < 0x130 || 0x132 <= n < 0x138 || 0x14A <= n < 0x178) && n % 2 == 0 then (n + 1) as char
    else if (0x139 <= n < 0x149 || 0x179 <= n < 0x17F) && n % 2 == 1 then (n + 1) as char
    else if n == 0x178 then 0xFF as char
    else c
  }

  /** `s.lower()`: the character-wise lower case (LowerChar); it keeps the length and leaves no ASCII capital. */
  function Lower(s: string): (r: string)
    ensures |r| == |s|
    ensures forall k :: 0 <= k < |r| ==> !IsAsciiUpper(r[k])
  {
    seq(|s|, k requires 0 <= k < |s| => LowerChar(s[k]))
  }

  predicate IsAsciiUpper(c: char) {
    'A' <= c <= 'Z'
  }

  function UpperAscii(c: char): char {
    if 'a' <= c <= 'z' then (c as int - 32) as char else c
  }

  /** `t` spells `w` letter for letter, each ASCII letter in either case, with nothing around it. */
  predicate SameIgnoringAsciiCase(t: string, w: string) {
    |t| == |w| && forall k :: 0 <= k < |t| ==> t[k] == w[k] || t[k] == UpperAscii(w[k])
  }

  /** A word made of ASCII characters none of which is an upper-case letter (e.g. 'pouze vy'). */
  predicate AsciiLowerWord(w: string) {
    forall k :: 0 <= k < |w| ==> w[k] < '\U{80}' && !IsAsciiUpper(w[k])
  }

  /** Lower case never leaves an ASCII capital behind. */
  lemma LowerCharNotUpper(c: char)
    ensures !IsAsciiUpper(LowerChar(c))
  {
  }

  /** Lower-casing is idempotent: `s.lower().lower() == s.lower()`. */
  lemma {:induction false} LowerIdempotent(s: string)
    ensures Lower(Lower(s)) == Lower(s)
  {
  }

  /** A character is whitespace exactly when its lower case is. */
  lemma LowerCharKeepsSpace(c: char)
    ensures IsSpace(LowerChar(c)) <==> IsSpace(c)
  {
  }

  /**
    Which characters lower to a character of an ASCII lower-case word: the character
    itself, or its ASCII capital when it is a letter.
   */
  lemma LowerCharToAscii(c: char, x: char)
    requires x < '\U{80}' && !IsAsciiUpper(x)
    ensures LowerChar(c) == x <==> c == x || c == UpperAscii(x)
  {
  }

  /** For an ASCII lower-case word `w`, `t.lower() == w` iff `t` is `w` up to ASCII case. */
  lemma {:induction false} LowerEqualsAsciiWord(t: string, w: string)
    requires AsciiLowerWord(w)
    ensures Lower(t) == w <==> SameIgnoringAsciiCase(t, w)
  {
    if |t| == |w| {
      forall k | 0 <= k < |t| ensures LowerChar(t[k]) == w[k] <==> t[k] == w[k] || t[k] == UpperAscii(w[k]) {
        LowerCharToAscii(t[k], w[k]);
      }
      if SameIgnoringAsciiCase(t, w) {
        assert forall k :: 0 <= k < |t| ==> Lower(t)[k] == w[k];
      }
    }
  }

  lemma {:induction false} StripLeftLower(s: string)
    ensures StripLeft(Lower(s)) == Lower(StripLeft(s))
    decreases |s|
  {
    if s != [] {
      LowerCharKeepsSpace(s[0]);
      if IsSpace(s[0]) {
        assert Lower(s)[1..] == Lower(s[1..]);
        StripLeftLower(s[1..]);
      }
    }
  }

  lemma {:induction false} StripRightLower(s: string)
    ensures StripRight(Lower(s)) == Lower(StripRight(s))
    decreases |s|
  {
    if s != [] {
      LowerCharKeepsSpace(s[|s| - 1]);
      if IsSpace(s[|s| - 1]) {
        assert Lower(s)[..|s| - 1] == Lower(s[..|s| - 1]);
        StripRightLower(s[..|s| - 1]);
      }
    }
  }

  /**
    `s.lower().strip() == s.strip().lower()`: the order of the two calls in the label
    rules does not matter, because lower case maps whitespace to whitespace only.
   */
  lemma StripLowerCommute(s: string)
    ensures Strip(Lower(s)) == Lower(Strip(s))
  {
    StripLeftLower(s);
    StripRightLower(StripLeft(s));
  }

  lemma {:induction false} StripLeftOfSpaces(a: string, y: string)
    requires AllSpace(a)
    ensures StripLeft(a + y) == StripLeft(y)
    decreases |a|
  {
    if a != [] {
      assert (a + y)[0] == a[0] && (a + y)[1..] == a[1..] + y;
      StripLeftOfSpaces(a[1..], y);
    } else {
      assert a + y == y;
    }
  }

  lemma {:induction false} StripRightOfSpaces(y: string, b: string)
    requires AllSpace(b)
    ensures StripRight(y + b) == StripRight(y)
    decreases |b|
  {
    if b != [] {
      assert (y + b)[|y + b| - 1] == b[|b| - 1] && (y + b)[..|y + b| - 1] == y + b[..|b| - 1];
      StripRightOfSpaces(y, b[..|b| - 1]);
    } else {
      assert y + b == y;
    }
  }

  /** Left-stripping a concatenation: the tail is kept whole once a non-space is met. */
  lemma {:induction false} StripLeftAppend(x: string, b: string)
    ensures StripLeft(x + b) == if AllSpace(x) then StripLeft(b) else StripLeft(x) + b
    decreases |x|
  {
    if x == [] {
      assert x + b == b;
    } else if IsSpace(x[0]) {
      assert (x + b)[1..] == x[1..] + b;
      StripLeftAppend(x[1..], b);
      assert x == [x[0]] + x[1..];
      AllSpaceAppend([x[0]], x[1..]);
    } else {
      assert (x + b)[0] == x[0];
    }
  }

  /** Whitespace added around a text does not survive `strip()`. */
  lemma StripPadding(a: string, t: string, b: string)
    requires AllSpace(a) && AllSpace(b)
    ensures Strip(a + t + b) == Strip(t)
  {
    assert a + t + b == a + (t + b);
    StripLeftOfSpaces(a, t + b);
    StripLeftAppend(t, b);
    if AllSpace(t) {
      StripLeftEmptyIff(b);
      StripLeftEmptyIff(t);
    } else {
      StripRightOfSpaces(StripLeft(t), b);
    }
  }

  /** Lower-casing distributes over concatenation. */
  lemma LowerAppend(a: string, b: string)
    ensures Lower(a + b) == Lower(a) + Lower(b)
  {
    assert forall k :: 0 <= k < |a + b| ==> Lower(a + b)[k] == (Lower(a) + Lower(b))[k];
  }

  /** The lower case of whitespace is that same whitespace. */
  lemma LowerOfSpaces(a: string)
    requires AllSpace(a)
    ensures Lower(a) == a
  {
    assert forall k :: 0 <= k < |a| ==> Lower(a)[k] == a[k];
  }

}
