/** The Python `str` operations the generator relies on, with Python's
    semantics: `strip()`, `upper()`, `lower()`, `split(sep)` and the decimal
    rendering of a non-negative integer inside an f-string. */
module Text {

  /** Python's `str.isspace()` for one character: the characters `strip()`
      with no argument removes. */
  predicate IsSpace(c: char) {
    || ('\t' <= c <= '\r')
    || ('\U{1C}' <= c <= ' ')
    || c == '\U{85}' || c == '\U{A0}' || c == '\U{1680}'
    || ('\U{2000}' <= c <= '\U{200A}')
    || c == '\U{2028}' || c == '\U{2029}' || c == '\U{202F}' || c == '\U{205F}' || c == '\U{3000}'
  }

  /** Neither end of `s` is whitespace: the strings `strip()` leaves unchanged. */
  predicate Trimmed(s: string) {
    s == [] || (!IsSpace(s[0]) && !IsSpace(s[|s| - 1]))
  }

  /** Leading whitespace removed: the longest suffix of `s` not starting with whitespace. */
  function TrimStart(s: string): (r: string)
    ensures |r| <= |s| && r == s[|s| - |r|..]
    ensures forall k :: 0 <= k < |s| - |r| ==> IsSpace(s[k])
    ensures r == [] || !IsSpace(r[0])
  {
    if |s| > 0 && IsSpace(s[0]) then TrimStart(s[1..]) else s
  }

  /** Trailing whitespace removed: the longest prefix of `s` not ending with whitespace. */
  function TrimEnd(s: string): (r: string)
    ensures |r| <= |s| && r == s[..|r|]
    ensures forall k :: |r| <= k < |s| ==> IsSpace(s[k])
    ensures r == [] || !IsSpace(r[|r| - 1])
  {
    if |s| > 0 && IsSpace(s[|s| - 1]) then TrimEnd(s[..|s| - 1]) else s
  }

  /** Python's `s.strip()`. */
  function Strip(s: string): (r: string)
  {
    TrimEnd(TrimStart(s))
  }

  /** `strip()` returns the infix of `s` that starts at the returned offset, with
      only whitespace before and after it, and nothing at its ends is whitespace. */
  lemma StripIsInfix(s: string) returns (i: nat)
    ensures i + |Strip(s)| <= |s| && Strip(s) == s[i..i + |Strip(s)|]
    ensures forall k :: 0 <= k < i ==> IsSpace(s[k])
    ensures forall k :: i + |Strip(s)| <= k < |s| ==> IsSpace(s[k])
    ensures Trimmed(Strip(s))
  {
    var t := TrimStart(s);
    i := |s| - |t|;
    InfixOfInfix(s, t, TrimEnd(t), i);
    StripEnds(s);
  }

  /** A prefix `r` of the suffix `t` of `s` that starts at `i`, with only
      whitespace before `t` and after `r` in `t`, sits at `i` in `s` with only
      whitespace around it. */
  lemma InfixOfInfix(s: string, t: string, r: string, i: nat)
    requires i <= |s| && t == s[i..] && |r| <= |t| && r == t[..|r|]
    requires forall k :: |r| <= k < |t| ==> IsSpace(t[k])
    ensures i + |r| <= |s| && r == s[i..i + |r|]
    ensures forall k :: i + |r| <= k < |s| ==> IsSpace(s[k])
  {
    forall k | i + |r| <= k < |s|
      ensures IsSpace(s[k])
    {
      assert s[k] == t[k - i];
    }
  }

  /** Neither end of a stripped string is whitespace. */
  lemma StripEnds(s: string)
    ensures Trimmed(Strip(s))
  {
    var t := TrimStart(s);
    var r := TrimEnd(t);
    if r != [] {
      assert r[0] == t[0];
    }
  }

  /** A string with no whitespace at either end is left unchanged by `strip()`. */
  lemma {:induction false} StripTrimmed(s: string)
    requires Trimmed(s)
    ensures Strip(s) == s
  {
  }

  /** `strip()` removes only characters: a character absent from `s` is absent from the result. */
  lemma StripKeepsAbsence(s: string, c: char)
    requires c !in s
    ensures c !in Strip(s)
  {
    var i := StripIsInfix(s);
    var r := Strip(s);
    forall k | 0 <= k < |r|
      ensures r[k] != c
    {
      assert r[k] == s[i + k];
    }
  }

  /** An ASCII lower-case letter. */
  predicate IsLowerLetter(c: char) {
    'a' <= c <= 'z'
  }

  /** An ASCII upper-case letter. */
  predicate IsUpperLetter(c: char) {
    'A' <= c <= 'Z'
  }

  /** ASCII upper-casing of one character. */
  function UpperChar(c: char): char {
    if IsLowerLetter(c) then (c as int - 32) as char else c
  }

  /** ASCII lower-casing of one character. */
  function LowerChar(c: char): char {
    if IsUpperLetter(c) then (c as int + 32) as char else c
  }

  /** Two characters equal up to ASCII case. */
  predicate SameIgnoringCase(a: char, b: char) {
    a == b
    || (IsLowerLetter(a) && b as int == a as int - 32)
    || (IsUpperLetter(a) && b as int == a as int + 32)
  }

  /** Python's `s.upper()` restricted to ASCII letters: the same text up to
      case, character by character, with no lower-case letter left and every
      other character kept. */
  function Upper(s: string): (r: string)
    ensures |r| == |s|
    ensures forall i :: 0 <= i < |s| ==> SameIgnoringCase(s[i], r[i])
    ensures forall i :: 0 <= i < |s| ==> !IsLowerLetter(r[i])
    ensures forall i :: 0 <= i < |s| && !IsLowerLetter(s[i]) ==> r[i] == s[i]
  {
    seq(|s|, i requires 0 <= i < |s| => UpperChar(s[i]))
  }

  /** Python's `s.lower()` restricted to ASCII letters: the same text up to
      case, character by character, with no upper-case letter left and every
      other character kept. */
  function Lower(s: string): (r: string)
    ensures |r| == |s|
    ensures forall i :: 0 <= i < |s| ==> SameIgnoringCase(s[i], r[i])
    ensures forall i :: 0 <= i < |s| ==> !IsUpperLetter(r[i])
    ensures forall i :: 0 <= i < |s| && !IsUpperLetter(s[i]) ==> r[i] == s[i]
  {
    seq(|s|, i requires 0 <= i < |s| => LowerChar(s[i]))
  }

  /** Upper-casing a lower-cased string gives the upper-cased original: the
      case information `lower()` drops is exactly what `upper()` ignores. */
  lemma UpperOfLower(s: string)
    ensures Upper(Lower(s)) == Upper(s)
  {
    forall i | 0 <= i < |s|
      ensures Upper(Lower(s))[i] == Upper(s)[i]
    {
      var c := s[i];
      if IsUpperLetter(c) {
        assert LowerChar(c) as int == c as int + 32;
      }
    }
  }

  /** Upper-casing twice is upper-casing once. */
  lemma UpperIdempotent(s: string)
    ensures Upper(Upper(s)) == Upper(s)
  {
    forall i | 0 <= i < |s|
      ensures Upper(Upper(s))[i] == Upper(s)[i]
    {
      var c := s[i];
      if IsLowerLetter(c) {
        assert UpperChar(c) as int == c as int - 32;
      }
    }
  }

  /** Upper-casing neither creates nor removes whitespace. */
  lemma UpperCharKeepsSpace(c: char)
    ensures IsSpace(UpperChar(c)) <==> IsSpace(c)
  {
    if IsLowerLetter(c) {
      assert IsUpperLetter(UpperChar(c));
    }
  }

  /** Case mapping leaves every character that is not an ASCII letter where it was,
      so such a character occurs in `Upper(s)` or `Lower(s)` exactly when it occurs in `s`. */
  lemma CaseKeepsNonLetters(s: string, c: char)
    requires !IsLowerLetter(c) && !IsUpperLetter(c)
    ensures c in Upper(s) <==> c in s
    ensures c in Lower(s) <==> c in s
  {
    if c in s {
      var i :| 0 <= i < |s| && s[i] == c;
      assert Upper(s)[i] == c && Lower(s)[i] == c;
    }
    if c in Upper(s) {
      var i :| 0 <= i < |s| && Upper(s)[i] == c;
      assert s[i] == c;
    }
    if c in Lower(s) {
      var i :| 0 <= i < |s| && Lower(s)[i] == c;
      assert s[i] == c;
    }
  }

  /** Python's `s.split(sep)` for a one-character separator: always at least one
      piece, and no piece contains the separator. */
  function Split(s: string, sep: char): (parts: seq<string>)
    ensures |parts| >= 1
    ensures forall i :: 0 <= i < |parts| ==> sep !in parts[i]
    decreases |s|
  {
    if |s| == 0 then [""]
    else
      var rest := Split(s[1..], sep);
      if s[0] == sep then [""] + rest
      else [[s[0]] + rest[0]] + rest[1..]
  }

  /** Python's `sep.join(parts)`. */
  function Join(parts: seq<string>, sep: char): string
    requires |parts| >= 1
    decreases |parts|
  {
    if |parts| == 1 then parts[0] else parts[0] + [sep] + Join(parts[1..], sep)
  }

  /** Joining the pieces of a split restores the original string. */
  lemma {:induction false} JoinSplit(s: string, sep: char)
    ensures Join(Split(s, sep), sep) == s
    decreases |s|
  {
    if |s| > 0 {
      var rest := Split(s[1..], sep);
      JoinSplit(s[1..], sep);
      if s[0] == sep {
        assert ([""] + rest)[1..] == rest;
      } else {
        var parts := [[s[0]] + rest[0]] + rest[1..];
        assert parts[1..] == rest[1..];
        if |rest| > 1 {
          assert Join(rest, sep) == rest[0] + [sep] + Join(rest[1..], sep);
        }
        assert s == [s[0]] + s[1..];
      }
    }
  }

  /** A string without the separator splits into itself alone. */
  lemma {:induction false} SplitNoSeparator(s: string, sep: char)
    requires sep !in s
    ensures Split(s, sep) == [s]
    decreases |s|
  {
    if |s| > 0 {
      assert sep !in s[1..];
      SplitNoSeparator(s[1..], sep);
      assert s == [s[0]] + s[1..];
    }
  }

  /** Splitting `a + sep + b` where `a` holds no separator yields `a` followed by the pieces of `b`. */
  lemma {:induction false} SplitAfterPiece(a: string, b: string, sep: char)
    requires sep !in a
    ensures Split(a + [sep] + b, sep) == [a] + Split(b, sep)
    decreases |a|
  {
    var s := a + [sep] + b;
    if |a| == 0 {
      assert s[1..] == b;
    } else {
      assert s[1..] == a[1..] + [sep] + b;
      assert sep !in a[1..];
      SplitAfterPiece(a[1..], b, sep);
      assert a == [a[0]] + a[1..];
    }
  }

  /** The last piece of `a + sep + b`, when `b` holds no separator, is `b`. */
  lemma {:induction false} SplitLastPiece(a: string, b: string, sep: char)
    requires sep !in b
    ensures |Split(a + [sep] + b, sep)| >= 2
    ensures Split(a + [sep] + b, sep)[|Split(a + [sep] + b, sep)| - 1] == b
    decreases |a|
  {
    var s := a + [sep] + b;
    if |a| == 0 {
      assert s[1..] == b;
      SplitNoSeparator(b, sep);
    } else {
      assert s[1..] == a[1..] + [sep] + b;
      SplitLastPiece(a[1..], b, sep);
    }
  }

  /** Splitting a join of separator-free pieces gives the pieces back. */
  lemma {:induction false} SplitJoin(parts: seq<string>, sep: char)
    requires |parts| >= 1
    requires forall i :: 0 <= i < |parts| ==> sep !in parts[i]
    ensures Split(Join(parts, sep), sep) == parts
    decreases |parts|
  {
    if |parts| == 1 {
      SplitNoSeparator(parts[0], sep);
    } else {
      SplitJoin(parts[1..], sep);
      SplitAfterPiece(parts[0], Join(parts[1..], sep), sep);
      assert parts == [parts[0]] + parts[1..];
    }
  }

  /** The character for a decimal digit. */
  function DigitChar(d: nat): char
    requires d < 10
  {
    ('0' as int + d) as char
  }

  predicate IsDigit(c: char) {
    '0' as int <= c as int <= '9' as int
  }

  /** Decimal rendering of a non-negative integer, as `f"{n}"` prints it. */
  function Decimal(n: nat): (r: string)
    ensures |r| >= 1
    ensures forall i :: 0 <= i < |r| ==> IsDigit(r[i])
    ensures r[0] == '0' ==> n == 0
  {
    if n < 10 then [DigitChar(n)] else Decimal(n / 10) + [DigitChar(n % 10)]
  }

  /** The value of a string of decimal digits, as Python's `int(s)` reads it. */
  function DecimalValue(s: string): nat
    requires forall i :: 0 <= i < |s| ==> IsDigit(s[i])
  {
    if |s| == 0 then 0
    else
      assert IsDigit(s[|s| - 1]);
      DecimalValue(s[..|s| - 1]) * 10 + (s[|s| - 1] as int - '0' as int)
  }

  /** Reading back a rendered number gives the number. */
  lemma {:induction false} DecimalRoundTrip(n: nat)
    ensures DecimalValue(Decimal(n)) == n
  {
    if n >= 10 {
      DecimalRoundTrip(n / 10);
      var r := Decimal(n);
      assert r[..|r| - 1] == Decimal(n / 10);
    }
  }
}
