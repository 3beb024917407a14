/** The few JavaScript string semantics the application's logic relies on:
    the white-space class of `\s` and `trim`, `replace(/\s+/g, '')`,
    `includes`, ASCII case mapping, the `||` fallback on strings and the
    decimal rendering of a non-negative integer in a template literal.
    A `string` here holds one `char` per UTF-16 code unit. */
module JsString {
  import opened Wrappers

  /** White space as JavaScript's `\s` and `String.prototype.trim` see it:
      TAB through CR, SPACE, NO-BREAK SPACE, the Unicode space separators,
      the line and paragraph separators and the byte-order mark. */
  predicate IsWhitespace(c: char)
  {
    c == ' ' || ('\t' <= c <= '\r') || c == '\U{A0}' || c == '\U{1680}'
    || ('\U{2000}' <= c <= '\U{200A}') || c == '\U{2028}' || c == '\U{2029}'
    || c == '\U{202F}' || c == '\U{205F}' || c == '\U{3000}' || c == '\U{FEFF}'
  }

  /** The ASCII digits, which is what `\d` matches without the `u` flag. */
  predicate IsDigit(c: char)
  {
    '0' <= c <= '9'
  }

  predicate AllDigits(s: string)
  {
    forall i | 0 <= i < |s| :: IsDigit(s[i])
  }

  predicate IsBlank(s: string)
  {
    forall i | 0 <= i < |s| :: IsWhitespace(s[i])
  }

  predicate HasNoWhitespace(s: string)
  {
    forall i | 0 <= i < |s| :: !IsWhitespace(s[i])
  }

  /** `s.replace(/\s+/g, '')`: every white-space character is dropped and
      the others keep their order. */
  function RemoveWhitespace(s: string): (r: string)
    ensures |r| <= |s|
    ensures HasNoWhitespace(r)
    ensures multiset(r) <= multiset(s)
    ensures HasNoWhitespace(s) ==> r == s
  {
    if s == [] then []
    else
      assert s == [s[0]] + s[1..];
      if IsWhitespace(s[0]) then RemoveWhitespace(s[1..])
      else [s[0]] + RemoveWhitespace(s[1..])
  }

  lemma {:induction false} RemoveWhitespaceAppend(a: string, b: string)
    ensures RemoveWhitespace(a + b) == RemoveWhitespace(a) + RemoveWhitespace(b)
    decreases |a|
  {
    if a != [] {
      var c := a[0];
      var keep: string := if IsWhitespace(c) then [] else [c];
      assert a + b == [c] + (a[1..] + b);
      assert a == [c] + a[1..];
      RemoveWhitespaceCons(c, a[1..] + b);
      RemoveWhitespaceCons(c, a[1..]);
      RemoveWhitespaceAppend(a[1..], b);
      assert keep + (RemoveWhitespace(a[1..]) + RemoveWhitespace(b))
          == (keep + RemoveWhitespace(a[1..])) + RemoveWhitespace(b);
    } else {
      assert a + b == b;
    }
  }

  lemma RemoveWhitespaceCons(c: char, t: string)
    ensures RemoveWhitespace([c] + t) == (if IsWhitespace(c) then [] else [c]) + RemoveWhitespace(t)
  {
    assert ([c] + t)[0] == c && ([c] + t)[1..] == t;
  }

  /** The number of white-space characters `s` starts with. */
  function LeadingWhitespace(s: string): (k: nat)
    ensures k <= |s|
    ensures forall i | 0 <= i < k :: IsWhitespace(s[i])
    ensures k == |s| || !IsWhitespace(s[k])
  {
    if s != [] && IsWhitespace(s[0]) then 1 + LeadingWhitespace(s[1..]) else 0
  }

  /** The length of `s` once its white-space tail is cut off. */
  function EndBeforeTrailingWhitespace(s: string): (k: nat)
    ensures k <= |s|
    ensures forall i | k <= i < |s| :: IsWhitespace(s[i])
    ensures k == 0 || !IsWhitespace(s[k - 1])
  {
    if s != [] && IsWhitespace(s[|s| - 1]) then EndBeforeTrailingWhitespace(s[..|s| - 1])
    else |s|
  }

  /** `s.trim()`: white space removed from both ends and nowhere else. */
  function Trim(s: string): (r: string)
    ensures |r| <= |s|
    ensures r == [] || (!IsWhitespace(r[0]) && !IsWhitespace(r[|r| - 1]))
    ensures r == [] <==> IsBlank(s)
    ensures multiset(r) <= multiset(s)
  {
    var t := s[LeadingWhitespace(s)..];
    var r := t[..EndBeforeTrailingWhitespace(t)];
    TrimParts(s, t, r);
    r
  }

  lemma TrimUnfold(s: string)
    ensures Trim(s) == s[LeadingWhitespace(s)..][..EndBeforeTrailingWhitespace(s[LeadingWhitespace(s)..])]
  {
  }

  lemma SliceOfSlice<T>(s: seq<T>, a: nat, e: nat)
    requires a + e <= |s|
    ensures s[a..][..e] == s[a..a + e]
  {
  }

  lemma TrimParts(s: string, t: string, r: string)
    requires t == s[LeadingWhitespace(s)..]
    requires r == t[..EndBeforeTrailingWhitespace(t)]
    ensures r == [] || (!IsWhitespace(r[0]) && !IsWhitespace(r[|r| - 1]))
    ensures r == [] <==> IsBlank(s)
    ensures multiset(r) <= multiset(s)
  {
    var a := LeadingWhitespace(s);
    var b := EndBeforeTrailingWhitespace(t);
    if r != [] {
      assert r[0] == s[a];
    }
    if t != [] {
      assert t[0] == s[a];
    }
    assert s == s[..a] + t;
    assert t == r + t[b..];
    assert multiset(s) == multiset(s[..a]) + multiset(t);
    assert multiset(t) == multiset(r) + multiset(t[b..]);
  }

  /** A string with no white space at either end is its own trim. */
  lemma TrimOfTrimmed(s: string)
    requires s == [] || (!IsWhitespace(s[0]) && !IsWhitespace(s[|s| - 1]))
    ensures Trim(s) == s
  {
  }

  lemma TrimIdempotent(s: string)
    ensures Trim(Trim(s)) == Trim(s)
  {
    var r := Trim(s);
    assert r == [] || (!IsWhitespace(r[0]) && !IsWhitespace(r[|r| - 1]));
    TrimOfTrimmed(r);
  }

  predicate IsPrefix(p: string, s: string)
  {
    |p| <= |s| && s[..|p|] == p
  }

  /** `s.includes(sub)`: `sub` occurs at some position of `s`. */
  predicate Contains(s: string, sub: string)
    decreases |s|
  {
    IsPrefix(sub, s) || (s != [] && Contains(s[1..], sub))
  }

  /** A string in which the first two characters of `sub` never stand side
      by side does not contain `sub`. */
  lemma {:induction false} NotContainsWithoutPair(s: string, sub: string)
    requires |sub| >= 2
    requires forall i | 0 <= i < |s| - 1 :: !(s[i] == sub[0] && s[i + 1] == sub[1])
    ensures !Contains(s, sub)
    decreases |s|
  {
    assert !IsPrefix(sub, s) by {
      if |sub| <= |s| {
        assert s[..|sub|][0] == s[0] && s[..|sub|][1] == s[1];
      }
    }
    if s != [] {
      var t := s[1..];
      forall i | 0 <= i < |t| - 1
        ensures !(t[i] == sub[0] && t[i + 1] == sub[1])
      {
        assert t[i] == s[i + 1] && t[i + 1] == s[i + 2];
      }
      NotContainsWithoutPair(s[1..], sub);
    }
  }

  /** JavaScript's `a || fallback` on an optional string: an absent and an
      empty string are both falsy. */
  function Or(a: Option<string>, fallback: string): string
  {
    if a.Some? && a.value != [] then a.value else fallback
  }

  predicate IsTruthy(a: Option<string>)
  {
    a.Some? && a.value != []
  }

  function UpperAscii(c: char): char
  {
    if 'a' <= c <= 'z' then (c as int - 32) as char else c
  }

  function LowerAscii(c: char): char
  {
    if 'A' <= c <= 'Z' then (c as int + 32) as char else c
  }

  /** `s.toUpperCase()`, restricted to the ASCII letters. */
  function ToUpper(s: string): (r: string)
    ensures |r| == |s|
    ensures forall i | 0 <= i < |s| :: r[i] == UpperAscii(s[i])
  {
    seq(|s|, i requires 0 <= i < |s| => UpperAscii(s[i]))
  }

  function DigitChar(d: nat): (c: char)
    requires d < 10
    ensures IsDigit(c)
  {
    ('0' as int + d) as char
  }

  function DigitValue(c: char): (d: nat)
    requires IsDigit(c)
    ensures d < 10
  {
    c as int - '0' as int
  }

  /** The value of a decimal numeral, read left to right. */
  function ParseDecimal(s: string): nat
    requires AllDigits(s)
  {
    if s == [] then 0
    else ParseDecimal(s[..|s| - 1]) * 10 + DigitValue(s[|s| - 1])
  }

  /** `${n}` for a non-negative integer: its decimal numeral, which has no
      leading zero unless it is the numeral of zero. */
  function NatToString(n: nat): (r: string)
    ensures |r| >= 1 && AllDigits(r)
    ensures r[0] == '0' ==> n == 0
  {
    if n < 10 then [DigitChar(n)]
    else NatToString(n / 10) + [DigitChar(n % 10)]
  }

  /** Reading the rendered numeral back gives the number: the rendering
      loses nothing. */
  lemma {:induction false} NatToStringRoundTrip(n: nat)
    ensures ParseDecimal(NatToString(n)) == n
  {
    var r := NatToString(n);
    if n >= 10 {
      NatToStringRoundTrip(n / 10);
      assert r[..|r| - 1] == NatToString(n / 10);
    }
  }

  lemma NatToStringInjective(m: nat, n: nat)
    requires NatToString(m) == NatToString(n)
    ensures m == n
  {
    NatToStringRoundTrip(m);
    NatToStringRoundTrip(n);
  }

  /** `Number(s)` for the strings the model reads as numerals: white space
      around an optional sign and ASCII decimal digits, and a blank string,
      which is zero. None stands for NaN. */
  function StringToNumber(s: string): Option<int>
  {
    var t := Trim(s);
    if t == [] then Some(0)
    else if (t[0] == '+' || t[0] == '-') && |t| >= 2 && AllDigits(t[1..]) then
      var v: int := ParseDecimal(t[1..]);
      Some(if t[0] == '-' then -v else v)
    else if AllDigits(t) then Some(ParseDecimal(t))
    else None
  }

  /** A rendered numeral converts back to its number. */
  lemma NumeralToNumber(n: nat)
    ensures StringToNumber(NatToString(n)) == Some(n)
  {
    var r := NatToString(n);
    assert !IsWhitespace(r[0]) && !IsWhitespace(r[|r| - 1]);
    TrimOfTrimmed(r);
    NatToStringRoundTrip(n);
  }

  /** A string that starts with anything but white space, a sign or a digit
      is not a numeral. */
  lemma {:induction false} LetterLedIsNaN(s: string)
    requires s != [] && !IsWhitespace(s[0]) && !IsDigit(s[0]) && s[0] != '+' && s[0] != '-'
    ensures StringToNumber(s) == None
  {
    TrimUnfold(s);
    assert LeadingWhitespace(s) == 0;
    assert s[0..] == s;
    var e := EndBeforeTrailingWhitespace(s);
    assert e >= 1;
    assert Trim(s)[0] == s[0];
  }

  /** A string never contains one longer than itself. */
  lemma {:induction false} LongerNeverContained(s: string, sub: string)
    requires |sub| > |s|
    ensures !Contains(s, sub)
    decreases |s|
  {
    if s != [] {
      LongerNeverContained(s[1..], sub);
    }
  }
}
