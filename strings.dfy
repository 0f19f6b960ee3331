/**
 * String helpers with the semantics of the JavaScript built-ins the dashboard
 * relies on: `split(/[-/]/)`, `split('T')[0]`, `trim`, `parseInt(s, 10)`,
 * `padStart(2, '0')`, `toLowerCase`, `includes`, `replace(/x/g, y)` and the
 * relational operators on strings.
 */
module Strings {
  import opened Options

  // ---------------------------------------------------------------------------
  // Character classes

  /** An ECMAScript WhiteSpace or LineTerminator code point: what `trim`, `parseInt` and `\s` skip. */
  predicate IsSpace(c: char) {
    c == '\t' || c == '\n' || c == '\U{000B}' || c == '\U{000C}' || c == '\r' || c == ' ' ||
    c == '\U{00A0}' || c == '\U{1680}' || ('\U{2000}' <= c <= '\U{200A}') ||
    c == '\U{2028}' || c == '\U{2029}' || c == '\U{202F}' || c == '\U{205F}' ||
    c == '\U{3000}' || c == '\U{FEFF}'
  }

  /** The regex class `\d` without the `u` flag: ASCII digits only. */
  predicate IsDigit(c: char) {
    '0' <= c <= '9'
  }

  predicate AllDigits(s: string) {
    forall i :: 0 <= i < |s| ==> IsDigit(s[i])
  }

  function DigitChar(n: nat): (c: char)
    requires n < 10
    ensures IsDigit(c)
  {
    ('0' as int + n) as char
  }

  // ---------------------------------------------------------------------------
  // Decimal numerals

  /** The value of a string of decimal digits, most significant first. */
  function DigitsValue(s: string): nat
    requires AllDigits(s)
  {
    if s == [] then 0 else 10 * DigitsValue(s[..|s| - 1]) + (s[|s| - 1] as int - '0' as int)
  }

  /** `String(n)` for a non-negative integer: its decimal numeral without leading zeros. */
  function NatToString(n: nat): (s: string)
    ensures |s| >= 1 && AllDigits(s)
    ensures |s| == 1 <==> n < 10
  {
    if n < 10 then [DigitChar(n)] else NatToString(n / 10) + [DigitChar(n % 10)]
  }

  /** `String(n)` for any integer. */
  function IntToString(n: int): (s: string)
    ensures |s| >= 1
    ensures n >= 0 ==> AllDigits(s)
    ensures n < 0 ==> s[0] == '-'
  {
    if n >= 0 then NatToString(n) else "-" + NatToString(-n)
  }

  /** Reading a numeral back gives the number it was written from. */
  lemma {:induction false} NatToStringValue(n: nat)
    ensures DigitsValue(NatToString(n)) == n
  {
    if n >= 10 {
      NatToStringValue(n / 10);
      var s := NatToString(n);
      assert s[..|s| - 1] == NatToString(n / 10);
    }
  }

  /** The longest prefix of `s` made of digits. */
  function LeadingDigits(s: string): (ds: string)
    ensures AllDigits(ds) && |ds| <= |s| && ds == s[..|ds|]
    ensures |ds| < |s| ==> !IsDigit(s[|ds|])
  {
    if s != [] && IsDigit(s[0]) then [s[0]] + LeadingDigits(s[1..]) else []
  }

  /** Every year from 1000 to 9999 is written with four digits. */
  lemma NatToStringFourDigits(n: nat)
    requires 1000 <= n <= 9999
    ensures |NatToString(n)| == 4
  {
    assert |NatToString(n / 1000)| == 1;
    assert NatToString(n / 100) == NatToString(n / 1000) + [DigitChar(n / 100 % 10)];
    assert NatToString(n / 10) == NatToString(n / 100) + [DigitChar(n / 10 % 10)];
  }

  /** Numbers below 1000 are written with at most three digits. */
  lemma NatToStringBelowThousand(n: nat)
    requires n < 1000
    ensures |NatToString(n)| <= 3
  {
    if n >= 10 {
      assert |NatToString(n / 10)| <= 2 by {
        if n / 10 >= 10 {
          assert |NatToString(n / 100)| == 1;
        }
      }
    }
  }

  /** A run of digits followed by a non-digit (or by nothing) is exactly what `LeadingDigits` takes. */
  lemma {:induction false} LeadingDigitsOfNumeral(ds: string, rest: string)
    requires AllDigits(ds)
    requires rest == [] || !IsDigit(rest[0])
    ensures LeadingDigits(ds + rest) == ds
  {
    if ds != [] {
      assert (ds + rest)[1..] == ds[1..] + rest;
      LeadingDigitsOfNumeral(ds[1..], rest);
    } else {
      assert ds + rest == rest;
    }
  }

  // ---------------------------------------------------------------------------
  // Trimming

  /** `s.trimStart()`. */
  function TrimStart(s: string): (r: string)
    ensures |r| <= |s| && r == s[|s| - |r|..]
    ensures forall i :: 0 <= i < |s| - |r| ==> IsSpace(s[i])
    ensures r == [] || !IsSpace(r[0])
  {
    if s != [] && IsSpace(s[0]) then TrimStart(s[1..]) else s
  }

  /** `s.trimEnd()`. */
  function TrimEnd(s: string): (r: string)
    ensures |r| <= |s| && r == s[..|r|]
    ensures forall i :: |r| <= i < |s| ==> IsSpace(s[i])
    ensures r == [] || !IsSpace(r[|r| - 1])
  {
    if s != [] && IsSpace(s[|s| - 1]) then TrimEnd(s[..|s| - 1]) else s
  }

  /** `s.trim()`. */
  function Trim(s: string): string {
    TrimEnd(TrimStart(s))
  }

  // ---------------------------------------------------------------------------
  // parseInt

  /** `parseInt(s, 10)`; `None` stands for `NaN`. Leading white space and one sign are skipped, then the
      longest run of decimal digits is read and anything after it is ignored. */
  function ParseInt(s: string): (r: Option<int>)
  {
    var t := TrimStart(s);
    var negative := t != [] && t[0] == '-';
    var body := if t != [] && (t[0] == '-' || t[0] == '+') then t[1..] else t;
    var ds := LeadingDigits(body);
    var v: int := if ds == [] then 0 else DigitsValue(ds);
    if ds == [] then None else Some(if negative then -v else v)
  }

  /** A string that starts with digits parses to their value, whatever follows them. */
  lemma ParseIntOfNumeral(ds: string, rest: string)
    requires ds != [] && AllDigits(ds)
    requires rest == [] || !IsDigit(rest[0])
    ensures ParseInt(ds + rest) == Some(DigitsValue(ds))
  {
    NumeralStart(ds, rest);
  }

  /** A string that starts with digits has no white space or sign to skip, and its leading digits are
      `ds`. */
  lemma NumeralStart(ds: string, rest: string)
    requires ds != [] && AllDigits(ds)
    requires rest == [] || !IsDigit(rest[0])
    ensures TrimStart(ds + rest) == ds + rest && IsDigit((ds + rest)[0])
    ensures LeadingDigits(ds + rest) == ds
  {
    var s := ds + rest;
    assert s[0] == ds[0];
    TrimStartOfDigit(s);
    LeadingDigitsOfNumeral(ds, rest);
  }

  /** A string that starts with a digit has no white space to skip. */
  lemma TrimStartOfDigit(s: string)
    requires s != [] && IsDigit(s[0])
    ensures TrimStart(s) == s
  {
    assert !IsSpace(s[0]);
  }

  /** `parseInt` yields `NaN` exactly when no digit follows the leading white space and optional sign. */
  lemma ParseIntNaN(s: string)
    ensures var t := TrimStart(s);
            var body := if t != [] && (t[0] == '-' || t[0] == '+') then t[1..] else t;
            ParseInt(s).None? <==> (body == [] || !IsDigit(body[0]))
  {
  }

  /** `parseInt(String(n), 10) == n`, even with a non-digit suffix such as `"T00:00:00"`. */
  lemma ParseIntOfNatToString(n: nat, rest: string)
    requires rest == [] || !IsDigit(rest[0])
    ensures ParseInt(NatToString(n) + rest) == Some(n)
  {
    ParseIntOfNumeral(NatToString(n), rest);
    NatToStringValue(n);
  }

  // ---------------------------------------------------------------------------
  // Splitting

  predicate IsDateSeparator(c: char) {
    c == '-' || c == '/'
  }

  function CountSeparators(s: string): nat {
    if s == [] then 0 else (if IsDateSeparator(s[0]) then 1 else 0) + CountSeparators(s[1..])
  }

  function RemoveSeparators(s: string): string {
    if s == [] then [] else (if IsDateSeparator(s[0]) then [] else [s[0]]) + RemoveSeparators(s[1..])
  }

  function Concat(parts: seq<string>): string {
    if parts == [] then [] else parts[0] + Concat(parts[1..])
  }

  /** `s.split(/[-/]/)`: the pieces between the `-` and `/` characters, empty pieces included. */
  function SplitDate(s: string): (parts: seq<string>)
    ensures |parts| >= 1
  {
    if s == [] then [[]]
    else if IsDateSeparator(s[0]) then [[]] + SplitDate(s[1..])
    else var rest := SplitDate(s[1..]); [[s[0]] + rest[0]] + rest[1..]
  }

  /** Splitting yields one more piece than there are separators, no piece holds a separator, and the pieces
      put back together are the input without its separators. */
  lemma {:induction false} SplitDateParts(s: string)
    ensures |SplitDate(s)| == CountSeparators(s) + 1
    ensures forall k, i :: 0 <= k < |SplitDate(s)| && 0 <= i < |SplitDate(s)[k]| ==> !IsDateSeparator(SplitDate(s)[k][i])
    ensures Concat(SplitDate(s)) == RemoveSeparators(s)
  {
    if s != [] {
      SplitDateParts(s[1..]);
      var rest := SplitDate(s[1..]);
      if IsDateSeparator(s[0]) {
        assert SplitDate(s)[1..] == rest;
      } else {
        var parts := SplitDate(s);
        assert parts[1..] == rest[1..];
        assert Concat(rest) == rest[0] + Concat(rest[1..]);
        forall k, i | 0 <= k < |parts| && 0 <= i < |parts[k]|
          ensures !IsDateSeparator(parts[k][i])
        {
          if k == 0 && i > 0 {
            assert parts[0][i] == rest[0][i - 1];
          } else if k > 0 {
            assert parts[k] == rest[k];
          }
        }
      }
    }
  }

  /** A string with no separator splits into itself alone. */
  lemma {:induction false} SplitDateNoSeparator(s: string)
    requires forall i :: 0 <= i < |s| ==> !IsDateSeparator(s[i])
    ensures SplitDate(s) == [s]
  {
    if s != [] {
      SplitDateNoSeparator(s[1..]);
      assert [s[0]] + s[1..] == s;
    }
  }

  /** Joining three separator-free pieces with separators and splitting again gives the pieces back. */
  lemma SplitDateOfJoin(a: string, sep1: char, b: string, sep2: char, c: string)
    requires IsDateSeparator(sep1) && IsDateSeparator(sep2)
    requires forall i :: 0 <= i < |a| ==> !IsDateSeparator(a[i])
    requires forall i :: 0 <= i < |b| ==> !IsDateSeparator(b[i])
    requires forall i :: 0 <= i < |c| ==> !IsDateSeparator(c[i])
    ensures SplitDate(a + [sep1] + b + [sep2] + c) == [a, b, c]
  {
    SplitDateNoSeparator(c);
    SplitDatePrefix(b, sep2, c, [c]);
    var tail := b + ([sep2] + c);
    assert [b] + [c] == [b, c];
    SplitDatePrefix(a, sep1, tail, [b, c]);
    assert [a] + [b, c] == [a, b, c];
    JoinRegrouped(a, sep1, b, sep2, c);
  }

  lemma JoinRegrouped(a: string, sep1: char, b: string, sep2: char, c: string)
    ensures a + [sep1] + b + [sep2] + c == a + ([sep1] + (b + ([sep2] + c)))
  {
  }

  lemma {:induction false} SplitDatePrefix(a: string, sep: char, rest: string, parts: seq<string>)
    requires IsDateSeparator(sep)
    requires forall i :: 0 <= i < |a| ==> !IsDateSeparator(a[i])
    requires SplitDate(rest) == parts
    ensures SplitDate(a + ([sep] + rest)) == [a] + parts
  {
    if a == [] {
      assert a + ([sep] + rest) == [sep] + rest;
      assert ([sep] + rest)[1..] == rest;
    } else {
      SplitDatePrefix(a[1..], sep, rest, parts);
      assert (a + ([sep] + rest))[1..] == a[1..] + ([sep] + rest);
      assert [a[0]] + a[1..] == a;
    }
  }

  /** `s.split('T')[0]`: everything before the first `T`, or all of `s` when it has none. */
  function BeforeT(s: string): (r: string)
    ensures |r| <= |s| && r == s[..|r|]
    ensures forall i :: 0 <= i < |r| ==> r[i] != 'T'
    ensures |r| < |s| ==> s[|r|] == 'T'
  {
    if s == [] || s[0] == 'T' then [] else [s[0]] + BeforeT(s[1..])
  }

  /** A character absent from a string is absent from every piece it splits into. */
  lemma {:induction false} SplitDateKeepsOut(s: string, c: char)
    requires c !in s
    ensures forall k :: 0 <= k < |SplitDate(s)| ==> c !in SplitDate(s)[k]
  {
    if s != [] {
      assert c !in s[1..] by {
        assert forall i :: 0 <= i < |s| - 1 ==> s[1..][i] == s[i + 1];
      }
      SplitDateKeepsOut(s[1..], c);
      if !IsDateSeparator(s[0]) {
        var rest := SplitDate(s[1..]);
        assert SplitDate(s) == [[s[0]] + rest[0]] + rest[1..];
        forall k | 0 <= k < |SplitDate(s)|
          ensures c !in SplitDate(s)[k]
        {
          if k > 0 {
            assert SplitDate(s)[k] == rest[k];
          }
        }
      }
    }
  }

  /** A string without `T` is its own date part, and so is one that a `T` (or nothing) follows. */
  lemma {:induction false} BeforeTOfPrefix(s: string, suffix: string)
    requires 'T' !in s
    requires suffix == [] || suffix[0] == 'T'
    ensures BeforeT(s + suffix) == s
  {
    if s != [] {
      assert (s + suffix)[1..] == s[1..] + suffix;
      assert 'T' !in s[1..] by {
        assert forall i :: 0 <= i < |s| - 1 ==> s[1..][i] == s[i + 1];
      }
      BeforeTOfPrefix(s[1..], suffix);
      assert [s[0]] + s[1..] == s;
    } else {
      assert s + suffix == suffix;
    }
  }

  // ---------------------------------------------------------------------------
  // Padding, case, search, replacement

  /** `s.padStart(2, '0')`. */
  function Pad2(s: string): (r: string)
    ensures |r| == if |s| >= 2 then |s| else 2
    ensures r[|r| - |s|..] == s
    ensures forall i :: 0 <= i < |r| - |s| ==> r[i] == '0'
  {
    if |s| >= 2 then s else if |s| == 1 then "0" + s else "00"
  }

  /** `String(n).padStart(2, '0')`. */
  function TwoDigits(n: nat): (s: string)
    ensures AllDigits(s) && |s| >= 2
    ensures n < 100 ==> |s| == 2
  {
    Pad2(NatToString(n))
  }

  /** Zero padding does not change the value of a numeral. */
  lemma TwoDigitsValue(n: nat)
    ensures DigitsValue(TwoDigits(n)) == n
  {
    var s := NatToString(n);
    NatToStringValue(n);
    if |s| == 1 {
      assert TwoDigits(n)[..1] == "0";
    }
  }

  function LowerChar(c: char): char {
    if 'A' <= c <= 'Z' then (c as int + 32) as char else c
  }

  /** `s.toLowerCase()` on the Latin capitals; other characters are kept. */
  function ToLower(s: string): (r: string)
    ensures |r| == |s|
    ensures forall i :: 0 <= i < |s| ==> r[i] == LowerChar(s[i])
  {
    if s == [] then [] else [LowerChar(s[0])] + ToLower(s[1..])
  }

  /** Lower-casing twice is lower-casing once. */
  lemma ToLowerIdempotent(s: string)
    ensures ToLower(ToLower(s)) == ToLower(s)
  {
    assert forall i :: 0 <= i < |s| ==> LowerChar(LowerChar(s[i])) == LowerChar(s[i]);
  }

  /** `s.startsWith(prefix)`. */
  predicate StartsWith(s: string, prefix: string) {
    |prefix| <= |s| && s[..|prefix|] == prefix
  }

  predicate OccursAt(hay: string, needle: string, i: nat) {
    i + |needle| <= |hay| && hay[i..i + |needle|] == needle
  }

  /** `hay.includes(needle)`. */
  predicate Contains(hay: string, needle: string) {
    exists i: nat :: i <= |hay| && OccursAt(hay, needle, i)
  }

  /** `s.replace(/from/g, to)` for a single-character pattern. */
  function ReplaceAll(s: string, from: char, to: string): (r: string)
    ensures from !in to ==> from !in r
    ensures forall c :: c !in s && c !in to ==> c !in r
  {
    if s == [] then [] else (if s[0] == from then to else [s[0]]) + ReplaceAll(s[1..], from, to)
  }

  /** Replacing a character that does not occur changes nothing. */
  lemma {:induction false} ReplaceAllAbsent(s: string, from: char, to: string)
    requires from !in s
    ensures ReplaceAll(s, from, to) == s
  {
    if s != [] {
      ReplaceAllAbsent(s[1..], from, to);
      assert s == [s[0]] + s[1..];
    }
  }

  /** `s.replace(/[ab]/g, '')`. */
  function RemoveAll(s: string, a: char, b: char): (r: string)
    ensures a !in r && b !in r
    ensures |r| <= |s|
  {
    if s == [] then [] else (if s[0] == a || s[0] == b then [] else [s[0]]) + RemoveAll(s[1..], a, b)
  }

  /** Removing characters that do not occur changes nothing. */
  lemma {:induction false} RemoveAllAbsent(s: string, a: char, b: char)
    requires a !in s && b !in s
    ensures RemoveAll(s, a, b) == s
  {
    if s != [] {
      RemoveAllAbsent(s[1..], a, b);
      assert s == [s[0]] + s[1..];
    }
  }

  /** Trimming a string that neither starts nor ends with white space changes nothing. */
  lemma TrimUnpadded(s: string)
    requires s != [] ==> !IsSpace(s[0]) && !IsSpace(s[|s| - 1])
    ensures Trim(s) == s
  {
  }

  // ---------------------------------------------------------------------------
  // Ordering

  /** `a <= b` on strings: lexicographic order of the characters, a proper prefix first. */
  predicate StrLe(a: string, b: string)
    decreases |a|
  {
    a == [] || (b != [] && (a[0] < b[0] || (a[0] == b[0] && StrLe(a[1..], b[1..]))))
  }

  lemma {:induction false} StrLeReflexive(a: string)
    ensures StrLe(a, a)
  {
    if a != [] {
      StrLeReflexive(a[1..]);
    }
  }

  lemma {:induction false} StrLeTotal(a: string, b: string)
    ensures StrLe(a, b) || StrLe(b, a)
  {
    if a != [] && b != [] && a[0] == b[0] {
      StrLeTotal(a[1..], b[1..]);
    }
  }

  lemma {:induction false} StrLeTransitive(a: string, b: string, c: string)
    requires StrLe(a, b) && StrLe(b, c)
    ensures StrLe(a, c)
  {
    if a != [] && b != [] && c != [] && a[0] == b[0] == c[0] {
      StrLeTransitive(a[1..], b[1..], c[1..]);
    }
  }

  lemma {:induction false} StrLeAntisymmetric(a: string, b: string)
    requires StrLe(a, b) && StrLe(b, a)
    ensures a == b
  {
    if a != [] && b != [] {
      StrLeAntisymmetric(a[1..], b[1..]);
      assert a == [a[0]] + a[1..];
      assert b == [b[0]] + b[1..];
    }
  }
}
