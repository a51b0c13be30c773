/** The parts of Python's `str` behaviour the modelled code relies on:
    whitespace stripping, ASCII case mapping, prefix, suffix and substring
    tests, single-character `split`, and `int()` / `str()` on integers. */
module Strings {
  import opened Wrappers

  /** Python's `str.isspace` set, the characters `strip()` removes. */
  predicate IsSpace(c: char) {
    ('\t' <= c <= '\r') || ('\U{1C}' <= c <= '\U{1F}') || c == ' '
    || c == '\U{85}' || c == '\U{A0}' || c == '\U{1680}'
    || ('\U{2000}' <= c <= '\U{200A}') || c == '\U{2028}' || c == '\U{2029}'
    || c == '\U{202F}' || c == '\U{205F}' || c == '\U{3000}'
  }

  /** `s.lstrip()`: the suffix of `s` left after dropping leading whitespace. */
  function LStrip(s: string): (r: string)
    ensures |r| <= |s|
    ensures |r| > 0 ==> !IsSpace(r[0])
  {
    if |s| > 0 && IsSpace(s[0]) then LStrip(s[1..]) else s
  }

  /** `s.lstrip()` is a suffix of `s`, and what it drops is whitespace. */
  lemma {:induction false} LStripDrops(s: string)
    ensures LStrip(s) == s[|s| - |LStrip(s)|..]
    ensures forall i :: 0 <= i < |s| - |LStrip(s)| ==> IsSpace(s[i])
  {
    if |s| > 0 && IsSpace(s[0]) {
      LStripDrops(s[1..]);
      assert forall i :: 1 <= i < |s| ==> s[i] == s[1..][i - 1];
    }
  }

  /** `s.rstrip()`: the prefix of `s` left after dropping trailing whitespace. */
  function RStrip(s: string): (r: string)
    ensures |r| <= |s|
    ensures |r| > 0 ==> !IsSpace(r[|r| - 1])
  {
    if |s| > 0 && IsSpace(s[|s| - 1]) then RStrip(s[..|s| - 1]) else s
  }

  /** `s.rstrip()` is a prefix of `s`, and what it drops is whitespace. */
  lemma {:induction false} RStripDrops(s: string)
    ensures RStrip(s) == s[..|RStrip(s)|]
    ensures forall i :: |RStrip(s)| <= i < |s| ==> IsSpace(s[i])
  {
    if |s| > 0 && IsSpace(s[|s| - 1]) {
      RStripDrops(s[..|s| - 1]);
    }
  }

  /** `s.strip()`. */
  function Strip(s: string): string {
    RStrip(LStrip(s))
  }

  /** `s.strip()` starts and ends with a character that is not whitespace. */
  lemma StripEnds(s: string)
    ensures var r := Strip(s); |r| > 0 ==> !IsSpace(r[0]) && !IsSpace(r[|r| - 1])
  {
    RStripDrops(LStrip(s));
  }

  /** `s.strip()` is empty exactly when `s` is all whitespace. */
  lemma StripBlank(s: string)
    ensures (forall i :: 0 <= i < |s| ==> IsSpace(s[i])) <==> Strip(s) == ""
  {
    var l := LStrip(s);
    LStripDrops(s);
    RStripDrops(l);
  }

  /** `s.lstrip(c)` for one character. */
  function LStripChar(s: string, c: char): (r: string)
    ensures |r| <= |s|
    ensures |r| > 0 ==> r[0] != c
  {
    if |s| > 0 && s[0] == c then LStripChar(s[1..], c) else s
  }

  /** `s.lstrip(c)` is a suffix of `s`, and what it drops is `c`. */
  lemma {:induction false} LStripCharDrops(s: string, c: char)
    ensures LStripChar(s, c) == s[|s| - |LStripChar(s, c)|..]
    ensures forall i :: 0 <= i < |s| - |LStripChar(s, c)| ==> s[i] == c
  {
    if |s| > 0 && s[0] == c {
      LStripCharDrops(s[1..], c);
      assert forall i :: 1 <= i < |s| ==> s[i] == s[1..][i - 1];
    }
  }

  function LowerChar(c: char): char {
    if 'A' <= c <= 'Z' then (c as int + 32) as char else c
  }

  function UpperChar(c: char): char {
    if 'a' <= c <= 'z' then (c as int - 32) as char else c
  }

  /** `s.lower()` on ASCII letters. */
  function Lower(s: string): (r: string)
    ensures |r| == |s|
    ensures forall i :: 0 <= i < |s| ==> r[i] == LowerChar(s[i])
  {
    if s == "" then "" else [LowerChar(s[0])] + Lower(s[1..])
  }

  /** `s.upper()` on ASCII letters. */
  function Upper(s: string): (r: string)
    ensures |r| == |s|
    ensures forall i :: 0 <= i < |s| ==> r[i] == UpperChar(s[i])
  {
    if s == "" then "" else [UpperChar(s[0])] + Upper(s[1..])
  }

  /** Lower-casing works character by character, so it distributes over
      concatenation. */
  lemma LowerConcat(a: string, b: string)
    ensures Lower(a + b) == Lower(a) + Lower(b)
  {
    var l := Lower(a + b);
    assert forall i :: 0 <= i < |a| ==> l[i] == LowerChar(a[i]);
    assert forall i :: |a| <= i < |l| ==> l[i] == LowerChar(b[i - |a|]);
  }

  /** Lower-casing twice is lower-casing once. */
  lemma LowerIdempotent(s: string)
    ensures Lower(Lower(s)) == Lower(s)
  {
    var l := Lower(s);
    assert forall i :: 0 <= i < |s| ==> Lower(l)[i] == LowerChar(LowerChar(s[i]));
  }

  predicate StartsWith(s: string, p: string) {
    |p| <= |s| && s[..|p|] == p
  }

  predicate EndsWith(s: string, p: string) {
    |p| <= |s| && s[|s| - |p|..] == p
  }

  /** Lower-cased, a text ends with what was appended to it, lower-cased. */
  lemma LowerEndsWith(path: string, ext: string)
    ensures EndsWith(Lower(path + ext), Lower(ext))
  {
    LowerConcat(path, ext);
    var l := Lower(path) + Lower(ext);
    assert l[|l| - |Lower(ext)|..] == Lower(ext);
  }

  /** Python's substring test `sub in s`. */
  predicate Contains(s: string, sub: string)
    decreases |s|
  {
    StartsWith(s, sub) || (|s| > 0 && Contains(s[1..], sub))
  }

  predicate OccursAt(s: string, sub: string, i: int) {
    0 <= i <= |s| - |sub| && s[i..i + |sub|] == sub
  }

  /** `sub in s` holds exactly when `sub` occurs at some position of `s`. */
  lemma {:induction false} ContainsIff(s: string, sub: string)
    ensures Contains(s, sub) <==> exists i :: OccursAt(s, sub, i)
    decreases |s|
  {
    if StartsWith(s, sub) {
      assert OccursAt(s, sub, 0);
    } else if |s| > 0 {
      ContainsIff(s[1..], sub);
      if Contains(s[1..], sub) {
        var i :| OccursAt(s[1..], sub, i);
        assert s[1..][i..i + |sub|] == s[i + 1..i + 1 + |sub|];
        assert OccursAt(s, sub, i + 1);
      }
      if exists i :: OccursAt(s, sub, i) {
        var i :| OccursAt(s, sub, i);
        assert i != 0;
        assert s[1..][i - 1..i - 1 + |sub|] == s[i..i + |sub|];
        assert OccursAt(s[1..], sub, i - 1);
      }
    } else {
      assert forall i :: !OccursAt(s, sub, i);
    }
  }

  /** Index of the first occurrence of `c` in `s`. */
  function IndexOf(s: string, c: char): (i: nat)
    requires c in s
    ensures i < |s| && s[i] == c && c !in s[..i]
  {
    if s[0] == c then 0 else IndexOf(s[1..], c) + 1
  }

  /** `s.split(c)` for a one-character separator. */
  function Split(s: string, c: char): (r: seq<string>)
    ensures |r| >= 1
    ensures c !in s ==> r == [s]
    decreases |s|
  {
    if c !in s then [s]
    else
      var i := IndexOf(s, c);
      [s[..i]] + Split(s[i + 1..], c)
  }

  /** No part of a split holds the separator. */
  lemma {:induction false} SplitPartsFree(s: string, c: char)
    ensures forall i :: 0 <= i < |Split(s, c)| ==> c !in Split(s, c)[i]
    decreases |s|
  {
    if c in s {
      var k := IndexOf(s, c);
      SplitPartsFree(s[k + 1..], c);
      var rest := Split(s[k + 1..], c);
      assert Split(s, c) == [s[..k]] + rest;
    }
  }

  /** `sep.join(parts)` for a one-character separator. */
  function Join(parts: seq<string>, c: char): string
    requires |parts| >= 1
  {
    if |parts| == 1 then parts[0] else parts[0] + [c] + Join(parts[1..], c)
  }

  /** Splitting on `c` and joining back with `c` gives the original string. */
  lemma {:induction false} JoinSplit(s: string, c: char)
    ensures Join(Split(s, c), c) == s
    decreases |s|
  {
    if c in s {
      var i := IndexOf(s, c);
      JoinSplit(s[i + 1..], c);
      assert s == s[..i] + [c] + s[i + 1..];
    }
  }

  /** Splitting text that starts with a separator-free field `x` and the
      separator gives `x` followed by the split of the rest. */
  lemma SplitAfter(x: string, rest: string, c: char)
    requires c !in x
    ensures Split(x + [c] + rest, c) == [x] + Split(rest, c)
  {
    var s := x + [c] + rest;
    assert s[|x|] == c;
    var i := IndexOf(s, c);
    assert i == |x|;
    assert s[..i] == x;
    assert s[i + 1..] == rest;
  }

  /** Python's `s.split(c, 1)[1]` when `c in s`: the text after the first `c`. */
  function AfterFirst(s: string, c: char): (r: string)
    requires c in s
    ensures exists i :: 0 <= i < |s| && s[i] == c && c !in s[..i] && r == s[i + 1..]
  {
    s[IndexOf(s, c) + 1..]
  }

  // ---------------------------------------------------------------------
  // Integers and their text

  function DigitValue(c: char): (d: int)
    ensures IsHexDigit(c) ==> 0 <= d < 16
    ensures IsDigit(c) ==> d < 10
  {
    if '0' <= c <= '9' then c as int - '0' as int
    else if 'a' <= c <= 'f' then c as int - 'a' as int + 10
    else if 'A' <= c <= 'F' then c as int - 'A' as int + 10
    else 0
  }

  predicate IsDigit(c: char) { '0' <= c <= '9' }

  predicate IsHexDigit(c: char) { '0' <= c <= '9' || 'a' <= c <= 'f' || 'A' <= c <= 'F' }

  predicate IsDigitIn(c: char, base: int) {
    if base == 16 then IsHexDigit(c) else IsDigit(c)
  }

  /** Every character is a digit of the base (checked from the last one,
      the order in which `DigitsValue` reads them). */
  predicate AllDigits(s: string, base: int) {
    s == "" || (IsDigitIn(s[|s| - 1], base) && AllDigits(s[..|s| - 1], base))
  }

  lemma {:induction false} AllDigitsAt(s: string, base: int, i: int)
    requires AllDigits(s, base) && 0 <= i < |s|
    ensures IsDigitIn(s[i], base)
    decreases |s|
  {
    if i < |s| - 1 {
      AllDigitsAt(s[..|s| - 1], base, i);
    }
  }

  /** The value of a run of digits, most significant first. */
  function DigitsValue(s: string, base: int): (v: int)
    requires base == 10 || base == 16
    requires AllDigits(s, base)
    ensures 0 <= v
  {
    if s == "" then 0
    else if base == 16 then DigitsValue(s[..|s| - 1], base) * 16 + DigitValue(s[|s| - 1])
    else DigitsValue(s[..|s| - 1], base) * 10 + DigitValue(s[|s| - 1])
  }

  /** Python's `int(s)` (base 10) and `int(s, 16)` on a string: optional
      surrounding whitespace, an optional sign, then one or more digits. */
  function ParseInt(s: string, base: int): (r: Option<int>)
    requires base == 10 || base == 16
  {
    ParseTrimmed(Strip(s), base)
  }

  /** `int` on text already stripped of surrounding whitespace. */
  function ParseTrimmed(t: string, base: int): (r: Option<int>)
    requires base == 10 || base == 16
  {
    if t == "" then None
    else
      var neg := t[0] == '-';
      var body := if t[0] == '-' || t[0] == '+' then t[1..] else t;
      if body == "" || !AllDigits(body, base) then None
      else Some(if neg then -DigitsValue(body, base) else DigitsValue(body, base))
  }

  function DecimalDigit(d: int): char
    requires 0 <= d < 10
  {
    ('0' as int + d) as char
  }

  function NatToString(n: nat): (r: string)
    ensures |r| >= 1 && AllDigits(r, 10)
  {
    if n < 10 then [DecimalDigit(n)] else NatToString(n / 10) + [DecimalDigit(n % 10)]
  }

  /** Python's `str(n)` / f-string rendering of an integer. */
  function IntToString(n: int): (r: string)
    ensures |r| >= 1
  {
    if n < 0 then "-" + NatToString(-n) else NatToString(n)
  }

  lemma {:induction false} NatToStringValue(n: nat)
    ensures DigitsValue(NatToString(n), 10) == n
  {
    if n >= 10 {
      NatToStringValue(n / 10);
      var s := NatToString(n);
      assert s[..|s| - 1] == NatToString(n / 10);
    }
  }

  /** A string with no whitespace at either end is its own `strip()`. */
  lemma StripTrimmed(s: string)
    requires |s| > 0 ==> !IsSpace(s[0]) && !IsSpace(s[|s| - 1])
    ensures Strip(s) == s
  {
    assert LStrip(s) == s;
    assert RStrip(s) == s;
  }

  lemma NoSpaceDigits(s: string, base: int)
    requires AllDigits(s, base) && (base == 10 || base == 16)
    ensures Strip(s) == s
  {
    if |s| > 0 {
      AllDigitsAt(s, base, 0);
    }
    StripTrimmed(s);
  }

  /** A non-empty run of digits parses to its value. */
  lemma ParseDigits(s: string, base: int)
    requires base == 10 || base == 16
    requires |s| > 0 && AllDigits(s, base)
    ensures ParseInt(s, base) == Some(DigitsValue(s, base))
  {
    NoSpaceDigits(s, base);
    DigitsTrimmed(s, base);
  }

  lemma DigitsTrimmed(s: string, base: int)
    requires base == 10 || base == 16
    requires |s| > 0 && AllDigits(s, base)
    ensures ParseTrimmed(s, base) == Some(DigitsValue(s, base))
  {
    AllDigitsAt(s, base, 0);
  }

  /** A minus sign before a non-empty run of decimal digits negates its value. */
  lemma ParseNegative(s: string)
    requires |s| > 1 && s[0] == '-' && AllDigits(s[1..], 10)
    ensures ParseInt(s, 10) == Some(-DigitsValue(s[1..], 10))
  {
    assert Strip(s) == s by {
      assert IsDigitIn(s[1..][|s| - 2], 10);
      StripTrimmed(s);
    }
  }

  lemma NegativeRoundTrip(n: int)
    requires n < 0
    ensures ParseInt(IntToString(n), 10) == Some(n)
  {
    var m: nat := -n;
    var s := IntToString(n);
    assert s == "-" + NatToString(m);
    assert s[1..] == NatToString(m);
    NatToStringValue(m);
    ParseNegative(s);
  }

  /** `str(n)` consists of digits and a leading minus sign only. */
  lemma IntToStringChars(n: int, c: char)
    requires !IsDigit(c) && c != '-'
    ensures c !in IntToString(n)
  {
    if n < 0 {
      var m: nat := -n;
      assert IntToString(n) == "-" + NatToString(m);
      NoOtherChars(NatToString(m), c);
    } else {
      NoOtherChars(NatToString(n), c);
    }
  }

  lemma NoOtherChars(s: string, c: char)
    requires AllDigits(s, 10) && !IsDigit(c)
    ensures c !in s
  {
    if c in s {
      var i :| 0 <= i < |s| && s[i] == c;
      AllDigitsAt(s, 10, i);
    }
  }

  /** `int(str(n)) == n`. */
  lemma IntToStringRoundTrip(n: int)
    ensures ParseInt(IntToString(n), 10) == Some(n)
  {
    if n < 0 {
      NegativeRoundTrip(n);
    } else {
      NatToStringValue(n);
      ParseDigits(NatToString(n), 10);
    }
  }

  function HexDigitChar(d: int): char
    requires 0 <= d < 16
  {
    if d < 10 then ('0' as int + d) as char else ('a' as int + d - 10) as char
  }

  /** Lower-case hexadecimal digits of `n`, without leading zeros. */
  function NatToHex(n: nat): (r: string)
    ensures |r| >= 1 && AllDigits(r, 16)
    ensures n < 16 ==> |r| == 1
    ensures 16 <= n < 256 ==> |r| == 2
  {
    if n < 16 then [HexDigitChar(n)] else NatToHex(n / 16) + [HexDigitChar(n % 16)]
  }

  /** Python's `f"{n:02x}"`: lower-case hex, zero-padded after any sign to width 2. */
  function Hex02(n: int): (r: string)
    ensures 0 <= n < 256 ==> |r| == 2 && AllDigits(r, 16)
  {
    if n < 0 then "-" + NatToHex(-n)
    else if n < 16 then "0" + NatToHex(n)
    else NatToHex(n)
  }

  lemma {:induction false} NatToHexValue(n: nat)
    ensures DigitsValue(NatToHex(n), 16) == n
  {
    if n >= 16 {
      NatToHexValue(n / 16);
      var s := NatToHex(n);
      assert s[..|s| - 1] == NatToHex(n / 16);
    }
  }

  /** `int(f"{n:02x}", 16) == n` for every byte value. */
  lemma Hex02RoundTrip(n: int)
    requires 0 <= n < 256
    ensures ParseInt(Hex02(n), 16) == Some(n)
  {
    if n < 16 {
      PaddedHexValue(n);
    } else {
      NatToHexValue(n);
    }
    ParseDigits(Hex02(n), 16);
  }

  /** A leading zero does not change the value of a single hex digit. */
  lemma PaddedHexValue(n: int)
    requires 0 <= n < 16
    ensures DigitsValue(Hex02(n), 16) == n
  {
    var s := Hex02(n);
    assert s == ['0', HexDigitChar(n)];
    assert s[..1] == "0";
    assert DigitsValue(s[..1], 16) == 0 by {
      assert DigitsValue("0"[..0], 16) == 0;
    }
    assert DigitValue(HexDigitChar(n)) == n;
  }
}
