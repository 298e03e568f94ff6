/** Strings as the JavaScript built-ins of the analyzers see them: character
    classes of regular expressions (`\s`, `\d`, `.`), `toLowerCase`, `trim`,
    `includes` and `parseInt`. */
module JsText {
  import opened Wrappers
  import opened Seqs

  /** `\d` */
  predicate IsDigit(c: char) { '0' <= c <= '9' }

  /** `[A-Z]` under the `i` flag. */
  predicate IsLetter(c: char) { 'A' <= c <= 'Z' || 'a' <= c <= 'z' }

  /** The characters `.` does not match without the `s` flag. */
  predicate IsLineTerminator(c: char) {
    c == '\n' || c == '\r' || c == '\U{2028}' || c == '\U{2029}'
  }

  /** The characters `.` matches without the `s` flag. */
  predicate OnLine(c: char) { !IsLineTerminator(c) }

  /** `\s`, which is also the set `String.prototype.trim` removes. */
  predicate IsSpace(c: char) {
    c == ' ' || c == '\t' || c == '\U{000B}' || c == '\U{000C}' || c == '\U{00A0}'
    || c == '\U{FEFF}' || c == '\U{1680}' || '\U{2000}' <= c <= '\U{200A}'
    || c == '\U{202F}' || c == '\U{205F}' || c == '\U{3000}' || IsLineTerminator(c)
  }

  /** Lower-case mapping of the letters that occur in the reply labels and in
      catalog names: ASCII letters and the German umlauts. */
  function Lower(c: char): (r: char)
    ensures IsLetter(c) ==> 'a' <= r <= 'z'
    ensures !IsLetter(c) && c != '\U{00C4}' && c != '\U{00D6}' && c != '\U{00DC}' ==> r == c
  {
    if 'A' <= c <= 'Z' then (c as int + 32) as char
    else if c == '\U{00C4}' then '\U{00E4}'
    else if c == '\U{00D6}' then '\U{00F6}'
    else if c == '\U{00DC}' then '\U{00FC}'
    else c
  }

  /** `s.toLowerCase()` */
  function LowerStr(s: string): (r: string)
    ensures |r| == |s|
    ensures forall i :: 0 <= i < |s| ==> r[i] == Lower(s[i])
  {
    seq(|s|, i requires 0 <= i < |s| => Lower(s[i]))
  }

  /** Case-insensitive equality of two names, `a.toLowerCase() === b.toLowerCase()`. */
  predicate SameName(a: string, b: string) { LowerStr(a) == LowerStr(b) }

  /** Case-insensitive equality, one character at a time (the `i` flag of a
      regular expression applied to a literal). */
  predicate EqualFold(a: string, b: string)
    decreases |a|
  {
    |a| == |b| && (a == [] || (Lower(a[0]) == Lower(b[0]) && EqualFold(a[1..], b[1..])))
  }

  /** Comparing character by character is comparing the lower-cased strings. */
  lemma {:induction false} EqualFoldIsSameName(a: string, b: string)
    ensures EqualFold(a, b) <==> SameName(a, b)
    decreases |a|
  {
    if |a| == |b| && a != [] {
      EqualFoldIsSameName(a[1..], b[1..]);
      assert LowerStr(a) == [Lower(a[0])] + LowerStr(a[1..]);
      assert LowerStr(b) == [Lower(b[0])] + LowerStr(b[1..]);
    }
  }

  /** `s.includes(p)`: `p` occurs in `s` at some position. */
  predicate Contains(s: string, p: string)
    decreases |s|
  {
    p <= s || (s != [] && Contains(s[1..], p))
  }

  lemma {:induction false} ContainsAt(s: string, p: string, i: nat)
    requires i + |p| <= |s| && s[i..i + |p|] == p
    ensures Contains(s, p)
    decreases i
  {
    if i > 0 {
      assert s[1..][i - 1..i - 1 + |p|] == s[i..i + |p|];
      ContainsAt(s[1..], p, i - 1);
    }
  }

  /** Every string contains the empty string and itself. */
  lemma ContainsEmptyAndSelf(s: string)
    ensures Contains(s, []) && Contains(s, s)
  {
  }

  /** `s.trimStart()` */
  function TrimStart(s: string): (r: string)
    ensures |r| <= |s| && r == s[|s| - |r|..]
    ensures r == [] || !IsSpace(r[0])
    ensures forall i :: 0 <= i < |s| - |r| ==> IsSpace(s[i])
  {
    if s != [] && IsSpace(s[0]) then TrimStart(s[1..]) else s
  }

  /** `s.trimEnd()` */
  function TrimEnd(s: string): (r: string)
    ensures |r| <= |s| && r == s[..|r|]
    ensures r == [] || !IsSpace(r[|r| - 1])
    ensures forall i :: |r| <= i < |s| ==> IsSpace(s[i])
  {
    if s != [] && IsSpace(s[|s| - 1]) then TrimEnd(s[..|s| - 1]) else s
  }

  /** No white space at either end. */
  predicate Trimmed(t: string) {
    t == [] || (!IsSpace(t[0]) && !IsSpace(t[|t| - 1]))
  }

  /** `s.trim()`: the white space at both ends removed. */
  function Trim(s: string): (r: string)
    ensures |r| <= |s|
    ensures Trimmed(r)
  {
    var t := TrimStart(s);
    var u := TrimEnd(t);
    assert u != [] ==> u[0] == t[0];
    u
  }

  /** Cutting a prefix and then a suffix of elements that satisfy `p`
      leaves a slice, with only such elements cut off around it. */
  lemma CutBothEnds<T>(s: seq<T>, t: seq<T>, u: seq<T>, p: T -> bool)
    requires |t| <= |s| && t == s[|s| - |t|..]
    requires forall i :: 0 <= i < |s| - |t| ==> p(s[i])
    requires |u| <= |t| && u == t[..|u|]
    requires forall i :: |u| <= i < |t| ==> p(t[i])
    ensures var a := |s| - |t|;
      a + |u| <= |s| && u == s[a..a + |u|]
      && (forall i :: 0 <= i < a ==> p(s[i]))
      && (forall i :: a + |u| <= i < |s| ==> p(s[i]))
  {
    var a := |s| - |t|;
    forall i | a + |u| <= i < |s| ensures p(s[i]) {
      assert s[i] == t[i - a];
    }
  }

  /** What `trim` leaves is the slice of `s` that starts where the leading
      white space ends, and everything cut off at either end is white
      space. */
  lemma TrimSlice(s: string)
    ensures var a := |s| - |TrimStart(s)|; var r := Trim(s);
      a + |r| <= |s| && r == s[a..a + |r|]
      && (forall i :: 0 <= i < a ==> IsSpace(s[i]))
      && (forall i :: a + |r| <= i < |s| ==> IsSpace(s[i]))
  {
    var t := TrimStart(s);
    var u := TrimEnd(t);
    CutBothEnds(s, t, u, IsSpace);
    assert Trim(s) == u;
  }

  /** A slice keeps a property that every element of the whole has. */
  lemma SliceKeeps<T>(s: seq<T>, a: nat, r: seq<T>, p: T -> bool)
    requires a + |r| <= |s| && r == s[a..a + |r|]
    requires forall k :: 0 <= k < |s| ==> p(s[k])
    ensures forall k :: 0 <= k < |r| ==> p(r[k])
  {
    forall k | 0 <= k < |r| ensures p(r[k]) {
      assert r[k] == s[a + k];
    }
  }

  /** Trimming keeps a property that every character of the input has. */
  lemma TrimKeeps(s: string, p: char -> bool)
    requires forall k :: 0 <= k < |s| ==> p(s[k])
    ensures forall k :: 0 <= k < |Trim(s)| ==> p(Trim(s)[k])
  {
    TrimSlice(s);
    SliceKeeps(s, |s| - |TrimStart(s)|, Trim(s), p);
  }

  /** A string of white space trims to the empty string. */
  lemma {:induction false} TrimSpaces(s: string)
    requires forall i :: 0 <= i < |s| ==> IsSpace(s[i])
    ensures Trim(s) == []
  {
  }

  /** The value of a non-empty run of decimal digits, `parseInt(ds, 10)`. */
  function DigitsValue(ds: string): (n: nat)
    requires forall i :: 0 <= i < |ds| ==> IsDigit(ds[i])
    ensures |ds| == 1 ==> n == ds[0] as int - '0' as int
  {
    if ds == [] then 0
    else
      var last := ds[|ds| - 1];
      assert IsDigit(last);
      DigitsValue(ds[..|ds| - 1]) * 10 + (last as int - '0' as int)
  }

  /** `[\d,]` */
  predicate IsDigitOrComma(c: char) { IsDigit(c) || c == ',' }

  /** Not a comma. */
  predicate NotComma(c: char) { c != ',' }

  /** `s.replace(/,/g, '')`: the characters of `s` other than commas, in order. */
  function StripCommas(s: string): (r: string)
    ensures r == Filter(s, NotComma)
    ensures forall i :: 0 <= i < |r| ==> r[i] != ','
    ensures (forall i :: 0 <= i < |s| ==> IsDigitOrComma(s[i])) ==> forall i :: 0 <= i < |r| ==> IsDigit(r[i])
  {
    if s == [] then []
    else
      FilterCons(s, NotComma);
      (if s[0] == ',' then [] else [s[0]]) + StripCommas(s[1..])
  }

  /** `s.replace(/[^\d]/g, '')`: the digits of `s`, in order. */
  function OnlyDigits(s: string): (r: string)
    ensures r == Filter(s, IsDigit)
    ensures forall i :: 0 <= i < |r| ==> IsDigit(r[i])
  {
    if s == [] then []
    else
      FilterCons(s, IsDigit);
      (if IsDigit(s[0]) then [s[0]] else []) + OnlyDigits(s[1..])
  }

  /** A text of digits only is left as it is. */
  lemma OnlyDigitsKeepsDigits(s: string)
    requires forall i :: 0 <= i < |s| ==> IsDigit(s[i])
    ensures OnlyDigits(s) == s
  {
    FilterAll(s, IsDigit);
  }

  /** End of the maximal run of characters satisfying `p` that starts at `i`. */
  function RunEnd(s: string, i: nat, p: char -> bool): (r: nat)
    requires i <= |s|
    ensures i <= r <= |s|
    ensures forall k :: i <= k < r ==> p(s[k])
    ensures r == |s| || !p(s[r])
    decreases |s| - i
  {
    if i < |s| && p(s[i]) then RunEnd(s, i + 1, p) else i
  }

  /** End of the white space run starting at `i` (a greedy `\s*`). */
  function SpaceEnd(s: string, i: nat): (r: nat)
    requires i <= |s|
    ensures i <= r <= |s|
    ensures forall k :: i <= k < r ==> IsSpace(s[k])
    ensures r == |s| || !IsSpace(s[r])
  {
    RunEnd(s, i, IsSpace)
  }

  /** End of the digit run starting at `i` (a greedy `\d*`). */
  function DigitEnd(s: string, i: nat): (r: nat)
    requires i <= |s|
    ensures i <= r <= |s|
    ensures forall k :: i <= k < r ==> IsDigit(s[k])
    ensures r == |s| || !IsDigit(s[r])
  {
    RunEnd(s, i, IsDigit)
  }

  /** The first line terminator at or after `i`, or the end of `s`: where a
      greedy `.+` that starts at `i` stops. */
  function LineEnd(s: string, i: nat): (r: nat)
    requires i <= |s|
    ensures i <= r <= |s|
    ensures forall k :: i <= k < r ==> !IsLineTerminator(s[k])
    ensures r == |s| || IsLineTerminator(s[r])
  {
    RunEnd(s, i, c => !IsLineTerminator(c))
  }

  /** Where the digits of `parseInt` start in the trimmed text `t`: after
      an optional sign. */
  function SignEnd(t: string): (b: nat)
    ensures b <= |t| && (b == 1 <==> t != [] && (t[0] == '-' || t[0] == '+'))
  {
    if t != [] && (t[0] == '-' || t[0] == '+') then 1 else 0
  }

  /** `[0-9A-Fa-f]` */
  predicate IsHexDigit(c: char) { IsDigit(c) || 'a' <= c <= 'f' || 'A' <= c <= 'F' }

  /** The value of one hexadecimal digit. */
  function HexDigit(c: char): (v: nat)
    requires IsHexDigit(c)
    ensures v < 16
  {
    if IsDigit(c) then c as int - '0' as int
    else if 'a' <= c <= 'f' then c as int - 'a' as int + 10
    else c as int - 'A' as int + 10
  }

  /** The value of a run of hexadecimal digits, `parseInt(hs, 16)`. */
  function HexValue(hs: string): (n: nat)
    requires forall i :: 0 <= i < |hs| ==> IsHexDigit(hs[i])
    ensures |hs| == 1 ==> n == HexDigit(hs[0])
  {
    if hs == [] then 0
    else
      var last := hs[|hs| - 1];
      assert IsHexDigit(last);
      HexValue(hs[..|hs| - 1]) * 16 + HexDigit(last)
  }

  /** `parseInt` without a radix reads `0x` or `0X` at position `b` as the
      prefix of a hexadecimal number. */
  predicate HexPrefixAt(t: string, b: nat) {
    b + 2 <= |t| && t[b] == '0' && (t[b + 1] == 'x' || t[b + 1] == 'X')
  }

  /** End of the hexadecimal digit run starting at `i`. */
  function HexEnd(t: string, i: nat): (r: nat)
    requires i <= |t|
    ensures i <= r <= |t|
    ensures forall k :: i <= k < r ==> IsHexDigit(t[k])
    ensures r == |t| || !IsHexDigit(t[r])
  {
    RunEnd(t, i, IsHexDigit)
  }

  /** `v`, negated when `t` starts with a minus sign before position `b`. */
  function Signed(t: string, b: nat, v: nat): (r: int)
    requires b <= |t|
    ensures r == v || r + v == 0
    ensures r < 0 <==> b == 1 && t[0] == '-' && v > 0
  {
    if b == 1 && t[0] == '-' then 0 - v else v
  }

  /** The value of the decimal digit run `t[b..e]`, negated after a minus sign. */
  function SignedDigits(t: string, b: nat, e: nat): int
    requires b < e <= |t| && forall k :: b <= k < e ==> IsDigit(t[k])
  {
    var ds := t[b..e];
    assert forall k :: 0 <= k < |ds| ==> IsDigit(ds[k]) by {
      forall k | 0 <= k < |ds| ensures IsDigit(ds[k]) {
        assert ds[k] == t[b + k];
      }
    }
    Signed(t, b, DigitsValue(ds))
  }

  /** The value of the hexadecimal digit run `t[b..e]`, negated after a
      minus sign before position `sign`. */
  function SignedHex(t: string, sign: nat, b: nat, e: nat): int
    requires sign <= b < e <= |t| && forall k :: b <= k < e ==> IsHexDigit(t[k])
  {
    var hs := t[b..e];
    assert forall k :: 0 <= k < |hs| ==> IsHexDigit(hs[k]) by {
      forall k | 0 <= k < |hs| ensures IsHexDigit(hs[k]) {
        assert hs[k] == t[b + k];
      }
    }
    Signed(t, sign, HexValue(hs))
  }

  /** `parseInt` on text whose leading white space is already removed: after
      the sign, `0x` selects hexadecimal digits, anything else decimal ones;
      no digit at all is `NaN`. */
  function ParseTrimmed(t: string): (r: Option<int>)
    ensures var b := SignEnd(t);
      r.None? <==> if HexPrefixAt(t, b) then HexEnd(t, b + 2) == b + 2 else DigitEnd(t, b) == b
  {
    var b := SignEnd(t);
    if HexPrefixAt(t, b) then
      var e := HexEnd(t, b + 2);
      if e == b + 2 then None else Some(SignedHex(t, b, b + 2, e))
    else
      var e := DigitEnd(t, b);
      if e == b then None else Some(SignedDigits(t, b, e))
  }

  /** `parseInt(s)` without a radix: leading white space, an optional sign,
      an optional `0x` prefix and the longest digit run of that base; `None`
      stands for `NaN`. */
  function ParseInt(s: string): (r: Option<int>)
    ensures var t := TrimStart(s); var b := SignEnd(t);
      r.None? <==> if HexPrefixAt(t, b) then HexEnd(t, b + 2) == b + 2 else DigitEnd(t, b) == b
  {
    ParseTrimmed(TrimStart(s))
  }

  /** `parseInt(s) || 0`: `NaN` reads as 0. */
  function ParseIntOrZero(s: string): int {
    ParseInt(s).GetOr(0)
  }

  /** A digit is not white space, so `trimStart` keeps a digit string. */
  lemma TrimStartDigits(ds: string)
    requires ds != [] && IsDigit(ds[0])
    ensures TrimStart(ds) == ds
  {
    assert !IsSpace(ds[0]);
  }

  /** The digit run of a digit string is all of it. */
  lemma DigitEndAll(ds: string)
    requires forall i :: 0 <= i < |ds| ==> IsDigit(ds[i])
    ensures DigitEnd(ds, 0) == |ds|
  {
  }

  /** Without a sign the value is the digit value of the whole string. */
  lemma SignedDigitsWhole(ds: string)
    requires ds != [] && forall i :: 0 <= i < |ds| ==> IsDigit(ds[i])
    ensures SignedDigits(ds, 0, |ds|) == DigitsValue(ds)
  {
    assert ds[0..|ds|] == ds;
  }

  /** An unsigned digit string parses, once trimmed, to its digit value. */
  lemma ParseTrimmedDigits(ds: string)
    requires ds != [] && forall i :: 0 <= i < |ds| ==> IsDigit(ds[i])
    ensures ParseTrimmed(ds) == Some(DigitsValue(ds))
  {
    DigitEndAll(ds);
    SignedDigitsWhole(ds);
    assert SignEnd(ds) == 0;
    assert !HexPrefixAt(ds, 0) by {
      if |ds| >= 2 { assert IsDigit(ds[1]); }
    }
  }

  /** A string of digits parses to its digit value. */
  lemma ParseIntDigits(ds: string)
    requires ds != [] && forall i :: 0 <= i < |ds| ==> IsDigit(ds[i])
    ensures ParseInt(ds) == Some(DigitsValue(ds))
  {
    TrimStartDigits(ds);
    ParseTrimmedDigits(ds);
  }

  /** A run that reaches the end of `s` ends there. */
  lemma {:induction false} RunEndAll(s: string, i: nat, p: char -> bool)
    requires i <= |s| && forall k :: i <= k < |s| ==> p(s[k])
    ensures RunEnd(s, i, p) == |s|
    decreases |s| - i
  {
    if i < |s| {
      RunEndAll(s, i + 1, p);
    }
  }

  /** `0x` followed by hexadecimal digits parses to their value
      (`parseInt("0x1f")` is 31). */
  lemma ParseIntHexDigits(hs: string)
    requires hs != [] && forall i :: 0 <= i < |hs| ==> IsHexDigit(hs[i])
    ensures ParseInt("0x" + hs) == Some(HexValue(hs))
  {
    var t := "0x" + hs;
    assert t[0] == '0' && t[1] == 'x' && t[2..] == hs;
    ParseHexAfter(t, 0, hs);
  }

  /** A minus sign before `0x` negates the hexadecimal value. */
  lemma ParseIntNegativeHexDigits(hs: string)
    requires hs != [] && forall i :: 0 <= i < |hs| ==> IsHexDigit(hs[i])
    ensures ParseInt("-0x" + hs) == Some(0 - HexValue(hs))
  {
    NegativeHexSlice(hs);
    ParseHexAfter("-0x" + hs, 1, hs);
  }

  /** The characters of `"-0x" + hs`. */
  lemma NegativeHexSlice(hs: string)
    ensures var u := "-0x" + hs; |u| >= 3 && u[0] == '-' && u[1] == '0' && u[2] == 'x' && u[3..] == hs
  {
  }

  /** `t` is a sign (when `b` is 1), `0x` and then the hexadecimal digits `hs`. */
  lemma ParseHexAfter(t: string, b: nat, hs: string)
    requires b == SignEnd(t) && HexPrefixAt(t, b) && t[b + 2..] == hs
    requires hs != [] && forall i :: 0 <= i < |hs| ==> IsHexDigit(hs[i])
    ensures ParseInt(t) == Some(Signed(t, b, HexValue(hs)))
  {
    assert !IsSpace(t[0]);
    assert TrimStart(t) == t;
    forall k | b + 2 <= k < |t| ensures IsHexDigit(t[k]) {
      assert t[k] == hs[k - b - 2];
    }
    RunEndAll(t, b + 2, IsHexDigit);
    assert t[b + 2..|t|] == hs;
  }

  /** `0x` without a hexadecimal digit after it is `NaN`, even when decimal
      digits come later. */
  lemma ParseIntHexEmpty(rest: string)
    requires rest == [] || !IsHexDigit(rest[0])
    ensures ParseInt("0x" + rest) == None
  {
    var t := "0x" + rest;
    assert !IsSpace(t[0]);
    assert TrimStart(t) == t;
    assert SignEnd(t) == 0 && HexPrefixAt(t, 0);
  }
}
